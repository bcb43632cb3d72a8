/** How `LoadExternalCategoriesAsync` normalises the categories of the remote
    index: a slug id derived from the name, an absolute file path, the
    synthetic "all" category, and the order by `SortOrder`. */
module CategoryNormalize {
  import opened Seqs
  import opened Strings
  import opened StableSort
  import opened Models

  /** The folder relative category file paths are resolved against. */
  const BasePath: string := Https + "raw.githubusercontent.com/codefrydev/Data/refs/heads/main/Prompt/"

  /** The secure scheme prefix. */
  const Https: string := "https://"

  // ---------------------------------------------------------------------------
  // Slugs

  /** The slug of a category name: trimmed, lower-cased, split on spaces with
      empty pieces dropped, and the pieces joined by hyphens. */
  function Slug(name: string): (r: string)
    ensures ' ' !in r
    ensures !IsBlank(name) ==> |r| > 0 && !IsWhiteSpace(r[0]) && !IsWhiteSpace(r[|r| - 1])
  {
    var t := ToLower(Trim(name));
    JoinChars("-", SplitNonEmpty(t, ' '), ' ');
    if !IsBlank(name) then
      ToLowerFacts(Trim(name));
      assert !IsWhiteSpace(t[0]) && !IsWhiteSpace(t[|t| - 1]);
      HyphenJoinFirst(t);
      HyphenJoinLast(t);
      Join("-", SplitNonEmpty(t, ' '))
    else
      Join("-", SplitNonEmpty(t, ' '))
  }

  /** A slug holds no space and no ASCII capital; the slug of a non-blank name
      is non-empty and neither starts nor ends with white space. */
  lemma {:induction false} SlugWellFormed(name: string)
    ensures ' ' !in Slug(name)
    ensures forall i | 0 <= i < |Slug(name)| :: !('A' <= Slug(name)[i] <= 'Z')
    ensures !IsBlank(name) ==> |Slug(name)| > 0 && !IsWhiteSpace(Slug(name)[0])
                               && !IsWhiteSpace(Slug(name)[|Slug(name)| - 1])
  {
    SlugLower(name);
  }

  /** The slug has no ASCII capital, because every character of it is a hyphen
      or comes from the lower-cased name. */
  lemma {:induction false} SlugLower(name: string)
    ensures forall i | 0 <= i < |Slug(name)| :: !('A' <= Slug(name)[i] <= 'Z')
  {
    var t := ToLower(Trim(name));
    var parts := SplitAll(t, ' ');
    var pieces := SplitNonEmpty(t, ' ');
    var r := Slug(name);
    ToLowerFacts(Trim(name));
    forall i | 0 <= i < |r|
      ensures !('A' <= r[i] <= 'Z')
    {
      var c := r[i];
      if 'A' <= c <= 'Z' {
        if forall k | 0 <= k < |pieces| :: c !in pieces[k] {
          JoinChars("-", pieces, c);
          assert false;
        }
        var k :| 0 <= k < |pieces| && c in pieces[k];
        var m :| 0 <= m < |parts| && parts[m] == pieces[k];
        JoinContains([' '], parts, m, c);
        assert false;
      }
    }
  }

  /** Re-joining the space-separated words of `t` with hyphens keeps its first character. */
  lemma {:induction false} HyphenJoinFirst(t: string)
    requires |t| > 0 && t[0] != ' '
    ensures |Join("-", SplitNonEmpty(t, ' '))| > 0 && Join("-", SplitNonEmpty(t, ' '))[0] == t[0]
  {
    var parts := SplitAll(t, ' ');
    SplitAllFirst(t, ' ');
    assert parts == [parts[0]] + parts[1..];
    assert SplitNonEmpty(t, ' ')[0] == parts[0];
    JoinFirst("-", SplitNonEmpty(t, ' '));
  }

  /** Re-joining the space-separated words of `t` with hyphens keeps its last character. */
  lemma {:induction false} HyphenJoinLast(t: string)
    requires |t| > 0 && t[|t| - 1] != ' '
    ensures var r := Join("-", SplitNonEmpty(t, ' ')); |r| > 0 && r[|r| - 1] == t[|t| - 1]
  {
    var parts := SplitAll(t, ' ');
    var pieces := SplitNonEmpty(t, ' ');
    SplitAllLast(t, ' ');
    var last := parts[|parts| - 1];
    var init := parts[..|parts| - 1];
    assert parts == init + [last];
    NonEmptySnoc(init, last);
    assert pieces[|pieces| - 1] == last;
    JoinLast("-", pieces);
  }

  /** Taking the slug of a slug changes nothing. */
  lemma {:induction false} SlugIdempotent(name: string)
    requires !IsBlank(name)
    ensures !IsBlank(Slug(name))
    ensures Slug(Slug(name)) == Slug(name)
  {
    var u := Slug(name);
    SlugWellFormed(name);
    TrimOfTrimmed(u);
    ToLowerOfLower(u);
    SplitAllWhole(u, ' ');
    assert NonEmpty([u]) == [u];
  }

  // ---------------------------------------------------------------------------
  // File paths

  /** The path starts with `http://` or `https://`, ignoring case. */
  predicate IsAbsoluteUrl(path: string)
  {
    StartsWithIgnoreCase(path, "http://") || StartsWithIgnoreCase(path, Https)
  }

  /** A non-blank relative path becomes the base folder followed by the path
      without its leading slashes; other paths are kept. */
  function NormalizePath(path: string): (r: string)
    ensures !IsBlank(path) ==> IsAbsoluteUrl(r) && !IsBlank(r)
    ensures IsBlank(path) || IsAbsoluteUrl(path) ==> r == path
  {
    if !IsBlank(path) && !IsAbsoluteUrl(path) then
      UnderBasePath(TrimStartChar(path, '/'));
      BasePath + TrimStartChar(path, '/')
    else path
  }

  /** A path under the base folder is absolute and not blank. */
  lemma {:induction false} UnderBasePath(rest: string)
    ensures IsAbsoluteUrl(BasePath + rest) && !IsBlank(BasePath + rest)
  {
    var r := BasePath + rest;
    assert r == Https + ("raw.githubusercontent.com/codefrydev/Data/refs/heads/main/Prompt/" + rest);
    assert r[..|Https|] == Https;
    assert r[0] == 'h';
  }

  /** Every path that names a file ends up absolute, and normalising twice is
      normalising once. */
  lemma {:induction false} NormalizePathFacts(path: string)
    ensures !IsBlank(path) ==> IsAbsoluteUrl(NormalizePath(path))
    ensures IsBlank(path) || IsAbsoluteUrl(path) ==> NormalizePath(path) == path
    ensures NormalizePath(NormalizePath(path)) == NormalizePath(path)
  {
    UnderBasePath(TrimStartChar(path, '/'));
  }

  // ---------------------------------------------------------------------------
  // Categories

  /** The per-category normalisation: a non-blank name determines the id; the
      file path is made absolute. */
  function NormalizeCategory(c: Category): (r: Category)
    ensures r == c.(id := r.id, filePathName := r.filePathName)
    ensures IsBlank(c.name) ==> r.id == c.id
    ensures !IsBlank(c.name) ==> |r.id| > 0 && ' ' !in r.id
    ensures !IsBlank(c.filePathName) ==> IsAbsoluteUrl(r.filePathName)
    ensures IsBlank(c.filePathName) ==> r.filePathName == c.filePathName
  {
    c.(id := if !IsBlank(c.name) then Slug(c.name) else c.id,
       filePathName := NormalizePath(c.filePathName))
  }

  /** Normalising a normalised category changes nothing. */
  lemma {:induction false} NormalizeCategoryIdempotent(c: Category)
    ensures NormalizeCategory(NormalizeCategory(c)) == NormalizeCategory(c)
    ensures !IsBlank(c.name) ==> NormalizeCategory(c).id == Slug(c.name)
  {
    NormalizePathFacts(c.filePathName);
    if !IsBlank(c.name) {
      SlugIdempotent(c.name);
    }
  }

  /** The synthetic category that lists every prompt. */
  const AllCategory: Category :=
    Category(AllId, "All Prompts", "View all available prompts", "LayoutGrid", "blue", 0, "", 0)

  /** Some category's id is "all", ignoring case. */
  predicate HasAllCategory(cats: seq<Category>)
  {
    exists i | 0 <= i < |cats| :: EqualsIgnoreCase(cats[i].id, AllId)
  }

  /** Puts the synthetic "all" category in front unless one is already there. */
  function InjectAll(cats: seq<Category>): (r: seq<Category>)
    ensures HasAllCategory(r)
    ensures HasAllCategory(cats) ==> r == cats
    ensures !HasAllCategory(cats) ==> r == [AllCategory] + cats
  {
    if HasAllCategory(cats) then cats
    else
      assert EqualsIgnoreCase(([AllCategory] + cats)[0].id, AllId);
      [AllCategory] + cats
  }

  /** Injecting twice is injecting once. */
  lemma {:induction false} InjectAllIdempotent(cats: seq<Category>)
    ensures InjectAll(InjectAll(cats)) == InjectAll(cats)
  {
  }

  /** Ordering categories by ascending `SortOrder`. */
  function BySortOrder(): (Category, Category) -> bool
  {
    (a: Category, b: Category) => a.sortOrder < b.sortOrder
  }

  /** Comparing integer keys is a strict weak order. */
  lemma {:induction false} BySortOrderIsStrictWeak()
    ensures StrictWeakOrder(BySortOrder())
  {
  }

  /** The category list a successful load installs (before counts): each
      fetched category normalised, "all" injected, stably sorted by `SortOrder`. */
  function NormalizeCategories(raw: seq<Category>): (r: seq<Category>)
    ensures HasAllCategory(r)
    ensures Sorted(r, BySortOrder())
    ensures multiset(r) == multiset(InjectAll(seq(|raw|, i requires 0 <= i < |raw| => NormalizeCategory(raw[i]))))
    ensures forall c :: Peers(r, c, BySortOrder()) == Peers(InjectAll(seq(|raw|, i requires 0 <= i < |raw| => NormalizeCategory(raw[i]))), c, BySortOrder())
  {
    var injected := InjectAll(seq(|raw|, i requires 0 <= i < |raw| => NormalizeCategory(raw[i])));
    BySortOrderIsStrictWeak();
    var r := Sort(injected, BySortOrder());
    assert HasAllCategory(r) by {
      var i :| 0 <= i < |injected| && EqualsIgnoreCase(injected[i].id, AllId);
      assert injected[i] in multiset(r);
      var j :| 0 <= j < |r| && r[j] == injected[i];
    }
    r
  }

  /** Every fetched category is installed in its normalised form. */
  lemma {:induction false} NormalizeCategoriesMembers(raw: seq<Category>, i: nat)
    requires i < |raw|
    ensures NormalizeCategory(raw[i]) in NormalizeCategories(raw)
  {
    var normalized := seq(|raw|, k requires 0 <= k < |raw| => NormalizeCategory(raw[k]));
    assert normalized[i] in InjectAll(normalized);
    assert normalized[i] in multiset(NormalizeCategories(raw));
  }
}
