/** Loading the remote catalog into the state: the category index, the prompt
    file of every category, and the full refresh that reloads both while
    keeping the user's favorites and ratings. Fetch results are parameters:
    `None` stands for a failed request, a non-success status or an unusable
    document. */
module CatalogSync {
  import opened Optional
  import opened Seqs
  import opened Layout
  import opened Strings
  import opened Models
  import opened Catalog
  import opened CategoryNormalize

  /** A generated identifier (`Guid.NewGuid().ToString()`), never empty. */
  type Guid = s: string | |s| > 0 witness "0"

  /** The author recorded for prompts that arrive without one. */
  const ExternalAuthor: string := "External Source"

  /** Some category carries exactly this id. */
  predicate HasCategory(cats: seq<Category>, id: string)
  {
    exists i | 0 <= i < |cats| :: cats[i].id == id
  }

  // ---------------------------------------------------------------------------
  // Category index

  /** `LoadExternalCategoriesAsync`: on a usable index, installs the normalised
      categories, falls back to "all" when the selected category has vanished,
      and recomputes the counts. A failed fetch changes nothing. */
  function LoadExternalCategories(s: AppState, fetched: Option<seq<Category>>): (r: (AppState, bool))
    ensures fetched.None? ==> r == (s, false)
    ensures fetched.Some? ==>
      && r.1
      && SameButCounts(r.0.categories, NormalizeCategories(fetched.value))
      && CountsConsistent(r.0)
      && (HasCategory(r.0.categories, s.selectedCategory) ==> r.0.selectedCategory == s.selectedCategory)
      && (!HasCategory(r.0.categories, s.selectedCategory) ==> r.0.selectedCategory == AllId)
      && r.0 == s.(categories := r.0.categories, selectedCategory := r.0.selectedCategory)
  {
    match fetched
    case None => (s, false)
    case Some(raw) =>
      var cats := NormalizeCategories(raw);
      var selected := if HasCategory(cats, s.selectedCategory) then s.selectedCategory else AllId;
      var r := UpdateCategoryCounts(s.(categories := cats, selectedCategory := selected));
      SameButCountsIds(r.categories, cats, s.selectedCategory);
      (r, true)
  }

  /** Recounting keeps every id, so it keeps which ids are present. */
  lemma {:induction false} SameButCountsIds(a: seq<Category>, b: seq<Category>, id: string)
    requires SameButCounts(a, b)
    ensures HasCategory(a, id) <==> HasCategory(b, id)
  {
    if HasCategory(b, id) {
      var i :| 0 <= i < |b| && b[i].id == id;
      assert a[i].(promptCount := 0).id == b[i].(promptCount := 0).id;
    }
    if HasCategory(a, id) {
      var i :| 0 <= i < |a| && a[i].id == id;
      assert a[i].(promptCount := 0).id == b[i].(promptCount := 0).id;
    }
  }

  /** After a successful load the selection names an installed category or is "all",
      and some category is the "all" category (ignoring case). */
  lemma {:induction false} LoadedSelectionValid(s: AppState, raw: seq<Category>)
    ensures var r := LoadExternalCategories(s, Some(raw)).0;
      (HasCategory(r.categories, r.selectedCategory) || r.selectedCategory == AllId)
      && HasAllCategory(r.categories)
  {
    var r := LoadExternalCategories(s, Some(raw)).0;
    var cats := NormalizeCategories(raw);
    var i :| 0 <= i < |cats| && EqualsIgnoreCase(cats[i].id, AllId);
    assert r.categories[i].(promptCount := 0).id == cats[i].(promptCount := 0).id;
  }

  // ---------------------------------------------------------------------------
  // Prompt files

  /** The categories the loader does not fetch: "all" (ignoring case) and those
      without a file path. */
  predicate Skipped(c: Category)
  {
    EqualsIgnoreCase(c.id, AllId) || IsBlank(c.filePathName)
  }

  /** "Is fetched", as a filter argument. */
  function Fetched(): Category -> bool
  {
    c => !Skipped(c)
  }

  /** The file paths of a list of categories. */
  function Paths(cats: seq<Category>): (r: seq<string>)
    ensures |r| == |cats| && forall i | 0 <= i < |cats| :: r[i] == cats[i].filePathName
  {
    seq(|cats|, i requires 0 <= i < |cats| => cats[i].filePathName)
  }

  /** Completes a fetched prompt: a fresh id when it has none, the clock reading
      for unset timestamps, the default author when it has none, and always the
      category it was fetched for. */
  function Stamp(p: Prompt, categoryId: string, freshId: Guid, now: Instant): (q: Prompt)
    ensures q.category == categoryId && q.id != "" && q.author != ""
    ensures q.id == (if p.id == "" then freshId else p.id)
    ensures q.author == (if p.author == "" then ExternalAuthor else p.author)
    ensures q.createdAt == (if p.createdAt == MinValue then now else p.createdAt)
    ensures q.updatedAt == (if p.updatedAt == MinValue then now else p.updatedAt)
    ensures q.createdAt == MinValue ==> now == MinValue
    ensures q.updatedAt == MinValue ==> now == MinValue
    ensures q == p.(id := q.id, createdAt := q.createdAt, updatedAt := q.updatedAt, category := categoryId, author := q.author)
  {
    p.(id := if p.id == "" then freshId else p.id,
       createdAt := if p.createdAt == MinValue then now else p.createdAt,
       updatedAt := if p.updatedAt == MinValue then now else p.updatedAt,
       category := categoryId,
       author := if p.author == "" then ExternalAuthor else p.author)
  }

  /** `p` was tagged with the id of a category the loader fetches. */
  predicate SourcedFrom(p: Prompt, cats: seq<Category>)
  {
    exists i | 0 <= i < |cats| :: !Skipped(cats[i]) && cats[i].id == p.category
  }

  /** What one pass over the categories produced: the prompts, in category
      order, and the file paths requested, in request order. */
  datatype Loaded = Loaded(prompts: seq<Prompt>, requested: seq<string>)

  /** The prompts of one file, completed for the category they were fetched for;
      the `k`-th draws the identifier `newId(start + k)`. */
  function StampAll(ps: seq<Prompt>, categoryId: string, newId: nat -> Guid, start: nat, now: Instant): (r: seq<Prompt>)
    ensures |r| == |ps|
    ensures forall k | 0 <= k < |ps| :: r[k] == Stamp(ps[k], categoryId, newId(start + k), now)
    ensures forall p | p in r :: p.category == categoryId && p.id != "" && p.author != ""
  {
    seq(|ps|, k requires 0 <= k < |ps| => Stamp(ps[k], categoryId, newId(start + k), now))
  }

  /** Prompts tagged with a fetched category of the list are sourced from it. */
  lemma {:induction false} SourcedFromAt(ps: seq<Prompt>, cats: seq<Category>, i: nat)
    requires i < |cats| && !Skipped(cats[i]) && forall p | p in ps :: p.category == cats[i].id
    ensures forall p | p in ps :: SourcedFrom(p, cats)
  {
    forall p | p in ps
      ensures SourcedFrom(p, cats)
    {
      assert !Skipped(cats[i]) && cats[i].id == p.category;
    }
  }

  /** The paths of a category followed by a list. */
  lemma {:induction false} PathsCons(c: Category, cats: seq<Category>)
    ensures Paths([c] + cats) == [c.filePathName] + Paths(cats)
  {
    var l, r := Paths([c] + cats), [c.filePathName] + Paths(cats);
    forall i | 0 <= i < |l|
      ensures l[i] == r[i]
    {
      if i > 0 {
        assert ([c] + cats)[i] == cats[i - 1];
      }
    }
  }

  /** The prompts the file of `c` delivers: none when the category is skipped
      or its fetch fails, otherwise the parsed list as it arrived. */
  function Delivered(c: Category, fetch: string -> Option<seq<Prompt>>): seq<Prompt>
  {
    if Skipped(c) then []
    else match fetch(c.filePathName)
      case None => []
      case Some(ps) => ps
  }

  /** Where the prompts of category `i` start in the loaded list: the number
      delivered by the categories in front of it. */
  function Offset(cats: seq<Category>, fetch: string -> Option<seq<Prompt>>, i: nat): nat
    requires i <= |cats|
    decreases i
  {
    if i == 0 then 0 else Offset(cats, fetch, i - 1) + |Delivered(cats[i - 1], fetch)|
  }

  /** The loop of `LoadPromptsFromCategoryFilesAsync`, from category `i` on.
      `fetch` gives the prompts parsed from a file (`None` for a failed
      request); `newId(n)` is the identifier generated for the prompt that
      lands at position `n` of the loaded list, so every prompt draws its own. */
  function LoadFrom(cats: seq<Category>, fetch: string -> Option<seq<Prompt>>,
                    newId: nat -> Guid, now: Instant, i: nat): (r: Loaded)
    requires i <= |cats|
    ensures r.requested == Paths(Filter(cats[i..], Fetched()))
    ensures forall p | p in r.prompts :: SourcedFrom(p, cats) && p.id != "" && p.author != ""
    decreases |cats| - i
  {
    if i == |cats| then Loaded([], [])
    else
      var c := cats[i];
      var rest := LoadFrom(cats, fetch, newId, now, i + 1);
      FilterCons(c, cats[i + 1..], Fetched());
      assert [c] + cats[i + 1..] == cats[i..];
      if Skipped(c) then rest
      else
        PathsCons(c, Filter(cats[i + 1..], Fetched()));
        match fetch(c.filePathName)
        case None => Loaded(rest.prompts, [c.filePathName] + rest.requested)
        case Some(ps) =>
          var stamped := StampAll(ps, c.id, newId, Offset(cats, fetch, i), now);
          SourcedFromAt(stamped, cats, i);
          Loaded(stamped + rest.prompts, [c.filePathName] + rest.requested)
  }

  /** The `k`-th prompt of the file of category `i`, completed for that
      category with the identifier drawn for its load position. */
  function StampedAt(cats: seq<Category>, fetch: string -> Option<seq<Prompt>>,
                     newId: nat -> Guid, now: Instant, i: nat, k: nat): Prompt
    requires i < |cats| && k < |Delivered(cats[i], fetch)|
  {
    Stamp(Delivered(cats[i], fetch)[k], cats[i].id, newId(Offset(cats, fetch, i) + k), now)
  }

  /** Position `j` of `r` holds the completed `k`-th prompt of some category
      `i`, and sits at `Offset(i) + k`. */
  predicate FromFile(cats: seq<Category>, fetch: string -> Option<seq<Prompt>>,
                     newId: nat -> Guid, now: Instant, r: seq<Prompt>, j: int)
  {
    0 <= j < |r| &&
    exists i, k {:trigger StampedAt(cats, fetch, newId, now, i, k)} | 0 <= i < |cats| && 0 <= k < |Delivered(cats[i], fetch)| ::
      Offset(cats, fetch, i) + k == j && r[j] == StampedAt(cats, fetch, newId, now, i, k)
  }

  /** The completed file of category `i`. */
  function FileOf(cats: seq<Category>, fetch: string -> Option<seq<Prompt>>,
                  newId: nat -> Guid, now: Instant, i: nat): (r: seq<Prompt>)
    requires i < |cats|
    ensures |r| == |Delivered(cats[i], fetch)|
  {
    seq(|Delivered(cats[i], fetch)|, k requires 0 <= k < |Delivered(cats[i], fetch)| => StampedAt(cats, fetch, newId, now, i, k))
  }

  /** One step of the loop: the completed file of category `i`, then what the
      later categories load. */
  lemma {:induction false} LoadFromStep(cats: seq<Category>, fetch: string -> Option<seq<Prompt>>,
                                        newId: nat -> Guid, now: Instant, i: nat)
    requires i < |cats|
    ensures LoadFrom(cats, fetch, newId, now, i).prompts
         == FileOf(cats, fetch, newId, now, i) + LoadFrom(cats, fetch, newId, now, i + 1).prompts
  {
    var rest := LoadFrom(cats, fetch, newId, now, i + 1).prompts;
    var file := FileOf(cats, fetch, newId, now, i);
    if Skipped(cats[i]) || fetch(cats[i].filePathName).None? {
      assert file == [];
      assert [] + rest == rest;
    } else {
      var stamped := StampAll(Delivered(cats[i], fetch), cats[i].id, newId, Offset(cats, fetch, i), now);
      forall k | 0 <= k < |file|
        ensures file[k] == stamped[k]
      {
        assert file[k] == StampedAt(cats, fetch, newId, now, i, k);
      }
      assert file == stamped;
    }
  }

  /** Offsets never decrease, and each category's file ends where the next begins. */
  lemma {:induction false} OffsetMono(cats: seq<Category>, fetch: string -> Option<seq<Prompt>>, i: nat, i': nat)
    requires i <= i' <= |cats|
    ensures Offset(cats, fetch, i) <= Offset(cats, fetch, i')
    ensures i < i' ==> Offset(cats, fetch, i) + |Delivered(cats[i], fetch)| <= Offset(cats, fetch, i')
    decreases i' - i
  {
    if i < i' {
      OffsetMono(cats, fetch, i + 1, i');
    }
  }

  /** The completed files of all categories, in category order. */
  function Files(cats: seq<Category>, fetch: string -> Option<seq<Prompt>>,
                 newId: nat -> Guid, now: Instant): (r: seq<seq<Prompt>>)
    ensures |r| == |cats| && forall i | 0 <= i < |cats| :: r[i] == FileOf(cats, fetch, newId, now, i)
  {
    seq(|cats|, i requires 0 <= i < |cats| => FileOf(cats, fetch, newId, now, i))
  }

  /** A category's offset is where its completed file starts. */
  lemma {:induction false} OffsetIsStart(cats: seq<Category>, fetch: string -> Option<seq<Prompt>>,
                                         newId: nat -> Guid, now: Instant, i: nat)
    requires i <= |cats|
    ensures Offset(cats, fetch, i) == Start(Files(cats, fetch, newId, now), i)
    decreases i
  {
    if i > 0 {
      OffsetIsStart(cats, fetch, newId, now, i - 1);
    }
  }

  /** From category `i` on, the loop collects exactly the completed files. */
  lemma {:induction false} LoadFromConcat(cats: seq<Category>, fetch: string -> Option<seq<Prompt>>,
                                          newId: nat -> Guid, now: Instant, i: nat)
    requires i <= |cats|
    ensures LoadFrom(cats, fetch, newId, now, i).prompts == Concat(Files(cats, fetch, newId, now), i)
    decreases |cats| - i
  {
    if i < |cats| {
      LoadFromConcat(cats, fetch, newId, now, i + 1);
      LoadFromStep(cats, fetch, newId, now, i);
    }
  }

  /** Position `Offset(i) + k` of `r` holds the completed `k`-th prompt of
      category `i`. */
  predicate PlacedAt(cats: seq<Category>, fetch: string -> Option<seq<Prompt>>,
                     newId: nat -> Guid, now: Instant, r: seq<Prompt>, i: int, k: int)
  {
    && 0 <= i < |cats| && 0 <= k < |Delivered(cats[i], fetch)|
    && Offset(cats, fetch, i) + k < |r| && r[Offset(cats, fetch, i) + k] == StampedAt(cats, fetch, newId, now, i, k)
  }

  /** The loaded list is the completed files laid end to end in category order:
      it is as long as all delivered files together, and the `k`-th prompt of
      category `i` sits at `Offset(i) + k`, completed for category `i`. */
  lemma {:induction false} LoadFromLayout(cats: seq<Category>, fetch: string -> Option<seq<Prompt>>,
                                          newId: nat -> Guid, now: Instant)
    ensures |LoadFrom(cats, fetch, newId, now, 0).prompts| == Offset(cats, fetch, |cats|)
    ensures forall i, k | 0 <= i < |cats| && 0 <= k < |Delivered(cats[i], fetch)| ::
      PlacedAt(cats, fetch, newId, now, LoadFrom(cats, fetch, newId, now, 0).prompts, i, k)
  {
    LoadFromLength(cats, fetch, newId, now);
    var r := LoadFrom(cats, fetch, newId, now, 0).prompts;
    forall i, k | 0 <= i < |cats| && 0 <= k < |Delivered(cats[i], fetch)|
      ensures PlacedAt(cats, fetch, newId, now, r, i, k)
    {
      LoadFromAt(cats, fetch, newId, now, i, k);
    }
  }

  /** The loaded list is as long as all delivered files together. */
  lemma {:induction false} LoadFromLength(cats: seq<Category>, fetch: string -> Option<seq<Prompt>>,
                                          newId: nat -> Guid, now: Instant)
    ensures |LoadFrom(cats, fetch, newId, now, 0).prompts| == Offset(cats, fetch, |cats|)
  {
    var fs := Files(cats, fetch, newId, now);
    LoadFromConcat(cats, fetch, newId, now, 0);
    ConcatLength(fs, 0);
    OffsetIsStart(cats, fetch, newId, now, |cats|);
    assert Start(fs, 0) == 0;
  }

  /** The `k`-th prompt of category `i` lands at `Offset(i) + k`, completed. */
  lemma {:induction false} LoadFromAt(cats: seq<Category>, fetch: string -> Option<seq<Prompt>>,
                                      newId: nat -> Guid, now: Instant, i: nat, k: nat)
    requires i < |cats| && k < |Delivered(cats[i], fetch)|
    ensures Offset(cats, fetch, i) + k < |LoadFrom(cats, fetch, newId, now, 0).prompts|
    ensures LoadFrom(cats, fetch, newId, now, 0).prompts[Offset(cats, fetch, i) + k] == StampedAt(cats, fetch, newId, now, i, k)
  {
    var fs := Files(cats, fetch, newId, now);
    LoadFromConcat(cats, fetch, newId, now, 0);
    ConcatAt(fs, 0, i, k);
    OffsetIsStart(cats, fetch, newId, now, i);
    FilesAt(cats, fetch, newId, now, i, k);
  }

  /** The `k`-th prompt of file `i` is the completed `k`-th delivered prompt. */
  lemma {:induction false} FilesAt(cats: seq<Category>, fetch: string -> Option<seq<Prompt>>,
                                   newId: nat -> Guid, now: Instant, i: nat, k: nat)
    requires i < |cats| && k < |Delivered(cats[i], fetch)|
    ensures Start(Files(cats, fetch, newId, now), 0) == 0
    ensures k < |Files(cats, fetch, newId, now)[i]|
    ensures Files(cats, fetch, newId, now)[i][k] == StampedAt(cats, fetch, newId, now, i, k)
  {
    assert Files(cats, fetch, newId, now)[i] == FileOf(cats, fetch, newId, now, i);
  }

  /** Conversely, every loaded prompt is the completed `k`-th prompt of some
      fetched category `i`, at position `Offset(i) + k`. */
  lemma {:induction false} LoadFromOnlyFiles(cats: seq<Category>, fetch: string -> Option<seq<Prompt>>,
                                             newId: nat -> Guid, now: Instant)
    ensures forall j | 0 <= j < |LoadFrom(cats, fetch, newId, now, 0).prompts| ::
      FromFile(cats, fetch, newId, now, LoadFrom(cats, fetch, newId, now, 0).prompts, j)
  {
    var r := LoadFrom(cats, fetch, newId, now, 0).prompts;
    var fs := Files(cats, fetch, newId, now);
    LoadFromConcat(cats, fetch, newId, now, 0);
    forall j | 0 <= j < |r|
      ensures FromFile(cats, fetch, newId, now, r, j)
    {
      var i, k := ConcatSource(fs, 0, j);
      OffsetIsStart(cats, fetch, newId, now, i);
    }
  }

  /** Two prompts completed at different places of one load that both arrived
      without an id get different ids, as long as the generator never repeats
      itself: every prompt is keyed by its own load position. */
  lemma {:induction false} FreshIdsDistinct(cats: seq<Category>, fetch: string -> Option<seq<Prompt>>,
                                            newId: nat -> Guid, now: Instant, i1: nat, k1: nat, i2: nat, k2: nat)
    requires forall a: nat, b: nat :: a != b ==> newId(a) != newId(b)
    requires i1 < |cats| && k1 < |Delivered(cats[i1], fetch)| && i2 < |cats| && k2 < |Delivered(cats[i2], fetch)|
    requires (i1, k1) != (i2, k2)
    requires Delivered(cats[i1], fetch)[k1].id == "" && Delivered(cats[i2], fetch)[k2].id == ""
    ensures StampedAt(cats, fetch, newId, now, i1, k1).id != StampedAt(cats, fetch, newId, now, i2, k2).id
  {
    if i1 < i2 {
      OffsetMono(cats, fetch, i1, i2);
    } else if i2 < i1 {
      OffsetMono(cats, fetch, i2, i1);
    }
    assert Offset(cats, fetch, i1) + k1 != Offset(cats, fetch, i2) + k2;
  }

  /** Some prompt arrives exactly when some category's file delivers one. */
  lemma {:induction false} OffsetPositive(cats: seq<Category>, fetch: string -> Option<seq<Prompt>>, i: nat)
    requires i <= |cats|
    ensures Offset(cats, fetch, i) > 0 <==> exists j | 0 <= j < i :: |Delivered(cats[j], fetch)| > 0
    decreases i
  {
    if i > 0 {
      OffsetPositive(cats, fetch, i - 1);
    }
  }

  /** Recounting keeps every offset. */
  lemma {:induction false} OffsetSameButCounts(a: seq<Category>, b: seq<Category>, fetch: string -> Option<seq<Prompt>>, i: nat)
    requires SameButCounts(a, b) && i <= |a|
    ensures Offset(a, fetch, i) == Offset(b, fetch, i)
    decreases i
  {
    if i > 0 {
      OffsetSameButCounts(a, b, fetch, i - 1);
      SameButCountsAt(a, b, i - 1);
    }
  }

  /** Recounting changes nothing the loader looks at. */
  lemma {:induction false} LoadFromSameButCounts(a: seq<Category>, b: seq<Category>, fetch: string -> Option<seq<Prompt>>,
                                                 newId: nat -> Guid, now: Instant, i: nat)
    requires SameButCounts(a, b) && i <= |a|
    ensures LoadFrom(a, fetch, newId, now, i) == LoadFrom(b, fetch, newId, now, i)
    decreases |a| - i
  {
    if i < |a| {
      SameButCountsAt(a, b, i);
      LoadFromSameButCounts(a, b, fetch, newId, now, i + 1);
      OffsetSameButCounts(a, b, fetch, i);
      LoadFromSameHead(a, b, fetch, newId, now, i);
    }
  }

  /** Lists that differ only in counts agree on each category's id and path. */
  lemma {:induction false} SameButCountsAt(a: seq<Category>, b: seq<Category>, i: nat)
    requires SameButCounts(a, b) && i < |a|
    ensures i < |b| && a[i].id == b[i].id && a[i].filePathName == b[i].filePathName
  {
    assert a[i].(promptCount := 0) == b[i].(promptCount := 0);
  }

  /** Two lists whose category `i` agrees on id and path, that reach it at the
      same offset and whose later categories load alike, load alike from `i`. */
  lemma {:induction false} LoadFromSameHead(a: seq<Category>, b: seq<Category>, fetch: string -> Option<seq<Prompt>>,
                                            newId: nat -> Guid, now: Instant, i: nat)
    requires i < |a| && i < |b|
    requires a[i].id == b[i].id && a[i].filePathName == b[i].filePathName
    requires Offset(a, fetch, i) == Offset(b, fetch, i)
    requires LoadFrom(a, fetch, newId, now, i + 1) == LoadFrom(b, fetch, newId, now, i + 1)
    ensures LoadFrom(a, fetch, newId, now, i) == LoadFrom(b, fetch, newId, now, i)
  {
  }

  /** The outcome of a load: the new state, whether anything was added, and the
      file paths requested. */
  datatype LoadResult = LoadResult(state: AppState, ok: bool, requested: seq<string>)

  /** `LoadPromptsFromCategoryFilesAsync`: fetches the file of every category
      except "all" and those without a path, appends what they hold and
      recomputes the counts. When nothing arrives the state is left as it was. */
  function LoadPromptsFromCategoryFiles(s: AppState, fetch: string -> Option<seq<Prompt>>,
                                        newId: nat -> Guid, now: Instant): (r: LoadResult)
    ensures r.requested == Paths(Filter(s.categories, Fetched()))
    ensures r.ok <==> exists i | 0 <= i < |s.categories| :: |Delivered(s.categories[i], fetch)| > 0
    ensures r.state.prompts == s.prompts + LoadFrom(s.categories, fetch, newId, now, 0).prompts
    ensures !r.ok ==> r.state == s
    ensures r.ok ==>
      && |r.state.prompts| > |s.prompts| && r.state.prompts[..|s.prompts|] == s.prompts
      && (forall k | |s.prompts| <= k < |r.state.prompts| ::
            SourcedFrom(r.state.prompts[k], s.categories) && r.state.prompts[k].id != "")
      && CountsConsistent(r.state) && SameButCounts(r.state.categories, s.categories)
      && r.state == s.(prompts := r.state.prompts, categories := r.state.categories)
  {
    var loaded := LoadFrom(s.categories, fetch, newId, now, 0);
    assert s.categories[0..] == s.categories;
    LoadFromLength(s.categories, fetch, newId, now);
    OffsetPositive(s.categories, fetch, |s.categories|);
    if |loaded.prompts| > 0 then
      var t := UpdateCategoryCounts(s.(prompts := s.prompts + loaded.prompts));
      AppendedSourced(s.prompts, loaded.prompts, s.categories);
      LoadResult(t, true, loaded.requested)
    else
      assert s.prompts + loaded.prompts == s.prompts;
      LoadResult(s, false, loaded.requested)
  }

  /** Appending sourced prompts keeps the old ones in front and leaves only
      sourced prompts behind them. */
  lemma {:induction false} AppendedSourced(ps: seq<Prompt>, added: seq<Prompt>, cats: seq<Category>)
    requires forall p | p in added :: SourcedFrom(p, cats) && p.id != ""
    ensures (ps + added)[..|ps|] == ps
    ensures forall k | |ps| <= k < |ps + added| :: SourcedFrom((ps + added)[k], cats) && (ps + added)[k].id != ""
  {
    var t := ps + added;
    forall k | |ps| <= k < |t|
      ensures SourcedFrom(t[k], cats) && t[k].id != ""
    {
      assert t[k] == added[k - |ps|];
    }
    assert t[..|ps|] == ps;
  }

  /** Recounting keeps which categories are fetched, so it keeps where a prompt came from. */
  lemma {:induction false} SourcedFromSameButCounts(p: Prompt, a: seq<Category>, b: seq<Category>)
    requires SameButCounts(a, b) && SourcedFrom(p, b)
    ensures SourcedFrom(p, a)
  {
    var i :| 0 <= i < |b| && !Skipped(b[i]) && b[i].id == p.category;
    assert a[i].(promptCount := 0) == b[i].(promptCount := 0);
    assert a[i].id == b[i].id && a[i].filePathName == b[i].filePathName;
  }

  // ---------------------------------------------------------------------------
  // Full refresh

  /** `RefreshExternalDataAsync`: drops the prompts and categories, reloads the
      category index and then the prompt files, and puts the favorites and
      ratings back as they were; the loading flag ends cleared. */
  function RefreshExternalData(s: AppState, index: Option<seq<Category>>, fetch: string -> Option<seq<Prompt>>,
                               newId: nat -> Guid, now: Instant): (r: AppState)
    ensures r.favorites == s.favorites && r.userRatings == s.userRatings && !r.isLoading
    ensures r.history == s.history && r.theme == s.theme && r.searchQuery == s.searchQuery
    ensures r.sortBy == s.sortBy && r.showFavoritesOnly == s.showFavoritesOnly && r.cacheMetadata == s.cacheMetadata
    ensures index.None? ==> r.prompts == [] && r.categories == []
    ensures index.Some? ==> HasAllCategory(r.categories) && SameButCounts(r.categories, NormalizeCategories(index.value))
    ensures index.None? ==> r.selectedCategory == s.selectedCategory
    ensures forall p | p in r.prompts :: SourcedFrom(p, r.categories) && p.id != ""
    ensures CountsConsistent(r)
  {
    var cleared := s.(isLoading := true, prompts := [], categories := []);
    var w := LoadExternalCategories(cleared, index).0;
    var loaded := LoadPromptsFromCategoryFiles(w, fetch, newId, now);
    var l := loaded.state;
    assert SameButCounts(l.categories, w.categories);
    assert CountsConsistent(l) by {
      if index.None? {
        assert |w.categories| == 0;
      }
    }
    assert forall p | p in l.prompts :: SourcedFrom(p, w.categories) && p.id != "" by {
      if loaded.ok {
        forall p | p in l.prompts
          ensures SourcedFrom(p, w.categories) && p.id != ""
        {
          var k :| 0 <= k < |l.prompts| && l.prompts[k] == p;
        }
      }
    }
    SourcedTransfer(l.prompts, l.categories, w.categories);
    assert index.Some? ==> HasAllCategory(l.categories) && SameButCounts(l.categories, NormalizeCategories(index.value)) by {
      if index.Some? {
        LoadedSelectionValid(cleared, index.value);
        HasAllSameButCounts(l.categories, w.categories);
        SameButCountsTrans(l.categories, w.categories, NormalizeCategories(index.value));
      }
    }
    l.(favorites := s.favorites, userRatings := s.userRatings, isLoading := false)
  }

  /** After a refresh with a usable index the prompts are exactly those the
      reinstalled categories' files deliver, and the selection survives only
      if its category is still there. */
  lemma {:induction false} RefreshExternalDataLoads(s: AppState, raw: seq<Category>, fetch: string -> Option<seq<Prompt>>,
                                                    newId: nat -> Guid, now: Instant)
    ensures var r := RefreshExternalData(s, Some(raw), fetch, newId, now);
      && r.prompts == LoadFrom(NormalizeCategories(raw), fetch, newId, now, 0).prompts
      && r.selectedCategory == (if HasCategory(r.categories, s.selectedCategory) then s.selectedCategory else AllId)
  {
    var r := RefreshExternalData(s, Some(raw), fetch, newId, now);
    var cleared := s.(isLoading := true, prompts := [], categories := []);
    var w := LoadExternalCategories(cleared, Some(raw)).0;
    var l := LoadPromptsFromCategoryFiles(w, fetch, newId, now).state;
    var files := LoadFrom(w.categories, fetch, newId, now, 0).prompts;
    assert r == l.(favorites := s.favorites, userRatings := s.userRatings, isLoading := false);
    assert l.prompts == [] + files == files;
    LoadFromSameButCounts(w.categories, NormalizeCategories(raw), fetch, newId, now, 0);
    SameButCountsIds(l.categories, w.categories, s.selectedCategory);
  }

  /** Recounting keeps the "all" category. */
  lemma {:induction false} HasAllSameButCounts(a: seq<Category>, b: seq<Category>)
    requires SameButCounts(a, b) && HasAllCategory(b)
    ensures HasAllCategory(a)
  {
    var i :| 0 <= i < |b| && EqualsIgnoreCase(b[i].id, AllId);
    assert a[i].(promptCount := 0).id == b[i].(promptCount := 0).id;
  }

  /** Recounting keeps where every prompt of a list came from. */
  lemma {:induction false} SourcedTransfer(ps: seq<Prompt>, a: seq<Category>, b: seq<Category>)
    requires SameButCounts(a, b) && forall p | p in ps :: SourcedFrom(p, b) && p.id != ""
    ensures forall p | p in ps :: SourcedFrom(p, a) && p.id != ""
  {
    forall p | p in ps
      ensures SourcedFrom(p, a)
    {
      SourcedFromSameButCounts(p, a, b);
    }
  }

  /** Differing only in counts is transitive. */
  lemma {:induction false} SameButCountsTrans(a: seq<Category>, b: seq<Category>, c: seq<Category>)
    requires SameButCounts(a, b) && SameButCounts(b, c)
    ensures SameButCounts(a, c)
  {
  }
}
