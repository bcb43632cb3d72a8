/** The category sidebar: per-category counts, the active marker and the
    selection it forwards. */
module CategoryFilter {
  import opened Optional
  import opened Seqs
  import opened Models
  import opened Catalog

  /** `FirstOrDefault(c => c.Id == id)`: the first category carrying `id`. */
  function FindCategory(cats: seq<Category>, id: string): (r: Option<Category>)
    ensures r.None? <==> forall i | 0 <= i < |cats| :: cats[i].id != id
    ensures r.Some? ==> exists i | 0 <= i < |cats| ::
              cats[i] == r.value && r.value.id == id && forall j | 0 <= j < i :: cats[j].id != id
  {
    if |cats| == 0 then None
    else if cats[0].id == id then Some(cats[0])
    else
      var rest := FindCategory(cats[1..], id);
      assert forall i | 1 <= i < |cats| :: cats[i] == cats[1..][i - 1];
      if rest.Some? then
        var k :| 0 <= k < |cats[1..]| && cats[1..][k] == rest.value && rest.value.id == id
                 && forall j | 0 <= j < k :: cats[1..][j].id != id;
        assert cats[k + 1] == rest.value;
        rest
      else rest
  }

  /** `GetCategoryCount`: every prompt for "all", otherwise the prompts whose
      non-empty category is the id. It counts in one pass over the prompts. */
  method GetCategoryCount(ps: seq<Prompt>, id: string) returns (count: nat)
    ensures count == CategoryCount(ps, id)
    ensures id == AllId ==> count == |ps|
    ensures id != AllId ==> count == |Filter(ps, InCategoryOf(id))|
  {
    if id == AllId {
      return |ps|;
    }
    count := 0;
    var i := 0;
    while i < |ps|
      invariant 0 <= i <= |ps|
      invariant count == |Filter(ps[..i], InCategoryOf(id))|
    {
      FilterAppend(ps[..i], [ps[i]], InCategoryOf(id));
      FilterCons(ps[i], [], InCategoryOf(id));
      assert ps[..i + 1] == ps[..i] + [ps[i]];
      assert [ps[i]] + [] == [ps[i]];
      if ps[i].category != "" && ps[i].category == id {
        count := count + 1;
      }
      i := i + 1;
    }
    assert ps[..i] == ps;
  }

  /** Where the counts are consistent, the sidebar count of a category is the
      count the category stores. */
  lemma {:induction false} SidebarCountIsStored(s: AppState, i: nat, count: nat)
    requires CountsConsistent(s) && i < |s.categories|
    requires count == CategoryCount(s.prompts, s.categories[i].id)
    ensures count == s.categories[i].promptCount
  {
  }

  /** The classes every category button has. */
  const BaseClasses: string := "w-full flex items-center gap-3 px-3 py-2 rounded-lg text-left transition-all duration-200"

  /** The classes added to the selected category's button. */
  const ActiveClasses: string := "bg-blue-600 text-white shadow-md"

  /** The classes added to every other button. */
  const InactiveClasses: string := "hover:bg-gray-100 dark:hover:bg-gray-800 hover:text-gray-900 dark:hover:text-gray-100"

  /** `GetCategoryClasses`: the base classes followed by the active or the
      inactive ones. */
  function CategoryClasses(s: AppState, id: string): (classes: string)
    ensures |classes| > |BaseClasses| && classes[..|BaseClasses| + 1] == BaseClasses + " "
    ensures classes == BaseClasses + " " + ActiveClasses <==> s.selectedCategory == id
    ensures classes == BaseClasses + " " + InactiveClasses <==> s.selectedCategory != id
  {
    var active := BaseClasses + " " + ActiveClasses;
    var inactive := BaseClasses + " " + InactiveClasses;
    assert |ActiveClasses| < |InactiveClasses|;
    assert |active| != |inactive|;
    if s.selectedCategory == id then active else inactive
  }

  /** What a selection does: the id handed to the page, and the page view
      recorded for a real category (its name and its count). */
  datatype Selection = Selection(forwarded: string, tracked: Option<(string, nat)>)

  /** `SelectCategory`: always forwards the id, "all" included; records a page
      view only for a known category other than "all". */
  function SelectCategory(s: AppState, id: string): (r: Selection)
    ensures r.forwarded == id
    ensures r.tracked.Some? <==> id != AllId && FindCategory(s.categories, id).Some?
    ensures r.tracked.Some? ==>
      r.tracked.value == (FindCategory(s.categories, id).value.name, CategoryCount(s.prompts, id))
  {
    if id == AllId then Selection(id, None)
    else match FindCategory(s.categories, id)
      case None => Selection(id, None)
      case Some(c) => Selection(id, Some((c.name, CategoryCount(s.prompts, id))))
  }

  /** Where the counts are consistent, the count recorded for a selected
      category is the one its sidebar entry stores. */
  lemma {:induction false} SelectionTracksStoredCount(s: AppState, id: string)
    requires CountsConsistent(s) && id != AllId && FindCategory(s.categories, id).Some?
    ensures var c := FindCategory(s.categories, id).value;
      SelectCategory(s, id).tracked == Some((c.name, c.promptCount))
  {
    var c := FindCategory(s.categories, id).value;
    var i :| 0 <= i < |s.categories| && s.categories[i] == c && c.id == id
             && forall j | 0 <= j < i :: s.categories[j].id != id;
    assert c.promptCount == CategoryCount(s.prompts, s.categories[i].id);
  }
}

/** A prompt's card: favourite marker, rating, download name and category
    label. */
module PromptCard {
  import opened Optional
  import opened Seqs
  import opened Strings
  import opened Models
  import opened CatalogView
  import opened Catalog
  import opened CategoryFilter

  /** `IsFavorite`: the card's id is in the favourites. */
  predicate IsFavorite(s: AppState, p: Prompt)
  {
    p.id in s.favorites
  }

  /** With duplicate-free favourites, the card's toggle flips its marker and no
      other card's. */
  lemma {:induction false} ToggleFlipsMarker(s: AppState, p: Prompt, other: Prompt)
    requires NoDup(s.favorites)
    ensures IsFavorite(ToggleFavorite(s, p.id), p) == !IsFavorite(s, p)
    ensures other.id != p.id ==> IsFavorite(ToggleFavorite(s, p.id), other) == IsFavorite(s, other)
  {
  }

  /** `UserRating`: the stored rating of the card's prompt, 0 without one. */
  function DisplayedRating(s: AppState, p: Prompt): (shown: int)
    ensures p.id !in s.userRatings ==> shown == 0
    ensures p.id in s.userRatings ==> shown == s.userRatings[p.id].rating
  {
    if p.id in s.userRatings then s.userRatings[p.id].rating else 0
  }

  /** `SetRating`: the rating the card sends for its prompt; liked from four
      stars up. */
  function MakeRating(p: Prompt, stars: int): (r: UserRating)
    ensures r.promptId == p.id && r.rating == stars
    ensures r.liked <==> stars >= 4
  {
    UserRating(p.id, stars, stars >= 4)
  }

  /** Rating from a card, then reading the card back: the card shows the
      stars it sent, a positive rating becomes the prompt's average when the
      ratings are keyed by prompt, and no other card's rating changes. */
  method RateFromCard(s: AppState, p: Prompt, stars: int, other: Prompt) returns (r: AppState, shown: int)
    ensures shown == stars
    ensures |r.prompts| == |s.prompts|
    ensures other.id != p.id ==> DisplayedRating(r, other) == DisplayedRating(s, other)
    ensures KeyedByPrompt(s.userRatings) && Known(s.prompts, p.id) && stars > 0 ==>
      r.prompts[FindIndex(s.prompts, p.id)].averageRating == stars as real
  {
    var rating := MakeRating(p, stars);
    r := SetRating(s, p.id, rating);
    shown := DisplayedRating(r, p);
    if KeyedByPrompt(s.userRatings) && Known(s.prompts, p.id) {
      SetRatingOwnAverage(s, p.id, rating, MeanRating(r.userRatings, p.id));
    }
  }

  /** The suffix of every downloaded file's name. */
  const DownloadSuffix: string := "_prompt.txt"

  /** `DownloadPrompt`'s file name: the title with spaces as underscores, then
      the suffix. */
  function DownloadFileName(title: string): (name: string)
    ensures |name| == |title| + |DownloadSuffix|
    ensures name[|title|..] == DownloadSuffix
    ensures ' ' !in name
    ensures forall i | 0 <= i < |title| :: name[i] == (if title[i] == ' ' then '_' else title[i])
  {
    ReplaceChar(title, ' ', '_') + DownloadSuffix
  }

  /** Two titles that differ other than by swapping spaces and underscores
      download under different names. */
  lemma {:induction false} DownloadNamesDistinct(a: string, b: string, i: nat)
    requires i < |a| && i < |b| && a[i] != b[i]
    requires a[i] != ' ' && a[i] != '_' && b[i] != ' ' && b[i] != '_'
    ensures DownloadFileName(a) != DownloadFileName(b)
  {
    assert DownloadFileName(a)[i] != DownloadFileName(b)[i];
  }

  /** `GetCategoryName`: the name of the first category with that id, the id
      itself when there is none. */
  function CategoryName(cats: seq<Category>, id: string): (name: string)
    ensures (forall i | 0 <= i < |cats| :: cats[i].id != id) ==> name == id
    ensures forall i | 0 <= i < |cats| && cats[i].id == id ::
              exists j | 0 <= j <= i :: cats[j].id == id && name == cats[j].name
                && forall k | 0 <= k < j :: cats[k].id != id
  {
    match FindCategory(cats, id)
    case None => id
    case Some(c) => c.name
  }
}
