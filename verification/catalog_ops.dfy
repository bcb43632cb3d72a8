/** The state transitions of `PromptService` on the local catalog: category
    counts, favorites, history, ratings, add/update/delete, clearing and the
    theme switch. Each is a pure function of the state; the clock reading and
    fresh identifiers are parameters. */
module Catalog {
  import opened Optional
  import opened Seqs
  import opened Models
  import opened CatalogView

  /** The number of history entries kept. */
  const HistoryLimit: nat := 50

  // ---------------------------------------------------------------------------
  // Category counts

  /** "Belongs to category `id`", as a filter argument. */
  function InCategoryOf(id: string): Prompt -> bool
  {
    p => InCategory(p, id)
  }

  /** The count a category should show: every prompt for "all", otherwise the
      prompts whose non-empty category is that id. */
  function CategoryCount(ps: seq<Prompt>, id: string): nat
  {
    if id == AllId then |ps| else |Filter(ps, InCategoryOf(id))|
  }

  /** Every category's `promptCount` agrees with the prompt list. */
  predicate CountsConsistent(s: AppState)
  {
    forall i | 0 <= i < |s.categories| :: s.categories[i].promptCount == CategoryCount(s.prompts, s.categories[i].id)
  }

  /** Two category lists that differ at most in their counts. */
  predicate SameButCounts(a: seq<Category>, b: seq<Category>)
  {
    |a| == |b| && forall i | 0 <= i < |a| :: a[i].(promptCount := 0) == b[i].(promptCount := 0)
  }

  /** `UpdateCategoryCounts`: recomputes every category's count from the prompts. */
  function UpdateCategoryCounts(s: AppState): (r: AppState)
    ensures CountsConsistent(r)
    ensures SameButCounts(r.categories, s.categories)
    ensures r == s.(categories := r.categories)
  {
    s.(categories := seq(|s.categories|, i requires 0 <= i < |s.categories| =>
      s.categories[i].(promptCount := CategoryCount(s.prompts, s.categories[i].id))))
  }

  /** Appending a prompt raises the "all" count and the count of the prompt's
      own category by one, and leaves every other count alone. */
  lemma {:induction false} CategoryCountAppend(ps: seq<Prompt>, p: Prompt, id: string)
    ensures CategoryCount(ps + [p], id) == CategoryCount(ps, id) + (if id == AllId || InCategory(p, id) then 1 else 0)
  {
    FilterAppend(ps, [p], InCategoryOf(id));
    FilterCons(p, [], InCategoryOf(id));
    assert [p] + [] == [p];
  }

  // ---------------------------------------------------------------------------
  // Lookup

  /** Position of the first prompt carrying `id` (`IndexOf(FirstOrDefault(...))`). */
  function FindIndex(ps: seq<Prompt>, id: string): (i: nat)
    requires Known(ps, id)
    ensures i < |ps| && ps[i].id == id
    ensures forall j | 0 <= j < i :: ps[j].id != id
  {
    if ps[0].id == id then 0
    else
      assert Known(ps[1..], id) by {
        var k :| 0 <= k < |ps| && ps[k].id == id;
        assert ps[1..][k - 1].id == id;
      }
      1 + FindIndex(ps[1..], id)
  }

  /** `GetPromptByIdAsync` finds the prompt at `FindIndex`. */
  lemma {:induction false} FindPromptAtIndex(ps: seq<Prompt>, id: string)
    requires Known(ps, id)
    ensures FindPrompt(ps, id) == Some(ps[FindIndex(ps, id)])
  {
    var i := FindIndex(ps, id);
    var j :| 0 <= j < |ps| && ps[j] == FindPrompt(ps, id).value && forall k | 0 <= k < j :: ps[k].id != id;
    assert FindPrompt(ps, id).value.id == id;
    assert !(j < i) && !(i < j);
  }

  // ---------------------------------------------------------------------------
  // Favorites

  /** `ToggleFavoriteAsync`: removes the first copy of `id` when present, else appends it. */
  function ToggleFavorite(s: AppState, id: string): (r: AppState)
    ensures r == s.(favorites := r.favorites)
    ensures multiset(r.favorites) == if id in s.favorites then multiset(s.favorites) - multiset{id}
                                     else multiset(s.favorites) + multiset{id}
    ensures forall y | y != id :: y in r.favorites <==> y in s.favorites
    ensures NoDup(s.favorites) ==> NoDup(r.favorites) && (id in r.favorites <==> id !in s.favorites)
  {
    if id in s.favorites then
      RemoveFirstMultiset(s.favorites, id);
      forall y | y != id ensures y in RemoveFirst(s.favorites, id) <==> y in s.favorites {
        RemoveFirstMembers(s.favorites, id, y);
      }
      assert NoDup(s.favorites) ==> NoDup(RemoveFirst(s.favorites, id)) && id !in RemoveFirst(s.favorites, id) by {
        if NoDup(s.favorites) {
          RemoveFirstNoDup(s.favorites, id);
        }
      }
      s.(favorites := RemoveFirst(s.favorites, id))
    else
      s.(favorites := s.favorites + [id])
  }

  /** Toggling an absent id twice gives back the very same list. */
  lemma {:induction false} ToggleFavoriteTwiceAbsent(s: AppState, id: string)
    requires id !in s.favorites
    ensures ToggleFavorite(ToggleFavorite(s, id), id) == s
  {
    var f := s.favorites + [id];
    assert id in f;
    assert IndexOf(f, id) == |s.favorites|;
    assert f[..|s.favorites|] == s.favorites;
  }

  /** Toggling a present id twice (in a duplicate-free list) restores membership
      and multiplicities, but the id moves to the end of the list. */
  lemma {:induction false} ToggleFavoriteTwicePresent(s: AppState, id: string)
    requires id in s.favorites && NoDup(s.favorites)
    ensures ToggleFavorite(ToggleFavorite(s, id), id).favorites == RemoveFirst(s.favorites, id) + [id]
    ensures multiset(ToggleFavorite(ToggleFavorite(s, id), id).favorites) == multiset(s.favorites)
  {
    var once := ToggleFavorite(s, id);
    assert id !in once.favorites;
    assert multiset{id} <= multiset(s.favorites);
  }

  // ---------------------------------------------------------------------------
  // History

  /** `AddToHistoryAsync`: moves `id` to the front and keeps the first fifty entries. */
  function AddToHistory(s: AppState, id: string): (r: AppState)
    ensures r == s.(history := r.history)
    ensures 0 < |r.history| <= HistoryLimit && r.history[0] == id
    ensures r.history[1..] <= RemoveFirst(s.history, id)
    ensures |r.history| == if |s.history| + (if id in s.history then 0 else 1) < HistoryLimit
                           then |s.history| + (if id in s.history then 0 else 1) else HistoryLimit
    ensures NoDup(s.history) ==> NoDup(r.history)
  {
    var rest := RemoveFirst(s.history, id);
    RemoveFirstLength(s.history, id);
    var full := [id] + rest;
    var h := if |full| > HistoryLimit then full[..HistoryLimit] else full;
    assert NoDup(s.history) ==> NoDup(h) by {
      if NoDup(s.history) {
        MoveToFrontNoDup(s.history, id);
        if |full| > HistoryLimit {
          PrefixNoDup(full, HistoryLimit);
        }
      }
    }
    assert h[1..] <= rest;
    s.(history := h)
  }

  /** Viewing the most recent prompt again changes nothing. */
  lemma {:induction false} AddToHistoryIdempotent(s: AppState, id: string)
    ensures AddToHistory(AddToHistory(s, id), id) == AddToHistory(s, id)
  {
    var h := AddToHistory(s, id).history;
    assert IndexOf(h, id) == 0;
    assert [id] + h[1..] == h;
  }

  // ---------------------------------------------------------------------------
  // Ratings

  /** Some element of a non-empty set, the same one every time. */
  ghost function Pick(keys: set<string>): string
    requires keys != {}
  {
    var k :| k in keys; k
  }

  /** The sum of `f` over a finite set of keys. */
  ghost function SumOver(keys: set<string>, f: string -> int): int
    decreases keys
  {
    if keys == {} then 0 else f(Pick(keys)) + SumOver(keys - {Pick(keys)}, f)
  }

  /** The sum does not depend on which key is taken out first. */
  lemma {:induction false} SumOverRemove(keys: set<string>, f: string -> int, k: string)
    requires k in keys
    ensures SumOver(keys, f) == f(k) + SumOver(keys - {k}, f)
    decreases keys
  {
    var j := Pick(keys);
    if j != k {
      SumOverRemove(keys - {j}, f, k);
      SumOverRemove(keys - {k}, f, j);
      assert keys - {j} - {k} == keys - {k} - {j};
    }
  }

  /** A sum whose terms vanish everywhere except at `id` is that one term. */
  lemma {:induction false} SumOverSingle(keys: set<string>, f: string -> int, id: string)
    requires forall k | k in keys && k != id :: f(k) == 0
    ensures SumOver(keys, f) == if id in keys then f(id) else 0
    decreases keys
  {
    if keys != {} {
      var j := Pick(keys);
      SumOverSingle(keys - {j}, f, id);
    }
  }

  /** The counted rating of entry `k` toward prompt `id`: its value when it is
      a positive rating of that prompt, otherwise nothing. */
  function RatingOf(m: map<string, UserRating>, id: string): string -> int
  {
    k => if k in m && m[k].promptId == id && m[k].rating > 0 then m[k].rating else 0
  }

  /** Whether entry `k` counts toward prompt `id`, as 1 or 0. */
  function CountOf(m: map<string, UserRating>, id: string): string -> int
  {
    k => if k in m && m[k].promptId == id && m[k].rating > 0 then 1 else 0
  }

  /** The mean of the positive ratings stored for prompt `id`, 0 when there are none
      (`ratings.Any() ? ratings.Average(r => r.Rating) : 0`). */
  ghost function MeanRating(m: map<string, UserRating>, id: string): real
  {
    var count := SumOver(m.Keys, CountOf(m, id));
    if count == 0 then 0.0 else SumOver(m.Keys, RatingOf(m, id)) as real / count as real
  }

  /** Computes `MeanRating` by one pass over the stored ratings. */
  method ComputeMeanRating(m: map<string, UserRating>, id: string) returns (avg: real)
    ensures avg == MeanRating(m, id)
  {
    var keys := m.Keys;
    var sum, count := 0, 0;
    while keys != {}
      invariant keys <= m.Keys
      invariant sum + SumOver(keys, RatingOf(m, id)) == SumOver(m.Keys, RatingOf(m, id))
      invariant count + SumOver(keys, CountOf(m, id)) == SumOver(m.Keys, CountOf(m, id))
      decreases keys
    {
      var k :| k in keys;
      SumOverRemove(keys, RatingOf(m, id), k);
      SumOverRemove(keys, CountOf(m, id), k);
      if m[k].promptId == id && m[k].rating > 0 {
        sum, count := sum + m[k].rating, count + 1;
      }
      keys := keys - {k};
    }
    avg := if count == 0 then 0.0 else sum as real / count as real;
  }

  /** Ratings stored under the id of the prompt they rate, as the card and the
      service always store them. */
  predicate KeyedByPrompt(m: map<string, UserRating>)
  {
    forall k | k in m :: m[k].promptId == k
  }

  /** When ratings are keyed by their prompt, the mean for a prompt is just its
      own rating (if positive), so the "average" is the latest rating. */
  lemma {:induction false} MeanOfKeyedRatings(m: map<string, UserRating>, id: string)
    requires KeyedByPrompt(m)
    ensures MeanRating(m, id) == if id in m && m[id].rating > 0 then m[id].rating as real else 0.0
  {
    SumOverSingle(m.Keys, RatingOf(m, id), id);
    SumOverSingle(m.Keys, CountOf(m, id), id);
  }

  /** `SetRatingAsync`: stores the rating under `id`, then sets the average rating
      of the first prompt carrying `id` (if any) to the mean of the stored ratings. */
  method SetRating(s: AppState, id: string, rating: UserRating) returns (r: AppState)
    ensures r.userRatings == s.userRatings[id := rating]
    ensures !Known(s.prompts, id) ==> r.prompts == s.prompts
    ensures Known(s.prompts, id) ==>
      var i := FindIndex(s.prompts, id);
      |r.prompts| == |s.prompts|
      && r.prompts[i] == s.prompts[i].(averageRating := MeanRating(r.userRatings, id))
      && forall j | 0 <= j < |s.prompts| && j != i :: r.prompts[j] == s.prompts[j]
    ensures r == s.(userRatings := r.userRatings, prompts := r.prompts)
  {
    var ratings := s.userRatings[id := rating];
    r := s.(userRatings := ratings);
    if Known(s.prompts, id) {
      var i := FindIndex(s.prompts, id);
      var avg := ComputeMeanRating(ratings, id);
      r := r.(prompts := s.prompts[i := s.prompts[i].(averageRating := avg)]);
    }
  }

  /** With ratings keyed by prompt, rating a known prompt sets its average to
      the new rating when positive and to 0 otherwise. */
  lemma {:induction false} SetRatingOwnAverage(s: AppState, id: string, rating: UserRating, avg: real)
    requires KeyedByPrompt(s.userRatings) && rating.promptId == id
    requires avg == MeanRating(s.userRatings[id := rating], id)
    ensures avg == if rating.rating > 0 then rating.rating as real else 0.0
  {
    MeanOfKeyedRatings(s.userRatings[id := rating], id);
  }

  // ---------------------------------------------------------------------------
  // Add, update, delete, clear

  /** `AddPromptAsync`: stamps a fresh id and the clock reading, appends the
      prompt and recomputes the counts. */
  function AddPrompt(s: AppState, p: Prompt, freshId: string, now: Instant): (r: AppState)
    ensures r.prompts == s.prompts + [p.(id := freshId, createdAt := now, updatedAt := now)]
    ensures r.prompts[|s.prompts|].createdAt == r.prompts[|s.prompts|].updatedAt
    ensures CountsConsistent(r) && SameButCounts(r.categories, s.categories)
    ensures r == s.(prompts := r.prompts, categories := r.categories)
  {
    UpdateCategoryCounts(s.(prompts := s.prompts + [p.(id := freshId, createdAt := now, updatedAt := now)]))
  }

  /** Starting from consistent counts, adding a prompt raises exactly the "all"
      count and the count of the prompt's category, by one each. */
  lemma {:induction false} AddPromptCounts(s: AppState, p: Prompt, freshId: string, now: Instant)
    requires CountsConsistent(s)
    ensures forall i | 0 <= i < |s.categories| ::
      var c := s.categories[i];
      AddPrompt(s, p, freshId, now).categories[i].promptCount
        == c.promptCount + (if c.id == AllId || InCategory(p, c.id) then 1 else 0)
  {
    var q := p.(id := freshId, createdAt := now, updatedAt := now);
    forall i | 0 <= i < |s.categories|
      ensures CategoryCount(s.prompts + [q], s.categories[i].id)
        == s.categories[i].promptCount + (if s.categories[i].id == AllId || InCategory(p, s.categories[i].id) then 1 else 0)
    {
      CategoryCountAppend(s.prompts, q, s.categories[i].id);
    }
  }

  /** `UpdatePromptAsync`: replaces the first prompt with the same id, stamping
      the clock reading, and recomputes the counts; an unknown id changes nothing. */
  function UpdatePrompt(s: AppState, p: Prompt, now: Instant): (r: AppState)
    ensures !Known(s.prompts, p.id) ==> r == s
    ensures Known(s.prompts, p.id) ==>
      var i := FindIndex(s.prompts, p.id);
      |r.prompts| == |s.prompts| && r.prompts[i] == p.(updatedAt := now)
      && (forall j | 0 <= j < |s.prompts| && j != i :: r.prompts[j] == s.prompts[j])
      && CountsConsistent(r) && SameButCounts(r.categories, s.categories)
      && r == s.(prompts := r.prompts, categories := r.categories)
  {
    if Known(s.prompts, p.id) then
      var i := FindIndex(s.prompts, p.id);
      UpdateCategoryCounts(s.(prompts := s.prompts[i := p.(updatedAt := now)]))
    else s
  }

  /** An update never changes which ids the catalog holds, nor where. */
  lemma {:induction false} UpdatePromptKeepsIds(s: AppState, p: Prompt, now: Instant)
    ensures Ids(UpdatePrompt(s, p, now).prompts) == Ids(s.prompts)
  {
  }

  /** `DeletePromptAsync`: removes the first prompt carrying `id`, the first copy of
      `id` in the favorites and the rating stored under `id`, and recomputes the
      counts; an unknown id changes nothing. */
  function DeletePrompt(s: AppState, id: string): (r: AppState)
    ensures !Known(s.prompts, id) ==> r == s
    ensures Known(s.prompts, id) ==>
      var i := FindIndex(s.prompts, id);
      r.prompts == s.prompts[..i] + s.prompts[i + 1..]
      && r.favorites == RemoveFirst(s.favorites, id)
      && r.userRatings == s.userRatings - {id}
      && CountsConsistent(r) && SameButCounts(r.categories, s.categories)
      && r == s.(prompts := r.prompts, favorites := r.favorites, userRatings := r.userRatings, categories := r.categories)
  {
    if Known(s.prompts, id) then
      var i := FindIndex(s.prompts, id);
      UpdateCategoryCounts(s.(prompts := s.prompts[..i] + s.prompts[i + 1..],
                              favorites := RemoveFirst(s.favorites, id),
                              userRatings := s.userRatings - {id}))
    else s
  }

  /** With unique prompt ids and favorites, a deleted prompt leaves no trace:
      it is gone from the catalog, the favorites and the ratings. */
  lemma {:induction false} DeletePromptLeavesNoTrace(s: AppState, id: string)
    requires NoDup(Ids(s.prompts)) && NoDup(s.favorites) && Known(s.prompts, id)
    ensures !Known(DeletePrompt(s, id).prompts, id)
    ensures id !in DeletePrompt(s, id).favorites && id !in DeletePrompt(s, id).userRatings
    ensures |DeletePrompt(s, id).prompts| == |s.prompts| - 1
  {
    var i := FindIndex(s.prompts, id);
    var r := DeletePrompt(s, id).prompts;
    RemoveFirstNoDup(s.favorites, id);
  }

  /** Deleting a freshly added prompt gives back the catalog, favorites and
      ratings as they were before the add. */
  lemma {:induction false} DeleteUndoesAdd(s: AppState, p: Prompt, freshId: string, now: Instant)
    requires !Known(s.prompts, freshId)
    ensures DeletePrompt(AddPrompt(s, p, freshId, now), freshId).prompts == s.prompts
  {
    var a := AddPrompt(s, p, freshId, now);
    assert a.prompts[|s.prompts|].id == freshId;
    assert Known(a.prompts, freshId);
    var i := FindIndex(a.prompts, freshId);
    assert a.prompts[..i] == s.prompts;
  }

  /** `ClearDataAsync`: empties the prompts, favorites, ratings and history;
      categories, including their counts, are left as they were. */
  function ClearData(s: AppState): (r: AppState)
    ensures r.prompts == [] && r.favorites == [] && r.userRatings == map[] && r.history == []
    ensures r.categories == s.categories
    ensures r == s.(prompts := [], favorites := [], userRatings := map[], history := [])
  {
    s.(prompts := [], favorites := [], userRatings := map[], history := [])
  }

  /** After clearing, every derived list is empty. */
  lemma {:induction false} ClearDataEmptiesViews(s: AppState)
    ensures FilteredPrompts(ClearData(s)) == []
    ensures GetFavorites(ClearData(s)) == [] && GetHistory(ClearData(s)) == []
  {
    var r := ClearData(s);
    assert |multiset(FilteredPrompts(r))| == 0;
  }

  // ---------------------------------------------------------------------------
  // Theme

  /** `ToggleThemeAsync`: "light" becomes "dark", anything else becomes "light". */
  function ToggleTheme(s: AppState): (r: AppState)
    ensures r.theme in {"light", "dark"} && r.theme != s.theme
    ensures s.theme != "light" ==> r.theme == "light"
    ensures r == s.(theme := r.theme)
  {
    s.(theme := if s.theme == "light" then "dark" else "light")
  }

  /** Toggling twice is the identity exactly for the two known themes. */
  lemma {:induction false} ToggleThemeTwice(s: AppState)
    ensures ToggleTheme(ToggleTheme(s)) == s <==> s.theme in {"light", "dark"}
  {
  }
}
