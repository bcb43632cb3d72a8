/** The read-only views `PromptService` derives from the state: the filtered and
    sorted prompt list, the favorites list and the history list. */
module CatalogView {
  import opened Optional
  import opened Seqs
  import opened Subsequences
  import opened Strings
  import opened StableSort
  import opened Models

  /** One text field matches the (already lower-cased) query. */
  predicate FieldMatches(field: string, query: string)
  {
    field != "" && Contains(ToLower(field), query)
  }

  /** Some tag matches the (already lower-cased) query. */
  predicate SomeTagMatches(tags: seq<string>, query: string)
  {
    exists i | 0 <= i < |tags| :: FieldMatches(tags[i], query)
  }

  /** The search test: title, content, description or a tag contains the query. */
  predicate MatchesSearch(p: Prompt, query: string)
  {
    FieldMatches(p.title, query) || FieldMatches(p.content, query)
    || FieldMatches(p.description, query) || SomeTagMatches(p.tags, query)
  }

  /** Whether `p` passes every filter the state has switched on. */
  predicate Visible(s: AppState, p: Prompt)
  {
    && (s.selectedCategory == AllId || InCategory(p, s.selectedCategory))
    && (s.searchQuery == "" || MatchesSearch(p, ToLower(s.searchQuery)))
    && (!s.showFavoritesOnly || p.id in s.favorites)
  }

  /** `Visible` for a fixed state, as a filter argument. */
  function VisibleIn(s: AppState): Prompt -> bool
  {
    p => Visible(s, p)
  }

  /** Stage 1: the category filter, skipped for "all". */
  function ByCategory(ps: seq<Prompt>, selected: string): (r: seq<Prompt>)
  {
    if selected == AllId then ps else Filter(ps, p => InCategory(p, selected))
  }

  /** Stage 2: the search filter, skipped for an empty query. */
  function BySearch(ps: seq<Prompt>, searchQuery: string): (r: seq<Prompt>)
  {
    if searchQuery == "" then ps
    else
      var query := ToLower(searchQuery);
      Filter(ps, p => MatchesSearch(p, query))
  }

  /** Stage 3: the favorites-only filter. */
  function ByFavorites(ps: seq<Prompt>, favorites: seq<string>, only: bool): (r: seq<Prompt>)
  {
    if only then Filter(ps, (p: Prompt) => p.id in favorites) else ps
  }

  /** The sort order selected by `SortBy`: title ascending (ordinal) for "name",
      average rating descending for "rating", creation time descending otherwise. */
  function PromptOrder(sortBy: string): (Prompt, Prompt) -> bool
  {
    if sortBy == "name" then (a: Prompt, b: Prompt) => OrdinalLess(a.title, b.title)
    else if sortBy == "rating" then (a: Prompt, b: Prompt) => a.averageRating > b.averageRating
    else (a: Prompt, b: Prompt) => a.createdAt > b.createdAt
  }

  /** Every sort mode orders prompts by a key with a total order, so a stable sort applies. */
  lemma {:induction false} PromptOrderIsStrictWeak(sortBy: string)
    ensures StrictWeakOrder(PromptOrder(sortBy))
  {
    var lt := PromptOrder(sortBy);
    if sortBy == "name" {
      forall a: Prompt
        ensures !lt(a, a)
      {
        OrdinalLessIrreflexive(a.title);
      }
      forall a: Prompt, b: Prompt, c: Prompt | lt(a, b) && lt(b, c)
        ensures lt(a, c)
      {
        OrdinalLessTransitive(a.title, b.title, c.title);
      }
      forall a: Prompt, b: Prompt, c: Prompt | lt(a, c)
        ensures lt(a, b) || lt(b, c)
      {
        OrdinalLessTotal(a.title, b.title);
        if b.title != a.title && !lt(a, b) {
          OrdinalLessTransitive(b.title, a.title, c.title);
        }
      }
    }
  }

  /** Filtering twice is filtering once by the conjunction. */
  lemma {:induction false} FilterFilter<T(!new)>(s: seq<T>, k1: T -> bool, k2: T -> bool, k: T -> bool)
    requires forall x :: k(x) == (k1(x) && k2(x))
    ensures Filter(Filter(s, k1), k2) == Filter(s, k)
  {
    if |s| > 0 {
      var x, t := s[0], s[1..];
      FilterFilter(t, k1, k2, k);
      assert Filter(s, k) == (if k(x) then [x] else []) + Filter(t, k);
      assert k(x) == (k1(x) && k2(x));
      if k1(x) {
        assert Filter(s, k1) == [x] + Filter(t, k1);
        FilterCons(x, Filter(t, k1), k2);
      } else {
        assert Filter(s, k1) == Filter(t, k1);
      }
    }
  }

  /** Taking a tie group commutes with filtering. */
  lemma {:induction false} PeersFilter<T(!new)>(s: seq<T>, keep: T -> bool, q: T, lt: (T, T) -> bool)
    ensures Peers(Filter(s, keep), q, lt) == Filter(Peers(s, q, lt), keep)
  {
    if |s| > 0 {
      var x, t := s[0], s[1..];
      PeersFilter(t, keep, q, lt);
      assert Peers(s, q, lt) == (if Tied(lt, x, q) then [x] else []) + Peers(t, q, lt);
      if keep(x) {
        assert Filter(s, keep) == [x] + Filter(t, keep);
        PeersCons(x, Filter(t, keep), q, lt);
      } else {
        assert Filter(s, keep) == Filter(t, keep);
      }
      if Tied(lt, x, q) {
        FilterCons(x, Peers(t, q, lt), keep);
      } else {
        assert Peers(s, q, lt) == Peers(t, q, lt);
      }
    }
  }

  /** The three filter stages together keep exactly the visible prompts, in order. */
  lemma {:induction false} StagesAreVisible(s: AppState)
    ensures ByFavorites(BySearch(ByCategory(s.prompts, s.selectedCategory), s.searchQuery), s.favorites, s.showFavoritesOnly)
            == Filter(s.prompts, VisibleIn(s))
  {
    var sel := s.selectedCategory;
    var q := s.searchQuery;
    var query := ToLower(q);
    var kc := (p: Prompt) => InCategory(p, sel);
    var ks := (p: Prompt) => MatchesSearch(p, query);
    var kf := (p: Prompt) => p.id in s.favorites;
    var c1 := (p: Prompt) => sel == AllId || InCategory(p, sel);
    var c2 := (p: Prompt) => c1(p) && (q == "" || MatchesSearch(p, query));
    var c3 := VisibleIn(s);
    var all := (p: Prompt) => true;
    FilterAll(s.prompts, all);
    var s1 := ByCategory(s.prompts, sel);
    if sel == AllId {
      FilterFilter(s.prompts, all, all, c1);
    } else {
      FilterFilter(s.prompts, all, kc, c1);
    }
    assert s1 == Filter(s.prompts, c1);
    var s2 := BySearch(s1, q);
    if q == "" {
      FilterFilter(s.prompts, c1, all, c2);
      FilterAll(s1, all);
    } else {
      FilterFilter(s.prompts, c1, ks, c2);
    }
    assert s2 == Filter(s.prompts, c2);
    if s.showFavoritesOnly {
      FilterFilter(s.prompts, c2, kf, c3);
    } else {
      FilterFilter(s.prompts, c2, all, c3);
      FilterAll(s2, all);
    }
  }

  /** Filtering by a test everything passes changes nothing. */
  lemma {:induction false} FilterAll<T(!new)>(s: seq<T>, keep: T -> bool)
    requires forall x :: keep(x)
    ensures Filter(s, keep) == s
  {
    if |s| > 0 {
      FilterAll(s[1..], keep);
    }
  }

  /** The `FilteredPrompts` property: category filter, search filter and
      favorites filter in that order, then a stable sort by the selected mode.
      The result holds exactly the visible prompts (with their multiplicities),
      in sort order, and prompts with equal sort keys keep their catalog order. */
  function FilteredPrompts(s: AppState): (r: seq<Prompt>)
    ensures multiset(r) == multiset(Filter(s.prompts, VisibleIn(s)))
    ensures Sorted(r, PromptOrder(s.sortBy))
    ensures forall q :: Peers(r, q, PromptOrder(s.sortBy)) == Filter(Peers(s.prompts, q, PromptOrder(s.sortBy)), VisibleIn(s))
  {
    var staged := ByFavorites(BySearch(ByCategory(s.prompts, s.selectedCategory), s.searchQuery), s.favorites, s.showFavoritesOnly);
    StagesAreVisible(s);
    PromptOrderIsStrictWeak(s.sortBy);
    var r := Sort(staged, PromptOrder(s.sortBy));
    forall q
      ensures Peers(r, q, PromptOrder(s.sortBy)) == Filter(Peers(s.prompts, q, PromptOrder(s.sortBy)), VisibleIn(s))
    {
      PeersFilter(s.prompts, VisibleIn(s), q, PromptOrder(s.sortBy));
    }
    r
  }

  /** A prompt is listed exactly when it is in the catalog and visible. */
  lemma {:induction false} FilteredPromptsMembers(s: AppState, p: Prompt)
    ensures p in FilteredPrompts(s) <==> p in s.prompts && Visible(s, p)
  {
    var r := FilteredPrompts(s);
    FilterMembers(s.prompts, VisibleIn(s), p);
    assert p in r <==> p in multiset(r);
  }

  /** With no filter switched on, the listing is a reordering of the whole catalog. */
  lemma {:induction false} FilteredPromptsUnfiltered(s: AppState)
    requires s.selectedCategory == AllId && s.searchQuery == "" && !s.showFavoritesOnly
    ensures multiset(FilteredPrompts(s)) == multiset(s.prompts)
  {
    FilterAll(s.prompts, VisibleIn(s));
  }

  /** `GetFavoritesAsync`: the catalog's prompts whose id is a favorite, in catalog order. */
  function GetFavorites(s: AppState): (r: seq<Prompt>)
    ensures forall p :: p in r <==> p in s.prompts && p.id in s.favorites
    ensures forall p :: multiset(r)[p] == if p.id in s.favorites then multiset(s.prompts)[p] else 0
    ensures Subsequence(r, s.prompts)
  {
    var keep := (p: Prompt) => p.id in s.favorites;
    forall p ensures p in Filter(s.prompts, keep) <==> p in s.prompts && p.id in s.favorites {
      FilterMembers(s.prompts, keep, p);
    }
    FilterMultiset(s.prompts, keep);
    FilterSubsequence(s.prompts, keep);
    Filter(s.prompts, keep)
  }

  /** Some prompt of the catalog carries `id`. */
  predicate Known(ps: seq<Prompt>, id: string)
  {
    exists i | 0 <= i < |ps| :: ps[i].id == id
  }

  /** `FirstOrDefault(p => p.Id == id)`. */
  function FindPrompt(ps: seq<Prompt>, id: string): (r: Option<Prompt>)
    ensures r.None? <==> !Known(ps, id)
    ensures r.Some? ==> r.value in ps && r.value.id == id
    ensures r.Some? ==> exists i | 0 <= i < |ps| :: ps[i] == r.value && forall j | 0 <= j < i :: ps[j].id != id
  {
    if |ps| == 0 then None
    else if ps[0].id == id then Some(ps[0])
    else
      var r := FindPrompt(ps[1..], id);
      assert Known(ps, id) <==> Known(ps[1..], id) by {
        if Known(ps, id) {
          var i :| 0 <= i < |ps| && ps[i].id == id;
          assert ps[1..][i - 1].id == id;
        }
        if Known(ps[1..], id) {
          var i :| 0 <= i < |ps| - 1 && ps[1..][i].id == id;
          assert ps[i + 1].id == id;
        }
      }
      if r.Some? then
        var i :| 0 <= i < |ps[1..]| && ps[1..][i] == r.value && forall j | 0 <= j < i :: ps[1..][j].id != id;
        assert ps[i + 1] == r.value && forall j | 0 <= j < i + 1 :: ps[j].id != id;
        r
      else r
  }

  /** The ids of a list of prompts. */
  function Ids(ps: seq<Prompt>): (r: seq<string>)
    ensures |r| == |ps|
    ensures forall i | 0 <= i < |ps| :: r[i] == ps[i].id
  {
    seq(|ps|, i requires 0 <= i < |ps| => ps[i].id)
  }

  /** The ids of a prompt followed by a list. */
  lemma {:induction false} IdsCons(p: Prompt, ps: seq<Prompt>)
    ensures Ids([p] + ps) == [p.id] + Ids(ps)
  {
    var l, r := Ids([p] + ps), [p.id] + Ids(ps);
    assert |l| == |r|;
    forall i | 0 <= i < |l|
      ensures l[i] == r[i]
    {
      if i > 0 {
        assert ([p] + ps)[i] == ps[i - 1];
      }
    }
  }

  /** "The catalog knows this id", as a filter argument. */
  function KnownIn(ps: seq<Prompt>): string -> bool
  {
    id => Known(ps, id)
  }

  /** `GetHistoryAsync`: each history id mapped to its prompt, unknown ids dropped.
      The result's ids are exactly the known history ids, in history order. */
  function GetHistory(s: AppState): (r: seq<Prompt>)
    ensures Ids(r) == Filter(s.history, KnownIn(s.prompts))
    ensures forall p | p in r :: p in s.prompts
    ensures forall i | 0 <= i < |r| :: FindPrompt(s.prompts, r[i].id) == Some(r[i])
  {
    HistoryPrompts(s.history, s.prompts)
  }

  /** The history lookup, one id at a time. */
  function HistoryPrompts(history: seq<string>, ps: seq<Prompt>): (r: seq<Prompt>)
    ensures Ids(r) == Filter(history, KnownIn(ps))
    ensures forall p | p in r :: p in ps
    ensures forall i | 0 <= i < |r| :: FindPrompt(ps, r[i].id) == Some(r[i])
  {
    if |history| == 0 then []
    else
      var rest := HistoryPrompts(history[1..], ps);
      FilterCons(history[0], history[1..], KnownIn(ps));
      assert [history[0]] + history[1..] == history;
      match FindPrompt(ps, history[0])
      case None => rest
      case Some(p) =>
        IdsCons(p, rest);
        FoundCons(p, rest, ps);
        [p] + rest
  }

  /** Looking up the id of each prompt of a list finds that very prompt, if
      it does so for the head and for every prompt of the tail. */
  lemma {:induction false} FoundCons(p: Prompt, rest: seq<Prompt>, ps: seq<Prompt>)
    requires FindPrompt(ps, p.id) == Some(p)
    requires forall i | 0 <= i < |rest| :: FindPrompt(ps, rest[i].id) == Some(rest[i])
    ensures forall i | 0 <= i < |[p] + rest| :: FindPrompt(ps, ([p] + rest)[i].id) == Some(([p] + rest)[i])
  {
    var q := [p] + rest;
    forall i | 0 <= i < |q|
      ensures FindPrompt(ps, q[i].id) == Some(q[i])
    {
      if i == 0 {
        assert q[i] == p;
      } else {
        assert q[i] == rest[i - 1];
      }
    }
  }
}
