/** Comma-separated lists typed by the user: tags in the create and generator
    forms, options of a multi-option placeholder. */
module CommaList {
  import opened Strings

  /** `input.Split(',', RemoveEmptyEntries).Select(t => t.Trim())`: empty
      pieces are dropped before trimming, so a piece of only white space
      survives as an empty entry. */
  function ParseCommaList(input: string): (items: seq<string>)
    ensures |items| <= |input|
    ensures forall i | 0 <= i < |items| :: ',' !in items[i]
    ensures forall i | 0 <= i < |items| :: |items[i]| == 0 || (!IsWhiteSpace(items[i][0]) && !IsWhiteSpace(items[i][|items[i]| - 1]))
  {
    var pieces := SplitNonEmpty(input, ',');
    PiecesFewerThanChars(input);
    seq(|pieces|, i requires 0 <= i < |pieces| =>
      assert Contains(pieces[i], Trim(pieces[i]));
      Trim(pieces[i]))
  }

  /** There are no more non-empty pieces than characters. */
  lemma {:induction false} PiecesFewerThanChars(input: string)
    ensures |SplitNonEmpty(input, ',')| <= |input|
  {
    var parts := SplitAll(input, ',');
    NonEmptyFewerThanChars(parts, ',');
  }

  /** The non-empty pieces of a join are no more than its characters. */
  lemma {:induction false} NonEmptyFewerThanChars(parts: seq<string>, sep: char)
    requires |parts| >= 1
    ensures |NonEmpty(parts)| <= |Join([sep], parts)|
    decreases |parts|
  {
    if |parts| > 1 {
      NonEmptyFewerThanChars(parts[1..], sep);
      assert |Join([sep], parts)| == |parts[0]| + 1 + |Join([sep], parts[1..])|;
    }
  }

  /** An item that can be typed into a list and read back unchanged: not
      blank, no surrounding white space, no comma. */
  predicate Typeable(item: string)
  {
    |item| > 0 && !IsWhiteSpace(item[0]) && !IsWhiteSpace(item[|item| - 1]) && ',' !in item
  }

  /** Reading back a comma-joined list of typeable items gives the items. */
  lemma {:induction false} ParseJoined(items: seq<string>)
    requires forall i | 0 <= i < |items| :: Typeable(items[i])
    ensures ParseCommaList(Join(",", items)) == items
  {
    assert "," == [','];
    SplitNonEmptyJoin(items, ',');
    forall i | 0 <= i < |items|
      ensures Trim(items[i]) == items[i]
    {
      TrimOfTrimmed(items[i]);
    }
  }

  /** The entries are the trimmed non-empty pieces, one for one. */
  lemma {:induction false} ParsePieces(input: string)
    ensures |ParseCommaList(input)| == |SplitNonEmpty(input, ',')|
    ensures forall i | 0 <= i < |ParseCommaList(input)| ::
              ParseCommaList(input)[i] == Trim(SplitNonEmpty(input, ',')[i])
  {
  }

  /** A piece of only white space is kept, as an empty entry in its place. */
  lemma {:induction false} BlankPieceKept(pieces: seq<string>, i: nat)
    requires forall k | 0 <= k < |pieces| :: |pieces[k]| > 0 && ',' !in pieces[k]
    requires i < |pieces| && IsBlank(pieces[i])
    ensures |ParseCommaList(Join(",", pieces))| == |pieces|
    ensures ParseCommaList(Join(",", pieces))[i] == ""
  {
    assert "," == [','];
    SplitNonEmptyJoin(pieces, ',');
    ParsePieces(Join(",", pieces));
  }
}
