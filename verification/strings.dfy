/** The `System.String` operations the application relies on, with .NET semantics
    where they are culture-independent and ASCII case mapping where they are not. */
module Strings {

  /** `char.IsWhiteSpace`: the Unicode space separators, line and paragraph
      separators, and the control characters U+0009..U+000D, U+0085. */
  predicate IsWhiteSpace(c: char)
  {
    || ('\t' <= c <= '\r')
    || c == ' '
    || c == '\U{0085}'
    || c == '\U{00A0}'
    || c == '\U{1680}'
    || ('\U{2000}' <= c <= '\U{200A}')
    || c == '\U{2028}'
    || c == '\U{2029}'
    || c == '\U{202F}'
    || c == '\U{205F}'
    || c == '\U{3000}'
  }

  /** `string.IsNullOrWhiteSpace` (strings are never null in this model). */
  predicate IsBlank(s: string)
  {
    forall i | 0 <= i < |s| :: IsWhiteSpace(s[i])
  }

  /** `s` occurs in `text` starting at position `k`. */
  predicate OccursAt(text: string, s: string, k: nat)
  {
    k + |s| <= |text| && text[k..k + |s|] == s
  }

  /** `s` occurs in `text` at some position (`string.Contains`, ordinal). */
  predicate Contains(text: string, s: string)
  {
    exists k: nat | k <= |text| - |s| :: OccursAt(text, s, k)
  }

  /** What a suffix of `text` contains, `text` contains too. */
  lemma {:induction false} ContainsSuffix(text: string, d: nat, s: string)
    requires d <= |text| && Contains(text[d..], s)
    ensures Contains(text, s)
  {
    var k: nat :| k <= |text[d..]| - |s| && OccursAt(text[d..], s, k);
    assert text[d..][k..k + |s|] == text[k + d..k + d + |s|];
    assert OccursAt(text, s, k + d);
  }

  /** `TrimStart()`: drops the leading white space. */
  function TrimStart(s: string): (r: string)
    ensures |r| <= |s| && r == s[|s| - |r|..]
    ensures |r| > 0 ==> !IsWhiteSpace(r[0])
    ensures forall i | 0 <= i < |s| - |r| :: IsWhiteSpace(s[i])
  {
    if |s| > 0 && IsWhiteSpace(s[0]) then TrimStart(s[1..]) else s
  }

  /** `TrimEnd()`: drops the trailing white space. */
  function TrimEnd(s: string): (r: string)
    ensures |r| <= |s| && r == s[..|r|]
    ensures |r| > 0 ==> !IsWhiteSpace(r[|r| - 1])
    ensures forall i | |r| <= i < |s| :: IsWhiteSpace(s[i])
  {
    if |s| > 0 && IsWhiteSpace(s[|s| - 1]) then TrimEnd(s[..|s| - 1]) else s
  }

  /** `Trim()`: the part of `s` between its leading and trailing white space. */
  function Trim(s: string): (r: string)
    ensures Contains(s, r)
    ensures |r| == 0 <==> IsBlank(s)
    ensures |r| > 0 ==> !IsWhiteSpace(r[0]) && !IsWhiteSpace(r[|r| - 1])
  {
    var t := TrimStart(s);
    var r := TrimEnd(t);
    assert s[|s| - |t|..][..|r|] == r;
    assert OccursAt(s, r, |s| - |t|);
    assert |r| == 0 ==> |t| == 0;
    r
  }

  /** Trimming a trimmed string changes nothing. */
  lemma {:induction false} TrimIdempotent(s: string)
    ensures Trim(Trim(s)) == Trim(s)
  {
    var r := Trim(s);
    assert TrimStart(r) == r;
    assert TrimEnd(r) == r;
  }

  /** `TrimStart(c)`: drops the leading copies of `c`. */
  function TrimStartChar(s: string, c: char): (r: string)
    ensures |r| <= |s| && r == s[|s| - |r|..]
    ensures |r| > 0 ==> r[0] != c
    ensures forall i | 0 <= i < |s| - |r| :: s[i] == c
  {
    if |s| > 0 && s[0] == c then TrimStartChar(s[1..], c) else s
  }

  /** Lower-case mapping of one character; only ASCII letters change. */
  function LowerChar(c: char): char
  {
    if 'A' <= c <= 'Z' then (c as int + 32) as char else c
  }

  /** `ToLower()` with ASCII case mapping, one character at a time. */
  function ToLower(s: string): (r: string)
    ensures |r| == |s|
    ensures forall i | 0 <= i < |s| :: r[i] == LowerChar(s[i])
  {
    seq(|s|, i requires 0 <= i < |s| => LowerChar(s[i]))
  }

  /** Lower-casing leaves no ASCII capital, so doing it again changes nothing;
      it never turns a white-space character into another one or back. */
  lemma {:induction false} ToLowerFacts(s: string)
    ensures ToLower(ToLower(s)) == ToLower(s)
    ensures forall i | 0 <= i < |s| :: !('A' <= ToLower(s)[i] <= 'Z')
    ensures forall i | 0 <= i < |s| :: IsWhiteSpace(ToLower(s)[i]) <==> IsWhiteSpace(s[i])
  {
  }

  /** `StartsWith(prefix, StringComparison.OrdinalIgnoreCase)` with ASCII case folding. */
  predicate StartsWithIgnoreCase(s: string, prefix: string)
  {
    |prefix| <= |s| && ToLower(s[..|prefix|]) == ToLower(prefix)
  }

  /** `string.Replace(a, b)` for one-character `a` and `b`. */
  function ReplaceChar(s: string, a: char, b: char): (r: string)
    ensures |r| == |s|
    ensures a != b ==> a !in r
    ensures forall i | 0 <= i < |s| :: s[i] != a ==> r[i] == s[i]
  {
    seq(|s|, i requires 0 <= i < |s| => if s[i] == a then b else s[i])
  }

  /** `string.Join(sep, parts)`. */
  function Join(sep: string, parts: seq<string>): string
  {
    if |parts| == 0 then ""
    else if |parts| == 1 then parts[0]
    else parts[0] + sep + Join(sep, parts[1..])
  }

  /** `s.Split(sep)`: the pieces between separators, empty ones included;
      joining them back with the separator gives `s` again. */
  function SplitAll(s: string, sep: char): (parts: seq<string>)
    ensures |parts| >= 1
    ensures forall i | 0 <= i < |parts| :: sep !in parts[i]
    ensures Join([sep], parts) == s
  {
    if |s| == 0 then [""]
    else
      var rest := SplitAll(s[1..], sep);
      if s[0] == sep then
        assert s == [sep] + s[1..];
        [""] + rest
      else
        var parts := [[s[0]] + rest[0]] + rest[1..];
        assert parts[1..] == rest[1..];
        assert Join([sep], parts) == [s[0]] + Join([sep], rest);
        assert s == [s[0]] + s[1..];
        parts
  }

  /** Splitting a separator-free piece followed by the separator peels that piece off. */
  lemma {:induction false} SplitAllPiece(w: string, t: string, sep: char)
    requires sep !in w
    ensures SplitAll(w + [sep] + t, sep) == [w] + SplitAll(t, sep)
    decreases |w|
  {
    if |w| == 0 {
      assert w + [sep] + t == [sep] + t;
      assert ([sep] + t)[1..] == t;
    } else {
      assert (w + [sep] + t)[1..] == w[1..] + [sep] + t;
      SplitAllPiece(w[1..], t, sep);
      assert [w[0]] + w[1..] == w;
    }
  }

  /** A separator-free string splits into itself alone. */
  lemma {:induction false} SplitAllWhole(w: string, sep: char)
    requires sep !in w
    ensures SplitAll(w, sep) == [w]
    decreases |w|
  {
    if |w| > 0 {
      SplitAllWhole(w[1..], sep);
      assert [w[0]] + w[1..] == w;
    }
  }

  /** Split inverts Join when no piece contains the separator. */
  lemma {:induction false} SplitJoin(parts: seq<string>, sep: char)
    requires |parts| >= 1
    requires forall i | 0 <= i < |parts| :: sep !in parts[i]
    ensures SplitAll(Join([sep], parts), sep) == parts
    decreases |parts|
  {
    if |parts| == 1 {
      SplitAllWhole(parts[0], sep);
    } else {
      SplitJoin(parts[1..], sep);
      SplitAllPiece(parts[0], Join([sep], parts[1..]), sep);
      assert parts == [parts[0]] + parts[1..];
    }
  }

  /** The non-empty members of `parts`, in order. */
  function NonEmpty(parts: seq<string>): (r: seq<string>)
    ensures |r| <= |parts|
    ensures forall i | 0 <= i < |r| :: |r[i]| > 0 && r[i] in parts
  {
    if |parts| == 0 then []
    else if |parts[0]| == 0 then NonEmpty(parts[1..])
    else [parts[0]] + NonEmpty(parts[1..])
  }

  /** `s.Split(sep, StringSplitOptions.RemoveEmptyEntries)`. */
  function SplitNonEmpty(s: string, sep: char): (r: seq<string>)
    ensures forall i | 0 <= i < |r| :: |r[i]| > 0 && sep !in r[i]
  {
    NonEmpty(SplitAll(s, sep))
  }

  /** Splitting a join of non-empty, separator-free pieces (dropping empty
      entries) returns the pieces, the empty list included. */
  lemma {:induction false} SplitNonEmptyJoin(parts: seq<string>, sep: char)
    requires forall i | 0 <= i < |parts| :: |parts[i]| > 0 && sep !in parts[i]
    ensures SplitNonEmpty(Join([sep], parts), sep) == parts
  {
    if |parts| > 0 {
      SplitJoin(parts, sep);
      NonEmptyKeepsAll(parts);
    }
  }

  /** A list with no empty member is its own non-empty part. */
  lemma {:induction false} NonEmptyKeepsAll(parts: seq<string>)
    requires forall i | 0 <= i < |parts| :: |parts[i]| > 0
    ensures NonEmpty(parts) == parts
  {
    if |parts| > 0 {
      NonEmptyKeepsAll(parts[1..]);
    }
  }

  /** `string.Equals(a, b, StringComparison.OrdinalIgnoreCase)` with ASCII case folding. */
  predicate EqualsIgnoreCase(a: string, b: string)
  {
    ToLower(a) == ToLower(b)
  }

  /** A string without ASCII capitals is its own lower-case form. */
  lemma {:induction false} ToLowerOfLower(s: string)
    requires forall i | 0 <= i < |s| :: !('A' <= s[i] <= 'Z')
    ensures ToLower(s) == s
  {
  }

  /** A string whose ends are not white space is its own trim. */
  lemma {:induction false} TrimOfTrimmed(s: string)
    requires |s| > 0 && !IsWhiteSpace(s[0]) && !IsWhiteSpace(s[|s| - 1])
    ensures Trim(s) == s
  {
    assert TrimStart(s) == s;
  }

  /** Join with one more part at the end. */
  lemma {:induction false} JoinSnoc(sep: string, parts: seq<string>, p: string)
    requires |parts| >= 1
    ensures Join(sep, parts + [p]) == Join(sep, parts) + sep + p
    decreases |parts|
  {
    if |parts| > 1 {
      JoinSnoc(sep, parts[1..], p);
      assert (parts + [p])[1..] == parts[1..] + [p];
    } else {
      assert (parts + [p])[1..] == [p];
    }
  }

  /** Every character of a joined string comes from a part or the separator. */
  lemma {:induction false} JoinChars(sep: string, parts: seq<string>, c: char)
    requires c !in sep && forall i | 0 <= i < |parts| :: c !in parts[i]
    ensures c !in Join(sep, parts)
    decreases |parts|
  {
    if |parts| > 1 {
      JoinChars(sep, parts[1..], c);
    }
  }

  /** Every character of a part occurs in the joined string. */
  lemma {:induction false} JoinContains(sep: string, parts: seq<string>, i: nat, c: char)
    requires i < |parts| && c in parts[i]
    ensures c in Join(sep, parts)
    decreases |parts|
  {
    if |parts| > 1 && i > 0 {
      JoinContains(sep, parts[1..], i - 1, c);
    }
  }

  /** A join starts with the first part, when that part is not empty. */
  lemma {:induction false} JoinFirst(sep: string, parts: seq<string>)
    requires |parts| >= 1 && |parts[0]| > 0
    ensures |Join(sep, parts)| > 0 && Join(sep, parts)[0] == parts[0][0]
  {
  }

  /** A join ends with the last part, when that part is not empty. */
  lemma {:induction false} JoinLast(sep: string, parts: seq<string>)
    requires |parts| >= 1 && |parts[|parts| - 1]| > 0
    ensures |Join(sep, parts)| > 0
    ensures Join(sep, parts)[|Join(sep, parts)| - 1] == parts[|parts| - 1][|parts[|parts| - 1]| - 1]
  {
    if |parts| > 1 {
      var init := parts[..|parts| - 1];
      JoinSnoc(sep, init, parts[|parts| - 1]);
      assert init + [parts[|parts| - 1]] == parts;
    }
  }

  /** Dropping empty parts commutes with appending a part. */
  lemma {:induction false} NonEmptySnoc(parts: seq<string>, p: string)
    ensures NonEmpty(parts + [p]) == NonEmpty(parts) + (if |p| > 0 then [p] else [])
    decreases |parts|
  {
    if |parts| == 0 {
      assert parts + [p] == [p];
      assert [p][1..] == [];
    } else {
      NonEmptySnoc(parts[1..], p);
      assert (parts + [p])[1..] == parts[1..] + [p];
    }
  }

  /** A string not starting with the separator splits into a first piece that
      starts with the same character. */
  lemma {:induction false} SplitAllFirst(s: string, sep: char)
    requires |s| > 0 && s[0] != sep
    ensures |SplitAll(s, sep)[0]| > 0 && SplitAll(s, sep)[0][0] == s[0]
  {
  }

  /** A string not ending with the separator splits into a last piece that
      ends with the same character. */
  lemma {:induction false} SplitAllLast(s: string, sep: char)
    requires |s| > 0 && s[|s| - 1] != sep
    ensures var parts := SplitAll(s, sep);
      |parts[|parts| - 1]| > 0 && parts[|parts| - 1][|parts[|parts| - 1]| - 1] == s[|s| - 1]
    decreases |s|
  {
    if |s| > 1 {
      SplitAllLast(s[1..], sep);
    }
  }

  /** Ordinal string order: lexicographic on character codes (`string.CompareOrdinal(a, b) < 0`). */
  predicate OrdinalLess(a: string, b: string)
  {
    if |a| == 0 then |b| > 0
    else |b| > 0 && (a[0] < b[0] || (a[0] == b[0] && OrdinalLess(a[1..], b[1..])))
  }

  /** No string is ordinally below itself. */
  lemma {:induction false} OrdinalLessIrreflexive(a: string)
    ensures !OrdinalLess(a, a)
  {
    if |a| > 0 {
      OrdinalLessIrreflexive(a[1..]);
    }
  }

  /** The ordinal order is transitive. */
  lemma {:induction false} OrdinalLessTransitive(a: string, b: string, c: string)
    requires OrdinalLess(a, b) && OrdinalLess(b, c)
    ensures OrdinalLess(a, c)
  {
    if |a| > 0 && a[0] == b[0] && b[0] == c[0] {
      OrdinalLessTransitive(a[1..], b[1..], c[1..]);
    }
  }

  /** Any two distinct strings are ordered one way or the other. */
  lemma {:induction false} OrdinalLessTotal(a: string, b: string)
    ensures a == b || OrdinalLess(a, b) || OrdinalLess(b, a)
  {
    if |a| > 0 && |b| > 0 && a[0] == b[0] {
      OrdinalLessTotal(a[1..], b[1..]);
      if a[1..] == b[1..] {
        assert a == [a[0]] + a[1..] && b == [b[0]] + b[1..];
      }
    }
  }

  /** One decimal digit. */
  function DigitChar(d: nat): (c: char)
    requires d < 10
    ensures '0' <= c <= '9'
  {
    "0123456789"[d]
  }

  /** The decimal rendering of a natural number (`int.ToString()` for non-negative values). */
  function NatToString(n: nat): (r: string)
    ensures |r| > 0
    ensures forall i | 0 <= i < |r| :: '0' <= r[i] <= '9'
    ensures r[0] == '0' ==> n == 0
  {
    if n < 10 then [DigitChar(n)] else NatToString(n / 10) + [DigitChar(n % 10)]
  }
}
