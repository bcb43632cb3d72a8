/** Lists laid end to end: where each one starts and what sits where. */
module Layout {
  /** The lists of `fs` from `i` on, laid end to end. */
  function Concat<T>(fs: seq<seq<T>>, i: nat): seq<T>
    requires i <= |fs|
    decreases |fs| - i
  {
    if i == |fs| then [] else fs[i] + Concat(fs, i + 1)
  }

  /** Where list `i` of `fs` starts once the lists in front of it are laid end
      to end. */
  function Start<T>(fs: seq<seq<T>>, i: nat): nat
    requires i <= |fs|
  {
    if i == 0 then 0 else Start(fs, i - 1) + |fs[i - 1]|
  }

  /** Starts never decrease, and each list ends where the next begins. */
  lemma {:induction false} StartMono<T>(fs: seq<seq<T>>, i: nat, i': nat)
    requires i <= i' <= |fs|
    ensures Start(fs, i) <= Start(fs, i')
    ensures i < i' ==> Start(fs, i) + |fs[i]| <= Start(fs, i')
    decreases i' - i
  {
    if i < i' {
      StartMono(fs, i + 1, i');
    }
  }

  /** The lists from `i` on are as long as they are together. */
  lemma {:induction false} ConcatLength<T>(fs: seq<seq<T>>, i: nat)
    requires i <= |fs|
    ensures Start(fs, i) <= Start(fs, |fs|)
    ensures |Concat(fs, i)| == Start(fs, |fs|) - Start(fs, i)
    decreases |fs| - i
  {
    StartMono(fs, i, |fs|);
    if i < |fs| {
      ConcatLength(fs, i + 1);
    }
  }

  /** Element `k` of a list `i'` at or after `i` sits `Start(i') - Start(i) + k`
      places into the lists laid end to end from `i`. */
  lemma {:induction false} ConcatAt<T>(fs: seq<seq<T>>, i: nat, i': nat, k: nat)
    requires i <= i' < |fs| && k < |fs[i']|
    ensures Start(fs, i) <= Start(fs, i')
    ensures Start(fs, i') - Start(fs, i) + k < |Concat(fs, i)|
    ensures Concat(fs, i)[Start(fs, i') - Start(fs, i) + k] == fs[i'][k]
    decreases i' - i
  {
    StartMono(fs, i, i');
    var rest := Concat(fs, i + 1);
    if i == i' {
      assert (fs[i] + rest)[k] == fs[i][k];
    } else {
      ConcatAt(fs, i + 1, i', k);
      var j := Start(fs, i') - Start(fs, i + 1) + k;
      assert (fs[i] + rest)[|fs[i]| + j] == rest[j];
    }
  }

  /** Every position of the lists laid end to end from `i` holds element `k`
      of some list `i'` at or after `i`. */
  lemma {:induction false} ConcatSource<T>(fs: seq<seq<T>>, i: nat, j: nat) returns (i': nat, k: nat)
    requires i <= |fs| && j < |Concat(fs, i)|
    ensures i <= i' < |fs| && k < |fs[i']|
    ensures Start(fs, i') + k == Start(fs, i) + j
    ensures Concat(fs, i)[j] == fs[i'][k]
    decreases |fs| - i
  {
    var rest := Concat(fs, i + 1);
    if j < |fs[i]| {
      assert (fs[i] + rest)[j] == fs[i][j];
      i', k := i, j;
    } else {
      assert (fs[i] + rest)[j] == rest[j - |fs[i]|];
      i', k := ConcatSource(fs, i + 1, j - |fs[i]|);
    }
  }
}
