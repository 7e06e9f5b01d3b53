/**
 * The ordered list of (key, value) pairs that the widget edits, and the
 * list operations `value_from_datadict` applies to it: Python's `zip` and
 * the filter that drops pairs whose key is empty.
 */
module PairList {

  /** One entry of the widget's value; keys need not be unique. */
  type Pair = (string, string)

  function Min(a: nat, b: nat): nat {
    if a <= b then a else b
  }

  predicate HasKey(p: Pair) {
    |p.0| > 0
  }

  predicate AllKeyed(ps: seq<Pair>) {
    forall j :: 0 <= j < |ps| ==> HasKey(ps[j])
  }

  /** Python's `zip(keys, values)`: pairs by position, cut to the shorter list. */
  function Zip(keys: seq<string>, values: seq<string>): seq<Pair> {
    seq(Min(|keys|, |values|), i requires 0 <= i < Min(|keys|, |values|) => (keys[i], values[i]))
  }

  function Keys(ps: seq<Pair>): seq<string> {
    seq(|ps|, i requires 0 <= i < |ps| => ps[i].0)
  }

  function Values(ps: seq<Pair>): seq<string> {
    seq(|ps|, i requires 0 <= i < |ps| => ps[i].1)
  }

  /** Zipping the key column and the value column of a pair list gives the list back. */
  lemma ZipOfColumns(ps: seq<Pair>)
    ensures Zip(Keys(ps), Values(ps)) == ps
  {
    assert |Zip(Keys(ps), Values(ps))| == |ps|;
  }

  /** Zipping one more position of both lists adds exactly that pair at the end. */
  lemma ZipExtend(keys: seq<string>, values: seq<string>, i: nat)
    requires i < |keys| && i < |values|
    ensures Zip(keys[..i + 1], values[..i + 1]) == Zip(keys[..i], values[..i]) + [(keys[i], values[i])]
  {
  }

  /** Zip truncates silently: the whole lists zip like their common-length prefixes. */
  lemma ZipTruncates(keys: seq<string>, values: seq<string>)
    ensures var n := Min(|keys|, |values|); Zip(keys, values) == Zip(keys[..n], values[..n])
  {
  }

  /**
   * The pairs of `ps` with a non-empty key, in their original order:
   * the list the loop of `value_from_datadict` accumulates.
   */
  function DropEmptyKeys(ps: seq<Pair>): (r: seq<Pair>)
    ensures |r| <= |ps|
    ensures AllKeyed(r)
    ensures |r| == |ps| <==> AllKeyed(ps)
  {
    if ps == [] then []
    else
      var init, last := ps[..|ps| - 1], ps[|ps| - 1];
      assert ps == init + [last];
      DropEmptyKeys(init) + (if HasKey(last) then [last] else [])
  }

  /** A pair occurs in the filtered list exactly when it occurs in the input with a non-empty key. */
  lemma {:induction false} DropEmptyKeysMembers(ps: seq<Pair>)
    ensures forall p :: p in DropEmptyKeys(ps) <==> p in ps && HasKey(p)
  {
    if ps != [] {
      var n := |ps| - 1;
      DropEmptyKeysMembers(ps[..n]);
      assert ps == ps[..n] + [ps[n]];
    }
  }

  /** The positions of `ps` whose key is non-empty, in increasing order. */
  function KeptIndices(ps: seq<Pair>): (idx: seq<nat>)
    ensures forall j :: 0 <= j < |idx| ==> idx[j] < |ps|
    ensures forall j, k :: 0 <= j < k < |idx| ==> idx[j] < idx[k]
    ensures forall i :: 0 <= i < |ps| ==> (i in idx <==> HasKey(ps[i]))
  {
    if ps == [] then []
    else
      var n := |ps| - 1;
      KeptIndices(ps[..n]) + (if HasKey(ps[n]) then [n] else [])
  }

  /**
   * DropEmptyKeys keeps exactly the positions KeptIndices lists, in that
   * order: it is the order-preserving subsequence of the pairs with a key.
   */
  lemma {:induction false} DropEmptyKeysSelects(ps: seq<Pair>)
    ensures |DropEmptyKeys(ps)| == |KeptIndices(ps)|
    ensures forall j :: 0 <= j < |KeptIndices(ps)| ==> DropEmptyKeys(ps)[j] == ps[KeptIndices(ps)[j]]
  {
    if ps != [] {
      var n := |ps| - 1;
      var init := ps[..n];
      DropEmptyKeysSelects(init);
      var d, idx := DropEmptyKeys(ps), KeptIndices(ps);
      var d0, idx0 := DropEmptyKeys(init), KeptIndices(init);
      assert d[..|d0|] == d0 && idx[..|idx0|] == idx0;
      forall j | 0 <= j < |idx| ensures d[j] == ps[idx[j]] {
        if j < |idx0| {
          assert d[j] == d0[j] && idx[j] == idx0[j];
          assert init[idx0[j]] == ps[idx0[j]];
        } else {
          assert d[j] == ps[n] && idx[j] == n;
        }
      }
    }
  }

  /** A list whose keys are all non-empty passes the filter unchanged. */
  lemma {:induction false} DropEmptyKeysKeepsKeyed(ps: seq<Pair>)
    requires AllKeyed(ps)
    ensures DropEmptyKeys(ps) == ps
  {
    if ps != [] {
      var n := |ps| - 1;
      DropEmptyKeysKeepsKeyed(ps[..n]);
      assert ps == ps[..n] + [ps[n]];
    }
  }

  /** Filtering twice is filtering once. */
  lemma DropEmptyKeysIdempotent(ps: seq<Pair>)
    ensures DropEmptyKeys(DropEmptyKeys(ps)) == DropEmptyKeys(ps)
  {
    DropEmptyKeysKeepsKeyed(DropEmptyKeys(ps));
  }

  /** The filter works pair by pair: it distributes over concatenation. */
  lemma {:induction false} DropEmptyKeysAppend(a: seq<Pair>, b: seq<Pair>)
    ensures DropEmptyKeys(a + b) == DropEmptyKeys(a) + DropEmptyKeys(b)
  {
    if b != [] {
      var n := |b| - 1;
      assert (a + b)[..|a + b| - 1] == a + b[..n];
      DropEmptyKeysAppend(a, b[..n]);
    } else {
      assert a + b == a;
    }
  }
}
