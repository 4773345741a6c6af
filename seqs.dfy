/** Sequence helpers: numpy's boolean indexing (`a[mask]`), flattening of a
    2-D array in row-major order, and sums. */
module Seqs {

  /** Indices at or after `from` whose flag is set, in increasing order. */
  function WhereFrom(keep: seq<bool>, from: nat): (idx: seq<nat>)
    requires from <= |keep|
    ensures forall j :: 0 <= j < |idx| ==> from <= idx[j] < |keep| && keep[idx[j]]
    ensures forall j, k :: 0 <= j < k < |idx| ==> idx[j] < idx[k]
    ensures forall i :: from <= i < |keep| && keep[i] ==> i in idx
    decreases |keep| - from
  {
    if from == |keep| then []
    else if keep[from] then [from] + WhereFrom(keep, from + 1)
    else WhereFrom(keep, from + 1)
  }

  /** The indices whose flag is set (numpy's `nonzero`). */
  function Where(keep: seq<bool>): (idx: seq<nat>)
    ensures forall j :: 0 <= j < |idx| ==> idx[j] < |keep| && keep[idx[j]]
    ensures forall j, k :: 0 <= j < k < |idx| ==> idx[j] < idx[k]
    ensures forall i :: 0 <= i < |keep| && keep[i] ==> i in idx
  {
    WhereFrom(keep, 0)
  }

  /** `s[idx]` for an index array `idx`. */
  function Select<T>(s: seq<T>, idx: seq<nat>): (r: seq<T>)
    requires forall j :: 0 <= j < |idx| ==> idx[j] < |s|
    ensures |r| == |idx|
  {
    seq(|idx|, j requires 0 <= j < |idx| => s[idx[j]])
  }

  /** `s[keep]` for a boolean mask `keep` of the same length. */
  function Compress<T>(s: seq<T>, keep: seq<bool>): (r: seq<T>)
    requires |keep| == |s|
  {
    Select(s, Where(keep))
  }

  /** An element survives boolean indexing exactly when its flag is set. */
  lemma CompressMembers<T>(s: seq<T>, keep: seq<bool>, x: T)
    requires |keep| == |s|
    ensures x in Compress(s, keep) <==> exists i :: 0 <= i < |s| && keep[i] && s[i] == x
  {
    var idx := Where(keep);
    var r := Compress(s, keep);
    if x in r {
      var j :| 0 <= j < |r| && r[j] == x;
      assert keep[idx[j]] && s[idx[j]] == x;
    }
    if exists i :: 0 <= i < |s| && keep[i] && s[i] == x {
      var i :| 0 <= i < |s| && keep[i] && s[i] == x;
      assert i in idx;
      var j :| 0 <= j < |idx| && idx[j] == i;
      assert r[j] == x;
    }
  }

  predicate Rectangular<T>(m: seq<seq<T>>, cols: nat) {
    forall r :: 0 <= r < |m| ==> |m[r]| == cols
  }

  /** Row-major flattening (numpy's `flatten`). */
  function Flatten<T>(m: seq<seq<T>>): seq<T> {
    if m == [] then [] else m[0] + Flatten(m[1..])
  }

  lemma {:induction false} FlattenLength<T>(m: seq<seq<T>>, cols: nat)
    requires Rectangular(m, cols)
    ensures |Flatten(m)| == |m| * cols
  {
    if m != [] {
      FlattenLength(m[1..], cols);
    }
  }

  lemma {:induction false} FlattenAt<T>(m: seq<seq<T>>, cols: nat, r: nat, c: nat)
    requires Rectangular(m, cols) && r < |m| && c < cols
    ensures r * cols + c < |Flatten(m)| && Flatten(m)[r * cols + c] == m[r][c]
  {
    FlattenLength(m, cols);
    if r > 0 {
      FlattenAt(m[1..], cols, r - 1, c);
      assert r * cols + c == cols + ((r - 1) * cols + c);
    }
  }

  function Sum(s: seq<real>): real {
    if s == [] then 0.0 else s[0] + Sum(s[1..])
  }

  function SumNat(s: seq<nat>): nat {
    if s == [] then 0 else s[0] + SumNat(s[1..])
  }

  lemma {:induction false} SumNatAppend(a: seq<nat>, b: seq<nat>)
    ensures SumNat(a + b) == SumNat(a) + SumNat(b)
  {
    if a != [] {
      assert (a + b)[1..] == a[1..] + b;
      SumNatAppend(a[1..], b);
    } else {
      assert a + b == b;
    }
  }

  /** The product of two non-negative reals is non-negative. */
  lemma MulNonNegative(a: real, b: real)
    requires 0.0 <= a && 0.0 <= b
    ensures 0.0 <= a * b
  {
  }

  /** A fraction `w` in [0, 1] of the step from `v0` to `v1` is no longer
      than the step and points the same way, so `v0 + w * (v1 - v0)` lies
      between `v0` and `v1`. */
  lemma WeightBounds(v0: real, v1: real, w: real)
    requires 0.0 <= w <= 1.0
    ensures v0 <= v1 ==> 0.0 <= w * (v1 - v0) <= v1 - v0
    ensures v1 <= v0 ==> v1 - v0 <= w * (v1 - v0) <= 0.0
  {
    var d := v1 - v0;
    if v0 <= v1 {
      MulNonNegative(w, d);
      MulNonNegative(1.0 - w, d);
      assert (1.0 - w) * d == d - w * d;
    } else {
      MulNonNegative(w, -d);
      MulNonNegative(1.0 - w, -d);
      assert w * (-d) == -(w * d);
      assert (1.0 - w) * (-d) == w * d - d;
    }
  }
}
