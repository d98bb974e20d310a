/// Sequence operations that stand for the numpy array operations the loops
/// use: boolean-mask selection and prefix slicing.
module Rows {

  /** Number of true flags in a mask. */
  function Count(keep: seq<bool>): (c: nat)
    ensures c <= |keep|
  {
    if keep == [] then 0
    else Count(keep[..|keep| - 1]) + (if keep[|keep| - 1] then 1 else 0)
  }

  /** `xs[keep]`: the elements whose flag is set, in their original order. */
  function Kept<T>(xs: seq<T>, keep: seq<bool>): (r: seq<T>)
    requires |xs| == |keep|
    ensures |r| == Count(keep)
  {
    if xs == [] then []
    else
      Kept(xs[..|xs| - 1], keep[..|keep| - 1])
      + (if keep[|keep| - 1] then [xs[|xs| - 1]] else [])
  }

  /** The positions whose flag is set, in increasing order. */
  function KeptIndices(keep: seq<bool>): (r: seq<nat>)
    ensures |r| == Count(keep)
    ensures forall k :: 0 <= k < |r| ==> r[k] < |keep| && keep[r[k]]
    ensures forall k, l :: 0 <= k < l < |r| ==> r[k] < r[l]
  {
    if keep == [] then []
    else
      KeptIndices(keep[..|keep| - 1])
      + (if keep[|keep| - 1] then [|keep| - 1] else [])
  }

  /** Every set flag is listed by KeptIndices. */
  lemma {:induction false} KeptIndicesComplete(keep: seq<bool>, j: nat)
    requires j < |keep| && keep[j]
    ensures j in KeptIndices(keep)
  {
    var m := |keep| - 1;
    if j < m {
      assert keep[..m][j] == keep[j];
      KeptIndicesComplete(keep[..m], j);
    } else {
      assert KeptIndices(keep)[|KeptIndices(keep)| - 1] == j;
    }
  }

  /** The k-th selected element is the element at the k-th selected position. */
  lemma {:induction false} KeptAt<T>(xs: seq<T>, keep: seq<bool>, k: nat)
    requires |xs| == |keep| && k < Count(keep)
    ensures |KeptIndices(keep)| == |Kept(xs, keep)|
    ensures Kept(xs, keep)[k] == xs[KeptIndices(keep)[k]]
  {
    var m := |xs| - 1;
    var front, frontIdx := Kept(xs[..m], keep[..m]), KeptIndices(keep[..m]);
    if k < |front| {
      KeptAt(xs[..m], keep[..m], k);
      assert Kept(xs, keep)[k] == front[k];
      assert KeptIndices(keep)[k] == frontIdx[k];
    } else {
      assert k == |front| && keep[m];
      assert Kept(xs, keep)[k] == xs[m];
      assert KeptIndices(keep)[k] == m;
    }
  }

  /** Selection commutes with rewriting the elements at unselected positions:
      only the kept elements matter. */
  lemma {:induction false} KeptAgrees<T>(xs: seq<T>, ys: seq<T>, keep: seq<bool>)
    requires |xs| == |ys| == |keep|
    requires forall j :: 0 <= j < |keep| && keep[j] ==> xs[j] == ys[j]
    ensures Kept(xs, keep) == Kept(ys, keep)
  {
    if xs != [] {
      var m := |xs| - 1;
      KeptAgrees(xs[..m], ys[..m], keep[..m]);
    }
  }

  /** With no flag cleared, selection keeps everything. */
  lemma {:induction false} KeptAll<T>(xs: seq<T>, keep: seq<bool>)
    requires |xs| == |keep| && forall j :: 0 <= j < |keep| ==> keep[j]
    ensures Kept(xs, keep) == xs
  {
    if xs != [] {
      var m := |xs| - 1;
      KeptAll(xs[..m], keep[..m]);
      assert xs[..m] + [xs[m]] == xs;
    }
  }

  /** Python's `s[:n]`: a prefix, clamped to the length, and counted from the
      end when `n` is negative. */
  function PyPrefix<T>(s: seq<T>, n: int): (r: seq<T>)
    ensures |r| <= |s| && r == s[..|r|]
    ensures 0 <= n <= |s| ==> |r| == n
    ensures n >= |s| ==> r == s
    ensures n < 0 ==> |r| == if |s| + n > 0 then |s| + n else 0
  {
    if n >= |s| then s
    else if n >= 0 then s[..n]
    else if |s| + n > 0 then s[..|s| + n]
    else []
  }

  /** `a` with the slots from `i` on replaced by `w`. */
  function Overwrite<T>(a: seq<T>, i: nat, w: seq<T>): (r: seq<T>)
    requires i + |w| <= |a|
    ensures |r| == |a|
    ensures forall j :: 0 <= j < |a| ==> r[j] == if i <= j < i + |w| then w[j - i] else a[j]
  {
    a[..i] + w + a[i + |w|..]
  }

  /** Writing `x` at `i` and then overwriting from `i + 1` with `w` is
      overwriting from `i` with `[x] + w`. */
  lemma OverwriteAfterWrite<T>(a: seq<T>, i: nat, x: T, w: seq<T>)
    requires i + 1 + |w| <= |a|
    ensures Overwrite(a[i := x], i + 1, w) == Overwrite(a, i, [x] + w)
  {
    var l, r := Overwrite(a[i := x], i + 1, w), Overwrite(a, i, [x] + w);
    forall j | 0 <= j < |a| ensures l[j] == r[j] {
      if i < j < i + 1 + |w| {
        assert ([x] + w)[j - i] == w[j - i - 1];
      }
    }
  }

  /** What follows a written slot is what followed it before. */
  lemma TailAfterWrite<T>(a: seq<T>, i: nat, x: T)
    requires i < |a|
    ensures a[i := x][i + 1..] == a[i..][1..]
  {
  }
}
