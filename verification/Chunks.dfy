/** A byte buffer read as a sequence of fixed-size elements. */
module Chunks {
  import opened CMachine

  type Elem = seq<byte>

  /** Where element `p` starts: what `_relative_data` adds to the start of the buffer. */
  function Offset(p: nat, e: nat): nat {
    p * e
  }

  lemma OffsetSum(a: nat, b: nat, e: nat)
    ensures Offset(a + b, e) == Offset(a, e) + Offset(b, e)
  {
  }

  lemma OffsetUnit(e: nat)
    ensures Offset(0, e) == 0 && Offset(1, e) == e
  {
  }

  lemma OffsetProduct(p: nat, e: nat)
    ensures Offset(p, e) == p * e == e * p
  {
  }

  lemma OffsetMonotone(a: nat, b: nat, e: nat)
    requires a <= b
    ensures Offset(a, e) <= Offset(b, e)
  {
  }

  /** The first `n` elements of size `e` in `b`. */
  function Cut(b: seq<byte>, e: nat, n: nat): (r: seq<Elem>)
    requires Offset(n, e) <= |b|
    ensures |r| == n
    ensures forall i :: 0 <= i < n ==> |r[i]| == e
    decreases n
  {
    if n == 0 then [] else
      OffsetSum(1, n - 1, e);
      [b[..e]] + Cut(b[e..], e, n - 1)
  }

  /** The bytes of a sequence of elements, one after the other. */
  function Flatten(es: seq<Elem>): (b: seq<byte>) {
    if es == [] then [] else es[0] + Flatten(es[1..])
  }

  predicate AllSized(es: seq<Elem>, e: nat) {
    forall i :: 0 <= i < |es| ==> |es[i]| == e
  }

  lemma {:induction false} FlattenLength(es: seq<Elem>, e: nat)
    requires AllSized(es, e)
    ensures |Flatten(es)| == Offset(|es|, e)
  {
    hide Offset;
    OffsetUnit(e);
    if es == [] {
    } else {
      FlattenLength(es[1..], e);
      OffsetSum(1, |es| - 1, e);
    }
  }

  /** Laying elements out as bytes and cutting them again gives them back. */
  lemma {:induction false} CutOfFlatten(es: seq<Elem>, e: nat)
    requires AllSized(es, e)
    ensures |Flatten(es)| == Offset(|es|, e)
    ensures Cut(Flatten(es), e, |es|) == es
  {
    hide Offset;
    FlattenLength(es, e);
    if es == [] {
    } else {
      CutOfFlatten(es[1..], e);
      assert Flatten(es)[..e] == es[0] && Flatten(es)[e..] == Flatten(es[1..]);
    }
  }

  lemma CutOne(b: seq<byte>, e: nat)
    requires |b| == e
    ensures Offset(1, e) == e && Cut(b, e, 1) == [b]
  {
    assert b[..e] == b;
  }

  /** Bytes past the last element do not matter. */
  lemma {:induction false} CutIgnoresTail(b: seq<byte>, c: seq<byte>, e: nat, n: nat)
    requires Offset(n, e) <= |b| && Offset(n, e) <= |c|
    requires b[..Offset(n, e)] == c[..Offset(n, e)]
    ensures Cut(b, e, n) == Cut(c, e, n)
    decreases n
  {
    hide Offset;
    OffsetUnit(e);
    if n > 0 {
      OffsetSum(1, n - 1, e);
      var m := Offset(n - 1, e);
      assert b[..e] == b[..Offset(n, e)][..e] == c[..Offset(n, e)][..e] == c[..e];
      assert b[e..][..m] == b[..Offset(n, e)][e..] == c[..Offset(n, e)][e..] == c[e..][..m];
      CutIgnoresTail(b[e..], c[e..], e, n - 1);
    }
  }

  /** Cutting commutes with splitting at an element boundary. */
  lemma {:induction false} CutSplit(b: seq<byte>, e: nat, n: nat, m: nat)
    requires Offset(n + m, e) <= |b|
    ensures Offset(n, e) <= |b| && Offset(m, e) <= |b| - Offset(n, e)
    ensures Cut(b, e, n + m) == Cut(b, e, n) + Cut(b[Offset(n, e)..], e, m)
    decreases n
  {
    hide Offset;
    OffsetUnit(e);
    OffsetSum(n, m, e);
    if n == 0 {
      assert b[Offset(n, e)..] == b;
    } else {
      OffsetSum(1, n - 1, e);
      OffsetSum(1, n - 1 + m, e);
      CutSplit(b[e..], e, n - 1, m);
      assert b[e..][Offset(n - 1, e)..] == b[Offset(n, e)..];
    }
  }

  /** `c` starts like `b` up to `at`, goes on with `x`, and then with the bytes of `b` from `from` to `to`. */
  ghost predicate Spliced(b: seq<byte>, c: seq<byte>, at: nat, x: seq<byte>, from: nat, to: nat) {
    && at <= |b| && from <= to <= |b| && at + |x| + (to - from) <= |c|
    && c[..at] == b[..at]
    && c[at..at + |x|] == x
    && c[at + |x|..at + |x| + (to - from)] == b[from..to]
  }

  /**
   * Replacing bytes at element boundaries replaces whole elements: `c` is `b` with elements p..q exchanged for the `m`
   * in `x`.
   */
  lemma CutSplice(b: seq<byte>, c: seq<byte>, e: nat, n: nat, p: nat, q: nat, x: seq<byte>, m: nat)
    requires p <= q <= n && |x| == Offset(m, e)
    requires Spliced(b, c, Offset(p, e), x, Offset(q, e), Offset(n, e))
    ensures Offset(p + m + (n - q), e) <= |c|
    ensures Cut(c, e, p + m + (n - q)) == Cut(b, e, n)[..p] + Cut(x, e, m) + Cut(b, e, n)[q..]
  {
    hide Offset, Cut;
    var r := n - q;
    OffsetSum(p, m + r, e);
    OffsetSum(m, r, e);
    OffsetSum(q, r, e);
    OffsetSum(p, n - p, e);
    CutSplit(c, e, p, m + r);
    var c1 := c[Offset(p, e)..];
    CutSplit(c1, e, m, r);
    CutIgnoresTail(c, b, e, p);
    assert c1[..Offset(m, e)] == x == x[..Offset(m, e)];
    CutIgnoresTail(c1, x, e, m);
    CutTail(b, c, e, n, q, Offset(p, e) + Offset(m, e));
    assert c1[Offset(m, e)..] == c[Offset(p, e) + Offset(m, e)..];
    CutSplit(b, e, p, n - p);
  }

  lemma CutTail(b: seq<byte>, c: seq<byte>, e: nat, n: nat, q: nat, at: nat)
    requires q <= n && Offset(q, e) <= Offset(n, e) <= |b| && at + (Offset(n, e) - Offset(q, e)) <= |c|
    requires c[at..at + (Offset(n, e) - Offset(q, e))] == b[Offset(q, e)..Offset(n, e)]
    ensures Offset(n - q, e) <= |c[at..]|
    ensures Cut(c[at..], e, n - q) == Cut(b, e, n)[q..]
  {
    hide Offset, Cut;
    var r := n - q;
    OffsetSum(q, r, e);
    assert c[at..][..Offset(r, e)] == c[at..at + (Offset(n, e) - Offset(q, e))];
    assert b[Offset(q, e)..][..Offset(r, e)] == b[Offset(q, e)..Offset(n, e)];
    CutIgnoresTail(c[at..], b[Offset(q, e)..], e, r);
    CutSplit(b, e, q, r);
  }

  lemma CutRemove(b: seq<byte>, c: seq<byte>, e: nat, n: nat, p: nat, q: nat, k: nat)
    requires p <= q <= n && k == p + (n - q)
    requires Spliced(b, c, Offset(p, e), [], Offset(q, e), Offset(n, e))
    ensures Offset(k, e) <= |c|
    ensures Cut(c, e, k) == Cut(b, e, n)[..p] + Cut(b, e, n)[q..]
  {
    hide Offset, Cut;
    OffsetUnit(e);
    var x: seq<byte> := [];
    CutSplice(b, c, e, n, p, q, x, 0);
    var nothing := Cut(x, e, 0);
    assert Cut(c, e, k) == Cut(b, e, n)[..p] + nothing + Cut(b, e, n)[q..];
  }

  lemma PatchIsSplice(b: seq<byte>, at: nat, x: seq<byte>, to: nat)
    requires at + |x| <= to <= |b|
    ensures Spliced(b, Patch(b, at, x), at, x, at + |x|, to)
  {
  }

  /** Overwriting one element. */
  lemma CutReplace(b: seq<byte>, c: seq<byte>, e: nat, n: nat, p: nat, at: nat, x: seq<byte>)
    requires Offset(n, e) <= |b| && p < n && |x| == e && at == Offset(p, e) && at + e <= |b|
    requires c == Patch(b, at, x)
    ensures Cut(c, e, n) == Cut(b, e, n)[p := x]
  {
    hide Offset, Cut;
    OffsetUnit(e);
    OffsetSum(p, 1, e);
    OffsetSum(p + 1, n - (p + 1), e);
    CutOne(x, e);
    PatchIsSplice(b, at, x, Offset(n, e));
    CutSplice(b, c, e, n, p, p + 1, x, 1);
    SpliceIsUpdate(Cut(b, e, n), p, x);
  }

  lemma SpliceIsUpdate(s: seq<Elem>, p: nat, x: Elem)
    requires p < |s|
    ensures s[..p] + [x] + s[p + 1..] == s[p := x]
  {
  }

  /** Writing one element behind the first `n`. */
  lemma CutSnoc(b: seq<byte>, c: seq<byte>, e: nat, n: nat, at: nat, x: seq<byte>)
    requires at == Offset(n, e) && |x| == e && at + e <= |b| && c == Patch(b, at, x)
    ensures Offset(n + 1, e) <= |c|
    ensures Cut(c, e, n + 1) == Cut(b, e, n) + [x]
  {
    hide Offset;
    OffsetUnit(e);
    OffsetSum(n, 1, e);
    PatchSlices(b, at, x);
    CutOne(x, e);
    CutSplit(c, e, n, 1);
    CutIgnoresTail(c, b, e, n);
    assert c[at..][..e] == c[at..at + e] == x;
  }
}
