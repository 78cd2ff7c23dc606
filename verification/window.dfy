/**
 The trailing history of metric samples: `values.push(x); values = values.slice(-w)`.
 */
module Window {

  function Min(a: int, b: int): int { if a <= b then a else b }

  /** `xs.slice(-w)` for `w >= 1`: the last `w` elements of `xs`, or all of them if there are fewer. */
  function Keep<T>(xs: seq<T>, w: nat): (r: seq<T>)
    requires w >= 1
    ensures |r| == Min(|xs|, w)
    ensures forall i :: 0 <= i < |r| ==> r[i] == xs[|xs| - |r| + i]
  {
    if |xs| <= w then xs else xs[|xs| - w..]
  }

  /** One append to the history followed by trimming it to the last `w` entries. */
  function Push<T>(buf: seq<T>, x: T, w: nat): (r: seq<T>)
    requires w >= 1
    ensures |r| == Min(|buf| + 1, w)
    ensures |r| >= 1 && r[|r| - 1] == x
    ensures forall i :: 0 <= i < |r| - 1 ==> r[i] == buf[|buf| + 1 - |r| + i]
  {
    Keep(buf + [x], w)
  }

  /** A run of appends, one per elapsed period, in order. */
  function PushAll<T>(buf: seq<T>, xs: seq<T>, w: nat): seq<T>
    requires w >= 1
    decreases |xs|
  {
    if xs == [] then buf else PushAll(Push(buf, xs[0], w), xs[1..], w)
  }

  /** Trimming twice keeps the same suffix as trimming once. */
  lemma KeepKeep<T>(a: seq<T>, b: seq<T>, w: nat)
    requires w >= 1
    ensures Keep(Keep(a, w) + b, w) == Keep(a + b, w)
  {
    if |a| > w {
      var c := a[|a| - w..] + b;
      assert a + b == a[..|a| - w] + c;
      assert (a + b)[|a| - w..] == c;
      var k := |c| - Min(|c|, w);
      assert (a + b)[|a| - w + k..] == c[k..];
    }
  }

  /**
   After at least one append, the history is the last `w` of everything seen, the
   seed included, in temporal order.
   */
  lemma {:induction false} PushAllKeepsSuffix<T>(buf: seq<T>, xs: seq<T>, w: nat)
    requires w >= 1 && |xs| >= 1
    ensures PushAll(buf, xs, w) == Keep(buf + xs, w)
    decreases |xs|
  {
    if |xs| == 1 {
      assert PushAll(Push(buf, xs[0], w), xs[1..], w) == Push(buf, xs[0], w);
      assert xs == [xs[0]];
    } else {
      PushAllKeepsSuffix(Push(buf, xs[0], w), xs[1..], w);
      KeepKeep(buf + [xs[0]], xs[1..], w);
      assert buf + [xs[0]] + xs[1..] == buf + xs;
    }
  }

  /** Once at least `w` values have been appended, the seed is gone and the history is the last `w` appended. */
  lemma PushAllForgetsSeed<T>(buf: seq<T>, xs: seq<T>, w: nat)
    requires w >= 1 && |xs| >= w
    ensures PushAll(buf, xs, w) == xs[|xs| - w..]
  {
    PushAllKeepsSuffix(buf, xs, w);
    var r := Keep(buf + xs, w);
    assert |r| == w;
    forall i | 0 <= i < w
      ensures r[i] == xs[|xs| - w + i]
    {
      assert r[i] == (buf + xs)[|buf + xs| - w + i];
    }
  }
}
