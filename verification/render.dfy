/**
 The sparkline: after each elapsed period the canvas is cleared and the history is
 drawn as bottom-anchored bars, one pixel column per slot, scanning from the
 rightmost column leftwards and stopping at the first unset slot.
 */
module Render {
  import opened Wrappers
  import opened Values

  /** A `fillRect(x, y, width, height)` call that paints, that is, one whose arguments are all finite. */
  datatype Rect = Rect(x: int, y: real, width: real, height: real)

  /** `values[i]`: reading past the end of a JavaScript array gives `undefined`. */
  function At(vs: seq<Slot>, i: nat): Slot
  {
    if i < |vs| then vs[i] else None
  }

  /** The bar for a sample `v` at column `x` of a canvas `h` pixels high: one column wide, standing on the bottom edge. */
  function Bar(x: nat, v: real, h: nat): (r: Rect)
    ensures r.x == x && r.width == 1.0
    ensures r.height == h as real * v
    ensures r.y + r.height == h as real
  {
    Rect(x, h as real - h as real * v, 1.0, h as real * v)
  }

  /** `b` is the bar drawn for the finite sample that `vs` holds at column `b.x`. */
  predicate BarFor(b: Rect, vs: seq<Slot>, h: nat)
  {
    && b.x >= 0
    && At(vs, b.x).Some?
    && At(vs, b.x).value.Finite?
    && b == Bar(b.x, At(vs, b.x).value.value, h)
  }

  /** Column `j` of `vs` holds a finite sample, so the scan draws a bar there when it reaches it. */
  predicate Drawable(vs: seq<Slot>, j: nat)
  {
    At(vs, j).Some? && At(vs, j).value.Finite?
  }

  /**
   The leftmost column the scan reaches when it starts at column `i - 1`: every slot
   from there up to `i - 1` is set, and the slot just left of it is unset (or the
   scan ran out of columns).
   */
  function ScanStart(vs: seq<Slot>, i: nat): (lo: nat)
    ensures lo <= i
    ensures forall j :: lo <= j < i ==> At(vs, j).Some?
    ensures lo == 0 || At(vs, lo - 1).None?
    decreases i
  {
    if i == 0 then 0
    else if At(vs, i - 1).None? then i
    else ScanStart(vs, i - 1)
  }

  /**
   The body of `for (let i = w; i--;)` from column `i - 1` down. A slot holding a
   non-finite number is not `null`, so the scan goes on past it, but the canvas
   ignores a rectangle with a non-finite coordinate, so nothing is drawn for it.
   */
  function Draw(vs: seq<Slot>, h: nat, i: nat): (r: seq<Rect>)
    ensures forall k :: 0 <= k < |r| ==> ScanStart(vs, i) <= r[k].x < i && BarFor(r[k], vs, h)
    ensures forall k, l :: 0 <= k < l < |r| ==> r[k].x > r[l].x
    decreases i
  {
    if i == 0 then []
    else
      match At(vs, i - 1)
      case None => []
      case Some(Finite(v)) =>
        var rest := Draw(vs, h, i - 1);
        var r := [Bar(i - 1, v, h)] + rest;
        assert forall k :: 1 <= k < |r| ==> r[k] == rest[k - 1];
        r
      case Some(NonFinite) =>
        Draw(vs, h, i - 1)
  }

  /** Every column the scan reaches that holds a finite sample gets its bar. */
  lemma {:induction false} DrawCovers(vs: seq<Slot>, h: nat, i: nat, j: nat)
    requires ScanStart(vs, i) <= j < i && Drawable(vs, j)
    ensures exists k :: 0 <= k < |Draw(vs, h, i)| && Draw(vs, h, i)[k].x == j
    decreases i
  {
    var r := Draw(vs, h, i);
    assert At(vs, i - 1).Some?;
    if j == i - 1 {
      assert r[0].x == j;
    } else {
      DrawCovers(vs, h, i - 1, j);
      var rest := Draw(vs, h, i - 1);
      var k :| 0 <= k < |rest| && rest[k].x == j;
      if At(vs, i - 1).value.Finite? {
        assert r[k + 1] == rest[k];
      } else {
        assert r == rest;
      }
    }
  }

  /** Everything drawn on a canvas `w` columns wide and `h` high for the history `vs`. */
  function Bars(vs: seq<Slot>, w: nat, h: nat): (r: seq<Rect>)
    ensures forall k :: 0 <= k < |r| ==> ScanStart(vs, w) <= r[k].x < w && BarFor(r[k], vs, h)
    ensures forall k, l :: 0 <= k < l < |r| ==> r[k].x > r[l].x
    ensures forall j :: ScanStart(vs, w) <= j < w && Drawable(vs, j) ==>
              exists k :: 0 <= k < |r| && r[k].x == j
    ensures |vs| < w ==> r == []
  {
    forall j | ScanStart(vs, w) <= j < w && Drawable(vs, j)
      ensures exists k :: 0 <= k < |Draw(vs, h, w)| && Draw(vs, h, w)[k].x == j
    {
      DrawCovers(vs, h, w, j);
    }
    Draw(vs, h, w)
  }

  /** A history shorter than the canvas leaves column `w - 1` unset, so nothing at all is drawn. */
  lemma ShortHistoryDrawsNothing(vs: seq<Slot>, w: nat, h: nat)
    requires |vs| < w
    ensures ScanStart(vs, w) == w
    ensures Bars(vs, w, h) == []
  {
  }

  /** Shape of the history while it fills up: `k` unset slots, then set ones, `w` in all. */
  predicate WarmingUp(vs: seq<Slot>, w: nat, k: nat)
  {
    && |vs| == w
    && k <= w
    && (forall i :: 0 <= i < k ==> vs[i].None?)
    && (forall i :: k <= i < w ==> vs[i].Some?)
  }

  /** While the history fills up, the scan reaches exactly the set columns: blank columns are the unset ones. */
  lemma {:induction false} WarmUpScan(vs: seq<Slot>, w: nat, k: nat, i: nat)
    requires WarmingUp(vs, w, k) && k <= i <= w
    ensures ScanStart(vs, i) == k
    decreases i
  {
    if i > k {
      assert At(vs, i - 1) == vs[i - 1];
      WarmUpScan(vs, w, k, i - 1);
    } else if k > 0 {
      assert At(vs, k - 1) == vs[k - 1];
    }
  }
}
