/**
 Construction-time setup of the meter: normalising the `opts` argument, filling in
 the numeric defaults, sizing the canvas, seeding the history and choosing the
 corner of the page the overlay sits in.
 */
module Config {
  import opened Wrappers
  import opened Values

  /**
   The options object. A missing key is `None`; `Some(0.0)` is a zero, which
   JavaScript treats as falsy like a missing key.
   */
  datatype Options = Options(
    position: Option<string>,
    period: Option<real>,
    max: Option<real>,
    slowPercentile: Option<real>,
    values: Option<seq<Slot>>)

  /** What the caller may pass as `opts`: a corner name, an options object, or nothing (a falsy value). */
  datatype Opts = Named(name: string) | Given(options: Options) | Absent

  const NoOptions := Options(None, None, None, None, None)

  /** `if (typeof opts === 'string') opts = {position: opts}; opts = opts || {}` */
  function Normalize(opts: Opts): (o: Options)
    ensures opts.Named? ==> o.position == Some(opts.name) && o.(position := None) == NoOptions
    ensures opts.Absent? ==> o == NoOptions
    ensures opts.Given? ==> o == opts.options
  {
    match opts
    case Named(name) => Options(Some(name), None, None, None, None)
    case Given(o) => o
    case Absent => NoOptions
  }

  /** `x || d` on a numeric option: a missing key or a zero falls back to `d`. */
  function OrDefault(x: Option<real>, d: real): (r: real)
    ensures x.Some? && x.value != 0.0 ==> r == x.value
    ensures x.None? || x.value == 0.0 ==> r == d
    ensures d != 0.0 ==> r != 0.0
  {
    if x.Some? && x.value != 0.0 then x.value else d
  }

  /** `parseInt(getComputedStyle(canvas).width) || 1`: an unparsable (`NaN`) or zero size becomes one pixel. */
  function CanvasSize(parsed: Option<nat>): (n: nat)
    ensures n >= 1
    ensures parsed.Some? && parsed.value != 0 ==> n == parsed.value
    ensures parsed.None? || parsed.value == 0 ==> n == 1
  {
    if parsed.Some? && parsed.value != 0 then parsed.value else 1
  }

  /** The fixed configuration of the measuring loop. */
  datatype Config = Config(w: nat, h: nat, period: real, max: real, slowPercentile: real)
  {
    /** What the setup code guarantees: a canvas of at least one pixel and non-zero divisors. */
    predicate WellFormed()
    {
      w >= 1 && h >= 1 && period != 0.0 && max != 0.0
    }

    /** Percentile mode: any positive `slowPercentile`; zero or negative selects plain frame counting. */
    predicate PercentileMode()
    {
      slowPercentile > 0.0
    }
  }

  /** The configuration the loop runs with, given `opts` and the parsed canvas size. */
  function Configure(opts: Opts, width: Option<nat>, height: Option<nat>): (c: Config)
    ensures c.WellFormed()
    ensures c.period == OrDefault(Normalize(opts).period, 1000.0)
    ensures c.max == OrDefault(Normalize(opts).max, 100.0)
    ensures c.slowPercentile == OrDefault(Normalize(opts).slowPercentile, 0.0)
    ensures c.w == CanvasSize(width) && c.h == CanvasSize(height)
  {
    var o := Normalize(opts);
    Config(CanvasSize(width), CanvasSize(height),
           OrDefault(o.period, 1000.0), OrDefault(o.max, 100.0), OrDefault(o.slowPercentile, 0.0))
  }

  /** Without options the meter counts frames over one second against a baseline of 100 frames per second. */
  lemma DefaultConfiguration(width: Option<nat>, height: Option<nat>)
    ensures Configure(Absent, width, height).period == 1000.0
    ensures Configure(Absent, width, height).max == 100.0
    ensures !Configure(Absent, width, height).PercentileMode()
  {
  }

  /** `opts.values || Array(w)`: the seed if one is given (even an empty one), else `w` unset slots. */
  function InitialValues(o: Options, w: nat): (vs: seq<Slot>)
    ensures o.values.Some? ==> vs == o.values.value
    ensures o.values.None? ==> |vs| == w && forall i :: 0 <= i < w ==> vs[i].None?
  {
    if o.values.Some? then o.values.value else seq(w, _ => None)
  }

  /** The four corners the overlay can be pinned to. */
  datatype Corner = TopLeft | TopRight | BottomRight | BottomLeft

  function CornerName(c: Corner): string
  {
    match c
    case TopLeft => "top-left"
    case TopRight => "top-right"
    case BottomRight => "bottom-right"
    case BottomLeft => "bottom-left"
  }

  /** The CSS offsets that pin the overlay to corner `c`. */
  function CornerCss(c: Corner): string
  {
    match c
    case TopLeft => "left: 0; top: 0;"
    case TopRight => "right: 0; top: 0;"
    case BottomRight => "right: 0; bottom: 0;"
    case BottomLeft => "left: 0; bottom: 0;"
  }

  /** The `switch (opts.position)` that picks the offsets, with its `default` branch. */
  function PositionCss(position: Option<string>): (css: string)
    ensures exists c :: css == CornerCss(c)
  {
    var css :=
      if position == Some("top-left") then "left: 0; top: 0;"
      else if position == Some("top-right") then "right: 0; top: 0;"
      else if position == Some("bottom-right") then "right: 0; bottom: 0;"
      else if position == Some("bottom-left") then "left: 0; bottom: 0;"
      else "left: 0; bottom: 0;";
    assert css == CornerCss(TopLeft) || css == CornerCss(TopRight)
        || css == CornerCss(BottomRight) || css == CornerCss(BottomLeft);
    css
  }

  /** Naming a corner pins the overlay to that corner, and distinct corners get distinct offsets. */
  lemma NamedCornerPosition(c: Corner, d: Corner)
    ensures PositionCss(Some(CornerName(c))) == CornerCss(c)
    ensures c != d ==> CornerCss(c) != CornerCss(d)
  {
    assert |CornerCss(TopLeft)| == 16 && |CornerCss(TopRight)| == 17;
    assert |CornerCss(BottomLeft)| == 19 && |CornerCss(BottomRight)| == 20;
  }

  /** Any position that names no corner, including a missing one, lays out as `bottom-left`. */
  lemma UnknownPositionIsBottomLeft(position: Option<string>)
    requires forall c :: position != Some(CornerName(c))
    ensures PositionCss(position) == CornerCss(BottomLeft)
    ensures PositionCss(position) == PositionCss(Some("bottom-left"))
  {
    assert position != Some(CornerName(TopLeft));
    assert position != Some(CornerName(TopRight));
    assert position != Some(CornerName(BottomRight));
    assert position != Some(CornerName(BottomLeft));
  }
}
