# fps-indicator: the measuring loop

`fps-indicator` puts a small overlay on a web page: a sparkline of the page's frame
rate and the current rate as a number. Once per animation frame a closure,
`measure`, counts the frame. Once more than one period has passed since the last
boundary, it turns the period into one sample: frames per second against a
baseline `max` (counting mode), or, in percentile mode, the rate implied by the
`slowPercentile`-th percentile frame duration. It appends the sample to a trailing
history one canvas width long, resets the period and repaints.

This project states that loop as a pure transition `Measure.Step(config, percentile, state, t)`.
The frame time `t` is an input. The result is the next state and, on a boundary,
the rectangles to paint and the number to show. The setup code that feeds the
loop is modelled too: option defaulting, canvas size and the corner switch.

Modules:

- `Wrappers`: `Option`. `None` stands for `null`, `undefined` and array holes.
- `Values`: a JavaScript number is modelled as `Finite(real)` or `NonFinite`. `NonFinite` is the `Infinity` that `1000 / 0` gives.
- `Window`: `values.push(x); values = values.slice(-w)`, and what repeated appends keep.
- `Render`: the right-to-left column scan that stops at the first unset slot, and the bars it draws.
- `Config`: the `opts` argument, the defaults for `period`, `max` and `slowPercentile`, the canvas size, the seed history and the `position` switch.
- `Measure`: the loop state, the two metrics, `Step`, and runs of many steps.

Notes on behaviour:

- The code scans from column `w - 1` leftwards (index.js:146-148). So during warm-up the filled columns are on the right, and a seeded history shorter than the canvas draws nothing.
- There is no guard for an empty period, and none is needed. The boundary test runs only inside a frame, and that frame has already been counted (and, in percentile mode, its duration recorded). So a closing period always has at least one frame. `ClosingMetric` shows this: the percentile library is only called on a non-empty list.
- The frame that crosses the boundary belongs to the period it closes. Its time becomes the new `lastTime`, and the next period starts from a count of zero.
- `lastFrame` is never reset. It starts at 0, so the first recorded duration is the time since the clock's origin.
- `lastTime` also starts at 0, so the first period is measured from the clock's origin. In counting mode, a first frame later than `period` closes a period of one frame, so the first readout is `1000 / period` (1.0 at the defaults, a sample of 0.01).
- A slot holding `Infinity` is not `null`, so the scan continues past it. The canvas ignores a rectangle with a non-finite coordinate, so that column is left blank.

## Model

| member | source | states |
|---|---|---|
| Measure.Init | index.js:111-117 | The loop starts with count 0, `lastTime` 0, `lastFrame` 0 in both modes, no durations, and the seeded or blank history. It satisfies the loop invariant. |
| Measure.Record | index.js:122-128 | Every frame adds one to the count and leaves `lastTime` and the history alone. In percentile mode it appends exactly one duration, `t - lastFrame`, keeps the earlier ones, and sets `lastFrame := t`. In counting mode the durations and `lastFrame` are untouched. |
| Measure.Crossed | index.js:130 | The boundary test is `t > lastTime + period`. A frame exactly one period after the last boundary does not close the period. |
| Measure.Readout | index.js:152 | The readout is the newest history slot times `max`. It is finite exactly when that sample is. It is only read right after an append, so that slot is always set. |
| Measure.Step | index.js:121-155 | A boundary happens exactly when `t - lastTime > period` (strict). Otherwise only the frame is recorded: the count goes up by one, `values` and `lastTime` stay the same, and in percentile mode `t - lastFrame` is appended and `lastFrame := t`. On a boundary: count 0, durations cleared, `lastTime := t`, `lastFrame` not reset. The history becomes the trimmed append of the closing sample; it has at most `w` entries and the newest is last. The bars are the render of the new history, and the readout is the sample times `max`. |
| Measure.ClosingMetric | index.js:122-138 | The closing sample counts the crossing frame (`count + 1`). In percentile mode the list given to the library ends with that frame's duration, so it is never empty. |
| Measure.ThroughputMetric | index.js:137 | In counting mode the sample is finite, and `sample * max * period = frames * 1000`. |
| Measure.PercentileMetric | index.js:134-135 | Called only on a non-empty duration list. The sample is finite exactly when the percentile is non-zero, and then `sample * max * percentile = 1000`. |
| Measure.ThroughputReadout | index.js:137-152 | In counting mode the readout `sample * max` equals `frames * 1000 / period`. |
| Measure.PercentileReadout | index.js:135-152 | In percentile mode the readout is `1000 / percentile`, the rate of a frame lasting the percentile duration. |
| Measure.BoundaryReadoutCountsClosingFrame | index.js:122-152 | In counting mode, a boundary step after `count` earlier frames shows `(count + 1) * 1000 / period`. |
| Measure.SixtyFramesExample | index.js:130-152 | Sixty frames in a one-second period with a baseline of 100 give the sample 0.6 and the readout 60. |
| Measure.FirstPercentileFrame | index.js:117-127 | In percentile mode the first frame records the duration `t`, the time since the clock's origin, because `lastFrame` starts at 0. |
| Measure.FirstBoundaryReadout | index.js:112-152 | In counting mode, if the first frame comes more than `period` after the clock's origin, it closes a one-frame period and shows `1000 / period`. |
| Measure.StepPreservesInv | index.js:121-154 | Each step keeps the invariant. In percentile mode there is one recorded duration per counted frame. In counting mode no durations are kept and `lastFrame` stays 0. |
| Measure.RunPreservesInv | index.js:121-157 | The invariant holds after any number of frames. |
| Measure.RunHistory | index.js:130-141 | After any run, the history is the seed with the samples emitted at boundaries appended one by one in order, trimmed to `w` after each append. |
| Measure.RunHistoryBounded | index.js:140-141 | Once a run has crossed a boundary, the history is the last `w` entries of the seed followed by all emitted samples, so its length is at most `w`. |
| Measure.PushWarmUp | index.js:113-141 | A history of `k` unset slots followed by set ones, `w` in all, keeps that shape after an append, with one fewer unset slot. |
| Measure.StepWarmUp | index.js:130-148 | During warm-up, a boundary step uncovers one more column on the right, and the scan reaches exactly the filled columns. |
| Measure.InitWarmUp | index.js:113 | Without a seed, the history starts as `w` unset slots. |
| Window.Keep | index.js:141 | `slice(-w)` keeps the last `min(n, w)` elements, in order. |
| Window.Push | index.js:140-141 | After an append and trim, the length is `min(n + 1, w)`, the new value is last, and the older retained values keep their order. |
| Window.KeepKeep | index.js:141 | Trimming, appending more and trimming again gives the same as a single trim of everything. |
| Window.PushAllKeepsSuffix | index.js:140-141 | After one or more appends, the history is the last `w` entries of the seed followed by all appended values. |
| Window.PushAllForgetsSeed | index.js:140-141 | After at least `w` appends, the history is exactly the last `w` appended values. |
| Render.ScanStart | index.js:146-148 | The scan starting at column `w - 1` reaches a run of columns that ends at `w - 1` and has a set slot in every column. The column just left of the run is unset, or the run starts at 0. |
| Render.Draw | index.js:146-149 | Each rectangle is the bar for a finite sample in a column the scan reached. The rectangles go from right to left. |
| Render.DrawCovers | index.js:146-149 | Every column the scan reaches that holds a finite sample gets a bar. |
| Render.Bars | index.js:144-150 | Everything painted on the canvas: bars only inside the scanned run, one bar for each finite sample in it, in right-to-left order, and nothing when the history is shorter than `w`. |
| Render.ShortHistoryDrawsNothing | index.js:146-148 | If the history is shorter than the canvas, column `w - 1` is unset, the scan stops at once and nothing is drawn. |
| Render.Bar | index.js:149 | The bar for a sample `v` in column `x` is 1 wide and `h * v` high. Its top plus its height is `h`, so it ends on the bottom edge. |
| Render.WarmUpScan | index.js:146-148 | For a history of `k` unset slots followed by set ones, the scan starts exactly at column `k`. |
| Values.RateOf | index.js:135 | `1000 / d` is finite exactly when `d` is non-zero, and then `rate * d = 1000`. |
| Values.DivideBy | index.js:135 | Dividing by a non-zero `max` keeps a sample finite or infinite, and `(m / k) * k = m`. |
| Values.MultiplyBy | index.js:152 | Multiplying by a non-zero `max` keeps a sample finite or infinite. |
| Values.MultiplyUndoesDivide | index.js:135-152 | Multiplying by `max` undoes dividing by `max`. |
| Config.Normalize | index.js:19-20 | A string `opts` becomes an object whose only option is `position`. A missing or falsy `opts` becomes `{}`. An object is used as given. |
| Config.OrDefault | index.js:22-115 | Defaulting with `or`: a missing or zero option becomes `d`, and any other value is kept, so with a non-zero default the result is never zero. |
| Config.CanvasSize | index.js:103-104 | A canvas size that cannot be parsed, or is zero, becomes 1. The result is always at least 1. |
| Config.Configure | index.js:19-115 | The loop configuration has `w, h >= 1` and non-zero `period` and `max`. Its `period`, `max` and `slowPercentile` are the options defaulted to 1000, 100 and 0. |
| Config.DefaultConfiguration | index.js:20-115 | With no options: a period of 1000 ms, a baseline of 100 and counting mode. |
| Config.InitialValues | index.js:113 | A given `values` seed is used as is, even if empty. Otherwise the history is `w` unset slots. |
| Config.PositionCss | index.js:57-72 | Every `position` gives the offsets of one of the four corners. |
| Config.NamedCornerPosition | index.js:57-69 | Naming a corner gives that corner's offsets, and different corners get different offsets. |
| Config.UnknownPositionIsBottomLeft | index.js:70-71 | A missing `position`, or one that names no corner, gives the same offsets as `'bottom-left'`. |

## Left out

- `percentile` (the npm library) is an arbitrary function of type `(real, seq<real>) -> real`, so its method (nearest rank or interpolation) is not fixed. The example with durations `[10, 10, 10, 20]` at the 75th percentile therefore has no pinned value.
- `percentile` is assumed to return a number on every call. The model does not cover it throwing, or returning `undefined` or `NaN`. In particular, any `slowPercentile > 0` selects percentile mode, including values above 100 such as 150. The code passes such a value straight to the library (index.js:135), and the library may reject it. The model does not cover that rejection.
- The clock (`right-now`) and `raf` rescheduling: the frame time is an input to `Step`, and the endless loop is a finite sequence of frame times (`Run`).
- DOM construction, `appendChild`, `innerHTML`, the label text, container lookup and the style strings (`to-css`, index.js:24-55 and 74-101) are not modelled. They are one-shot page wiring.
- Canvas calls (`clearRect`, `fillStyle`, `getComputedStyle`): the drawing is the list of `fillRect` calls that paint. The call made for an `Infinity` sample has non-finite arguments, paints nothing and is not listed. The computed canvas size is an input to `Config.CanvasSize`.
- Floating point is modelled by exact reals. Rounding, `NaN`, and the sign of zeros and of infinities are not modelled. `toFixed(1)` formatting of the readout is not modelled; the readout is the exact number before formatting.
- Options are modelled only as numbers, strings, missing keys or seed arrays of samples. Other JavaScript values (`null`, `NaN`, non-numeric strings, arrays holding non-numbers) are not modelled. The history is a value, so `push` mutating a caller's `values` array is not visible.
