# Newton-Raphson calculator: verified model of the iteration engine

The repository is a desktop calculator for the Newton-Raphson method. It has
two near-identical front ends:

- `calculate.py` has module-level functions `calculate` and `plot_graph` and a
  bound of 100 iterations.
- `NR.py` has the class `NewtonRaphsonApp`, with methods `calculate` and
  `plot_graph`, and a bound of 50 iterations.

Both run the same loop. Each turn evaluates `f` and `f'` at the current
iterate, appends that iterate to the plot points, and stops on a zero
derivative. Otherwise it steps to `x_next = x - f(x)/f'(x)` and computes the
approximate error in percent: relative to `x_next`, or absolute when
`x_next` is zero. It then inserts a table row `(i+1, x, f(x), f'(x), error)`.
The run stops with the root `x_next` once the error is below the stop
percentage, and gives up after the bound. After the run, the plot domain is
the range of the visited points, widened by half its spread on each side, or
by 1.0 when the spread is zero.

The model takes `f` and `f'` as total functions `real -> real` and works on
exact reals. It has these modules:

- `Wrappers` (wrappers.dfy) holds `Option`.
- `Plotting` (plotting.dfy) holds the plot-domain computation that both
  `plot_graph`s share: `Min`, `Max`, and the `Frame` that `PlotFrame` returns.
- `NewtonRaphson` (newton_raphson.dfy) is the engine:
  - the table row `Record`, the outcome `Status` and a whole `Run`;
  - the step `NextIterate` and the error `RelativeError`;
  - the loop as the method `Iterate`, whose bound is a parameter. The two
    source loops are the same except that `calculate.py` tags the last table
    row as `'root'` on convergence (calculate.py:81-83); `Calculate.Calculate`
    adds that tag after `Iterate`;
  - a recursive reference definition of the loop (`RunFrom`, `Solve`);
  - `Describes`, which states the rules of a run on its output alone. Records
    are numbered 1..n without gaps. Each record is computed from its own
    iterate. Records chain through `x_next`. Every record but the last misses
    the stop percentage. The plot points are the iterates, plus the final one
    on convergence or on a zero derivative. The status says which of the
    three endings happened.

  `SolveIffDescribes` proves that a run is the loop's result exactly when it
  obeys those rules.
- `Calculate` (calculate.dfy) is the `calculate.py` front end, with bound 100.
  It returns what the widgets would show: the rows, the plot points, the
  status, the row tagged `'root'`, and the frame drawn.
- `NR` (nr.dfy) is the `NR.py` front end, with bound 50. It is a class whose
  fields are the table rows, the result label and the frame on the axes; its
  methods update those fields.

Three points where the model is more precise than a loose reading:

- The padding falls back to 1.0 exactly when all points are equal. A spread
  of exactly 2.0 also yields a padding of 1.0, so a padding of 1.0 does not
  mean that all points are equal; `PlotFrame` states both halves.
- On a zero derivative the code draws no plot, even though the point list is
  non-empty. The model follows the code: `frame` is `None` for
  `DerivativeZero`.
- A record does not depend on the stop percentage; only where the run stops
  does. `TighterStopExtendsTrace` proves that lowering the stop percentage
  only extends the trace and never makes convergence earlier.

## Model

| member | source | states |
|---|---|---|
| `Plotting.Min` | calculate.py:104 | the result is an element of the list that is at most every element |
| `Plotting.Max` | calculate.py:105 | the result is an element of the list that is at least every element |
| `Plotting.PlotFrame` | calculate.py:100-109 | no frame exactly for an empty list; otherwise min and max are the smallest and the largest visited point, every point lies in `[min - padding, max + padding]`, the padding is positive, it is 1.0 when all points are equal and half the spread (with min < max) otherwise, and the marker is the last point |
| `NewtonRaphson.NextIterate` | calculate.py:63 | the step stays put exactly when `f(x) == 0` |
| `NewtonRaphson.NextIterateOnTangent` | calculate.py:63 | the new iterate is where the tangent at `x` meets the x-axis: `f(x) + f'(x) * (x_next - x) == 0` |
| `NewtonRaphson.RelativeError` | calculate.py:65-68 | the error is never negative, and it is zero exactly when `x_next == x_curr` |
| `NewtonRaphson.RelativeErrorScales` | calculate.py:65-68 | for `x_next != 0`, error times `abs(x_next)` is 100 times `abs(x_next - x_curr)`; for `x_next == 0`, the error is `100 * abs(x_curr)` |
| `NewtonRaphson.Iterate` | calculate.py:47-90 | the trace, plot points and status that the loop leaves equal the reference run `Solve` for the given bound |
| `NewtonRaphson.Advance` | calculate.py:51-87 | one loop turn on the reference run: a zero derivative ends with the iterate plotted and no record; otherwise one record is appended, and then either the run converges at `x_next` (plotted last) or it continues from `x_next` with one iteration fewer |
| `NewtonRaphson.RunFromDescribes` | calculate.py:47-90 | the reference run obeys the rules `DescribesFrom` (numbering, per-record computation, chaining, stop test, plot points, ending) |
| `NewtonRaphson.DescribesOnlyRunFrom` | calculate.py:47-90 | any run that obeys the rules is the reference run, so the rules determine the run |
| `NewtonRaphson.SolveIffDescribes` | calculate.py:47-90 | a run equals the loop's result if and only if it obeys `Describes` |
| `NewtonRaphson.DescribesZeroSlope` | calculate.py:56-61 | with a zero derivative at the first iterate, the only lawful run has no record, that iterate as its one plot point, and status `DerivativeZero` |
| `NewtonRaphson.DescribesFirstStep` | calculate.py:63-85 | otherwise the first record is the step from the first iterate, and if its error is below the stop percentage the run converges at once at its `x_next` |
| `NewtonRaphson.NonPositiveStopNeverConverges` | calculate.py:78 | with a stop percentage of zero or below, no run converges |
| `NewtonRaphson.ZeroDerivativeAtGuess` | calculate.py:56-61 | a zero derivative at the initial guess gives no record, the guess as the only plot point, and `DerivativeZero` |
| `NewtonRaphson.TighterStopExtendsTrace` | calculate.py:78-87 | with a lower stop percentage the trace extends the trace under the higher one, and if it converges, the run under the higher one converges no later |
| `NewtonRaphson.TighterStopNeverConvergesSooner` | calculate.py:78-79 | if a run with a lower stop percentage converges at iteration n, the run with the higher one converges at an iteration of at most n |
| `NewtonRaphson.RunShape` | calculate.py:51-90 | a run has at most as many records as the bound; a run that does not converge reports the bound and has exactly that many records and plot points; otherwise it has one more plot point than records; a converged run has a record, and its last record and its reported iteration are both the record count, and its last plot point is the root |
| `NewtonRaphson.PlottedRunFrame` | calculate.py:80-90 | for a run that plots, the frame exists and encloses every plot point and every recorded iterate; the marker is the root on convergence and the last recorded iterate when the run did not converge |
| `Calculate.Calculate` | calculate.py:47-90 | the rows, points and status equal the reference run with bound 100 and obey `Describes`; at most 100 rows, and a run that does not converge has exactly 100 rows and 100 plot points; exactly a converged run tags a row as `'root'`, and that row is the last, carrying the reported iteration; a frame is drawn exactly when the derivative did not become zero, it is the frame of the plot points and encloses them all |
| `NR.NewtonRaphsonApp.constructor` | NR.py:11-107 | a new app has an empty table, an empty result label and cleared axes |
| `NR.NewtonRaphsonApp.Calculate` | NR.py:109-189 | the table rows and result label hold the reference run with bound 50; the axes show its frame unless the derivative became zero; at most 50 rows, exactly 50 when the run did not converge, and every recorded iterate lies inside the drawn frame |
| `NR.NewtonRaphsonApp.PlotGraph` | NR.py:194-206 | the axes show the frame of the given points (cleared for an empty list); rows and label are unchanged |

## Left out

- Expression parsing and differentiation are not modelled. This covers caret
  replacement, implicit multiplication, the `e` substitution, symbolic
  differentiation and `lambdify` (calculate.py:26-45, NR.py:128-147). They
  are calls into a computer-algebra library whose code is not part of this
  model, so `f` and `f'` are function parameters.
- Reading the guess and stop percentage with `float(...)`, and the
  input-error dialog, are not modelled. They are library calls, so the
  numbers are parameters.
- Evaluation errors raised by `f` or `f'` are not modelled. These are domain
  errors and overflow, caught at calculate.py:92-93 and NR.py:191-192. The
  functions are total on the reals.
- Floating point is not modelled; all arithmetic is on exact reals. In
  particular, for two distinct floats whose difference is the smallest
  subnormal number, `(max_x - min_x) * 0.5` underflows to 0 and the padding
  falls back to 1.0. NaN comparisons are also not modelled.
- Display is not modelled: the `.6f` / `.4f%` row formatting, the result
  texts, message boxes, and the tree widget's delete and insert calls. The
  rows are kept as `Record` values.
- Sampling and drawing are not modelled: the 400-point `linspace`, the
  scalar broadcast with `full_like`, evaluating `f` at the markers, and all
  matplotlib calls. The model keeps the frame: its range, its padding and
  its marker point.
- In `calculate.py` the widgets are arguments that the function mutates. The
  model returns their final contents instead. The one read-back during the
  run, the last child of the tree at calculate.py:82, is modelled as the
  index of the last record. That is exact because the tree is cleared before
  the run (calculate.py:9-10).
- `main.py` is not part of this model. It is window layout plus a delegation
  to `calculate.calculate`.
- Convergence rate and monotone errors are not modelled. The code promises
  neither.
