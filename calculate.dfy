/** The module-level front end (`calculate` and `plot_graph`), with its
    bound of 100 iterations. The widgets it fills are returned instead: the
    table rows, the plot points, the final status, the row tagged as the
    root, and the frame drawn (none when nothing is plotted). */
module Calculate {
  import opened Wrappers
  import opened Plotting
  import opened NewtonRaphson

  const MaxIter: nat := 100

  /** One press of "Calculate": the loop with this front end's bound, the
      last row tagged as the root on convergence, and a plot drawn unless
      the derivative became zero. */
  method Calculate(f: real -> real, df: real -> real, x0: real, stopPercent: real)
    returns (trace: seq<Record>, plotData: seq<real>, status: Status,
             rootRow: Option<nat>, frame: Option<Frame>)
    ensures Run(trace, plotData, status) == Solve(f, df, x0, stopPercent, MaxIter)
    ensures Describes(f, df, x0, stopPercent, MaxIter, Run(trace, plotData, status))
    ensures |trace| <= MaxIter
    ensures status.NotConverged? ==> |trace| == MaxIter == |plotData|
    ensures frame.Some? ==> frame.value.Encloses(plotData)
    ensures rootRow.Some? <==> status.Converged?
    ensures rootRow.Some? ==> rootRow.value == |trace| - 1 && trace[rootRow.value].iter == status.iteration
    ensures frame == if status.DerivativeZero? then None else PlotFrame(plotData)
  {
    trace, plotData, status := Iterate(f, df, x0, stopPercent, MaxIter);
    SolveIffDescribes(f, df, x0, stopPercent, MaxIter, Run(trace, plotData, status));
    rootRow, frame := None, None;
    if status.Converged? {
      // The tree is cleared before the run, so its last child is the last record.
      rootRow := Some(|trace| - 1);
    }
    RunShape(f, df, x0, stopPercent, MaxIter);
    if !status.DerivativeZero? {
      PlottedRunFrame(f, df, x0, stopPercent, MaxIter);
      frame := PlotFrame(plotData);
    }
  }
}
