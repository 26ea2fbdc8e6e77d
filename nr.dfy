/** The class-based front end, `NewtonRaphsonApp`, with its bound of 50
    iterations. Its widgets become fields that its methods update: the rows
    of the table, the final result label and the frame the axes show. */
module NR {
  import opened Wrappers
  import opened Plotting
  import opened NewtonRaphson

  const MaxIter: nat := 50

  class NewtonRaphsonApp {
    /** Rows of the iteration table, in insertion order. */
    var rows: seq<Record>
    /** The final result label; None while it is empty. */
    var result: Option<Status>
    /** The frame the axes show; None while they are cleared. */
    var frame: Option<Frame>

    constructor ()
      ensures rows == [] && result == None && frame == None
    {
      rows, result, frame := [], None, None;
    }

    /** The "Calculate" button: clears the table, the label and the axes,
        then runs the loop with this front end's bound, shows its rows and
        status, and plots unless the derivative became zero. */
    method Calculate(f: real -> real, df: real -> real, x0: real, stopPercent: real)
      modifies this
      ensures var run := Solve(f, df, x0, stopPercent, MaxIter);
        rows == run.trace && result == Some(run.status)
        && frame == (if run.status.DerivativeZero? then None else PlotFrame(run.points))
      ensures |rows| <= MaxIter
      ensures result == Some(NotConverged(MaxIter)) ==> |rows| == MaxIter
      ensures frame.Some? ==> forall k :: 0 <= k < |rows| ==> frame.value.Lo() <= rows[k].x <= frame.value.Hi()
    {
      rows, result, frame := [], None, None;
      var plotData, status;
      rows, plotData, status := Iterate(f, df, x0, stopPercent, MaxIter);
      RunShape(f, df, x0, stopPercent, MaxIter);
      result := Some(status);
      if !status.DerivativeZero? {
        PlottedRunFrame(f, df, x0, stopPercent, MaxIter);
        PlotGraph(plotData);
      }
    }

    /** Clears the axes and draws the frame of the given points, if any. */
    method PlotGraph(points: seq<real>)
      modifies this
      ensures frame == PlotFrame(points)
      ensures rows == old(rows) && result == old(result)
    {
      frame := PlotFrame(points);
    }
  }
}
