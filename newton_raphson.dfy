/** The Newton-Raphson iteration engine shared by both front ends, stated on
    exact reals over a function `f` and its derivative `df`, both total.

    A run visits iterates x_1 = x0, x_2, ... and for each one evaluates f and
    df, records the iterate as a plot point, stops at once if the derivative
    is zero, and otherwise steps to x_next = x - f(x)/df(x), appends a trace
    record and stops if the relative error is below the stop percentage. */
module NewtonRaphson {
  import opened Wrappers
  import opened Plotting

  /** One row of the iteration table: (i+1, x_curr, f_val, df_val, ea). */
  datatype Record = Record(iter: nat, x: real, fx: real, dfx: real, ea: real)

  /** How a run ended. */
  datatype Status =
    | Converged(root: real, iteration: nat)
    | DerivativeZero
    | NotConverged(maxIter: nat)

  /** Everything a run produces: its trace, its plot points and its status. */
  datatype Run = Run(trace: seq<Record>, points: seq<real>, status: Status)

  function Abs(r: real): (a: real)
  {
    if r < 0.0 then -r else r
  }

  /** The Newton step from iterate `x` with values `fx` and slope `dfx`; it
      stays put exactly when `x` is already a root. */
  function NextIterate(x: real, fx: real, dfx: real): (xNext: real)
    requires dfx != 0.0
    ensures xNext == x <==> fx == 0.0
  {
    x - fx / dfx
  }

  /** The new iterate is where the tangent line at (x, fx) with slope dfx
      meets the x-axis. */
  lemma NextIterateOnTangent(x: real, fx: real, dfx: real)
    requires dfx != 0.0
    ensures fx + dfx * (NextIterate(x, fx, dfx) - x) == 0.0
  {
  }

  /** The approximate error in percent: relative to the new iterate, or
      absolute when the new iterate is zero. It is zero exactly when the
      step did not move. */
  function RelativeError(xCurr: real, xNext: real): (ea: real)
    ensures 0.0 <= ea
    ensures ea == 0.0 <==> xNext == xCurr
  {
    if xNext != 0.0 then Abs((xNext - xCurr) / xNext) * 100.0
    else Abs(xNext - xCurr) * 100.0
  }

  /** The error scaled by the size of the new iterate is a hundred times the
      size of the step; when the new iterate is zero, the error is a hundred
      times the size of the step itself. */
  lemma RelativeErrorScales(xCurr: real, xNext: real)
    ensures xNext != 0.0 ==> RelativeError(xCurr, xNext) * Abs(xNext) == 100.0 * Abs(xNext - xCurr)
    ensures xNext == 0.0 ==> RelativeError(xCurr, xNext) == 100.0 * Abs(xCurr)
  {
  }

  /** A record was computed from its own iterate: f and df evaluated there,
      a non-zero derivative, and the error of the step it takes. */
  predicate Computed(f: real -> real, df: real -> real, r: Record)
  {
    r.fx == f(r.x) && r.dfx == df(r.x) && r.dfx != 0.0
    && r.ea == RelativeError(r.x, NextIterate(r.x, r.fx, r.dfx))
  }

  /** The iterate a record steps to. */
  function After(r: Record): (xNext: real)
    requires r.dfx != 0.0
  {
    NextIterate(r.x, r.fx, r.dfx)
  }

  /** Reference definition of the loop: the rest of a run that starts at
      iterate `x` after `base` iterations, with `budget` iterations left. */
  function RunFrom(f: real -> real, df: real -> real, x: real, stop: real, base: nat, budget: nat): (run: Run)
    decreases budget
  {
    if budget == 0 then Run([], [], NotConverged(base))
    else
      var fx := f(x);
      var dfx := df(x);
      if dfx == 0.0 then Run([], [x], DerivativeZero)
      else
        var xNext := NextIterate(x, fx, dfx);
        var rec := Record(base + 1, x, fx, dfx, RelativeError(x, xNext));
        if rec.ea < stop then Run([rec], [x, xNext], Converged(xNext, base + 1))
        else
          var rest := RunFrom(f, df, xNext, stop, base + 1, budget - 1);
          Run([rec] + rest.trace, [x] + rest.points, rest.status)
  }

  /** A whole run from the initial guess with `maxIter` iterations. */
  function Solve(f: real -> real, df: real -> real, x0: real, stop: real, maxIter: nat): (run: Run)
  {
    RunFrom(f, df, x0, stop, 0, maxIter)
  }

  /** The rules a run obeys, stated on the run's output, for a run that
      starts at `x0` after `base` iterations with `budget` iterations left:
      - records are numbered base+1, base+2, ... without gaps, at most `budget`;
      - every record is computed from its own iterate;
      - the first record is at `x0`, each later one at the previous one's step;
      - every record but the last has error at least `stop`;
      - the plot points start with the recorded iterates;
      - and the status says how the last step ended. */
  predicate DescribesFrom(f: real -> real, df: real -> real, x0: real, stop: real,
                          base: nat, budget: nat, run: Run)
  {
    var t, p := run.trace, run.points;
    |t| <= budget
    && (forall k :: 0 <= k < |t| ==> t[k].iter == base + k + 1 && Computed(f, df, t[k]))
    && (|t| > 0 ==> t[0].x == x0)
    && (forall k :: 0 < k < |t| ==> t[k].x == After(t[k - 1]))
    && (forall k :: 0 <= k < |t| - 1 ==> stop <= t[k].ea)
    && |t| <= |p|
    && (forall k :: 0 <= k < |t| ==> p[k] == t[k].x)
    && match run.status
       case Converged(root, n) =>
         // the last record is the first below the stop percentage; its step is the root
         |t| > 0 && n == base + |t| && t[|t| - 1].ea < stop
         && root == After(t[|t| - 1]) && |p| == |t| + 1 && p[|t|] == root
       case DerivativeZero =>
         // the next iterate has a zero derivative: it is plotted, not recorded
         |t| < budget && (|t| > 0 ==> stop <= t[|t| - 1].ea)
         && |p| == |t| + 1 && p[|t|] == (if |t| == 0 then x0 else After(t[|t| - 1]))
         && df(p[|t|]) == 0.0
       case NotConverged(m) =>
         // every iteration was used and none met the stop percentage
         m == base + budget && |t| == budget && |p| == |t|
         && (|t| > 0 ==> stop <= t[|t| - 1].ea)
  }

  /** The rules of a whole run. */
  predicate Describes(f: real -> real, df: real -> real, x0: real, stop: real, maxIter: nat, run: Run)
  {
    DescribesFrom(f, df, x0, stop, 0, maxIter, run)
  }

  /** The iteration loop of both front ends, with their bound as a
      parameter. Each iterate joins the plot points before the derivative is
      tested; each step appends one record; the loop stops on a zero
      derivative, on convergence (adding the root as the last plot point) or
      after `maxIter` steps. */
  method Iterate(f: real -> real, df: real -> real, x0: real, stopPercent: real, maxIter: nat)
    returns (trace: seq<Record>, plotData: seq<real>, status: Status)
    ensures Run(trace, plotData, status) == Solve(f, df, x0, stopPercent, maxIter)
  {
    ghost var whole := Solve(f, df, x0, stopPercent, maxIter);
    var xCurr := x0;
    trace, plotData := [], [];
    for i := 0 to maxIter
      invariant whole == Resume(trace, plotData, RunFrom(f, df, xCurr, stopPercent, i, maxIter - i))
    {
      Advance(f, df, xCurr, stopPercent, i, maxIter - i, trace, plotData, whole);
      var fVal := f(xCurr);
      var dfVal := df(xCurr);
      plotData := plotData + [xCurr];
      if dfVal == 0.0 {
        status := DerivativeZero;
        return;
      }
      var xNext := NextIterate(xCurr, fVal, dfVal);
      var ea := RelativeError(xCurr, xNext);
      trace := trace + [Record(i + 1, xCurr, fVal, dfVal, ea)];
      if ea < stopPercent {
        status := Converged(xNext, i + 1);
        plotData := plotData + [xNext];
        return;
      }
      xCurr := xNext;
    }
    status := NotConverged(maxIter);
  }

  /** A run already under way: the records and points so far, followed by
      the rest of the run. */
  function Resume(trace: seq<Record>, points: seq<real>, rest: Run): (run: Run)
  {
    Run(trace + rest.trace, points + rest.points, rest.status)
  }

  /** One turn of the loop, stated on the reference run: what a run that
      has reached iterate `x` with `budget` iterations left turns into. */
  lemma Advance(f: real -> real, df: real -> real, x: real, stop: real, base: nat, budget: nat,
                trace: seq<Record>, points: seq<real>, whole: Run)
    requires 0 < budget
    requires whole == Resume(trace, points, RunFrom(f, df, x, stop, base, budget))
    ensures df(x) == 0.0 ==> whole == Run(trace, points + [x], DerivativeZero)
    ensures df(x) != 0.0 ==>
      var xNext := NextIterate(x, f(x), df(x));
      var rec := Record(base + 1, x, f(x), df(x), RelativeError(x, xNext));
      if rec.ea < stop then whole == Run(trace + [rec], points + [x] + [xNext], Converged(xNext, base + 1))
      else whole == Resume(trace + [rec], points + [x], RunFrom(f, df, xNext, stop, base + 1, budget - 1))
  {
  }

  /** A first record that does not stop the run, put in front of the rest of
      a run that starts where it steps to, gives a run that obeys the rules. */
  lemma DescribesCons(f: real -> real, df: real -> real, x: real, stop: real,
                      base: nat, budget: nat, rec: Record, rest: Run)
    requires 0 < budget
    requires rec.iter == base + 1 && rec.x == x && Computed(f, df, rec) && stop <= rec.ea
    requires DescribesFrom(f, df, After(rec), stop, base + 1, budget - 1, rest)
    ensures DescribesFrom(f, df, x, stop, base, budget,
                          Run([rec] + rest.trace, [x] + rest.points, rest.status))
  {
    var t, p := [rec] + rest.trace, [x] + rest.points;
    assert forall k :: 0 < k < |t| ==> t[k] == rest.trace[k - 1];
    assert forall k :: 0 < k < |p| ==> p[k] == rest.points[k - 1];
    forall k | 0 < k < |t| ensures t[k].x == After(t[k - 1]) {
      if k > 1 {
        assert t[k - 1] == rest.trace[k - 2];
      }
    }
  }

  /** Dropping the first record of a run that did not stop there gives a run
      that obeys the rules from the next iterate. */
  lemma DescribesTail(f: real -> real, df: real -> real, x: real, stop: real,
                      base: nat, budget: nat, run: Run)
    requires DescribesFrom(f, df, x, stop, base, budget, run)
    requires |run.trace| > 0 && stop <= run.trace[0].ea
    ensures 0 < budget && |run.points| > 0
    ensures DescribesFrom(f, df, After(run.trace[0]), stop, base + 1, budget - 1,
                          Run(run.trace[1..], run.points[1..], run.status))
  {
    var t, p := run.trace[1..], run.points[1..];
    assert forall k :: 0 <= k < |t| ==> t[k] == run.trace[k + 1];
    assert forall k :: 0 <= k < |p| ==> p[k] == run.points[k + 1];
    if run.status.Converged? {
      assert |run.trace| > 1;
    }
  }

  /** The reference run obeys the rules. */
  lemma {:induction false} RunFromDescribes(f: real -> real, df: real -> real, x: real, stop: real,
                                            base: nat, budget: nat)
    ensures DescribesFrom(f, df, x, stop, base, budget, RunFrom(f, df, x, stop, base, budget))
    decreases budget
  {
    if budget > 0 && df(x) != 0.0 {
      var xNext := NextIterate(x, f(x), df(x));
      var rec := Record(base + 1, x, f(x), df(x), RelativeError(x, xNext));
      if stop <= rec.ea {
        RunFromDescribes(f, df, xNext, stop, base + 1, budget - 1);
        DescribesCons(f, df, x, stop, base, budget, rec, RunFrom(f, df, xNext, stop, base + 1, budget - 1));
      }
    }
  }

  /** With no iterations left, the only run that obeys the rules is the empty
      one that did not converge. */
  lemma DescribesNoBudget(f: real -> real, df: real -> real, x: real, stop: real, base: nat, run: Run)
    requires DescribesFrom(f, df, x, stop, base, 0, run)
    ensures run == Run([], [], NotConverged(base))
  {
    assert run.trace == [];
  }

  /** With a zero derivative at the first iterate, the only run that obeys the
      rules stops at once with that iterate as its one plot point. */
  lemma DescribesZeroSlope(f: real -> real, df: real -> real, x: real, stop: real,
                           base: nat, budget: nat, run: Run)
    requires 0 < budget && df(x) == 0.0
    requires DescribesFrom(f, df, x, stop, base, budget, run)
    ensures run == Run([], [x], DerivativeZero)
  {
    assert run.trace == [];
    assert run.points == [x];
  }

  /** Otherwise the first record of a run that obeys the rules is the step
      from the first iterate, and if its error is below the stop percentage
      the run converges there. */
  lemma DescribesFirstStep(f: real -> real, df: real -> real, x: real, stop: real,
                           base: nat, budget: nat, run: Run)
    requires 0 < budget && df(x) != 0.0
    requires DescribesFrom(f, df, x, stop, base, budget, run)
    ensures var xNext := NextIterate(x, f(x), df(x));
      var rec := Record(base + 1, x, f(x), df(x), RelativeError(x, xNext));
      |run.trace| > 0 && run.trace[0] == rec
      && (rec.ea < stop ==> run == Run([rec], [x, xNext], Converged(xNext, base + 1)))
  {
    var t, p := run.trace, run.points;
    assert |t| > 0;
    assert Computed(f, df, t[0]);
    if t[0].ea < stop {
      assert |t| == 1;
    }
  }

  /** The rules leave no freedom: a run that obeys them is the reference run. */
  lemma {:induction false} DescribesOnlyRunFrom(f: real -> real, df: real -> real, x: real, stop: real,
                                                base: nat, budget: nat, run: Run)
    requires DescribesFrom(f, df, x, stop, base, budget, run)
    ensures run == RunFrom(f, df, x, stop, base, budget)
    decreases budget
  {
    if budget == 0 {
      DescribesNoBudget(f, df, x, stop, base, run);
    } else if df(x) == 0.0 {
      DescribesZeroSlope(f, df, x, stop, base, budget, run);
    } else {
      DescribesFirstStep(f, df, x, stop, base, budget, run);
      if stop <= run.trace[0].ea {
        DescribesTail(f, df, x, stop, base, budget, run);
        var rest := Run(run.trace[1..], run.points[1..], run.status);
        DescribesOnlyRunFrom(f, df, NextIterate(x, f(x), df(x)), stop, base + 1, budget - 1, rest);
        RunFromReassemble(f, df, x, stop, base, budget, run);
      }
    }
  }

  /** A run whose first record is the step from `x`, which does not stop,
      and whose remainder is the reference run from the next iterate, is the
      reference run from `x`. */
  lemma RunFromReassemble(f: real -> real, df: real -> real, x: real, stop: real,
                          base: nat, budget: nat, run: Run)
    requires 0 < budget && df(x) != 0.0
    requires |run.trace| > 0 && |run.points| > 0 && run.points[0] == x
    requires run.trace[0] == Record(base + 1, x, f(x), df(x), RelativeError(x, NextIterate(x, f(x), df(x))))
    requires stop <= run.trace[0].ea
    requires Run(run.trace[1..], run.points[1..], run.status)
             == RunFrom(f, df, NextIterate(x, f(x), df(x)), stop, base + 1, budget - 1)
    ensures run == RunFrom(f, df, x, stop, base, budget)
  {
    assert run.trace == [run.trace[0]] + run.trace[1..];
    assert run.points == [run.points[0]] + run.points[1..];
  }

  /** A run is the result of the loop exactly when it obeys the rules. */
  lemma SolveIffDescribes(f: real -> real, df: real -> real, x0: real, stop: real, maxIter: nat, run: Run)
    ensures run == Solve(f, df, x0, stop, maxIter) <==> Describes(f, df, x0, stop, maxIter, run)
  {
    RunFromDescribes(f, df, x0, stop, 0, maxIter);
    if Describes(f, df, x0, stop, maxIter, run) {
      DescribesOnlyRunFrom(f, df, x0, stop, 0, maxIter, run);
    }
  }

  /** The shape of a whole run: at most `maxIter` records; a run that did
      not converge used every iteration and plotted only recorded iterates;
      any other run plotted one point more, which on convergence is the root
      reported at the last record's index. */
  lemma RunShape(f: real -> real, df: real -> real, x0: real, stop: real, maxIter: nat)
    ensures var run := Solve(f, df, x0, stop, maxIter);
      |run.trace| <= maxIter
      && (run.status.NotConverged? ==>
            run.status.maxIter == maxIter && |run.trace| == maxIter && |run.points| == maxIter)
      && (!run.status.NotConverged? ==> |run.points| == |run.trace| + 1)
      && (run.status.Converged? ==>
            |run.trace| > 0 && run.status.iteration == run.trace[|run.trace| - 1].iter == |run.trace|
            && run.points[|run.points| - 1] == run.status.root)
  {
    RunFromDescribes(f, df, x0, stop, 0, maxIter);
  }

  /** With a stop percentage of zero or below a run never converges, since
      every error is non-negative. */
  lemma NonPositiveStopNeverConverges(f: real -> real, df: real -> real, x0: real, stop: real, maxIter: nat)
    requires stop <= 0.0
    ensures !Solve(f, df, x0, stop, maxIter).status.Converged?
  {
    RunFromDescribes(f, df, x0, stop, 0, maxIter);
    var t := Solve(f, df, x0, stop, maxIter).trace;
    if |t| > 0 {
      assert Computed(f, df, t[|t| - 1]);
    }
  }

  /** A zero derivative at the initial guess ends the run at once, with no
      record and the guess as the only plot point. */
  lemma ZeroDerivativeAtGuess(f: real -> real, df: real -> real, x0: real, stop: real, maxIter: nat)
    requires 0 < maxIter && df(x0) == 0.0
    ensures Solve(f, df, x0, stop, maxIter) == Run([], [x0], DerivativeZero)
  {
  }

  /** A tighter stop percentage only lengthens a run: the trace under the
      looser one is a prefix of the trace under the tighter one, and if the
      tighter one converges, the looser one converges no later. */
  lemma {:induction false} TighterStopExtendsTrace(f: real -> real, df: real -> real, x: real,
                                                   tight: real, loose: real, base: nat, budget: nat)
    requires tight <= loose
    ensures RunFrom(f, df, x, loose, base, budget).trace <= RunFrom(f, df, x, tight, base, budget).trace
    ensures RunFrom(f, df, x, tight, base, budget).status.Converged? ==>
      RunFrom(f, df, x, loose, base, budget).status.Converged?
      && RunFrom(f, df, x, loose, base, budget).status.iteration
         <= RunFrom(f, df, x, tight, base, budget).status.iteration
    decreases budget
  {
    if budget > 0 && df(x) != 0.0 {
      var xNext := NextIterate(x, f(x), df(x));
      var rec := Record(base + 1, x, f(x), df(x), RelativeError(x, xNext));
      var tightRest := RunFrom(f, df, xNext, tight, base + 1, budget - 1);
      var looseRest := RunFrom(f, df, xNext, loose, base + 1, budget - 1);
      if rec.ea < loose {
        assert RunFrom(f, df, x, loose, base, budget).trace == [rec];
        if tight <= rec.ea {
          RunFromDescribes(f, df, xNext, tight, base + 1, budget - 1);
          assert RunFrom(f, df, x, tight, base, budget).trace == [rec] + tightRest.trace;
        }
      } else {
        TighterStopExtendsTrace(f, df, xNext, tight, loose, base + 1, budget - 1);
        assert RunFrom(f, df, x, loose, base, budget).trace == [rec] + looseRest.trace;
        assert RunFrom(f, df, x, tight, base, budget).trace == [rec] + tightRest.trace;
      }
    }
  }

  /** The converged iteration count of a whole run is monotone in the stop
      percentage. */
  lemma TighterStopNeverConvergesSooner(f: real -> real, df: real -> real, x0: real,
                                        tight: real, loose: real, maxIter: nat)
    requires tight <= loose
    requires Solve(f, df, x0, tight, maxIter).status.Converged?
    ensures Solve(f, df, x0, loose, maxIter).status.Converged?
    ensures Solve(f, df, x0, loose, maxIter).status.iteration <= Solve(f, df, x0, tight, maxIter).status.iteration
  {
    TighterStopExtendsTrace(f, df, x0, tight, loose, 0, maxIter);
  }

  /** When a run that ends with a plot is drawn, its frame encloses every
      visited iterate, and the highlighted point is the root on convergence
      and the last recorded iterate otherwise. */
  lemma PlottedRunFrame(f: real -> real, df: real -> real, x0: real, stop: real, maxIter: nat)
    requires 0 < maxIter
    requires !Solve(f, df, x0, stop, maxIter).status.DerivativeZero?
    ensures var run := Solve(f, df, x0, stop, maxIter);
      var fr := PlotFrame(run.points);
      fr.Some? && fr.value.Encloses(run.points)
      && (forall k :: 0 <= k < |run.trace| ==> fr.value.Lo() <= run.trace[k].x <= fr.value.Hi())
      && (run.status.Converged? ==> fr.value.marker == run.status.root)
      && (run.status.NotConverged? ==> fr.value.marker == run.trace[|run.trace| - 1].x)
  {
    RunFromDescribes(f, df, x0, stop, 0, maxIter);
  }
}
