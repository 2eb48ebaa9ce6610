/** The packaged server's entry module: the `stream_sum` tool, which adds
    1 + 2 + ... + n and reports progress after every step, and `main`, which
    loads the configuration, hands its run parameters to the server and maps
    the way that ends to an exit status. */
module Server {
  import opened Wrappers
  import Config
  import Decimal
  import Series

  // ---------------------------------------------------------------------
  // stream_sum
  // ---------------------------------------------------------------------

  /** One `ctx.report_progress(progress=..., total=..., message=...)` call. */
  datatype Progress = Progress(progress: int, total: int, message: string)

  /** The dictionary the tool returns: `{"final_sum": ..., "steps": ...}`. */
  datatype SumResult = SumResult(finalSum: int, steps: int)

  /** The fixed opening of a progress message. */
  const ProgressHead := "Computed sum up to "

  /** The progress message "Computed sum up to {i}: {total}": the fixed
      opening, the decimal step, `": "` and the decimal total, and nothing
      else. */
  function ProgressMessage(i: nat, total: nat): (m: string)
    ensures |m| == |ProgressHead| + |Decimal.FromNat(i)| + 2 + |Decimal.FromNat(total)|
    ensures Config.OccursAt(m, ProgressHead, 0)
    ensures Config.OccursAt(m, Decimal.FromNat(i), |ProgressHead|)
    ensures Config.OccursAt(m, ": ", |ProgressHead| + |Decimal.FromNat(i)|)
    ensures |Decimal.FromNat(total)| <= |m|
    ensures Config.OccursAt(m, Decimal.FromNat(total), |m| - |Decimal.FromNat(total)|)
  {
    var d, t := Decimal.FromNat(i), Decimal.FromNat(total);
    var x := ProgressHead + d + ": ";
    Config.ConcatParts(ProgressHead, d, ": ");
    Config.OccursBeforeSuffix(x, t, ProgressHead, 0);
    Config.OccursBeforeSuffix(x, t, d, |ProgressHead|);
    Config.OccursBeforeSuffix(x, t, ": ", |ProgressHead| + |d|);
    assert t[0..|t|] == t;
    Config.OccursAfterPrefix(x, t, t, 0);
    x + t
  }

  /** A progress message determines the running total it reports. */
  lemma ProgressMessageDeterminesTotal(i: nat, t1: nat, t2: nat)
    requires ProgressMessage(i, t1) == ProgressMessage(i, t2)
    ensures t1 == t2
  {
    var head := ProgressHead + Decimal.FromNat(i) + ": ";
    var d1, d2 := Decimal.FromNat(t1), Decimal.FromNat(t2);
    assert ProgressMessage(i, t1) == head + d1;
    assert ProgressMessage(i, t2) == head + d2;
    assert d1 == (head + d1)[|head|..];
    assert d2 == (head + d2)[|head|..];
    Decimal.FromNatInjective(t1, t2);
  }

  /** `stream_sum_tool`: for each i in 1..n the running total grows by i and
      a report (i, n, message) is made; the result is the total and n. */
  method StreamSum(n: int) returns (result: SumResult, reports: seq<Progress>)
    ensures result.steps == n
    ensures result.finalSum == Series.SumTo(Series.Clamp(n))
    ensures result.finalSum == Series.Clamp(n) * (Series.Clamp(n) + 1) / 2
    ensures |reports| == Series.Clamp(n)
    ensures forall k :: 0 <= k < |reports| ==>
      reports[k] == Progress(k + 1, n, ProgressMessage(k + 1, (k + 1) * (k + 2) / 2))
  {
    var total := 0;
    reports := [];
    var i := 1;
    while i <= n
      invariant 1 <= i <= Series.Clamp(n) + 1
      invariant total == Series.SumTo(i - 1)
      invariant |reports| == i - 1
      invariant forall k :: 0 <= k < |reports| ==>
        reports[k] == Progress(k + 1, n, ProgressMessage(k + 1, Series.SumTo(k + 1)))
    {
      total := total + i;
      assert total == Series.SumTo(i);
      reports := reports + [Progress(i, n, ProgressMessage(i, total))];
      i := i + 1;
    }
    result := SumResult(total, n);
  }

  // ---------------------------------------------------------------------
  // main
  // ---------------------------------------------------------------------

  /** How the server's run call ends, which this module cannot see: it
      returns, raises `ValueError`, is interrupted from the keyboard, or
      raises any other exception (with its text). */
  datatype RunOutcome = Returned | RaisedValueError(message: string) | Interrupted | RaisedOther(message: string)

  /** What `main` does: the parameters it passes to the run call (if it
      gets that far), the text of each `print` call to standard
      error (a text may span several lines), and the exit status of the process.  Log records, which
      `logging.basicConfig` also sends to standard error, are not part of it. */
  datatype MainResult = MainResult(runArgs: Option<map<string, Config.RunValue>>, printed: seq<string>, exitCode: int)

  const UnexpectedPrefix := "Unexpected error: "

  /** `main()`: load the configuration; on success pass exactly its run
      parameters to the run call; a `ValueError` (from loading or from the
      run call) prints "Configuration error: ..." and exits 1, a keyboard
      interrupt exits 0, any other exception prints "Unexpected error: ..."
      and exits 1, and a run call that returns ends the process with 0. */
  function CliMain(src: Config.Settings, run: RunOutcome): (r: MainResult)
    ensures r.exitCode == 0 || r.exitCode == 1
    ensures r.exitCode == 0 <==> Config.LoadConfig(src).Success? && (run.Returned? || run.Interrupted?)
    ensures r.exitCode == 0 <==> r.printed == []  // nothing printed
    ensures r.runArgs.Some? <==> Config.LoadConfig(src).Success?
    ensures r.runArgs.Some? ==> r.runArgs.value == Config.ToRunConfig(Config.LoadConfig(src).value)
    ensures Config.LoadConfig(src).Failure? ==>
      r.printed == [Config.ErrorPrefix + Config.LoadConfig(src).error.message]
    ensures Config.LoadConfig(src).Success? && run.RaisedValueError? ==>
      r.printed == [Config.ErrorPrefix + run.message]
    ensures Config.LoadConfig(src).Success? && run.RaisedOther? ==>
      r.printed == [UnexpectedPrefix + run.message]
  {
    match Config.LoadConfig(src)
    case Failure(e) => MainResult(None, [Config.ErrorPrefix + e.message], 1)
    case Success(config) =>
      var args := Config.ToRunConfig(config);
      match run
      case Returned => MainResult(Some(args), [], 0)
      case RaisedValueError(m) => MainResult(Some(args), [Config.ErrorPrefix + m], 1)
      case Interrupted => MainResult(Some(args), [], 0)
      case RaisedOther(m) => MainResult(Some(args), [UnexpectedPrefix + m], 1)
  }

  /** A configuration failure never starts the server; the text of its one
      `print` call to standard error starts with "Configuration error: "
      and, because `load_config` already put that prefix in its message,
      repeats it. */
  lemma ConfigFailureLine(src: Config.Settings, run: RunOutcome)
    requires Config.LoadConfig(src).Failure?
    ensures CliMain(src, run).runArgs.None? && CliMain(src, run).exitCode == 1
    ensures |CliMain(src, run).printed| == 1
    ensures Config.OccursAt(CliMain(src, run).printed[0], Config.ErrorPrefix, 0)
    ensures Config.OccursAt(CliMain(src, run).printed[0], Config.ErrorPrefix, |Config.ErrorPrefix|)
  {
    var p, msg := Config.ErrorPrefix, Config.LoadConfig(src).error.message;
    assert CliMain(src, run).printed == [p + msg];
    assert p[0..|p|] == p;
    Config.OccursBeforeSuffix(p, msg, p, 0);
    Config.OccursAfterPrefix(p, msg, p, 0);
  }
}
