/** The two streaming tools of the demonstration server script: a countdown
    that streams each count and then a "done" event, and a progressive sum
    that streams every partial sum and then the final one. */
module DemoTools {
  import Series

  // ---------------------------------------------------------------------
  // countdown
  // ---------------------------------------------------------------------

  /** `{"count": i}` or `{"done": True}`. */
  datatype CountdownEvent = Count(count: int) | Done

  /** Reference definition of the stream: start, start - 1, ..., 1, done. */
  function CountdownEvents(start: int): seq<CountdownEvent>
    decreases start
  {
    if start <= 0 then [Done] else [Count(start)] + CountdownEvents(start - 1)
  }

  /** The stream holds max(start, 0) counts, the k-th being start - k,
      followed by the done event. */
  lemma {:induction false} CountdownShape(start: int)
    ensures |CountdownEvents(start)| == Series.Clamp(start) + 1
    ensures forall k :: 0 <= k < Series.Clamp(start) ==> CountdownEvents(start)[k] == Count(start - k)
    ensures CountdownEvents(start)[Series.Clamp(start)] == Done
    decreases start
  {
    if start > 0 {
      CountdownShape(start - 1);
      var e := CountdownEvents(start);
      assert forall k :: 1 <= k < Series.Clamp(start) ==> e[k] == CountdownEvents(start - 1)[k - 1];
    }
  }

  /** The done event is the last one and occurs exactly once; the counts
      before it are positive and strictly decreasing. */
  lemma CountdownOrder(start: int)
    ensures var e := CountdownEvents(start);
      && e[|e| - 1] == Done
      && (forall k :: 0 <= k < |e| ==> (e[k] == Done <==> k == |e| - 1))
      && (forall k :: 0 <= k < |e| - 1 ==> e[k].Count? && e[k].count >= 1)
      && (forall i, j :: 0 <= i < j < |e| - 1 ==> e[i].count > e[j].count)
  {
    CountdownShape(start);
  }

  /** `countdown_tool`: yields each count from start down to 1, then done. */
  method Countdown(start: int) returns (events: seq<CountdownEvent>)
    ensures events == CountdownEvents(start)
  {
    events := [];
    var i := start;
    while i > 0
      invariant events + CountdownEvents(i) == CountdownEvents(start)
    {
      events := events + [Count(i)];
      i := i - 1;
    }
    events := events + [Done];
  }

  // ---------------------------------------------------------------------
  // stream_sum
  // ---------------------------------------------------------------------

  /** `{"partial_sum": total}` or `{"final_sum": total}`. */
  datatype SumEvent = PartialSum(partial: int) | FinalSum(final: int)

  /** Reference definition of the stream: the k-th partial sum 1 + ... + k
      for k in 1..n, then the final sum. */
  function SumEvents(n: int): seq<SumEvent> {
    var m := Series.Clamp(n);
    seq(m, k requires 0 <= k < m => PartialSum(Series.SumTo(k + 1))) + [FinalSum(Series.SumTo(m))]
  }

  /** The stream holds max(n, 0) + 1 events: partial sums k(k+1)/2, strictly
      increasing, then a final sum equal to the last partial sum (0 when
      n <= 0). */
  lemma SumEventsShape(n: int)
    ensures var e := SumEvents(n);
      && |e| == Series.Clamp(n) + 1
      && (forall k :: 0 <= k < |e| - 1 ==> e[k] == PartialSum((k + 1) * (k + 2) / 2))
      && (forall i, j :: 0 <= i < j < |e| - 1 ==> e[i].partial < e[j].partial)
      && e[|e| - 1] == FinalSum(if n <= 0 then 0 else e[|e| - 2].partial)
  {
    var e := SumEvents(n);
    forall k | 0 <= k < |e| - 1 ensures e[k] == PartialSum((k + 1) * (k + 2) / 2) {
      assert e[k] == PartialSum(Series.SumTo(k + 1));
    }
    forall i, j | 0 <= i < j < |e| - 1 ensures e[i].partial < e[j].partial {
      Series.SumToStrictlyIncreasing(i + 1, j + 1);
    }
  }

  /** `stream_sum_tool`: adds i to the total for each i in 1..n, yielding
      the running total each time, then yields the final total. */
  method StreamSum(n: int) returns (events: seq<SumEvent>)
    ensures events == SumEvents(n)
  {
    var total := 0;
    events := [];
    var i := 1;
    while i <= n
      invariant 1 <= i <= Series.Clamp(n) + 1
      invariant total == Series.SumTo(i - 1)
      invariant |events| == i - 1
      invariant forall k :: 0 <= k < |events| ==> events[k] == PartialSum(Series.SumTo(k + 1))
    {
      total := total + i;
      events := events + [PartialSum(total)];
      i := i + 1;
    }
    events := events + [FinalSum(total)];
    assert events == SumEvents(n);
  }
}
