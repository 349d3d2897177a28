/**
 * The dashboard page put together: nothing to show without a stored
 * session; otherwise the totals, the slowest operations, the five slowest
 * buckets and a drill suggestion for each of them.
 */
module Dashboard {
  import opened Wrappers
  import opened Records
  import opened Analytics
  import opened Ranges
  import Capture

  /** One entry of "Drill Suggestions by Time-Heavy Categories". */
  datatype Drill = Drill(bucket: Bucket, addSub: Range, mulDiv: Range)

  /** What the page shows once there is at least one stored session. */
  datatype Overview = Overview(
    totalProblems: nat,
    average: Option<real>,
    opTimes: seq<OpTime>,
    slowest: seq<Bucket>,
    drills: seq<Drill>)

  /** The suggestion for one bucket, from its operation and its two widths. */
  function DrillFor(b: Bucket): Drill
  {
    Drill(b, AddSubFor(b.op, b.digits.0, b.digits.1), MulDivFor(b.op, b.digits.0, b.digits.1))
  }

  /** `bucketRates.slice(0, 5).map(...)` over the ranges: one suggestion per bucket, in order. */
  method Drills(slowest: seq<Bucket>) returns (drills: seq<Drill>)
    ensures |drills| == |slowest|
    ensures forall j | 0 <= j < |slowest| :: drills[j] == DrillFor(slowest[j])
  {
    drills := [];
    var i := 0;
    while i < |slowest|
      invariant 0 <= i <= |slowest|
      invariant |drills| == i
      invariant forall j | 0 <= j < i :: drills[j] == DrillFor(slowest[j])
    {
      var b := slowest[i];
      var addSub, mulDiv := SuggestRanges(b.op, b.digits.0, b.digits.1);
      drills := drills + [Drill(b, addSub.Value(), mulDiv.Value())];
      i := i + 1;
    }
  }

  /**
   * The `Dashboard` component: None stands for the "No completed sessions
   * yet" page; otherwise the figures are those of all stored attempts and
   * each of the (at most five) slowest buckets gets its drill suggestion.
   */
  method Show(sessions: seq<Session>) returns (view: Option<Overview>)
    ensures view.None? <==> sessions == []
    ensures view.Some? ==>
      var xs := Flatten(sessions);
      var v := view.value;
      && v.totalProblems == |xs|
      && v.average == GlobalAverage(xs)
      && v.opTimes == OpTimes(xs)
      && v.slowest == Focus(BucketRates(BucketList(xs)))
      && |v.drills| == |v.slowest| <= 5
      && forall i | 0 <= i < |v.drills| :: v.drills[i] == DrillFor(v.slowest[i])
  {
    if sessions == [] {
      return None;
    }
    var attempts := Flatten(sessions);
    var order, buckets := TimeBuckets(attempts);
    assert Values(order, buckets) == BucketList(attempts);
    var rates := BucketRates(Values(order, buckets));
    var slowest := Focus(rates);
    var drills := Drills(slowest);
    view := Some(Overview(|attempts|, GlobalAverage(attempts), OpTimes(attempts), slowest, drills));
  }

  /**
   * The store the content script appends to is the list the dashboard reads:
   * a session persisted by the timer poll adds exactly its attempts, as the
   * JSON round trip returns them, to the end of the flattened list.
   */
  lemma PersistedAttemptsReachDashboard(st: Capture.CaptureState, timerText: Option<string>, now: int)
    ensures var (st', ended) := Capture.Poll(st, timerText, now);
      Flatten(st'.stored) == Flatten(st.stored) + (if ended then StoredAttempts(st.sessionAttempts) else [])
  {
    var (st', ended) := Capture.Poll(st, timerText, now);
    if ended {
      var s := StoredSession(Session(st.sessionStartTs, now, st.sessionAttempts));
      FlattenAppend(st.stored, [s]);
      assert Flatten([s]) == s.attempts by {
        assert [s][..0] == [];
      }
    }
  }

  /**
   * Whatever the content script does, an operand the dashboard reads from the
   * store is never NaN, given that the store held none when the page loaded.
   */
  lemma {:induction false} StoreHoldsNumbers(st: Capture.CaptureState, evs: seq<Capture.Event>)
    requires NumericOperands(Flatten(st.stored))
    ensures NumericOperands(Flatten(Capture.Run(st, evs).stored))
    decreases |evs|
  {
    if evs != [] {
      var st1 := Capture.Step(st, evs[0]);
      Capture.StepSession(st, evs[0]);
      if st1.stored != st.stored {
        AppendStoredNumbers(st.stored, Session(st.sessionStartTs, evs[0].now, st.sessionAttempts));
      }
      StoreHoldsNumbers(st1, evs[1..]);
    }
  }

  /** Appending a session in its stored form keeps every stored operand a number. */
  lemma AppendStoredNumbers(stored: seq<Session>, s: Session)
    requires NumericOperands(Flatten(stored))
    ensures NumericOperands(Flatten(stored + [StoredSession(s)]))
  {
    var t := StoredSession(s);
    FlattenAppend(stored, [t]);
    assert Flatten([t]) == t.attempts by {
      assert [t][..0] == [];
    }
    var front := Flatten(stored);
    var xs := Flatten(stored + [t]);
    assert xs == front + t.attempts;
    forall i | 0 <= i < |xs|
      ensures xs[i].operands.0.Num? && xs[i].operands.1.Num?
    {
      if i >= |front| {
        assert xs[i] == StoredAttempt(s.attempts[i - |front|]);
      }
    }
  }

  /**
   * A bucket built from stored attempts: its bounds are numbers, bound every
   * member's operands and are attained by some member.
   */
  lemma StoredBucketBounds(sessions: seq<Session>, k: BucketKey)
    requires NumericOperands(Flatten(sessions))
    requires Members(Flatten(sessions), k) != []
    ensures var ms := Members(Flatten(sessions), k);
      var b := Summary(k, ms);
      && b.minA.Num? && b.maxA.Num? && b.minB.Num? && b.maxB.Num?
      && (forall i | 0 <= i < |ms| :: ms[i].operands.0.Num? && ms[i].operands.1.Num?)
      && (forall i | 0 <= i < |ms| :: b.minA.value <= ms[i].operands.0.value <= b.maxA.value)
      && (forall i | 0 <= i < |ms| :: b.minB.value <= ms[i].operands.1.value <= b.maxB.value)
      && (exists i | 0 <= i < |ms| :: ms[i].operands.0 == b.minA)
      && (exists i | 0 <= i < |ms| :: ms[i].operands.0 == b.maxA)
      && (exists i | 0 <= i < |ms| :: ms[i].operands.1 == b.minB)
      && (exists i | 0 <= i < |ms| :: ms[i].operands.1 == b.maxB)
  {
    var xs := Flatten(sessions);
    var ms := Members(xs, k);
    MembersSpec(xs, k);
    forall i | 0 <= i < |ms|
      ensures ms[i].operands.0.Num? && ms[i].operands.1.Num?
    {
      assert ms[i] in xs;
    }
    BucketBounds(xs, k);
  }
}
