/**
 * The dashboard's statistics over every stored attempt: the flattened list,
 * the overall and per-operation averages, and the time buckets keyed by
 * operation and operand widths, sorted slowest first.
 */
module Analytics {
  import opened Wrappers
  import opened Records
  import opened Sorting

  // ---------------------------------------------------------------- flattening and sums

  /** `sessions.flatMap(s => s.attempts)`. */
  function Flatten(sessions: seq<Session>): seq<Attempt>
    decreases |sessions|
  {
    if sessions == [] then []
    else Flatten(sessions[..|sessions| - 1]) + sessions[|sessions| - 1].attempts
  }

  /** Flattening a concatenation concatenates the flattened parts. */
  lemma {:induction false} FlattenAppend(xs: seq<Session>, ys: seq<Session>)
    ensures Flatten(xs + ys) == Flatten(xs) + Flatten(ys)
    decreases |ys|
  {
    if ys == [] {
      assert xs + ys == xs;
    } else {
      var ys' := ys[..|ys| - 1];
      assert (xs + ys)[..|xs + ys| - 1] == xs + ys';
      FlattenAppend(xs, ys');
    }
  }

  /** An attempt is in the flattened list exactly when some session holds it. */
  lemma {:induction false} FlattenMembers(sessions: seq<Session>, a: Attempt)
    ensures a in Flatten(sessions) <==> exists i | 0 <= i < |sessions| :: a in sessions[i].attempts
    decreases |sessions|
  {
    if sessions != [] {
      var front := sessions[..|sessions| - 1];
      FlattenMembers(front, a);
      if a in Flatten(front) {
        var i :| 0 <= i < |front| && a in front[i].attempts;
        assert sessions[i] == front[i];
      }
      if exists i | 0 <= i < |sessions| :: a in sessions[i].attempts {
        var i :| 0 <= i < |sessions| && a in sessions[i].attempts;
        if i < |front| {
          assert front[i] == sessions[i];
        }
      }
    }
  }

  /** The sum of `w` over `xs`, added up from the front like `reduce((s, a) => s + w(a), 0)`. */
  function Total(xs: seq<Attempt>, w: Attempt -> int): int
    decreases |xs|
  {
    if xs == [] then 0 else Total(xs[..|xs| - 1], w) + w(xs[|xs| - 1])
  }

  /** The summed durations, `reduce((s, a) => s + (a.endTs - a.startTs), 0)`. */
  function TotalTime(xs: seq<Attempt>): int
  {
    Total(xs, Duration)
  }

  lemma {:induction false} TotalAppend(xs: seq<Attempt>, ys: seq<Attempt>, w: Attempt -> int)
    ensures Total(xs + ys, w) == Total(xs, w) + Total(ys, w)
    decreases |ys|
  {
    if ys == [] {
      assert xs + ys == xs;
    } else {
      var ys' := ys[..|ys| - 1];
      assert (xs + ys)[..|xs + ys| - 1] == xs + ys';
      TotalAppend(xs, ys', w);
    }
  }

  /** Weight one for every attempt. */
  function One(a: Attempt): int { 1 }

  lemma {:induction false} TotalOne(xs: seq<Attempt>)
    ensures Total(xs, One) == |xs|
    decreases |xs|
  {
    if xs != [] {
      TotalOne(xs[..|xs| - 1]);
    }
  }

  /**
   * `totalMs / totalProblems`: the mean duration, or None where the source
   * divides by zero (a NaN average) because there is no attempt at all.
   */
  function GlobalAverage(xs: seq<Attempt>): (r: Option<real>)
    ensures r.None? <==> xs == []
    ensures r.Some? ==> r.value * (|xs| as real) == TotalTime(xs) as real
  {
    if xs == [] then None else Some(TotalTime(xs) as real / (|xs| as real))
  }

  // ---------------------------------------------------------------- per-operation averages

  /** `attempts.filter(a => a.op === op)`. */
  function OfOp(xs: seq<Attempt>, op: Op): seq<Attempt>
    decreases |xs|
  {
    if xs == [] then []
    else OfOp(xs[..|xs| - 1], op) + (if xs[|xs| - 1].op == op then [xs[|xs| - 1]] else [])
  }

  /** The filter keeps exactly the attempts of the operation. */
  lemma {:induction false} OfOpMembers(xs: seq<Attempt>, op: Op, a: Attempt)
    ensures a in OfOp(xs, op) <==> a in xs && a.op == op
    decreases |xs|
  {
    if xs != [] {
      OfOpMembers(xs[..|xs| - 1], op, a);
      assert xs == xs[..|xs| - 1] + [xs[|xs| - 1]];
    }
  }

  /** The four filters split the attempts: their sizes and their times add up to the whole. */
  lemma {:induction false} OpPartition(xs: seq<Attempt>, w: Attempt -> int)
    ensures |OfOp(xs, Add)| + |OfOp(xs, Sub)| + |OfOp(xs, Mul)| + |OfOp(xs, Div)| == |xs|
    ensures Total(OfOp(xs, Add), w) + Total(OfOp(xs, Sub), w) + Total(OfOp(xs, Mul), w)
            + Total(OfOp(xs, Div), w) == Total(xs, w)
    decreases |xs|
  {
    if xs != [] {
      var front := xs[..|xs| - 1];
      var last := xs[|xs| - 1];
      OpPartition(front, w);
      assert Total([last], w) == w(last) by {
        assert [last][..0] == [];
      }
      assert Total([], w) == 0;
      TotalAppend(OfOp(front, Add), if last.op == Add then [last] else [], w);
      TotalAppend(OfOp(front, Sub), if last.op == Sub then [last] else [], w);
      TotalAppend(OfOp(front, Mul), if last.op == Mul then [last] else [], w);
      TotalAppend(OfOp(front, Div), if last.op == Div then [last] else [], w);
    }
  }

  /**
   * The average time of one operation; `arr.length || 1` makes it 0 for an
   * operation without attempts.
   */
  function OpAverage(xs: seq<Attempt>, op: Op): (avg: real)
    ensures OfOp(xs, op) == [] ==> avg == 0.0
    ensures OfOp(xs, op) != [] ==> avg * (|OfOp(xs, op)| as real) == TotalTime(OfOp(xs, op)) as real
  {
    var arr := OfOp(xs, op);
    TotalTime(arr) as real / (if |arr| == 0 then 1 else |arr|) as real
  }

  /** One line of the "Slowest Operations" list. */
  datatype OpTime = OpTime(op: Op, avg: real)

  function AvgOf(t: OpTime): real { t.avg }

  /** The averages in the order `['add', 'sub', 'mul', 'div']` before sorting. */
  function OpTimesUnsorted(xs: seq<Attempt>): seq<OpTime>
  {
    Tagged(OpAverage(xs, Add), OpAverage(xs, Sub), OpAverage(xs, Mul), OpAverage(xs, Div))
  }

  function Tagged(add: real, sub: real, mul: real, div: real): seq<OpTime>
  {
    [OpTime(Add, add), OpTime(Sub, sub), OpTime(Mul, mul), OpTime(Div, div)]
  }

  /** `opTimes`: the per-operation averages sorted slowest first. */
  function OpTimes(xs: seq<Attempt>): seq<OpTime>
  {
    SortDesc(OpTimesUnsorted(xs), AvgOf)
  }

  /** Two positions holding the same value make it occur at least twice. */
  lemma TwiceInMultiset<T>(s: seq<T>, i: nat, j: nat)
    requires i < j < |s| && s[i] == s[j]
    ensures multiset(s)[s[i]] >= 2
  {
    assert s == s[..i] + [s[i]] + s[i + 1..j] + [s[j]] + s[j + 1..];
  }

  /** The average given to `op` in a tagged list. */
  function AverageFor(op: Op, add: real, sub: real, mul: real, div: real): real
  {
    match op
    case Add => add
    case Sub => sub
    case Mul => mul
    case Div => div
  }

  lemma AveragesFor(xs: seq<Attempt>)
    ensures forall op: Op :: AverageFor(op, OpAverage(xs, Add), OpAverage(xs, Sub), OpAverage(xs, Mul), OpAverage(xs, Div)) == OpAverage(xs, op)
  {
    forall op: Op
      ensures AverageFor(op, OpAverage(xs, Add), OpAverage(xs, Sub), OpAverage(xs, Mul), OpAverage(xs, Div)) == OpAverage(xs, op)
    {
    }
  }

  /** Sorting four tagged averages lists each operation once, with its own average. */
  lemma SortedTagged(add: real, sub: real, mul: real, div: real)
    ensures var r := SortDesc(Tagged(add, sub, mul, div), AvgOf);
      && |r| == 4
      && (forall op: Op :: OpTime(op, AverageFor(op, add, sub, mul, div)) in r)
      && (forall i, j | 0 <= i < j < 4 :: r[i].op != r[j].op)
      && (forall i | 0 <= i < 4 :: r[i].avg == AverageFor(r[i].op, add, sub, mul, div))
  {
    var u := Tagged(add, sub, mul, div);
    var r := SortDesc(u, AvgOf);
    SortDescSpec(u, AvgOf);
    SortDescLength(u, AvgOf);
    TaggedOps(r, add, sub, mul, div);
    TaggedAverages(r, add, sub, mul, div);
    TaggedDistinct(r, add, sub, mul, div);
  }

  lemma TaggedOps(r: seq<OpTime>, add: real, sub: real, mul: real, div: real)
    requires multiset(r) == multiset(Tagged(add, sub, mul, div))
    ensures forall op: Op :: OpTime(op, AverageFor(op, add, sub, mul, div)) in r
  {
    var m := multiset(Tagged(add, sub, mul, div));
    assert m == multiset{OpTime(Add, add), OpTime(Sub, sub), OpTime(Mul, mul), OpTime(Div, div)};
    forall op: Op
      ensures OpTime(op, AverageFor(op, add, sub, mul, div)) in r
    {
      assert OpTime(op, AverageFor(op, add, sub, mul, div)) in m;
    }
  }

  lemma TaggedAverages(r: seq<OpTime>, add: real, sub: real, mul: real, div: real)
    requires multiset(r) == multiset(Tagged(add, sub, mul, div))
    ensures forall i | 0 <= i < |r| :: r[i].avg == AverageFor(r[i].op, add, sub, mul, div)
  {
    var m := multiset(Tagged(add, sub, mul, div));
    assert m == multiset{OpTime(Add, add), OpTime(Sub, sub), OpTime(Mul, mul), OpTime(Div, div)};
    forall i | 0 <= i < |r|
      ensures r[i].avg == AverageFor(r[i].op, add, sub, mul, div)
    {
      assert r[i] in m;
    }
  }

  lemma TaggedDistinct(r: seq<OpTime>, add: real, sub: real, mul: real, div: real)
    requires multiset(r) == multiset(Tagged(add, sub, mul, div))
    ensures forall i, j | 0 <= i < j < |r| :: r[i].op != r[j].op
  {
    var m := multiset(Tagged(add, sub, mul, div));
    assert m == multiset{OpTime(Add, add), OpTime(Sub, sub), OpTime(Mul, mul), OpTime(Div, div)};
    forall i, j | 0 <= i < j < |r|
      ensures r[i].op != r[j].op
    {
      if r[i].op == r[j].op {
        assert r[i] in m && r[j] in m;
        TwiceInMultiset(r, i, j);
      }
    }
  }

  /**
   * `opTimes` lists each of the four operations exactly once with its own
   * average, slowest first; operations with equal averages keep the order
   * add, sub, mul, div.
   */
  lemma OpTimesSpec(xs: seq<Attempt>)
    ensures var r := OpTimes(xs);
      && |r| == 4
      && (forall op: Op :: OpTime(op, OpAverage(xs, op)) in r)
      && (forall i, j | 0 <= i < j < 4 :: r[i].op != r[j].op)
      && (forall i | 0 <= i < 4 :: r[i].avg == OpAverage(xs, r[i].op))
      && NonIncreasing(r, AvgOf)
      && (forall k :: WithKey(r, AvgOf, k) == WithKey(OpTimesUnsorted(xs), AvgOf, k))
  {
    var add, sub, mul, div := OpAverage(xs, Add), OpAverage(xs, Sub), OpAverage(xs, Mul), OpAverage(xs, Div);
    SortDescSpec(OpTimesUnsorted(xs), AvgOf);
    SortedTagged(add, sub, mul, div);
    AveragesFor(xs);
  }

  // ---------------------------------------------------------------- time buckets

  /** The bucket key `${op}:${digits[0]}x${digits[1]}`; distinct triples give distinct strings. */
  datatype BucketKey = BucketKey(op: Op, digitsA: nat, digitsB: nat)

  function BucketKeyOf(a: Attempt): BucketKey
  {
    BucketKey(a.op, a.digits.0, a.digits.1)
  }

  /** One `TimeBucket`. */
  datatype Bucket = Bucket(
    op: Op,
    digits: (nat, nat),
    minA: JsNum,
    maxA: JsNum,
    minB: JsNum,
    maxB: JsNum,
    totalTime: int,
    count: nat,
    avgTime: real)

  /** `Math.min`, which is NaN when either argument is. */
  function JsMin(x: JsNum, y: JsNum): JsNum
  {
    if x.NaN? || y.NaN? then NaN else Num(if x.value <= y.value then x.value else y.value)
  }

  /** `Math.max`, which is NaN when either argument is. */
  function JsMax(x: JsNum, y: JsNum): JsNum
  {
    if x.NaN? || y.NaN? then NaN else Num(if x.value >= y.value then x.value else y.value)
  }

  /** The attempts of `xs` that fall into bucket `k`, in order. */
  function Members(xs: seq<Attempt>, k: BucketKey): seq<Attempt>
    decreases |xs|
  {
    if xs == [] then []
    else Members(xs[..|xs| - 1], k) + (if BucketKeyOf(xs[|xs| - 1]) == k then [xs[|xs| - 1]] else [])
  }

  /** The keys in first-occurrence order, the order of `Object.values(timeBuckets)`. */
  function KeyOrder(xs: seq<Attempt>): seq<BucketKey>
    decreases |xs|
  {
    if xs == [] then []
    else
      var front := KeyOrder(xs[..|xs| - 1]);
      var k := BucketKeyOf(xs[|xs| - 1]);
      if k in front then front else front + [k]
  }

  /** The first operands of `xs`. */
  function FirstOperands(xs: seq<Attempt>): (r: seq<JsNum>)
    ensures |r| == |xs|
    decreases |xs|
  {
    if xs == [] then [] else FirstOperands(xs[..|xs| - 1]) + [xs[|xs| - 1].operands.0]
  }

  /** The second operands of `xs`. */
  function SecondOperands(xs: seq<Attempt>): (r: seq<JsNum>)
    ensures |r| == |xs|
    decreases |xs|
  {
    if xs == [] then [] else SecondOperands(xs[..|xs| - 1]) + [xs[|xs| - 1].operands.1]
  }

  lemma {:induction false} OperandsAt(xs: seq<Attempt>)
    ensures forall i | 0 <= i < |xs| :: FirstOperands(xs)[i] == xs[i].operands.0 && SecondOperands(xs)[i] == xs[i].operands.1
    decreases |xs|
  {
    if xs != [] {
      var front := xs[..|xs| - 1];
      OperandsAt(front);
      forall i | 0 <= i < |xs|
        ensures FirstOperands(xs)[i] == xs[i].operands.0 && SecondOperands(xs)[i] == xs[i].operands.1
      {
        if i < |front| {
          assert xs[i] == front[i];
        }
      }
    }
  }

  /** `Math.min(...xs)` of a non-empty list. */
  function MinOf(xs: seq<JsNum>): JsNum
    requires xs != []
    decreases |xs|
  {
    if |xs| == 1 then xs[0] else JsMin(MinOf(xs[..|xs| - 1]), xs[|xs| - 1])
  }

  /** `Math.max(...xs)` of a non-empty list. */
  function MaxOf(xs: seq<JsNum>): JsNum
    requires xs != []
    decreases |xs|
  {
    if |xs| == 1 then xs[0] else JsMax(MaxOf(xs[..|xs| - 1]), xs[|xs| - 1])
  }

  /** Some element of `xs` is NaN. */
  predicate HasNaN(xs: seq<JsNum>)
  {
    exists i | 0 <= i < |xs| :: xs[i].NaN?
  }

  /** A list has a NaN exactly when its front or its last element does. */
  lemma NaNOfFront(xs: seq<JsNum>)
    requires |xs| > 1
    ensures HasNaN(xs) <==> HasNaN(xs[..|xs| - 1]) || xs[|xs| - 1].NaN?
    ensures forall j | 0 <= j < |xs| - 1 :: xs[..|xs| - 1][j] == xs[j]
  {
    var front := xs[..|xs| - 1];
    if HasNaN(xs) {
      var j :| 0 <= j < |xs| && xs[j].NaN?;
      if j < |front| {
        assert front[j].NaN?;
      }
    }
    if HasNaN(front) {
      var j :| 0 <= j < |front| && front[j].NaN?;
      assert xs[j].NaN?;
    }
  }

  /**
   * The minimum is NaN exactly when some element is; otherwise it is a lower
   * bound of the elements that one of them attains.
   */
  lemma {:induction false} MinOfSpec(xs: seq<JsNum>)
    requires xs != []
    ensures MinOf(xs).NaN? <==> HasNaN(xs)
    ensures !HasNaN(xs) ==> (forall i | 0 <= i < |xs| :: MinOf(xs).value <= xs[i].value)
    ensures exists i | 0 <= i < |xs| :: xs[i] == MinOf(xs) || xs[i].NaN?
    decreases |xs|
  {
    if |xs| > 1 {
      var front := xs[..|xs| - 1];
      MinOfSpec(front);
      var i :| 0 <= i < |front| && (front[i] == MinOf(front) || front[i].NaN?);
      assert xs[i] == front[i];
      NaNOfFront(xs);
    }
  }

  /**
   * The maximum is NaN exactly when some element is; otherwise it is an upper
   * bound of the elements that one of them attains.
   */
  lemma {:induction false} MaxOfSpec(xs: seq<JsNum>)
    requires xs != []
    ensures MaxOf(xs).NaN? <==> HasNaN(xs)
    ensures !HasNaN(xs) ==> (forall i | 0 <= i < |xs| :: MaxOf(xs).value >= xs[i].value)
    ensures exists i | 0 <= i < |xs| :: xs[i] == MaxOf(xs) || xs[i].NaN?
    decreases |xs|
  {
    if |xs| > 1 {
      var front := xs[..|xs| - 1];
      MaxOfSpec(front);
      var i :| 0 <= i < |front| && (front[i] == MaxOf(front) || front[i].NaN?);
      assert xs[i] == front[i];
      NaNOfFront(xs);
    }
  }

  /** What bucket `k` holds once all of its members `ms` went through the loop. */
  function Summary(k: BucketKey, ms: seq<Attempt>): Bucket
    requires ms != []
  {
    Bucket(k.op, (k.digitsA, k.digitsB),
           MinOf(FirstOperands(ms)), MaxOf(FirstOperands(ms)),
           MinOf(SecondOperands(ms)), MaxOf(SecondOperands(ms)),
           TotalTime(ms), |ms|, 0.0)
  }

  /** What the body of `attempts.forEach` does to the bucket of `a`. */
  function Absorb(b: Bucket, a: Attempt): Bucket
  {
    b.(totalTime := b.totalTime + Duration(a), count := b.count + 1,
       minA := JsMin(b.minA, a.operands.0), maxA := JsMax(b.maxA, a.operands.0),
       minB := JsMin(b.minB, a.operands.1), maxB := JsMax(b.maxB, a.operands.1))
  }

  /** A bucket created for `a` and not yet updated. */
  function Fresh(a: Attempt): Bucket
  {
    Bucket(a.op, a.digits, a.operands.0, a.operands.0, a.operands.1, a.operands.1, 0, 0, 0.0)
  }

  /** The first member creates and updates its bucket. */
  lemma SummaryOne(a: Attempt)
    ensures Summary(BucketKeyOf(a), [a]) == Absorb(Fresh(a), a)
  {
    assert [a][..0] == [];
    assert Total([], Duration) == 0;
    assert Total([a], Duration) == Duration(a);
    assert FirstOperands([a]) == [a.operands.0];
    assert SecondOperands([a]) == [a.operands.1];
    var s := Summary(BucketKeyOf(a), [a]);
    var b := Absorb(Fresh(a), a);
    assert s.minA == b.minA && s.maxA == b.maxA && s.minB == b.minB && s.maxB == b.maxB;
    assert s.totalTime == b.totalTime && s.count == b.count;
    assert s.digits == b.digits;
  }

  /** Each later member updates the bucket made of those before it. */
  lemma SummarySnoc(k: BucketKey, ms: seq<Attempt>, a: Attempt)
    requires ms != [] && BucketKeyOf(a) == k
    ensures Summary(k, ms + [a]) == Absorb(Summary(k, ms), a)
  {
    var ms' := ms + [a];
    assert ms'[..|ms'| - 1] == ms;
    assert FirstOperands(ms')[..|ms'| - 1] == FirstOperands(ms);
    assert SecondOperands(ms')[..|ms'| - 1] == SecondOperands(ms);
    TotalAppend(ms, [a], Duration);
    assert [a][..0] == [];
  }

  /** One more attempt joins the members of its own bucket and of no other. */
  lemma MembersSnoc(xs: seq<Attempt>, a: Attempt, k: BucketKey)
    ensures Members(xs + [a], k) == Members(xs, k) + (if BucketKeyOf(a) == k then [a] else [])
  {
    assert (xs + [a])[..|xs + [a]| - 1] == xs;
  }

  lemma {:induction false} MembersSpec(xs: seq<Attempt>, k: BucketKey)
    ensures forall a :: a in Members(xs, k) <==> a in xs && BucketKeyOf(a) == k
    ensures Members(xs, k) != [] <==> k in KeyOrder(xs)
    decreases |xs|
  {
    if xs != [] {
      MembersSpec(xs[..|xs| - 1], k);
      assert xs == xs[..|xs| - 1] + [xs[|xs| - 1]];
    }
  }

  /** Each key appears once in the key order. */
  lemma {:induction false} KeyOrderDistinct(xs: seq<Attempt>)
    ensures forall i, j | 0 <= i < j < |KeyOrder(xs)| :: KeyOrder(xs)[i] != KeyOrder(xs)[j]
    decreases |xs|
  {
    if xs != [] {
      KeyOrderDistinct(xs[..|xs| - 1]);
    }
  }

  /** The key of every attempt is in the key order. */
  lemma {:induction false} KeyOrderCovers(xs: seq<Attempt>)
    ensures forall i | 0 <= i < |xs| :: BucketKeyOf(xs[i]) in KeyOrder(xs)
    decreases |xs|
  {
    if xs != [] {
      var front := xs[..|xs| - 1];
      KeyOrderCovers(front);
      forall i | 0 <= i < |xs|
        ensures BucketKeyOf(xs[i]) in KeyOrder(xs)
      {
        if i < |front| {
          assert xs[i] == front[i];
        }
      }
    }
  }

  /** Every key of `buckets` maps to the summary of its members in `xs`. */
  predicate Summarized(xs: seq<Attempt>, buckets: map<BucketKey, Bucket>)
  {
    forall k | k in buckets :: Members(xs, k) != [] && buckets[k] == Summary(k, Members(xs, k))
  }

  lemma KeyOrderSnoc(xs: seq<Attempt>, a: Attempt)
    ensures KeyOrder(xs + [a]) == if BucketKeyOf(a) in KeyOrder(xs) then KeyOrder(xs) else KeyOrder(xs) + [BucketKeyOf(a)]
  {
    assert (xs + [a])[..|xs + [a]| - 1] == xs;
  }

  /** The record after the loop has gone through `xs`, built one attempt at a time. */
  function Aggregate(xs: seq<Attempt>): map<BucketKey, Bucket>
    decreases |xs|
  {
    if xs == [] then map[]
    else
      var m := Aggregate(xs[..|xs| - 1]);
      var a := xs[|xs| - 1];
      var key := BucketKeyOf(a);
      m[key := Absorb(if key in m then m[key] else Fresh(a), a)]
  }

  lemma AggregateSnoc(xs: seq<Attempt>, a: Attempt)
    ensures var m := Aggregate(xs);
      var key := BucketKeyOf(a);
      Aggregate(xs + [a]) == m[key := Absorb(if key in m then m[key] else Fresh(a), a)]
  {
    assert (xs + [a])[..|xs + [a]| - 1] == xs;
  }

  /** The record's keys are those in the key order. */
  lemma {:induction false} KeysOfAggregate(xs: seq<Attempt>)
    ensures forall k :: k in Aggregate(xs) <==> k in KeyOrder(xs)
    decreases |xs|
  {
    if xs != [] {
      KeysOfAggregate(xs[..|xs| - 1]);
    }
  }

  /** Built one attempt at a time, every bucket is the summary of its members. */
  lemma {:induction false} AggregateSummarized(xs: seq<Attempt>)
    ensures Summarized(xs, Aggregate(xs))
    decreases |xs|
  {
    if xs != [] {
      var front := xs[..|xs| - 1];
      var a := xs[|xs| - 1];
      AggregateSummarized(front);
      SummarizedSnoc(front, a);
      SplitLast(xs);
    }
  }

  lemma SummarizedSnoc(front: seq<Attempt>, a: Attempt)
    requires Summarized(front, Aggregate(front))
    ensures Summarized(front + [a], Aggregate(front + [a]))
  {
    KeysOfAggregate(front);
    AbsorbStep(front, Aggregate(front), a);
    AggregateSnoc(front, a);
  }

  /** One pass of the loop body keeps every bucket the summary of its members. */
  lemma AbsorbStep(before: seq<Attempt>, earlier: map<BucketKey, Bucket>, a: Attempt)
    requires Summarized(before, earlier)
    requires forall k :: k in earlier <==> k in KeyOrder(before)
    ensures var key := BucketKeyOf(a);
      Summarized(before + [a], earlier[key := Absorb(if key in earlier then earlier[key] else Fresh(a), a)])
  {
    var key := BucketKeyOf(a);
    var buckets := earlier[key := Absorb(if key in earlier then earlier[key] else Fresh(a), a)];
    forall k | k in buckets
      ensures Members(before + [a], k) != [] && buckets[k] == Summary(k, Members(before + [a], k))
    {
      MembersSnoc(before, a, k);
      if k != key {
        assert Members(before + [a], k) == Members(before, k);
      } else if key in earlier {
        SummarySnoc(key, Members(before, key), a);
      } else {
        MembersSpec(before, key);
        assert Members(before + [a], key) == [a];
        SummaryOne(a);
      }
    }
  }

  lemma SplitLast<T>(s: seq<T>)
    requires s != []
    ensures s == s[..|s| - 1] + [s[|s| - 1]]
  {
  }

  lemma PrefixSnoc<T>(s: seq<T>, i: nat)
    requires i < |s|
    ensures s[..i + 1] == s[..i] + [s[i]]
  {
  }

  /**
   * The `timeBuckets` loop. `order` is the insertion order of the record's
   * keys; every key maps to the summary of its members.
   */
  method TimeBuckets(attempts: seq<Attempt>) returns (order: seq<BucketKey>, buckets: map<BucketKey, Bucket>)
    ensures order == KeyOrder(attempts) && buckets == Aggregate(attempts)
    ensures forall k :: k in buckets <==> k in order
    ensures Summarized(attempts, buckets)
  {
    order, buckets := [], map[];
    var i := 0;
    while i < |attempts|
      invariant 0 <= i <= |attempts|
      invariant order == KeyOrder(attempts[..i])
      invariant buckets == Aggregate(attempts[..i])
    {
      var a := attempts[i];
      var key := BucketKeyOf(a);
      var dur := a.endTs - a.startTs;
      TimeBucketsStep(attempts, i);
      ghost var before := buckets;
      ghost var start := if key in buckets then buckets[key] else Fresh(a);
      if key !in buckets {
        order := order + [key];
        buckets := buckets[key := Bucket(a.op, a.digits, a.operands.0, a.operands.0, a.operands.1, a.operands.1, 0, 0, 0.0)];
      }
      var b := buckets[key];
      b := b.(totalTime := b.totalTime + dur, count := b.count + 1,
              minA := JsMin(b.minA, a.operands.0), maxA := JsMax(b.maxA, a.operands.0),
              minB := JsMin(b.minB, a.operands.1), maxB := JsMax(b.maxB, a.operands.1));
      assert b == Absorb(start, a);
      buckets := buckets[key := b];
      assert buckets == before[key := Absorb(start, a)];
      i := i + 1;
    }
    assert attempts[..i] == attempts;
    KeysOfAggregate(attempts);
    AggregateSummarized(attempts);
  }

  /** Going one attempt further extends the key order and the record as the loop body does. */
  lemma TimeBucketsStep(attempts: seq<Attempt>, i: nat)
    requires i < |attempts|
    ensures var a, m := attempts[i], Aggregate(attempts[..i]);
      var key := BucketKeyOf(a);
      && (key in m <==> key in KeyOrder(attempts[..i]))
      && KeyOrder(attempts[..i + 1]) == (if key in m then KeyOrder(attempts[..i]) else KeyOrder(attempts[..i]) + [key])
      && Aggregate(attempts[..i + 1]) == m[key := Absorb(if key in m then m[key] else Fresh(a), a)]
  {
    PrefixSnoc(attempts, i);
    KeyOrderSnoc(attempts[..i], attempts[i]);
    AggregateSnoc(attempts[..i], attempts[i]);
    KeysOfAggregate(attempts[..i]);
  }

  // ---------------------------------------------------------------- partition

  /** The sum over `keys` of the weight of each key's members. */
  function KeyTotal(keys: seq<BucketKey>, xs: seq<Attempt>, w: Attempt -> int): int
    decreases |keys|
  {
    if keys == [] then 0 else KeyTotal(keys[..|keys| - 1], xs, w) + Total(Members(xs, keys[|keys| - 1]), w)
  }

  /** Adding one attempt adds its weight to the sum over distinct keys that include its key. */
  lemma {:induction false} KeyTotalSnoc(keys: seq<BucketKey>, xs: seq<Attempt>, a: Attempt, w: Attempt -> int)
    requires forall i, j | 0 <= i < j < |keys| :: keys[i] != keys[j]
    ensures KeyTotal(keys, xs + [a], w) == KeyTotal(keys, xs, w) + (if BucketKeyOf(a) in keys then w(a) else 0)
    decreases |keys|
  {
    if keys != [] {
      var front := keys[..|keys| - 1];
      var k := keys[|keys| - 1];
      KeyTotalSnoc(front, xs, a, w);
      var extra := if BucketKeyOf(a) == k then [a] else [];
      MembersSnoc(xs, a, k);
      TotalAppend(Members(xs, k), extra, w);
      assert KeyTotal(keys, xs + [a], w) == KeyTotal(front, xs + [a], w) + Total(Members(xs, k) + extra, w);
      assert Total(extra, w) == (if BucketKeyOf(a) == k then w(a) else 0) by {
        assert [a][..0] == [];
      }
      SplitLast(keys);
      if BucketKeyOf(a) == k {
        assert k !in front;
      }
    }
  }

  /**
   * The buckets partition the attempts: summed over all keys, the members'
   * weights (1 for the count, the duration for the total time) make up the
   * weight of all attempts.
   */
  lemma {:induction false} BucketsPartition(xs: seq<Attempt>, w: Attempt -> int)
    ensures KeyTotal(KeyOrder(xs), xs, w) == Total(xs, w)
    decreases |xs|
  {
    if xs != [] {
      var front := xs[..|xs| - 1];
      var a := xs[|xs| - 1];
      var key := BucketKeyOf(a);
      var keys := KeyOrder(front);
      assert xs == front + [a];
      assert Total(xs, w) == Total(front, w) + w(a);
      BucketsPartition(front, w);
      KeyOrderDistinct(front);
      KeyTotalSnoc(keys, front, a, w);
      if key !in keys {
        NewKeyTotal(front, a, w);
      } else {
        assert KeyOrder(xs) == keys;
      }
    }
  }

  /** An attempt with a key not seen before adds a bucket holding just its weight. */
  lemma NewKeyTotal(front: seq<Attempt>, a: Attempt, w: Attempt -> int)
    requires BucketKeyOf(a) !in KeyOrder(front)
    ensures KeyTotal(KeyOrder(front + [a]), front + [a], w) == KeyTotal(KeyOrder(front), front + [a], w) + w(a)
  {
    var xs, key, keys := front + [a], BucketKeyOf(a), KeyOrder(front);
    KeyOrderSnoc(front, a);
    assert (keys + [key])[..|keys|] == keys;
    assert KeyTotal(KeyOrder(xs), xs, w) == KeyTotal(keys, xs, w) + Total(Members(xs, key), w);
    MembersSpec(front, key);
    MembersSnoc(front, a, key);
    assert Members(xs, key) == [a];
    assert [a][..0] == [];
    assert Total([a], w) == w(a);
  }

  // ---------------------------------------------------------------- sorted rates

  /** The buckets in the order `Object.values` gives them. */
  function Values(order: seq<BucketKey>, buckets: map<BucketKey, Bucket>): (r: seq<Bucket>)
    requires forall k | k in order :: k in buckets
    ensures |r| == |order| && forall i | 0 <= i < |order| :: r[i] == buckets[order[i]]
    decreases |order|
  {
    if order == [] then []
    else
      var front := order[..|order| - 1];
      assert forall k | k in front :: k in order;
      Values(front, buckets) + [buckets[order[|order| - 1]]]
  }

  /** Every bucket of the summary has at least one member. */
  predicate Populated(bs: seq<Bucket>)
  {
    forall i | 0 <= i < |bs| :: bs[i].count >= 1
  }

  /** `{ ...b, avgTime: b.totalTime / b.count }`. */
  function WithAverage(b: Bucket): (r: Bucket)
    requires b.count >= 1
    ensures r.avgTime * (b.count as real) == b.totalTime as real
    ensures r == b.(avgTime := r.avgTime)
  {
    b.(avgTime := b.totalTime as real / b.count as real)
  }

  function AvgTimeOf(b: Bucket): real { b.avgTime }

  function Averaged(bs: seq<Bucket>): (r: seq<Bucket>)
    requires Populated(bs)
    ensures |r| == |bs| && forall i | 0 <= i < |bs| :: r[i] == WithAverage(bs[i])
  {
    seq(|bs|, i requires 0 <= i < |bs| => WithAverage(bs[i]))
  }

  /** `bucketRates`: the buckets with their averages, slowest first. */
  function BucketRates(bs: seq<Bucket>): seq<Bucket>
    requires Populated(bs)
  {
    SortDesc(Averaged(bs), AvgTimeOf)
  }

  /** A bucket's rate is its mean time over at least one member. */
  predicate RateOk(b: Bucket)
  {
    b.count >= 1 && b.avgTime * (b.count as real) == b.totalTime as real
  }

  lemma AveragedRates(bs: seq<Bucket>)
    requires Populated(bs)
    ensures forall b | b in Averaged(bs) :: RateOk(b)
  {
  }

  /**
   * `bucketRates` is a permutation of the averaged buckets, slowest first,
   * with ties in insertion order, and each rate is its bucket's mean time.
   */
  lemma BucketRatesSpec(bs: seq<Bucket>)
    requires Populated(bs)
    ensures var r := BucketRates(bs);
      && multiset(r) == multiset(Averaged(bs))
      && |r| == |bs|
      && NonIncreasing(r, AvgTimeOf)
      && (forall k :: WithKey(r, AvgTimeOf, k) == WithKey(Averaged(bs), AvgTimeOf, k))
      && (forall i | 0 <= i < |r| :: RateOk(r[i]))
  {
    var av := Averaged(bs);
    var r := BucketRates(bs);
    SortDescSpec(av, AvgTimeOf);
    SortDescLength(av, AvgTimeOf);
    AveragedRates(bs);
    forall i | 0 <= i < |r|
      ensures RateOk(r[i])
    {
      assert r[i] in multiset(av);
    }
  }

  /** `bucketRates.slice(0, 5)`. */
  function Focus(rates: seq<Bucket>): seq<Bucket>
  {
    rates[..if |rates| < 5 then |rates| else 5]
  }

  /** The focus list holds the five slowest buckets (or all of them): none left out is slower. */
  lemma FocusSlowest(bs: seq<Bucket>)
    requires Populated(bs)
    ensures var r := BucketRates(bs);
      var f := Focus(r);
      && |f| == (if |bs| < 5 then |bs| else 5)
      && (forall i, j | 0 <= i < |f| <= j < |r| :: f[i].avgTime >= r[j].avgTime)
  {
    BucketRatesSpec(bs);
  }

  /** The buckets' counts add up to the number of attempts. */
  function CountSum(bs: seq<Bucket>): int
    decreases |bs|
  {
    if bs == [] then 0 else CountSum(bs[..|bs| - 1]) + bs[|bs| - 1].count
  }

  /** The buckets' total times add up to the time of all attempts. */
  function TimeSum(bs: seq<Bucket>): int
    decreases |bs|
  {
    if bs == [] then 0 else TimeSum(bs[..|bs| - 1]) + bs[|bs| - 1].totalTime
  }

  /** Each key's bucket counts and times exactly its members. */
  predicate Tallied(keys: seq<BucketKey>, xs: seq<Attempt>, buckets: map<BucketKey, Bucket>)
  {
    forall k | k in keys ::
      && k in buckets
      && buckets[k].count == Total(Members(xs, k), One)
      && buckets[k].totalTime == Total(Members(xs, k), Duration)
  }

  lemma {:induction false} SumsOfSummaries(keys: seq<BucketKey>, xs: seq<Attempt>, buckets: map<BucketKey, Bucket>)
    requires Tallied(keys, xs, buckets)
    ensures CountSum(Values(keys, buckets)) == KeyTotal(keys, xs, One)
    ensures TimeSum(Values(keys, buckets)) == KeyTotal(keys, xs, Duration)
    decreases |keys|
  {
    if keys != [] {
      var front, k := keys[..|keys| - 1], keys[|keys| - 1];
      assert forall j | j in front :: j in keys;
      SumsOfSummaries(front, xs, buckets);
      assert Values(keys, buckets) == Values(front, buckets) + [buckets[k]];
      SumsSnoc(Values(front, buckets), buckets[k]);
    }
  }

  lemma SumsSnoc(bs: seq<Bucket>, b: Bucket)
    ensures CountSum(bs + [b]) == CountSum(bs) + b.count
    ensures TimeSum(bs + [b]) == TimeSum(bs) + b.totalTime
  {
    assert (bs + [b])[..|bs|] == bs;
  }

  /**
   * The result of the `timeBuckets` loop: every bucket has a member, the
   * counts add up to the number of attempts and the total times to the time
   * of all attempts, and each attempt's key is held exactly once.
   */
  lemma TimeBucketsPartition(attempts: seq<Attempt>, order: seq<BucketKey>, buckets: map<BucketKey, Bucket>)
    requires order == KeyOrder(attempts)
    requires forall k :: k in buckets <==> k in order
    requires forall k | k in buckets :: Members(attempts, k) != [] && buckets[k] == Summary(k, Members(attempts, k))
    ensures Populated(Values(order, buckets))
    ensures CountSum(Values(order, buckets)) == |attempts|
    ensures TimeSum(Values(order, buckets)) == TotalTime(attempts)
    ensures forall i | 0 <= i < |attempts| :: BucketKeyOf(attempts[i]) in buckets
    ensures forall i, j | 0 <= i < j < |order| :: order[i] != order[j]
  {
    PopulatedValues(attempts, order, buckets);
    SumsOfBuckets(attempts, order, buckets);
    KeyOrderCovers(attempts);
    KeyOrderDistinct(attempts);
  }

  lemma PopulatedValues(attempts: seq<Attempt>, order: seq<BucketKey>, buckets: map<BucketKey, Bucket>)
    requires forall k :: k in buckets <==> k in order
    requires forall k | k in buckets :: Members(attempts, k) != [] && buckets[k] == Summary(k, Members(attempts, k))
    ensures Populated(Values(order, buckets))
  {
  }

  lemma SumsOfBuckets(attempts: seq<Attempt>, order: seq<BucketKey>, buckets: map<BucketKey, Bucket>)
    requires order == KeyOrder(attempts)
    requires forall k :: k in buckets <==> k in order
    requires forall k | k in buckets :: Members(attempts, k) != [] && buckets[k] == Summary(k, Members(attempts, k))
    ensures CountSum(Values(order, buckets)) == |attempts|
    ensures TimeSum(Values(order, buckets)) == TotalTime(attempts)
  {
    forall k | k in order
      ensures k in buckets
      ensures buckets[k].count == Total(Members(attempts, k), One)
      ensures buckets[k].totalTime == Total(Members(attempts, k), Duration)
    {
      TotalOne(Members(attempts, k));
    }
    SumsOfSummaries(order, attempts, buckets);
    BucketsPartition(attempts, One);
    BucketsPartition(attempts, Duration);
    TotalOne(attempts);
  }

  /**
   * `Object.values(timeBuckets)` after the loop over `xs`: every bucket has a
   * member, and the counts and total times add up to those of all attempts.
   */
  function BucketList(xs: seq<Attempt>): (bs: seq<Bucket>)
    ensures Populated(bs)
    ensures CountSum(bs) == |xs| && TimeSum(bs) == TotalTime(xs)
    ensures |bs| == |KeyOrder(xs)|
  {
    KeysOfAggregate(xs);
    AggregateSummarized(xs);
    TimeBucketsPartition(xs, KeyOrder(xs), Aggregate(xs));
    Values(KeyOrder(xs), Aggregate(xs))
  }

  /**
   * The range of a list of operands: NaN at both ends exactly when some
   * operand is NaN; otherwise two numbers that bound every operand and that
   * some operand attains.
   */
  lemma ListBounds(xs: seq<JsNum>)
    requires xs != []
    ensures MinOf(xs).NaN? <==> HasNaN(xs)
    ensures MaxOf(xs).NaN? <==> HasNaN(xs)
    ensures !HasNaN(xs) ==>
      && MinOf(xs).Num? && MaxOf(xs).Num?
      && (forall i | 0 <= i < |xs| :: xs[i].Num? && MinOf(xs).value <= xs[i].value <= MaxOf(xs).value)
      && (exists i | 0 <= i < |xs| :: xs[i] == MinOf(xs))
      && (exists i | 0 <= i < |xs| :: xs[i] == MaxOf(xs))
  {
    MinOfSpec(xs);
    MaxOfSpec(xs);
  }

  /**
   * The bounds of a bucket: `minA` and `maxA` are NaN exactly when some
   * member's first operand is; otherwise they bound every member's first
   * operand and some member attains each (the same for `minB`, `maxB` and the
   * second operands). Its count and total time are those of its members,
   * which are the attempts with its key.
   */
  lemma BucketBounds(attempts: seq<Attempt>, k: BucketKey)
    requires Members(attempts, k) != []
    ensures var ms := Members(attempts, k);
      var b := Summary(k, ms);
      && (b.minA.NaN? <==> exists i | 0 <= i < |ms| :: ms[i].operands.0.NaN?)
      && (b.maxA.NaN? <==> exists i | 0 <= i < |ms| :: ms[i].operands.0.NaN?)
      && (b.minB.NaN? <==> exists i | 0 <= i < |ms| :: ms[i].operands.1.NaN?)
      && (b.maxB.NaN? <==> exists i | 0 <= i < |ms| :: ms[i].operands.1.NaN?)
      && ((forall i | 0 <= i < |ms| :: ms[i].operands.0.Num?) ==>
            && b.minA.Num? && b.maxA.Num?
            && (forall i | 0 <= i < |ms| :: b.minA.value <= ms[i].operands.0.value <= b.maxA.value)
            && (exists i | 0 <= i < |ms| :: ms[i].operands.0 == b.minA)
            && (exists i | 0 <= i < |ms| :: ms[i].operands.0 == b.maxA))
      && ((forall i | 0 <= i < |ms| :: ms[i].operands.1.Num?) ==>
            && b.minB.Num? && b.maxB.Num?
            && (forall i | 0 <= i < |ms| :: b.minB.value <= ms[i].operands.1.value <= b.maxB.value)
            && (exists i | 0 <= i < |ms| :: ms[i].operands.1 == b.minB)
            && (exists i | 0 <= i < |ms| :: ms[i].operands.1 == b.maxB))
      && b.count == |ms| && b.totalTime == TotalTime(ms)
      && (forall a :: a in ms <==> a in attempts && BucketKeyOf(a) == k)
  {
    var ms := Members(attempts, k);
    MembersSpec(attempts, k);
    FirstBounds(ms);
    SecondBounds(ms);
  }

  lemma FirstBounds(ms: seq<Attempt>)
    requires ms != []
    ensures var lo, hi := MinOf(FirstOperands(ms)), MaxOf(FirstOperands(ms));
      && (lo.NaN? <==> exists i | 0 <= i < |ms| :: ms[i].operands.0.NaN?)
      && (hi.NaN? <==> exists i | 0 <= i < |ms| :: ms[i].operands.0.NaN?)
      && ((forall i | 0 <= i < |ms| :: ms[i].operands.0.Num?) ==>
            && lo.Num? && hi.Num?
            && (forall i | 0 <= i < |ms| :: lo.value <= ms[i].operands.0.value <= hi.value)
            && (exists i | 0 <= i < |ms| :: ms[i].operands.0 == lo)
            && (exists i | 0 <= i < |ms| :: ms[i].operands.0 == hi))
  {
    OperandsAt(ms);
    ListBounds(FirstOperands(ms));
  }

  lemma SecondBounds(ms: seq<Attempt>)
    requires ms != []
    ensures var lo, hi := MinOf(SecondOperands(ms)), MaxOf(SecondOperands(ms));
      && (lo.NaN? <==> exists i | 0 <= i < |ms| :: ms[i].operands.1.NaN?)
      && (hi.NaN? <==> exists i | 0 <= i < |ms| :: ms[i].operands.1.NaN?)
      && ((forall i | 0 <= i < |ms| :: ms[i].operands.1.Num?) ==>
            && lo.Num? && hi.Num?
            && (forall i | 0 <= i < |ms| :: lo.value <= ms[i].operands.1.value <= hi.value)
            && (exists i | 0 <= i < |ms| :: ms[i].operands.1 == lo)
            && (exists i | 0 <= i < |ms| :: ms[i].operands.1 == hi))
  {
    OperandsAt(ms);
    ListBounds(SecondOperands(ms));
  }
}
