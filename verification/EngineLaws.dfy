// Policies, conservation, batches and sorting.
module EngineLaws {
  import opened Results
  import opened Orders
  import opened Text
  import opened Paths
  import opened Values
  import opened Plans
  import opened Engine

  // ---------------------------------------------------------------------
  // One operation, read declaratively: the concatenated images of the records
  // that succeed, and one reject for each record that fails.
  // ---------------------------------------------------------------------

  function Image(step: Step): seq<Value> {
    if step.Ok? then step.value else []
  }

  function Failure(step: Step, index: nat): seq<Reject> {
    if step.Ok? then [] else [Reject(index, step.error.code)]
  }

  function Survivors(steps: seq<Step>): seq<Value> {
    if steps == [] then [] else Survivors(steps[..|steps| - 1]) + Image(steps[|steps| - 1])
  }

  function Failures(steps: seq<Step>): seq<Reject> {
    if steps == [] then [] else Failures(steps[..|steps| - 1]) + Failure(steps[|steps| - 1], |steps| - 1)
  }

  lemma BatchStep(done: seq<Reject>, step: Step, index: nat)
    ensures done + Failure(step, index) != [] <==> done != [] || step.Err?
  {
    assert |done + Failure(step, index)| == |done| + |Failure(step, index)|;
  }

  lemma {:induction false} BatchOutcome(steps: seq<Step>, policy: ErrorPolicy)
    ensures FoldSteps(steps, policy).Err? <==> policy == Fail && Failures(steps) != []
    ensures FoldSteps(steps, policy).Ok? ==>
              FoldSteps(steps, policy).value == Outcome(Survivors(steps), if policy == Collect then Failures(steps) else [])
  {
    if steps != [] {
      var last := |steps| - 1;
      BatchOutcome(steps[..last], policy);
      BatchStep(Failures(steps[..last]), steps[last], last);
    }
  }

  predicate IncreasingIndices(rejects: seq<Reject>) {
    forall i, j :: 0 <= i < j < |rejects| ==> rejects[i].index < rejects[j].index
  }

  predicate PointAtFailures(steps: seq<Step>, rejects: seq<Reject>) {
    forall i :: 0 <= i < |rejects| ==> rejects[i].index < |steps| && steps[rejects[i].index].Err?
  }

  lemma {:induction false} FailuresIncrease(steps: seq<Step>)
    ensures PointAtFailures(steps, Failures(steps)) && IncreasingIndices(Failures(steps))
  {
    if steps != [] {
      FailuresIncrease(steps[..|steps| - 1]);
    }
  }

  // Rejects are positioned at failing records, in increasing order.
  lemma RejectIndicesIncrease(lib: Lib, op: Operation, records: seq<Value>, policy: ErrorPolicy)
    requires ApplyOp(lib, op, records, policy).Ok?
    ensures PointAtFailures(StepsOf(lib, op, records), ApplyOp(lib, op, records, policy).value.rejects)
    ensures IncreasingIndices(ApplyOp(lib, op, records, policy).value.rejects)
  {
    if !op.SortOp? {
      BatchOutcome(StepsOf(lib, op, records), EffectivePolicy(op, policy));
      FailuresIncrease(StepsOf(lib, op, records));
    }
  }

  // ---------------------------------------------------------------------
  // Error policies.
  // ---------------------------------------------------------------------

  lemma OpPolicies(lib: Lib, op: Operation, records: seq<Value>)
    ensures var f, s, c := ApplyOp(lib, op, records, Fail), ApplyOp(lib, op, records, Skip), ApplyOp(lib, op, records, Collect);
            && s.Ok? == c.Ok?
            && (s.Err? ==> s == c)
            && (c.Ok? ==> s == Ok(Outcome(c.value.records, [])))
            && (f.Ok? <==> c.Ok? && c.value.rejects == [])
            && (f.Ok? ==> f == c)
  {
    if !op.SortOp? && !op.ExplodeOp? {
      BatchOutcome(StepsOf(lib, op, records), Fail);
      BatchOutcome(StepsOf(lib, op, records), Skip);
      BatchOutcome(StepsOf(lib, op, records), Collect);
    } else if op.ExplodeOp? {
      BatchOutcome(StepsOf(lib, op, records), Fail);
    }
  }

  lemma {:induction false} OpsPolicies(lib: Lib, ops: seq<Operation>, records: seq<Value>)
    ensures var f, s, c := RunOps(lib, ops, records, Fail), RunOps(lib, ops, records, Skip), RunOps(lib, ops, records, Collect);
            && s.Ok? == c.Ok?
            && (s.Err? ==> s == c)
            && (c.Ok? ==> s == Ok(Outcome(c.value.records, [])))
            && (f.Ok? <==> c.Ok? && c.value.rejects == [])
            && (f.Ok? ==> f == c)
  {
    if ops != [] {
      var front := ops[..|ops| - 1];
      OpsPolicies(lib, front, records);
      var c := RunOps(lib, front, records, Collect);
      if c.Ok? {
        OpPolicies(lib, ops[|ops| - 1], c.value.records);
        var next := ApplyOp(lib, ops[|ops| - 1], c.value.records, Collect);
        if next.Ok? {
          assert |c.value.rejects + next.value.rejects| == |c.value.rejects| + |next.value.rejects|;
          assert c.value.rejects + [] == c.value.rejects;
        }
      }
    }
  }

  function WithPolicy(plan: Plan, policy: ErrorPolicy): Plan {
    plan.(errorPolicy := policy)
  }

  // Skip and Collect agree on success and records; Fail succeeds exactly when
  // Collect succeeds without rejects, and then all three runs are the same.
  lemma PoliciesRefine(lib: Lib, plan: Plan, records: seq<Value>)
    ensures var f := Execute(lib, WithPolicy(plan, Fail), records);
            var s := Execute(lib, WithPolicy(plan, Skip), records);
            var c := Execute(lib, WithPolicy(plan, Collect), records);
            && s.Ok? == c.Ok?
            && (s.Err? ==> s == c)
            && (c.Ok? ==> s == Ok(Outcome(c.value.records, [])))
            && (f.Ok? <==> c.Ok? && c.value.rejects == [])
            && (f.Ok? ==> f == s == c)
  {
    OpsPolicies(lib, plan.operations, records);
    assert forall p :: ValidateShape(WithPolicy(plan, p)) == ValidateShape(plan);
  }

  // ---------------------------------------------------------------------
  // Conservation of records.
  // ---------------------------------------------------------------------

  predicate KeepsCardinality(op: Operation) {
    !op.FilterOp? && !op.ExplodeOp?
  }

  lemma {:induction false} StepsConserve(steps: seq<Step>)
    requires forall i :: 0 <= i < |steps| ==> |Image(steps[i])| + |Failure(steps[i], i)| == 1
    ensures |Survivors(steps)| + |Failures(steps)| == |steps|
  {
    if steps != [] {
      StepsConserve(steps[..|steps| - 1]);
    }
  }

  lemma SortKeeps(lib: Lib, keys: seq<SortKey>, records: seq<Value>)
    ensures multiset(StableSort(RecordOrder(lib, keys), records)) == multiset(records)
    ensures |StableSort(RecordOrder(lib, keys), records)| == |records|
  {
    SortPermutes(RecordOrder(lib, keys), records);
  }

  lemma OpConserves(lib: Lib, op: Operation, records: seq<Value>)
    requires KeepsCardinality(op) && ApplyOp(lib, op, records, Collect).Ok?
    ensures var o := ApplyOp(lib, op, records, Collect).value; |o.records| + |o.rejects| == |records|
  {
    if op.SortOp? {
      SortKeeps(lib, op.keys, records);
    } else {
      BatchOutcome(StepsOf(lib, op, records), Collect);
      StepsConserve(StepsOf(lib, op, records));
    }
  }

  lemma {:induction false} OpsConserve(lib: Lib, ops: seq<Operation>, records: seq<Value>)
    requires forall i :: 0 <= i < |ops| ==> KeepsCardinality(ops[i])
    requires RunOps(lib, ops, records, Collect).Ok?
    ensures var o := RunOps(lib, ops, records, Collect).value; |o.records| + |o.rejects| == |records|
  {
    if ops != [] {
      var front, op := ops[..|ops| - 1], ops[|ops| - 1];
      OpsConserve(lib, front, records);
      var current := RunOps(lib, front, records, Collect).value.records;
      OpConserves(lib, op, current);
    }
  }

  // Under Collect every input record is either in the output or rejected once.
  lemma CollectConserves(lib: Lib, plan: Plan, records: seq<Value>)
    requires plan.errorPolicy == Collect
    requires forall i :: 0 <= i < |plan.operations| ==> KeepsCardinality(plan.operations[i])
    requires Execute(lib, plan, records).Ok?
    ensures var o := Execute(lib, plan, records).value; |o.records| + |o.rejects| == |records|
  {
    OpsConserve(lib, plan.operations, records);
  }

  // ---------------------------------------------------------------------
  // Batches.
  // ---------------------------------------------------------------------

  function Shift(rejects: seq<Reject>, offset: nat): (r: seq<Reject>)
    ensures |r| == |rejects|
  {
    seq(|rejects|, i requires 0 <= i < |rejects| => Reject(rejects[i].index + offset, rejects[i].code))
  }

  lemma {:induction false} SurvivorsSplit(a: seq<Step>, b: seq<Step>)
    ensures Survivors(a + b) == Survivors(a) + Survivors(b)
  {
    if b == [] {
      assert a + b == a;
    } else {
      var front, last := b[..|b| - 1], b[|b| - 1];
      SurvivorsSplit(a, front);
      assert (a + b)[..|a + b| - 1] == a + front;
      assert Survivors(a) + Survivors(front) + Image(last) == Survivors(a) + (Survivors(front) + Image(last));
    }
  }

  lemma ShiftAppend(x: seq<Reject>, y: seq<Reject>, step: Step, index: nat, offset: nat)
    ensures x + Shift(y, offset) + Failure(step, offset + index) == x + Shift(y + Failure(step, index), offset)
  {
    assert Shift(y + Failure(step, index), offset) == Shift(y, offset) + Failure(step, offset + index);
  }

  lemma {:induction false} FailuresSplit(a: seq<Step>, b: seq<Step>)
    ensures Failures(a + b) == Failures(a) + Shift(Failures(b), |a|)
  {
    if b == [] {
      assert a + b == a;
    } else {
      var front, last := b[..|b| - 1], |b| - 1;
      FailuresSplit(a, front);
      assert (a + b)[..|a + b| - 1] == a + front;
      ShiftAppend(Failures(a), Failures(front), b[last], last, |a|);
    }
  }

  // The second batch's rejects point past the first batch.
  ghost predicate Splits(x: Result<Outcome>, y: Result<Outcome>, both: Result<Outcome>, offset: nat) {
    && (both.Ok? <==> x.Ok? && y.Ok?)
    && (both.Ok? ==> both.value == Outcome(x.value.records + y.value.records, x.value.rejects + Shift(y.value.rejects, offset)))
  }

  lemma FoldSplits(a: seq<Step>, b: seq<Step>, policy: ErrorPolicy)
    ensures Splits(FoldSteps(a, policy), FoldSteps(b, policy), FoldSteps(a + b, policy), |a|)
  {
    BatchOutcome(a, policy);
    BatchOutcome(b, policy);
    BatchOutcome(a + b, policy);
    SurvivorsSplit(a, b);
    FailuresSplit(a, b);
    assert |Failures(a + b)| == |Failures(a)| + |Failures(b)|;
    assert [] + Shift([], |a|) == [];
  }

  lemma OpSplits(lib: Lib, op: Operation, u: seq<Value>, v: seq<Value>, policy: ErrorPolicy)
    requires !op.SortOp?
    ensures Splits(ApplyOp(lib, op, u, policy), ApplyOp(lib, op, v, policy), ApplyOp(lib, op, u + v, policy), |u|)
  {
    assert StepsOf(lib, op, u + v) == StepsOf(lib, op, u) + StepsOf(lib, op, v);
    FoldSplits(StepsOf(lib, op, u), StepsOf(lib, op, v), EffectivePolicy(op, policy));
  }

  // Operation by operation, the rejects of the first batch and then those of
  // the second, counted on from the records the first batch has left there.
  function JoinedRejects(lib: Lib, ops: seq<Operation>, a: seq<Value>, b: seq<Value>, policy: ErrorPolicy): seq<Reject>
    requires RunOps(lib, ops, a, policy).Ok? && RunOps(lib, ops, b, policy).Ok?
  {
    if ops == [] then [] else
      var front, op := ops[..|ops| - 1], ops[|ops| - 1];
      var u, v := RunOps(lib, front, a, policy).value.records, RunOps(lib, front, b, policy).value.records;
      JoinedRejects(lib, front, a, b, policy)
        + ApplyOp(lib, op, u, policy).value.rejects
        + Shift(ApplyOp(lib, op, v, policy).value.rejects, |u|)
  }

  ghost predicate Joins(lib: Lib, ops: seq<Operation>, a: seq<Value>, b: seq<Value>, policy: ErrorPolicy) {
    var x, y, both := RunOps(lib, ops, a, policy), RunOps(lib, ops, b, policy), RunOps(lib, ops, a + b, policy);
    && (both.Ok? <==> x.Ok? && y.Ok?)
    && (both.Ok? ==> both.value == Outcome(x.value.records + y.value.records, JoinedRejects(lib, ops, a, b, policy)))
  }

  lemma {:induction false} OpsJoin(lib: Lib, ops: seq<Operation>, a: seq<Value>, b: seq<Value>, policy: ErrorPolicy)
    requires forall i :: 0 <= i < |ops| ==> !ops[i].SortOp?
    ensures Joins(lib, ops, a, b, policy)
  {
    if ops != [] {
      var front, op := ops[..|ops| - 1], ops[|ops| - 1];
      OpsJoin(lib, front, a, b, policy);
      var x, y := RunOps(lib, front, a, policy), RunOps(lib, front, b, policy);
      if x.Ok? && y.Ok? {
        OpSplits(lib, op, x.value.records, y.value.records, policy);
        LastJoins(lib, ops, a, b, policy);
      }
    }
  }

  lemma LastJoins(lib: Lib, ops: seq<Operation>, a: seq<Value>, b: seq<Value>, policy: ErrorPolicy)
    requires ops != [] && Joins(lib, ops[..|ops| - 1], a, b, policy)
    requires var x, y := RunOps(lib, ops[..|ops| - 1], a, policy), RunOps(lib, ops[..|ops| - 1], b, policy);
             x.Ok? && y.Ok? && var (u, v) := (x.value.records, y.value.records);
             Splits(ApplyOp(lib, ops[|ops| - 1], u, policy), ApplyOp(lib, ops[|ops| - 1], v, policy),
                    ApplyOp(lib, ops[|ops| - 1], u + v, policy), |u|)
    ensures Joins(lib, ops, a, b, policy)
  {
    if RunOps(lib, ops, a + b, policy).Ok? {
      var front, op := ops[..|ops| - 1], ops[|ops| - 1];
      var u, v := RunOps(lib, front, a, policy).value.records, RunOps(lib, front, b, policy).value.records;
      RejectsAssoc(JoinedRejects(lib, front, a, b, policy), ApplyOp(lib, op, u, policy).value.rejects,
                   Shift(ApplyOp(lib, op, v, policy).value.rejects, |u|));
    }
  }

  lemma RejectsAssoc(x: seq<Reject>, y: seq<Reject>, z: seq<Reject>)
    ensures x + (y + z) == x + y + z
  {
  }

  lemma {:induction false} JoinedCount(lib: Lib, ops: seq<Operation>, a: seq<Value>, b: seq<Value>, policy: ErrorPolicy)
    requires RunOps(lib, ops, a, policy).Ok? && RunOps(lib, ops, b, policy).Ok?
    ensures |JoinedRejects(lib, ops, a, b, policy)|
         == |RunOps(lib, ops, a, policy).value.rejects| + |RunOps(lib, ops, b, policy).value.rejects|
  {
    if ops != [] {
      JoinedCount(lib, ops[..|ops| - 1], a, b, policy);
    }
  }

  // Without a sort, running a concatenation is concatenating the runs; the
  // rejects are those of both runs, the second's indices shifted.
  lemma BatchHomomorphism(lib: Lib, plan: Plan, a: seq<Value>, b: seq<Value>)
    requires forall i :: 0 <= i < |plan.operations| ==> !plan.operations[i].SortOp?
    ensures var x, y, both := Execute(lib, plan, a), Execute(lib, plan, b), Execute(lib, plan, a + b);
            && (both.Ok? <==> x.Ok? && y.Ok?)
            && (both.Ok? ==> both.value.records == x.value.records + y.value.records
                             && both.value.rejects == JoinedRejects(lib, plan.operations, a, b, plan.errorPolicy)
                             && |both.value.rejects| == |x.value.rejects| + |y.value.rejects|)
  {
    OpsJoin(lib, plan.operations, a, b, plan.errorPolicy);
    if Execute(lib, plan, a + b).Ok? {
      JoinedCount(lib, plan.operations, a, b, plan.errorPolicy);
    }
  }

  // Explode is an order-preserving flat map: it succeeds exactly when every
  // record explodes, and the parts come out in record order.
  lemma ExplodeIsFlatMap(lib: Lib, op: Operation, records: seq<Value>, policy: ErrorPolicy)
    requires op.ExplodeOp?
    ensures ApplyOp(lib, op, records, policy).Ok? <==>
            forall i :: 0 <= i < |records| ==> ExplodeRecord(records[i], op.field, op.to, op.outer).Ok?
    ensures ApplyOp(lib, op, records, policy).Ok? ==>
            ApplyOp(lib, op, records, policy).value == Outcome(Survivors(StepsOf(lib, op, records)), [])
  {
    BatchOutcome(StepsOf(lib, op, records), Fail);
    NoFailures(StepsOf(lib, op, records));
  }

  lemma {:induction false} NoFailures(steps: seq<Step>)
    ensures Failures(steps) == [] <==> forall i :: 0 <= i < |steps| ==> steps[i].Ok?
  {
    if steps != [] {
      var front, last := steps[..|steps| - 1], |steps| - 1;
      NoFailures(front);
      assert |Failures(steps)| == |Failures(front)| + |Failure(steps[last], last)|;
      assert forall i :: 0 <= i < last ==> front[i] == steps[i];
    }
  }

  // An exploded array yields one record per element, in element order, each
  // the parent with the destination field replaced.
  lemma {:induction false} ExplodedElements(record: Value, field: FieldPath, to: Option<string>, items: seq<Value>)
    requires ExplodeItems(record, field, to, items).Ok?
    ensures var out := ExplodeItems(record, field, to, items).value;
            && |out| == |items|
            && (forall i :: 0 <= i < |items| ==> WithExploded(record, field, to, items[i]) == Ok(out[i]))
  {
    if items != [] {
      ExplodedElements(record, field, to, items[..|items| - 1]);
    }
  }

  // ---------------------------------------------------------------------
  // Sorting.
  // ---------------------------------------------------------------------

  lemma ValuesReverse(lib: Lib, a: Value, b: Value, nulls: NullsOrder)
    ensures CompareValues(lib, b, a, nulls) == CompareValues(lib, a, b, nulls).Reverse()
  {
    StrCmpReverse(RankValue(lib, a), RankValue(lib, b));
  }

  lemma ValuesTransitive(lib: Lib, a: Value, b: Value, c: Value, nulls: NullsOrder)
    requires CompareValues(lib, a, b, nulls) != Greater && CompareValues(lib, b, c, nulls) != Greater
    ensures CompareValues(lib, a, c, nulls) != Greater
  {
    if !a.Null? && !b.Null? && !c.Null? {
      StrCmpTransitive(RankValue(lib, a), RankValue(lib, b), RankValue(lib, c));
    }
  }

  lemma KeyReverse(lib: Lib, a: Value, b: Value, key: SortKey)
    ensures CompareByKey(lib, b, a, key) == CompareByKey(lib, a, b, key).Reverse()
  {
    ValuesReverse(lib, ReadPath(a, key.field), ReadPath(b, key.field), key.nulls);
  }

  lemma KeyTransitive(lib: Lib, a: Value, b: Value, c: Value, key: SortKey)
    requires CompareByKey(lib, a, b, key) != Greater && CompareByKey(lib, b, c, key) != Greater
    ensures CompareByKey(lib, a, c, key) != Greater
    ensures CompareByKey(lib, a, c, key) == Equal ==> CompareByKey(lib, a, b, key) == Equal && CompareByKey(lib, b, c, key) == Equal
  {
    var x, y, z := ReadPath(a, key.field), ReadPath(b, key.field), ReadPath(c, key.field);
    ValuesReverse(lib, x, y, key.nulls);
    ValuesReverse(lib, y, z, key.nulls);
    ValuesReverse(lib, x, z, key.nulls);
    if key.order == Desc {
      ValuesTransitive(lib, z, y, x, key.nulls);
      if CompareValues(lib, x, z, key.nulls) == Equal {
        ValuesTransitive(lib, y, x, z, key.nulls);
        ValuesTransitive(lib, x, z, y, key.nulls);
      }
    } else {
      ValuesTransitive(lib, x, y, z, key.nulls);
      if CompareValues(lib, x, z, key.nulls) == Equal {
        ValuesTransitive(lib, y, z, x, key.nulls);
        ValuesTransitive(lib, z, x, y, key.nulls);
      }
    }
  }

  lemma {:induction false} RecordsReverse(lib: Lib, a: Value, b: Value, keys: seq<SortKey>)
    ensures CompareRecords(lib, b, a, keys) == CompareRecords(lib, a, b, keys).Reverse()
  {
    if keys != [] {
      KeyReverse(lib, a, b, keys[0]);
      RecordsReverse(lib, a, b, keys[1..]);
    }
  }

  lemma {:induction false} RecordsTransitive(lib: Lib, a: Value, b: Value, c: Value, keys: seq<SortKey>)
    requires CompareRecords(lib, a, b, keys) != Greater && CompareRecords(lib, b, c, keys) != Greater
    ensures CompareRecords(lib, a, c, keys) != Greater
  {
    if keys != [] {
      KeyTransitive(lib, a, b, c, keys[0]);
      if CompareByKey(lib, a, c, keys[0]) == Equal {
        RecordsTransitive(lib, a, b, c, keys[1..]);
      }
    }
  }

  // For every key list, order and null placement the comparison is a total
  // preorder.
  lemma RecordOrderPreorder(lib: Lib, keys: seq<SortKey>)
    ensures TotalPreorder(RecordOrder(lib, keys))
  {
    var cmp := RecordOrder(lib, keys);
    forall a, b ensures cmp(b, a) == cmp(a, b).Reverse() {
      RecordsReverse(lib, a, b, keys);
    }
    forall a, b, c | cmp(a, b) != Greater && cmp(b, c) != Greater ensures cmp(a, c) != Greater {
      RecordsTransitive(lib, a, b, c, keys);
    }
  }

  // Sorting returns the one stably sorted permutation of the records.
  lemma SortIsDeterministic(lib: Lib, keys: seq<SortKey>, records: seq<Value>, output: seq<Value>)
    requires keys != []
    ensures SortRecords(lib, keys, records) == Ok(output) <==> StablySorted(RecordOrder(lib, keys), records, output)
  {
    RecordOrderPreorder(lib, keys);
    StableSortUnique(RecordOrder(lib, keys), records, output);
  }

  predicate IsInteger(value: Value) {
    value.Int? || value.UInt?
  }

  function IntegerOf(value: Value): int
    requires IsInteger(value)
  {
    if value.Int? then value.int64 else value.uint64
  }

  lemma {:induction false} DigitCount(n: nat, k: nat)
    requires n < Pow10(k) && k > 0
    ensures |NatText(n)| <= k
  {
    if n >= 10 {
      DigitCount(n / 10, k - 1);
    }
  }

  lemma TwentyDigits(n: nat)
    requires n < 0x1_0000_0000_0000_0000
    ensures |NatText(n)| <= 20
  {
    assert Pow10(5) == 100000;
    assert Pow10(10) == 10000000000;
    assert Pow10(15) == 1000000000000000;
    assert Pow10(20) == 100000000000000000000;
    DigitCount(n, 20);
  }

  lemma NineteenDigits(n: nat)
    requires n <= 0x8000_0000_0000_0000
    ensures |NatText(n)| <= 19
  {
    assert Pow10(5) == 100000;
    assert Pow10(10) == 10000000000;
    assert Pow10(15) == 1000000000000000;
    assert Pow10(19) == 10000000000000000000;
    DigitCount(n, 19);
  }

  lemma ZeroPadded(m: nat, width: nat)
    requires |NatText(m)| <= width
    ensures var s := Repeat('0', width - |NatText(m)|) + NatText(m);
            AllDigits(s) && |s| == width && DigitsValue(s) == m
  {
    var gap := width - |NatText(m)|;
    NatTextValue(m);
    ZerosValue(gap);
    DigitsConcat(Repeat('0', gap), NatText(m));
  }

  // Padded text of a 64-bit integer: a sign for negatives, then digits, twenty
  // characters in all.
  lemma PaddedShape(n: int) returns (digits: string)
    requires -0x8000_0000_0000_0000 <= n < 0x1_0000_0000_0000_0000
    ensures AllDigits(digits) && |digits| == (if n < 0 then 19 else 20)
    ensures DigitsValue(digits) == if n < 0 then -n else n
    ensures PadInt(n, 20) == (if n < 0 then "-" else "") + digits
  {
    var m: nat := if n < 0 then -n else n;
    var width := if n < 0 then 19 else 20;
    if n < 0 { NineteenDigits(m); } else { TwentyDigits(m); }
    ZeroPadded(m, width);
    digits := Repeat('0', width - |NatText(m)|) + NatText(m);
    assert PadInt(n, 20) == (if n < 0 then "-" else "") + digits by {
      PadSplits(n, m, width);
    }
  }

  lemma PadSplits(n: int, m: nat, width: nat)
    requires m == (if n < 0 then -n else n) && width == (if n < 0 then 19 else 20) && |NatText(m)| <= width
    ensures PadInt(n, 20) == (if n < 0 then "-" else "") + (Repeat('0', width - |NatText(m)|) + NatText(m))
  {
    var zeros, sign := Repeat('0', width - |NatText(m)|), if n < 0 then "-" else "";
    assert sign + zeros + NatText(m) == sign + (zeros + NatText(m));
    if |NatText(m)| == width {
      assert Repeat('0', 0) == "";
    }
  }

  // A sign sorts before every digit.
  lemma SignFirst(negative: string, digits: string)
    requires digits != "" && AllDigits(digits)
    ensures StrCmp("-" + negative, digits) == Less && StrCmp(digits, "-" + negative) == Greater
  {
    assert IsDigit(digits[0]) && '-' < digits[0];
  }

  lemma SameSign(p: string, q: string)
    ensures StrCmp("-" + p, "-" + q) == StrCmp(p, q)
  {
    assert ("-" + p)[1..] == p && ("-" + q)[1..] == q;
  }

  lemma PaddedOrder(x: int, y: int)
    requires -0x8000_0000_0000_0000 <= x < 0x1_0000_0000_0000_0000
    requires -0x8000_0000_0000_0000 <= y < 0x1_0000_0000_0000_0000
    ensures StrCmp(PadInt(x, 20), PadInt(y, 20)) == if x < 0 && y < 0 then IntCmp(-x, -y) else IntCmp(x, y)
  {
    var p := PaddedShape(x);
    var q := PaddedShape(y);
    assert "" + p == p && "" + q == q;
    if x < 0 && y < 0 {
      SameSign(p, q);
      DigitsOrder(p, q);
    } else if x >= 0 && y >= 0 {
      DigitsOrder(p, q);
    } else if x < 0 {
      SignFirst(p, q);
    } else {
      SignFirst(q, p);
    }
  }

  lemma RankOfInteger(lib: Lib, value: Value)
    requires IsInteger(value)
    ensures RankValue(lib, value) == PadInt(IntegerOf(value), 20)
    ensures -0x8000_0000_0000_0000 <= IntegerOf(value) < 0x1_0000_0000_0000_0000
  {
  }

  // Integer keys sort numerically unless both are negative: two different
  // negatives come out in reverse.
  lemma IntegerRankOrder(lib: Lib, a: Value, b: Value, nulls: NullsOrder)
    requires IsInteger(a) && IsInteger(b)
    ensures var x, y := IntegerOf(a), IntegerOf(b);
            CompareValues(lib, a, b, nulls) == IntCmp(x, y) <==> !(x < 0 && y < 0 && x != y)
  {
    RankOfInteger(lib, a);
    RankOfInteger(lib, b);
    PaddedOrder(IntegerOf(a), IntegerOf(b));
  }

  // Descending order reverses null placement as well: a null key comes after a
  // present one exactly when placement is last and order ascending, or
  // placement is first and order descending.
  lemma NullPlacement(lib: Lib, absent: Value, present: Value, key: SortKey)
    requires ReadPath(absent, key.field).Null? && !ReadPath(present, key.field).Null?
    ensures CompareByKey(lib, absent, present, key) == Greater <==> ((key.nulls == NullsLast) == (key.order == Asc))
    ensures CompareByKey(lib, absent, present, key) != Equal
  {
  }
}
