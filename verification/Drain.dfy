/**
 No event can block the log. Every failure is counted and the fifth dead-letters the event, so a log that gets
 no new events is drained after a bounded number of ticks, whatever fails.
 */
module Drain {
  import opened Feed

  /** How many more recorded handlings a row can be polled for. */
  function Left(r: Row): nat {
    if !Pending(r) then 0 else if r.retries + 1 >= MAX_RETRIES then 1 else MAX_RETRIES - r.retries
  }

  function LeftFrom(rows: seq<Row>, i: nat): nat
    requires i <= |rows|
    decreases |rows| - i
  {
    if i == |rows| then 0 else Left(rows[i]) + LeftFrom(rows, i + 1)
  }

  function Measure(rows: seq<Row>): nat {
    LeftFrom(rows, 0)
  }

  function PendingCount(rows: seq<Row>): nat {
    |PendingFrom(rows, 0)|
  }

  predicate AllLeft(rows: seq<Row>, k: int) {
    forall i :: 0 <= i < |rows| ==> Left(rows[i]) <= (if k < 0 then 0 else k)
  }

  /** Nothing that is not pending becomes pending again, and no row gets more attempts than it had. */
  predicate NoMoreLeft(rows: seq<Row>, rows': seq<Row>) {
    |rows'| == |rows| && forall i :: 0 <= i < |rows| ==> Left(rows'[i]) <= Left(rows[i])
  }

  /** Every event is applied and marked, or its failure is fully recorded. */
  predicate Recorded(fates: map<nat, Fate>) {
    forall i :: i in fates ==> fates[i] == Done || fates[i] == ApplyFails(Full)
  }

  predicate GoesThrough(m: Move, b: nat) {
    m.Poll? && m.batch >= b && Recorded(m.fates)
  }

  /** The ticks of a run that go through, with a batch of at least `b`. */
  function Through(moves: seq<Move>, b: nat): nat {
    if moves == [] then 0
    else Through(moves[..|moves| - 1], b) + if GoesThrough(moves[|moves| - 1], b) then 1 else 0
  }

  predicate NoArrivals(moves: seq<Move>) {
    forall i :: 0 <= i < |moves| ==> !moves[i].Arrive?
  }

  lemma {:induction false} LeftFromUpdate(rows: seq<Row>, j: nat, r: Row, i: nat)
    requires j < |rows| && i <= |rows|
    ensures LeftFrom(rows[j := r], i) == LeftFrom(rows, i) + if i <= j then Left(r) - Left(rows[j]) else 0
    decreases |rows| - i
  {
    if i < |rows| {
      LeftFromUpdate(rows, j, r, i + 1);
    }
  }

  lemma {:induction false} CountsShrink(rows: seq<Row>, rows': seq<Row>, i: nat)
    requires NoMoreLeft(rows, rows') && i <= |rows|
    ensures LeftFrom(rows', i) <= LeftFrom(rows, i)
    ensures |PendingFrom(rows', i)| <= |PendingFrom(rows, i)|
    decreases |rows| - i
  {
    if i < |rows| {
      CountsShrink(rows, rows', i + 1);
      assert Left(rows'[i]) <= Left(rows[i]);
    }
  }

  lemma {:induction false} MeasureBounds(rows: seq<Row>, i: nat)
    requires i <= |rows|
    ensures |PendingFrom(rows, i)| <= LeftFrom(rows, i) <= MAX_RETRIES * |PendingFrom(rows, i)|
    decreases |rows| - i
  {
    if i < |rows| {
      MeasureBounds(rows, i + 1);
    }
  }

  lemma {:induction false} WorkShrinks(f: Feed, todo: seq<nat>, fates: map<nat, Fate>)
    requires InRange(f.rows, todo)
    ensures NoMoreLeft(f.rows, Work(f, todo, fates).rows)
    decreases |todo|
  {
    if todo != [] {
      var f' := Handle(f, todo[0], FateOf(fates, todo[0]));
      assert NoMoreLeft(f.rows, f'.rows);
      if !FateOf(fates, todo[0]).Crash? {
        WorkShrinks(f', todo[1..], fates);
      }
    }
  }

  lemma HandleUses(f: Feed, i: nat, fate: Fate)
    requires i < |f.rows| && Pending(f.rows[i]) && (fate == Done || fate == ApplyFails(Full))
    ensures var f' := Handle(f, i, fate);
      && |f'.rows| == |f.rows|
      && Left(f'.rows[i]) < Left(f.rows[i])
      && Measure(f'.rows) < Measure(f.rows)
      && forall j :: 0 <= j < |f.rows| && j != i ==> f'.rows[j] == f.rows[j]
  {
    var f' := Handle(f, i, fate);
    assert f'.rows == f.rows[i := f'.rows[i]];
    LeftFromUpdate(f.rows, i, f'.rows[i], 0);
  }

  /** A tick that goes through uses up one attempt of every event it polled. */
  lemma {:induction false} WorkUses(f: Feed, todo: seq<nat>, fates: map<nat, Fate>)
    requires AllPending(f.rows, todo) && Sorted(f.rows, todo) && Recorded(fates)
    ensures var f' := Work(f, todo, fates);
      && |f'.rows| == |f.rows|
      && Measure(f'.rows) + |todo| <= Measure(f.rows)
      && (forall j :: j in todo ==> Left(f'.rows[j]) < Left(f.rows[j]))
      && (forall j :: 0 <= j < |f.rows| && j !in todo ==> f'.rows[j] == f.rows[j])
    decreases |todo|
  {
    if todo != [] {
      var rest := todo[1..];
      var f1 := Handle(f, todo[0], FateOf(fates, todo[0]));
      HandleUses(f, todo[0], FateOf(fates, todo[0]));
      assert forall k :: 0 <= k < |rest| ==> rest[k] == todo[k + 1];
      assert todo[0] !in rest;
      WorkUses(f1, rest, fates);
      assert forall j :: j in todo ==> j == todo[0] || j in rest;
    }
  }

  lemma NextShrinks(f: Feed, m: Move)
    requires !m.Arrive?
    ensures NoMoreLeft(f.rows, Next(f, m).rows)
    ensures PendingCount(Next(f, m).rows) <= PendingCount(f.rows)
    ensures Measure(Next(f, m).rows) <= Measure(f.rows)
  {
    if m.Poll? {
      WorkShrinks(f, Unprocessed(f.rows, m.batch), m.fates);
    }
    CountsShrink(f.rows, Next(f, m).rows, 0);
  }

  /** While more than `b` are pending, a tick that goes through takes `b` off the measure. */
  lemma FullTick(f: Feed, m: Move, b: nat)
    requires GoesThrough(m, b) && PendingCount(f.rows) > b
    ensures Measure(Next(f, m).rows) + b <= Measure(f.rows)
  {
    UnprocessedPassed(f, m.batch);
    WorkUses(f, Unprocessed(f.rows, m.batch), m.fates);
  }

  /** With at most `b` pending every event is handled and uses up an attempt. */
  lemma LastTicks(f: Feed, m: Move, b: nat, k: int)
    requires GoesThrough(m, b) && PendingCount(f.rows) <= b && AllLeft(f.rows, k)
    ensures AllLeft(Next(f, m).rows, k - 1)
  {
    var todo := Unprocessed(f.rows, m.batch);
    UnprocessedPassed(f, m.batch);
    AllPolled(f.rows, m.batch);
    WorkUses(f, todo, m.fates);
    var f' := Work(f, todo, m.fates);
    forall i | 0 <= i < |f'.rows| ensures Left(f'.rows[i]) <= (if k - 1 < 0 then 0 else k - 1) {
      assert i in todo || !Pending(f.rows[i]);
    }
  }

  lemma AllPolled(rows: seq<Row>, batch: nat)
    requires PendingCount(rows) <= batch
    ensures forall i :: 0 <= i < |rows| && Pending(rows[i]) ==> i in Unprocessed(rows, batch)
  {
    var pending := PendingFrom(rows, 0);
    assert Unprocessed(rows, batch) == ByStamp(rows, pending);
  }

  /**
   The two phases of a drain. While more than `b` events are pending every tick that goes through takes `b` off
   the measure; after `j` such ticks at most `b` are pending, and each further tick takes one off every event.
   */
  ghost predicate Progress(f: Feed, f': Feed, b: nat, g: nat, j: nat) {
    if PendingCount(f'.rows) > b then
      Measure(f'.rows) + b * g <= Measure(f.rows)
    else
      j <= g && b * j <= Measure(f.rows) && AllLeft(f'.rows, MAX_RETRIES - (g - j))
  }

  lemma {:induction false} RunProgresses(f: Feed, moves: seq<Move>, b: nat) returns (j: nat)
    requires NoArrivals(moves)
    ensures Progress(f, Run(f, moves), b, Through(moves, b), j)
  {
    j := 0;
    if moves != [] {
      var before, m := moves[..|moves| - 1], moves[|moves| - 1];
      var i := RunProgresses(f, before, b);
      j := StepProgresses(f, Run(f, before), m, b, Through(before, b), i);
      assert Run(f, moves) == Next(Run(f, before), m);
    }
  }

  lemma StepProgresses(f: Feed, f1: Feed, m: Move, b: nat, g: nat, i: nat) returns (j: nat)
    requires Progress(f, f1, b, g, i) && !m.Arrive?
    ensures Progress(f, Next(f1, m), b, if GoesThrough(m, b) then g + 1 else g, j)
  {
    NextShrinks(f1, m);
    if PendingCount(f1.rows) > b {
      j := FirstPhaseStep(f, f1, m, b, g);
    } else {
      j := i;
      if GoesThrough(m, b) {
        LastTicks(f1, m, b, MAX_RETRIES - (g - i));
      } else {
        LeftStaysBounded(f1.rows, Next(f1, m).rows, MAX_RETRIES - (g - i));
      }
    }
  }

  lemma LeftStaysBounded(rows: seq<Row>, rows': seq<Row>, k: int)
    requires AllLeft(rows, k) && NoMoreLeft(rows, rows')
    ensures AllLeft(rows', k)
  {
    forall i | 0 <= i < |rows'| ensures Left(rows'[i]) <= (if k < 0 then 0 else k) {
      assert Left(rows[i]) <= (if k < 0 then 0 else k);
    }
  }

  lemma FirstPhaseStep(f: Feed, f1: Feed, m: Move, b: nat, g: nat) returns (j: nat)
    requires PendingCount(f1.rows) > b && Measure(f1.rows) + b * g <= Measure(f.rows) && !m.Arrive?
    ensures Progress(f, Next(f1, m), b, if GoesThrough(m, b) then g + 1 else g, j)
  {
    NextShrinks(f1, m);
    j := g;
    if GoesThrough(m, b) {
      FullTick(f1, m, b);
      assert b * (g + 1) == b * g + b;
      j := g + 1;
    }
    assert AllLeft(Next(f1, m).rows, MAX_RETRIES);
  }

  /**
   No poison pill, with a bound. With `n` events pending and no arrivals, after `5n / b + 5` ticks that go
   through with a batch of at least `b` every event is processed or dead-lettered. The ticks need not be in a
   row: failed polls, crashes, lost marks and lost records in between cost nothing but themselves.
   */
  lemma Drains(f: Feed, moves: seq<Move>, b: nat)
    requires b >= 1 && NoArrivals(moves)
    requires Through(moves, b) >= MAX_RETRIES * PendingCount(f.rows) / b + MAX_RETRIES
    ensures forall i :: 0 <= i < |Run(f, moves).rows| ==> !Pending(Run(f, moves).rows[i])
  {
    var j := RunProgresses(f, moves, b);
    var f', n, g := Run(f, moves), PendingCount(f.rows), Through(moves, b);
    MeasureBounds(f.rows, 0);
    MeasureBounds(f'.rows, 0);
    if PendingCount(f'.rows) > b {
      QuotientBound(MAX_RETRIES * n, b, g);
      assert false;
    } else {
      QuotientBound(MAX_RETRIES * n, b, j);
      NoneLeft(f'.rows, MAX_RETRIES - (g - j));
    }
  }

  lemma NoneLeft(rows: seq<Row>, k: int)
    requires AllLeft(rows, k) && k <= 0
    ensures forall i :: 0 <= i < |rows| ==> !Pending(rows[i])
  {
    forall i | 0 <= i < |rows| ensures !Pending(rows[i]) {
      assert Left(rows[i]) <= 0;
    }
  }

  lemma QuotientBound(a: nat, b: nat, q: nat)
    requires b >= 1 && b * q <= a
    ensures q <= a / b
  {
    var d := a / b;
    assert a == b * d + a % b;
    assert b * (d + 1 - q) == b * d + b - b * q;
    PositiveFactor(b, d + 1 - q);
  }

  lemma PositiveFactor(b: nat, x: int)
    requires b * x > 0
    ensures x > 0
  {
  }

  /** The bound needs the records: an event whose failures never reach the log is polled for ever. */
  lemma {:induction false} LostRecordsNeverDrain(f: Feed, moves: seq<Move>, i: nat)
    requires i < |f.rows| && Pending(f.rows[i])
    requires forall k :: 0 <= k < |moves| ==> moves[k].Poll? && FateOf(moves[k].fates, i) == ApplyFails(Lost)
    ensures i < |Run(f, moves).rows| && Run(f, moves).rows[i] == f.rows[i]
  {
    if moves != [] {
      var before, m := moves[..|moves| - 1], moves[|moves| - 1];
      LostRecordsNeverDrain(f, before, i);
      LostRecordKeepsRow(Run(f, before), Unprocessed(Run(f, before).rows, m.batch), m.fates, i);
    }
  }

  /** What settles nothing: the event is not marked, and its failure is not recorded in full. */
  predicate Unsettled(fate: Fate) {
    fate != Done && fate != ApplyFails(Full)
  }

  /**
   Marks count for nothing: an event that is applied every time and never marked, or dies with the process, or is
   counted but never dead-lettered, stays pending through any run, whatever arrives and whatever else is polled.
   */
  lemma {:induction false} UnsettledNeverDrain(f: Feed, moves: seq<Move>, i: nat)
    requires i < |f.rows| && Pending(f.rows[i])
    requires forall k :: 0 <= k < |moves| && moves[k].Poll? ==> Unsettled(FateOf(moves[k].fates, i))
    ensures i < |Run(f, moves).rows| && Pending(Run(f, moves).rows[i])
  {
    if moves != [] {
      var before, m := moves[..|moves| - 1], moves[|moves| - 1];
      UnsettledNeverDrain(f, before, i);
      if m.Poll? {
        UnsettledStaysPending(Run(f, before), Unprocessed(Run(f, before).rows, m.batch), m.fates, i);
      }
    }
  }

  lemma {:induction false} UnsettledStaysPending(f: Feed, todo: seq<nat>, fates: map<nat, Fate>, i: nat)
    requires i < |f.rows| && Pending(f.rows[i]) && InRange(f.rows, todo) && Unsettled(FateOf(fates, i))
    ensures i < |Work(f, todo, fates).rows| && Pending(Work(f, todo, fates).rows[i])
    decreases |todo|
  {
    if todo != [] && !FateOf(fates, todo[0]).Crash? {
      UnsettledStaysPending(Handle(f, todo[0], FateOf(fates, todo[0])), todo[1..], fates, i);
    }
  }

  lemma {:induction false} LostRecordKeepsRow(f: Feed, todo: seq<nat>, fates: map<nat, Fate>, i: nat)
    requires i < |f.rows| && InRange(f.rows, todo) && FateOf(fates, i) == ApplyFails(Lost)
    ensures i < |Work(f, todo, fates).rows| && Work(f, todo, fates).rows[i] == f.rows[i]
    decreases |todo|
  {
    if todo != [] && !FateOf(fates, todo[0]).Crash? {
      LostRecordKeepsRow(Handle(f, todo[0], FateOf(fates, todo[0])), todo[1..], fates, i);
    }
  }

  // ---- How many tries an event gets ----

  predicate IsCounted(fate: Fate) {
    fate == ApplyFails(Full) || fate == ApplyFails(CountOnly)
  }

  /** How often a failure of row `i` is counted while these rows are handled. */
  function CountsIn(todo: seq<nat>, fates: map<nat, Fate>, i: nat): nat {
    if todo == [] then 0
    else
      var fate := FateOf(fates, todo[0]);
      (if todo[0] == i && IsCounted(fate) then 1 else 0) + if fate.Crash? then 0 else CountsIn(todo[1..], fates, i)
  }

  /** The same over a run. */
  function Counted(f: Feed, moves: seq<Move>, i: nat): nat {
    if moves == [] then 0
    else
      var before, m := moves[..|moves| - 1], moves[|moves| - 1];
      Counted(f, before, i) + if m.Poll? then CountsIn(Unprocessed(Run(f, before).rows, m.batch), m.fates, i) else 0
  }

  /** No count of the row was left without the statement after it. */
  predicate FullyRecorded(moves: seq<Move>, i: nat) {
    forall k :: 0 <= k < |moves| && moves[k].Poll? ==> FateOf(moves[k].fates, i) != ApplyFails(CountOnly)
  }

  /** A dead letter has had five failures counted; with every count completed, five are a dead letter. */
  predicate DeadAtFive(r: Row, full: bool) {
    (r.failed ==> r.retries >= 5) && (full ==> (r.failed <==> r.retries >= 5))
  }

  lemma {:induction false} WorkCounts(f: Feed, todo: seq<nat>, fates: map<nat, Fate>, i: nat, full: bool)
    requires InRange(f.rows, todo) && i < |f.rows| && DeadAtFive(f.rows[i], full)
    requires full ==> FateOf(fates, i) != ApplyFails(CountOnly)
    ensures var rows' := Work(f, todo, fates).rows;
      && i < |rows'| && rows'[i].retries == f.rows[i].retries + CountsIn(todo, fates, i) && DeadAtFive(rows'[i], full)
    decreases |todo|
  {
    if todo != [] {
      var f' := Handle(f, todo[0], FateOf(fates, todo[0]));
      assert DeadAtFive(f'.rows[i], full);
      if !FateOf(fates, todo[0]).Crash? {
        WorkCounts(f', todo[1..], fates, i, full);
      }
    }
  }

  lemma {:induction false} NotCounted(todo: seq<nat>, fates: map<nat, Fate>, i: nat)
    requires i !in todo
    ensures CountsIn(todo, fates, i) == 0
  {
    if todo != [] && !FateOf(fates, todo[0]).Crash? {
      assert todo[0] in todo && forall j :: j in todo[1..] ==> j in todo;
      NotCounted(todo[1..], fates, i);
    }
  }

  lemma {:induction false} WorkKeepsLength(f: Feed, todo: seq<nat>, fates: map<nat, Fate>)
    requires InRange(f.rows, todo)
    ensures |Work(f, todo, fates).rows| == |f.rows|
    decreases |todo|
  {
    if todo != [] && !FateOf(fates, todo[0]).Crash? {
      WorkKeepsLength(Handle(f, todo[0], FateOf(fates, todo[0])), todo[1..], fates);
    }
  }

  /**
   An event gets five tries, over every run. The retry count of a row is the number of its failures that were counted,
   one each, and a row that is dead-lettered has had at least five. If no record stopped halfway, it is dead-lettered
   exactly at five.
   */
  lemma {:induction false} FiveTries(base: Index, moves: seq<Move>, i: nat)
    ensures var rows := Run(Start(base), moves).rows;
      if i < |rows| then
        rows[i].retries == Counted(Start(base), moves, i) && DeadAtFive(rows[i], FullyRecorded(moves, i))
      else Counted(Start(base), moves, i) == 0
  {
    if moves != [] {
      var before, m := moves[..|moves| - 1], moves[|moves| - 1];
      var f := Run(Start(base), before);
      FiveTries(base, before, i);
      assert FullyRecorded(moves, i) ==> FullyRecorded(before, i);
      if m.Poll? {
        var todo := Unprocessed(f.rows, m.batch);
        WorkKeepsLength(f, todo, m.fates);
        if i < |f.rows| {
          assert FullyRecorded(moves, i) ==> FateOf(m.fates, i) != ApplyFails(CountOnly);
          WorkCounts(f, todo, m.fates, i, FullyRecorded(moves, i));
        } else {
          NotCounted(todo, m.fates, i);
        }
      }
    }
  }

  /** So an event with at most four counted failures is still pending, or processed. */
  lemma FourFailuresSurvive(base: Index, moves: seq<Move>, i: nat)
    requires i < |Run(Start(base), moves).rows| && Counted(Start(base), moves, i) <= 4
    ensures var r := Run(Start(base), moves).rows[i]; Pending(r) || Processed(r)
  {
    FiveTries(base, moves, i);
  }

  predicate NoCrash(fates: map<nat, Fate>) {
    forall i :: i in fates ==> !fates[i].Crash?
  }

  /** What a row looks like after its event met this fate. */
  predicate Met(r: Row, r': Row, fate: Fate) {
    && r'.ev == r.ev && r'.receivedAt == r.receivedAt
    && r'.retries == (if IsCounted(fate) then r.retries + 1 else r.retries)
    && (Processed(r') <==> fate == Done || Processed(r))
    && (r'.failed <==> r.failed || (fate == ApplyFails(Full) && r.retries + 1 >= 5))
  }

  /** A tick that runs to its end does to every polled event what its fate says, once, and nothing to any other. */
  lemma {:induction false} WorkMeets(f: Feed, todo: seq<nat>, fates: map<nat, Fate>, i: nat)
    requires Sorted(f.rows, todo) && NoCrash(fates) && i < |f.rows|
    ensures var rows' := Work(f, todo, fates).rows;
      i < |rows'| && if i in todo then Met(f.rows[i], rows'[i], FateOf(fates, i)) else rows'[i] == f.rows[i]
    decreases |todo|
  {
    if todo != [] {
      var f' := Handle(f, todo[0], FateOf(fates, todo[0]));
      var rest := todo[1..];
      assert SameLog(f, f', todo[0]);
      assert forall k :: 0 <= k < |rest| ==> rest[k] == todo[k + 1];
      assert todo[0] !in rest;
      assert forall j :: j in todo <==> j == todo[0] || j in rest;
      WorkMeets(f', rest, fates, i);
    }
  }

  lemma CutOffAfterAll(rows: seq<Row>, all: seq<nat>, n: nat, i: nat)
    requires Sorted(rows, all) && n <= |all| && i in all && i !in all[..n]
    ensures forall j :: j in all[..n] ==> Before(rows, j, i)
  {
    assert forall k :: 0 <= k < n ==> all[..n][k] == all[k] && all[k] in all[..n];
    var l :| 0 <= l < |all| && all[l] == i;
    forall j | j in all[..n] ensures Before(rows, j, i) {
      var k :| 0 <= k < n && all[..n][k] == j;
      assert k < l;
    }
  }

  /** The polled rows are the oldest pending ones by their stamps, as many as the batch allows. */
  lemma PollsOldest(f: Feed, batch: nat, i: nat)
    requires i < |f.rows|
    ensures var todo := Unprocessed(f.rows, batch);
      && |todo| == (if batch < PendingCount(f.rows) then batch else PendingCount(f.rows))
      && (i in todo ==> Pending(f.rows[i]))
      && (Pending(f.rows[i]) && i !in todo ==> forall j :: j in todo ==> Before(f.rows, j, i))
  {
    var all := ByStamp(f.rows, PendingFrom(f.rows, 0));
    UnprocessedPassed(f, batch);
    ByStampSorted(f.rows, PendingFrom(f.rows, 0));
    assert all[..|all|] == all;
    if Pending(f.rows[i]) && i !in Unprocessed(f.rows, batch) {
      CutOffAfterAll(f.rows, all, if batch < |all| then batch else |all|, i);
    }
  }

  /** An event that is polled and goes through is processed. */
  lemma TickMeets(f: Feed, batch: nat, fates: map<nat, Fate>, i: nat)
    requires NoCrash(fates) && i < |f.rows|
    ensures var rows' := Next(f, Poll(batch, fates)).rows;
      i < |rows'| && if i in Unprocessed(f.rows, batch) then Met(f.rows[i], rows'[i], FateOf(fates, i))
                     else rows'[i] == f.rows[i]
  {
    UnprocessedPassed(f, batch);
    WorkMeets(f, Unprocessed(f.rows, batch), fates, i);
  }
}
