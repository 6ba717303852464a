/**
 The event log and the consumer that applies it. An append draws a time stamp before it creates its row, and a tick
 takes the pending rows with the oldest stamps, applies each to the resource index and marks it, and goes on to the
 next event after a failure. A crash can stop a tick anywhere, also between applying an event and marking it.

 Rows are listed as they were created. Stamps are arbitrary, so a row can be created after others with later stamps.
 */
module Feed {
  import opened Wrappers
  import opened Envelope

  const MAX_RETRIES: nat := 5

  type Index = map<string, Resource>

  /** A row of `hub_event`; `processedAt` is a mark stamp, later marks having larger stamps. */
  datatype Row = Row(ev: EventEnvelope, receivedAt: nat, retries: nat, failed: bool, processedAt: Option<nat>)

  /**
   The log and the resource index. Three history fields go with them: `dirty` holds the resources one of whose
   events ever failed to apply or to be marked, `late` those for which a row was created after an event with a later
   stamp had been applied, `touched` the row last applied to each.
   */
  datatype Feed = Feed(rows: seq<Row>, index: Index, marks: nat, dirty: set<string>, late: set<string>,
                       touched: map<string, nat>)

  /** How much of a recorded failure reached the log: both statements, only the count, or nothing. */
  datatype Recording = Full | CountOnly | Lost

  datatype Fate = Done | ApplyFails(recording: Recording) | MarkFails | Crash(applied: bool)

  datatype AppendResult = Accepted | DuplicateKey | DuplicateId

  datatype Move = Arrive(ev: EventEnvelope, receivedAt: nat) | Poll(batch: nat, fates: map<nat, Fate>) | PollFails

  function Rid(e: EventEnvelope): string {
    e.resource.id
  }

  predicate Pending(r: Row) {
    r.processedAt.None? && !r.failed
  }

  // ---- The log ----

  predicate HasKey(rows: seq<Row>, e: EventEnvelope) {
    exists i :: 0 <= i < |rows| && rows[i].ev.idempotency == e.idempotency
  }

  predicate HasId(rows: seq<Row>, e: EventEnvelope) {
    exists i :: 0 <= i < |rows| && rows[i].ev.eventId == e.eventId
  }

  /** The two look-ups before the CREATE. */
  function LookUp(rows: seq<Row>, e: EventEnvelope): AppendResult {
    if HasKey(rows, e) then DuplicateKey else if HasId(rows, e) then DuplicateId else Accepted
  }

  /** A row of this stamp would come before the row last applied to its resource. */
  predicate IsLate(f: Feed, e: EventEnvelope, receivedAt: nat) {
    && Rid(e) in f.touched && f.touched[Rid(e)] < |f.rows|
    && receivedAt < f.rows[f.touched[Rid(e)]].receivedAt
  }

  /** The CREATE of a row with the stamp drawn before; the two unique indexes can refuse it. */
  function Create(f: Feed, e: EventEnvelope, receivedAt: nat): (Feed, bool) {
    if HasKey(f.rows, e) || HasId(f.rows, e) then (f, false)
    else
      (f.(rows := f.rows + [Row(e, receivedAt, 0, false, None)],
          late := if IsLate(f, e, receivedAt) then f.late + {Rid(e)} else f.late), true)
  }

  /** An append with nobody between its look-ups and its CREATE. */
  function Append(f: Feed, e: EventEnvelope, receivedAt: nat): (Feed, AppendResult) {
    if LookUp(f.rows, e).Accepted? then (Create(f, e, receivedAt).0, Accepted) else (f, LookUp(f.rows, e))
  }

  // ---- The order of the stamps ----

  /** `ORDER BY received_at`, equal stamps in the order of creation. */
  predicate Before(rows: seq<Row>, i: nat, j: nat)
    requires i < |rows| && j < |rows|
  {
    rows[i].receivedAt < rows[j].receivedAt || (rows[i].receivedAt == rows[j].receivedAt && i < j)
  }

  predicate InRange(rows: seq<Row>, todo: seq<nat>) {
    forall k :: 0 <= k < |todo| ==> todo[k] < |rows|
  }

  predicate Sorted(rows: seq<Row>, todo: seq<nat>) {
    InRange(rows, todo) && forall k, l :: 0 <= k < l < |todo| ==> Before(rows, todo[k], todo[l])
  }

  function InsertByStamp(rows: seq<Row>, i: nat, todo: seq<nat>): (r: seq<nat>)
    requires i < |rows| && InRange(rows, todo)
    ensures |r| == |todo| + 1 && InRange(rows, r)
    ensures forall j :: j in r <==> j == i || j in todo
  {
    if todo == [] then [i]
    else if Before(rows, i, todo[0]) then [i] + todo
    else
      var rest := InsertByStamp(rows, i, todo[1..]);
      assert forall j :: j in todo <==> j == todo[0] || j in todo[1..];
      [todo[0]] + rest
  }

  function ByStamp(rows: seq<Row>, todo: seq<nat>): (r: seq<nat>)
    requires InRange(rows, todo)
    ensures |r| == |todo| && InRange(rows, r)
    ensures forall j :: j in r <==> j in todo
  {
    if todo == [] then []
    else
      assert forall j :: j in todo <==> j == todo[0] || j in todo[1..];
      InsertByStamp(rows, todo[0], ByStamp(rows, todo[1..]))
  }

  lemma {:induction false} InsertSorted(rows: seq<Row>, i: nat, todo: seq<nat>)
    requires i < |rows| && Sorted(rows, todo) && i !in todo
    ensures Sorted(rows, InsertByStamp(rows, i, todo))
  {
    if todo != [] && !Before(rows, i, todo[0]) {
      var rest := todo[1..];
      assert forall k :: 0 <= k < |rest| ==> rest[k] == todo[k + 1];
      InsertSorted(rows, i, rest);
      var r := InsertByStamp(rows, i, rest);
      assert forall k :: 0 <= k < |r| ==> r[k] in r;
      assert forall j :: j in rest ==> Before(rows, todo[0], j);
      assert Before(rows, todo[0], i);
    }
  }

  /** Sorting by the stamps puts distinct rows into their one order. */
  lemma {:induction false} ByStampSorted(rows: seq<Row>, todo: seq<nat>)
    requires InRange(rows, todo) && forall k, l :: 0 <= k < l < |todo| ==> todo[k] != todo[l]
    ensures Sorted(rows, ByStamp(rows, todo))
  {
    if todo != [] {
      ByStampSorted(rows, todo[1..]);
      assert todo[0] !in todo[1..];
      InsertSorted(rows, todo[0], ByStamp(rows, todo[1..]));
    }
  }

  /** The pending rows from `i` on, oldest first. */
  function PendingFrom(rows: seq<Row>, i: nat): (todo: seq<nat>)
    requires i <= |rows|
    ensures forall k :: 0 <= k < |todo| ==> i <= todo[k] < |rows| && Pending(rows[todo[k]])
    ensures forall k, l :: 0 <= k < l < |todo| ==> todo[k] < todo[l]
    ensures forall j :: i <= j < |rows| && Pending(rows[j]) ==> j in todo
    decreases |rows| - i
  {
    if i == |rows| then [] else (if Pending(rows[i]) then [i] else []) + PendingFrom(rows, i + 1)
  }

  /** `SELECT … WHERE processed_at IS NONE AND failed_at IS NONE ORDER BY received_at LIMIT batch`. */
  function Unprocessed(rows: seq<Row>, batch: nat): (todo: seq<nat>)
    ensures InRange(rows, todo)
  {
    var all := ByStamp(rows, PendingFrom(rows, 0));
    if batch < |all| then all[..batch] else all
  }

  /** One more failure; at the limit the row is dead-lettered and never polled again. */
  function RecordFailure(r: Row, recording: Recording): Row {
    match recording
    case Full => r.(retries := r.retries + 1, failed := r.failed || r.retries + 1 >= MAX_RETRIES)
    case CountOnly => r.(retries := r.retries + 1)
    case Lost => r
  }

  // ---- The consumer ----

  function Apply(index: Index, e: EventEnvelope): Index {
    match e.kind
    case Deleted => index - {Rid(e)}
    case _ => index[Rid(e) := e.resource]
  }

  function ApplyRow(f: Feed, i: nat): Feed
    requires i < |f.rows|
  {
    f.(index := Apply(f.index, f.rows[i].ev), touched := f.touched[Rid(f.rows[i].ev) := i])
  }

  function MarkRow(f: Feed, i: nat): Feed
    requires i < |f.rows|
  {
    f.(rows := f.rows[i := f.rows[i].(processedAt := Some(f.marks))], marks := f.marks + 1)
  }

  function FateOf(fates: map<nat, Fate>, i: nat): Fate {
    if i in fates then fates[i] else Done
  }

  /** One event of a tick. */
  function Handle(f: Feed, i: nat, fate: Fate): Feed
    requires i < |f.rows|
  {
    var rid := Rid(f.rows[i].ev);
    match fate
    case Done => MarkRow(ApplyRow(f, i), i)
    case ApplyFails(rec) =>
      f.(rows := f.rows[i := RecordFailure(f.rows[i], rec)], dirty := f.dirty + {rid})
    case MarkFails => ApplyRow(f, i).(dirty := f.dirty + {rid})
    case Crash(applied) => if applied then ApplyRow(f, i) else f
  }

  /** The polled events in order, until they are done or the process dies. */
  function Work(f: Feed, todo: seq<nat>, fates: map<nat, Fate>): Feed
    requires InRange(f.rows, todo)
    decreases |todo|
  {
    if todo == [] then f
    else
      var fate := FateOf(fates, todo[0]);
      var f' := Handle(f, todo[0], fate);
      if fate.Crash? then f' else Work(f', todo[1..], fates)
  }

  function Next(f: Feed, m: Move): Feed {
    match m
    case Arrive(e, at) => Append(f, e, at).0
    case Poll(batch, fates) => Work(f, Unprocessed(f.rows, batch), fates)
    case PollFails => f
  }

  function Run(f: Feed, moves: seq<Move>): Feed {
    if moves == [] then f else Next(Run(f, moves[..|moves| - 1]), moves[|moves| - 1])
  }

  function Start(base: Index): Feed {
    Feed([], base, 0, {}, {}, map[])
  }

  // ---- The reference: folding the log ----

  function Events(rows: seq<Row>): (es: seq<EventEnvelope>)
    ensures |es| == |rows| && forall i :: 0 <= i < |rows| ==> es[i] == rows[i].ev
  {
    seq(|rows|, i requires 0 <= i < |rows| => rows[i].ev)
  }

  function Indexes(n: nat): (all: seq<nat>)
    ensures |all| == n && forall k :: 0 <= k < n ==> all[k] == k
    ensures forall i :: i in all <==> 0 <= i < n
  {
    if n == 0 then [] else Indexes(n - 1) + [n - 1]
  }

  /** All rows in the order of their stamps. */
  function Order(rows: seq<Row>): (order: seq<nat>)
    ensures |order| == |rows| && InRange(rows, order)
    ensures forall i :: i in order <==> 0 <= i < |rows|
  {
    ByStamp(rows, Indexes(|rows|))
  }

  lemma OrderSorted(rows: seq<Row>)
    ensures Sorted(rows, Order(rows))
  {
    ByStampSorted(rows, Indexes(|rows|));
  }

  /** The received events in the order of their stamps. */
  function Log(rows: seq<Row>): (es: seq<EventEnvelope>)
    ensures |es| == |rows|
    ensures forall k :: 0 <= k < |rows| ==> es[k] == rows[Order(rows)[k]].ev
  {
    seq(|rows|, k requires 0 <= k < |rows| => rows[Order(rows)[k]].ev)
  }

  function Fold(base: Index, es: seq<EventEnvelope>): Index {
    if es == [] then base else Apply(Fold(base, es[..|es| - 1]), es[|es| - 1])
  }

  function Lookup(index: Index, rid: string): Option<Resource> {
    if rid in index then Some(index[rid]) else None
  }

  /** What an event makes of its resource. */
  function Effect(e: EventEnvelope): Option<Resource> {
    if e.kind.Deleted? then None else Some(e.resource)
  }

  lemma ApplyEffect(index: Index, e: EventEnvelope, rid: string)
    ensures Lookup(Apply(index, e), rid) == if rid == Rid(e) then Effect(e) else Lookup(index, rid)
  {
  }

  /** One resource after the first `k` events: the last of them that is about it decides. */
  lemma {:induction false} FoldSkips(base: Index, es: seq<EventEnvelope>, j: nat, k: nat, rid: string)
    requires j <= k <= |es|
    requires forall i :: j <= i < k ==> Rid(es[i]) != rid
    ensures Lookup(Fold(base, es[..k]), rid) == Lookup(Fold(base, es[..j]), rid)
  {
    if j < k {
      FoldSkips(base, es, j, k - 1, rid);
      assert es[..k][..k - 1] == es[..k - 1];
      ApplyEffect(Fold(base, es[..k - 1]), es[k - 1], rid);
    }
  }

  lemma FoldTakes(base: Index, es: seq<EventEnvelope>, k: nat)
    requires k < |es|
    ensures Lookup(Fold(base, es[..k + 1]), Rid(es[k])) == Effect(es[k])
  {
    assert es[..k + 1][..k] == es[..k];
    ApplyEffect(Fold(base, es[..k]), es[k], Rid(es[k]));
  }

  // ---- Resources that never saw a failure ----

  predicate Of(rows: seq<Row>, i: int, rid: string) {
    0 <= i < |rows| && Rid(rows[i].ev) == rid
  }

  predicate Processed(r: Row) {
    r.processedAt.Some?
  }

  /** No event of the resource is dead-lettered, and the processed ones come before the pending ones. */
  ghost predicate InStampOrder(f: Feed, rid: string) {
    && (forall i :: Of(f.rows, i, rid) ==> Processed(f.rows[i]) || Pending(f.rows[i]))
    && (forall i, j :: Of(f.rows, i, rid) && Of(f.rows, j, rid) && Processed(f.rows[i]) && Pending(f.rows[j]) ==>
          Before(f.rows, i, j))
  }

  /** The index holds what row `t` leaves: the last of the processed ones, or after a crash the first pending one. */
  ghost predicate HoldsUpTo(f: Feed, rid: string, t: nat) {
    && Of(f.rows, t, rid) && Lookup(f.index, rid) == Effect(f.rows[t].ev)
    && forall i :: Of(f.rows, i, rid) && i != t ==>
         if Processed(f.rows[i]) then Before(f.rows, i, t) else Before(f.rows, t, i)
  }

  ghost predicate Clean(f: Feed, base: Index, rid: string) {
    && InStampOrder(f, rid)
    && if rid in f.touched then HoldsUpTo(f, rid, f.touched[rid])
       else Lookup(f.index, rid) == Lookup(base, rid) && forall i :: Of(f.rows, i, rid) ==> Pending(f.rows[i])
  }

  /** No failure and no late row, so far. */
  predicate Spared(f: Feed, rid: string) {
    rid !in f.dirty && rid !in f.late
  }

  ghost predicate AllClean(f: Feed, base: Index) {
    forall rid :: Spared(f, rid) ==> Clean(f, base, rid)
  }

  predicate AllPending(rows: seq<Row>, todo: seq<nat>) {
    InRange(rows, todo) && forall k :: 0 <= k < |todo| ==> Pending(rows[todo[k]])
  }

  /** A pending event that comes before the last one still to do, and is not to be done, belongs to a dirty resource. */
  predicate OthersDirty(f: Feed, todo: seq<nat>)
    requires InRange(f.rows, todo)
  {
    todo != [] ==>
      forall j | 0 <= j < |f.rows| && Pending(f.rows[j]) && j !in todo && Before(f.rows, j, todo[|todo| - 1]) ::
        Rid(f.rows[j].ev) in f.dirty
  }

  /** What is still to do in this tick. */
  predicate Passed(f: Feed, todo: seq<nat>) {
    AllPending(f.rows, todo) && Sorted(f.rows, todo) && OthersDirty(f, todo)
  }

  /** The event at hand comes before every other pending one of its resource. */
  lemma OldestOfItsResource(f: Feed, todo: seq<nat>, j: nat)
    requires todo != [] && Passed(f, todo) && Rid(f.rows[todo[0]].ev) !in f.dirty
    requires Of(f.rows, j, Rid(f.rows[todo[0]].ev)) && Pending(f.rows[j]) && j != todo[0]
    ensures Before(f.rows, todo[0], j)
  {
    if j !in todo {
      assert !Before(f.rows, j, todo[|todo| - 1]);
      assert todo[0] == todo[|todo| - 1] || Before(f.rows, todo[0], todo[|todo| - 1]);
    }
  }

  /** Only row `i` changed, and neither its event nor its stamp. */
  ghost predicate SameLog(f: Feed, f': Feed, i: nat) {
    && i < |f.rows| == |f'.rows| && f'.rows[i].ev == f.rows[i].ev && f'.rows[i].receivedAt == f.rows[i].receivedAt
    && forall j :: 0 <= j < |f.rows| && j != i ==> f'.rows[j] == f.rows[j]
  }

  lemma OtherRowsClean(f: Feed, f': Feed, base: Index, i: nat, rid: string)
    requires Clean(f, base, rid) && SameLog(f, f', i) && Rid(f.rows[i].ev) != rid
    requires Lookup(f'.index, rid) == Lookup(f.index, rid)
    requires rid in f'.touched <==> rid in f.touched
    requires rid in f.touched ==> f'.touched[rid] == f.touched[rid]
    ensures Clean(f', base, rid)
  {
    assert forall j :: Of(f'.rows, j, rid) <==> Of(f.rows, j, rid);
    assert forall j :: Of(f'.rows, j, rid) ==> f'.rows[j] == f.rows[j];
  }

  /** Applying the event at hand, marked or not, moves on by one event. */
  lemma OwnRowClean(f: Feed, base: Index, todo: seq<nat>, fate: Fate)
    requires todo != [] && Passed(f, todo) && (fate.Done? || fate == Crash(true))
    requires Spared(f, Rid(f.rows[todo[0]].ev)) && Clean(f, base, Rid(f.rows[todo[0]].ev))
    ensures Clean(Handle(f, todo[0], fate), base, Rid(f.rows[todo[0]].ev))
  {
    var i := todo[0];
    var rid := Rid(f.rows[i].ev);
    var f' := Handle(f, i, fate);
    ApplyEffect(f.index, f.rows[i].ev, rid);
    assert SameLog(f, f', i);
    forall j | Of(f.rows, j, rid) && Pending(f.rows[j]) && j != i ensures Before(f.rows, i, j) {
      OldestOfItsResource(f, todo, j);
    }
    MovedOn(f, f', base, i, rid);
  }

  lemma MovedOn(f: Feed, f': Feed, base: Index, i: nat, rid: string)
    requires SameLog(f, f', i) && Of(f.rows, i, rid) && Pending(f.rows[i]) && InStampOrder(f, rid)
    requires forall j :: Of(f.rows, j, rid) && Pending(f.rows[j]) && j != i ==> Before(f.rows, i, j)
    requires Processed(f'.rows[i]) || Pending(f'.rows[i])
    requires rid in f'.touched && f'.touched[rid] == i && Lookup(f'.index, rid) == Effect(f.rows[i].ev)
    ensures Clean(f', base, rid)
  {
    assert forall j :: Of(f'.rows, j, rid) <==> Of(f.rows, j, rid);
    assert forall j, k :: 0 <= j < |f.rows| && 0 <= k < |f.rows| ==> Before(f'.rows, j, k) == Before(f.rows, j, k);
  }

  lemma HandleKeepsClean(f: Feed, base: Index, todo: seq<nat>, fate: Fate)
    requires todo != [] && Passed(f, todo) && AllClean(f, base)
    ensures AllClean(Handle(f, todo[0], fate), base)
  {
    var i := todo[0];
    var f' := Handle(f, i, fate);
    forall rid | Spared(f', rid) ensures Clean(f', base, rid) {
      assert Spared(f, rid) && Clean(f, base, rid);
      if fate != Crash(false) {
        if rid == Rid(f.rows[i].ev) {
          OwnRowClean(f, base, todo, fate);
        } else {
          ApplyEffect(f.index, f.rows[i].ev, rid);
          OtherRowsClean(f, f', base, i, rid);
        }
      }
    }
  }

  lemma HandlePasses(f: Feed, todo: seq<nat>, fate: Fate)
    requires todo != [] && Passed(f, todo) && !fate.Crash?
    ensures Passed(Handle(f, todo[0], fate), todo[1..])
  {
    var i := todo[0];
    var f' := Handle(f, i, fate);
    assert SameLog(f, f', i);
    assert forall k :: 0 <= k < |todo| - 1 ==> todo[1..][k] == todo[k + 1];
    assert i !in todo[1..];
    if |todo| > 1 {
      assert todo[1..][|todo| - 2] == todo[|todo| - 1];
      forall j | 0 <= j < |f'.rows| && Pending(f'.rows[j]) && j !in todo[1..] && Before(f'.rows, j, todo[|todo| - 1])
        ensures Rid(f'.rows[j].ev) in f'.dirty
      {
        if j != i {
          assert j !in todo;
        }
      }
    }
  }

  lemma {:induction false} WorkKeepsClean(f: Feed, base: Index, todo: seq<nat>, fates: map<nat, Fate>)
    requires Passed(f, todo) && AllClean(f, base)
    ensures AllClean(Work(f, todo, fates), base)
    decreases |todo|
  {
    if todo != [] {
      var fate := FateOf(fates, todo[0]);
      HandleKeepsClean(f, base, todo, fate);
      if !fate.Crash? {
        HandlePasses(f, todo, fate);
        WorkKeepsClean(Handle(f, todo[0], fate), base, todo[1..], fates);
      }
    }
  }

  /** What is cut off a sorted list comes after what is kept. */
  lemma CutOffLater(rows: seq<Row>, all: seq<nat>, n: nat, j: nat)
    requires Sorted(rows, all) && 0 < n <= |all| && j in all && j !in all[..n]
    ensures !Before(rows, j, all[n - 1])
  {
    var l :| 0 <= l < |all| && all[l] == j;
    assert forall k :: 0 <= k < n ==> all[..n][k] == all[k] && all[k] in all[..n];
    assert Before(rows, all[n - 1], all[l]);
  }

  lemma UnprocessedPassed(f: Feed, batch: nat)
    ensures Passed(f, Unprocessed(f.rows, batch))
  {
    var pending := PendingFrom(f.rows, 0);
    var all := ByStamp(f.rows, pending);
    ByStampSorted(f.rows, pending);
    TakenPassed(f, all, if batch < |all| then batch else |all|);
    assert all[..|all|] == all;
  }

  lemma TakenPassed(f: Feed, all: seq<nat>, n: nat)
    requires Sorted(f.rows, all) && n <= |all|
    requires forall j :: j in all <==> 0 <= j < |f.rows| && Pending(f.rows[j])
    ensures Passed(f, all[..n])
  {
    var todo := all[..n];
    assert forall k :: 0 <= k < n ==> todo[k] == all[k] && all[k] in all;
    forall j | 0 <= j < |f.rows| && Pending(f.rows[j]) && j !in todo && n > 0
      ensures !Before(f.rows, j, all[n - 1])
    {
      CutOffLater(f.rows, all, n, j);
    }
  }

  lemma ArrivalKeepsClean(f: Feed, base: Index, e: EventEnvelope, at: nat, rid: string)
    requires Create(f, e, at).1 && Clean(f, base, rid) && Spared(Create(f, e, at).0, rid)
    ensures Clean(Create(f, e, at).0, base, rid)
  {
    var f' := Create(f, e, at).0;
    var n := |f.rows|;
    assert forall i :: 0 <= i < n ==> f'.rows[i] == f.rows[i];
    assert forall i :: Of(f'.rows, i, rid) ==> Of(f.rows, i, rid) || (i == n && Rid(e) == rid);
    if Rid(e) == rid && rid in f.touched {
      var t := f.touched[rid];
      assert !IsLate(f, e, at);
      assert Before(f'.rows, t, n);
    }
  }

  lemma AppendKeepsClean(f: Feed, base: Index, e: EventEnvelope, at: nat)
    requires AllClean(f, base)
    ensures AllClean(Append(f, e, at).0, base)
  {
    if Append(f, e, at).1.Accepted? {
      forall rid | Spared(Append(f, e, at).0, rid) ensures Clean(Append(f, e, at).0, base, rid) {
        assert Spared(f, rid);
        ArrivalKeepsClean(f, base, e, at, rid);
      }
    }
  }

  lemma {:induction false} RunKeepsClean(base: Index, moves: seq<Move>)
    ensures AllClean(Run(Start(base), moves), base)
  {
    if moves != [] {
      var f, m := Run(Start(base), moves[..|moves| - 1]), moves[|moves| - 1];
      RunKeepsClean(base, moves[..|moves| - 1]);
      match m
      case Arrive(e, at) => AppendKeepsClean(f, base, e, at);
      case Poll(batch, fates) =>
        UnprocessedPassed(f, batch);
        WorkKeepsClean(f, base, Unprocessed(f.rows, batch), fates);
      case PollFails =>
    }
  }

  predicate DrainedFor(f: Feed, rid: string) {
    forall i :: 0 <= i < |f.rows| && Rid(f.rows[i].ev) == rid ==> !Pending(f.rows[i])
  }

  /** Where row `i` is in the order of the stamps. */
  lemma PlaceOf(rows: seq<Row>, i: nat) returns (p: nat)
    requires i < |rows|
    ensures p < |rows| && Order(rows)[p] == i
    ensures forall q :: 0 <= q < p ==> Before(rows, Order(rows)[q], i)
    ensures forall q :: p < q < |rows| ==> Before(rows, i, Order(rows)[q])
  {
    OrderSorted(rows);
    assert i in Order(rows);
    p :| 0 <= p < |rows| && Order(rows)[p] == i;
  }

  /** The last row of the resource in the order of the stamps decides the fold of the whole log. */
  lemma LastStampIsFolded(rows: seq<Row>, base: Index, rid: string, last: nat)
    requires Of(rows, last, rid) && forall j :: Of(rows, j, rid) && j != last ==> Before(rows, j, last)
    ensures Lookup(Fold(base, Log(rows)), rid) == Effect(rows[last].ev)
  {
    var es := Log(rows);
    var p := PlaceOf(rows, last);
    FoldTakes(base, es, p);
    forall q | p < q < |rows| ensures Rid(es[q]) != rid {
      assert Before(rows, last, Order(rows)[q]);
      assert Of(rows, Order(rows)[q], rid) ==> Before(rows, Order(rows)[q], last);
    }
    FoldSkips(base, es, p + 1, |es|, rid);
    assert es[..|es|] == es;
  }

  lemma NoStampFolded(rows: seq<Row>, base: Index, rid: string)
    requires forall j :: !Of(rows, j, rid)
    ensures Lookup(Fold(base, Log(rows)), rid) == Lookup(base, rid)
  {
    var es := Log(rows);
    assert forall q :: 0 <= q < |es| ==> !Of(rows, Order(rows)[q], rid);
    FoldSkips(base, es, 0, |es|, rid);
    assert es[..|es|] == es && es[..0] == [];
  }

  /** In the order of the stamps, the resource's events before place `k` are processed, all but perhaps the last of
      them, and those from `k` on are pending. */
  ghost predicate SplitAt(f: Feed, rid: string, k: nat) {
    && k <= |f.rows|
    && (forall q :: 0 <= q < k - 1 && Of(f.rows, Order(f.rows)[q], rid) ==> Processed(f.rows[Order(f.rows)[q]]))
    && (forall q :: k <= q < |f.rows| && Of(f.rows, Order(f.rows)[q], rid) ==> Pending(f.rows[Order(f.rows)[q]]))
  }

  /**
   The consumer refines a fold of the log in the order of the stamps. For any batch sizes, failed polls, crash
   points and arrivals in between, with any stamps: a resource none of whose events failed to apply or to be marked,
   and none of whose rows was created after one with a later stamp had been applied, is at every moment what some
   prefix of the log leaves it, and once none of its events is pending it is what the whole log leaves it, whatever
   happened to other resources.
   */
  lemma ConsumerRefinesFold(base: Index, moves: seq<Move>, rid: string) returns (k: nat)
    requires Spared(Run(Start(base), moves), rid)
    ensures var f := Run(Start(base), moves);
      && SplitAt(f, rid, k)
      && Lookup(f.index, rid) == Lookup(Fold(base, Log(f.rows)[..k]), rid)
      && (DrainedFor(f, rid) ==> Lookup(f.index, rid) == Lookup(Fold(base, Log(f.rows)), rid))
  {
    RunKeepsClean(base, moves);
    var f := Run(Start(base), moves);
    assert Clean(f, base, rid);
    if rid in f.touched {
      var t := f.touched[rid];
      var p := PlaceOf(f.rows, t);
      FoldTakes(base, Log(f.rows), p);
      k := p + 1;
      SplitAtTouched(f, base, rid, p);
      if DrainedFor(f, rid) {
        LastStampIsFolded(f.rows, base, rid, t);
      }
    } else {
      k := 0;
      assert Log(f.rows)[..0] == [];
      if DrainedFor(f, rid) {
        NoStampFolded(f.rows, base, rid);
      }
    }
  }

  lemma SplitAtTouched(f: Feed, base: Index, rid: string, p: nat)
    requires Clean(f, base, rid) && rid in f.touched && p < |f.rows| && Order(f.rows)[p] == f.touched[rid]
    requires forall q :: 0 <= q < p ==> Before(f.rows, Order(f.rows)[q], f.touched[rid])
    requires forall q :: p < q < |f.rows| ==> Before(f.rows, f.touched[rid], Order(f.rows)[q])
    ensures SplitAt(f, rid, p + 1)
  {
  }

  // ---- What the history fields record ----

  predicate Fails(fate: Fate) {
    fate.ApplyFails? || fate.MarkFails?
  }

  /** What one event of a tick does to the index and to the history, fate by fate. */
  lemma HandleRecords(f: Feed, i: nat, fate: Fate)
    requires i < |f.rows|
    ensures var f' := Handle(f, i, fate); var rid := Rid(f.rows[i].ev);
      var applied := fate == Done || fate == MarkFails || fate == Crash(true);
      && f'.index == (if applied then Apply(f.index, f.rows[i].ev) else f.index)
      && f'.touched == (if applied then f.touched[rid := i] else f.touched)
      && f'.dirty == (if Fails(fate) then f.dirty + {rid} else f.dirty)
      && f'.late == f.late
  {
  }

  /** Some handled event of the resource failed to apply or to be marked. */
  predicate FailedIn(rows: seq<Row>, todo: seq<nat>, fates: map<nat, Fate>, rid: string) {
    todo != [] &&
    var fate := FateOf(fates, todo[0]);
    (Of(rows, todo[0], rid) && Fails(fate)) || (!fate.Crash? && FailedIn(rows, todo[1..], fates, rid))
  }

  predicate FailedOver(f: Feed, moves: seq<Move>, rid: string) {
    moves != [] &&
    var g, m := Run(f, moves[..|moves| - 1]), moves[|moves| - 1];
    || FailedOver(f, moves[..|moves| - 1], rid)
    || (m.Poll? && FailedIn(g.rows, Unprocessed(g.rows, m.batch), m.fates, rid))
  }

  /** Some row of the resource was created with an earlier stamp than the row last applied to it had. */
  predicate OvertakenOver(f: Feed, moves: seq<Move>, rid: string) {
    moves != [] &&
    var g, m := Run(f, moves[..|moves| - 1]), moves[|moves| - 1];
    || OvertakenOver(f, moves[..|moves| - 1], rid)
    || (m.Arrive? && Rid(m.ev) == rid && |Next(g, m).rows| > |g.rows|
        && rid in g.touched && g.touched[rid] < |g.rows| && m.receivedAt < g.rows[g.touched[rid]].receivedAt)
  }

  lemma {:induction false} WorkRecords(f: Feed, todo: seq<nat>, fates: map<nat, Fate>, rid: string)
    requires InRange(f.rows, todo)
    ensures var f' := Work(f, todo, fates);
      && (rid in f'.dirty <==> rid in f.dirty || FailedIn(f.rows, todo, fates, rid))
      && f'.late == f.late
    decreases |todo|
  {
    if todo != [] {
      var fate := FateOf(fates, todo[0]);
      var f' := Handle(f, todo[0], fate);
      HandleRecords(f, todo[0], fate);
      if !fate.Crash? {
        WorkRecords(f', todo[1..], fates, rid);
        SameFailures(f.rows, f'.rows, todo[1..], fates, rid);
      }
    }
  }

  lemma {:induction false} SameFailures(rows: seq<Row>, rows': seq<Row>, todo: seq<nat>, fates: map<nat, Fate>,
                                        rid: string)
    requires InRange(rows, todo) && |rows'| == |rows| && forall i :: 0 <= i < |rows| ==> rows'[i].ev == rows[i].ev
    ensures FailedIn(rows', todo, fates, rid) <==> FailedIn(rows, todo, fates, rid)
  {
    if todo != [] {
      SameFailures(rows, rows', todo[1..], fates, rid);
    }
  }

  /**
   The premise of `ConsumerRefinesFold`, read off the run: a resource is spared exactly when none of its events met a
   failure of the apply or of the mark and none of its rows was overtaken.
   */
  lemma {:induction false} SparedExactly(base: Index, moves: seq<Move>, rid: string)
    ensures var f := Run(Start(base), moves);
      && (rid in f.dirty <==> FailedOver(Start(base), moves, rid))
      && (rid in f.late <==> OvertakenOver(Start(base), moves, rid))
      && (Spared(f, rid) <==> !FailedOver(Start(base), moves, rid) && !OvertakenOver(Start(base), moves, rid))
  {
    if moves != [] {
      var g, m := Run(Start(base), moves[..|moves| - 1]), moves[|moves| - 1];
      SparedExactly(base, moves[..|moves| - 1], rid);
      if m.Poll? {
        WorkRecords(g, Unprocessed(g.rows, m.batch), m.fates, rid);
      }
    }
  }

  // ---- Accepted events are distinct ----

  ghost predicate Deduplicated(rows: seq<Row>) {
    forall i, j :: 0 <= i < j < |rows| ==>
      rows[i].ev.eventId != rows[j].ev.eventId && rows[i].ev.idempotency != rows[j].ev.idempotency
  }

  lemma {:induction false} WorkKeepsEvents(f: Feed, todo: seq<nat>, fates: map<nat, Fate>)
    requires InRange(f.rows, todo)
    ensures Events(Work(f, todo, fates).rows) == Events(f.rows)
    decreases |todo|
  {
    if todo != [] && !FateOf(fates, todo[0]).Crash? {
      var f' := Handle(f, todo[0], FateOf(fates, todo[0]));
      assert Events(f'.rows) == Events(f.rows);
      WorkKeepsEvents(f', todo[1..], fates);
    }
  }

  lemma TickKeepsDistinct(f: Feed, batch: nat, fates: map<nat, Fate>)
    requires Deduplicated(f.rows)
    ensures Deduplicated(Work(f, Unprocessed(f.rows, batch), fates).rows)
  {
    var rows' := Work(f, Unprocessed(f.rows, batch), fates).rows;
    WorkKeepsEvents(f, Unprocessed(f.rows, batch), fates);
    assert forall i :: 0 <= i < |rows'| ==> rows'[i].ev == Events(rows')[i] == f.rows[i].ev;
  }

  lemma ArrivalKeepsDistinct(f: Feed, e: EventEnvelope, at: nat)
    requires Deduplicated(f.rows)
    ensures Deduplicated(Append(f, e, at).0.rows)
  {
  }

  /** Over every run no key and no event id is accepted twice. */
  lemma {:induction false} RunDeduplicates(base: Index, moves: seq<Move>)
    ensures Deduplicated(Run(Start(base), moves).rows)
  {
    if moves != [] {
      var f, m := Run(Start(base), moves[..|moves| - 1]), moves[|moves| - 1];
      RunDeduplicates(base, moves[..|moves| - 1]);
      match m
      case Arrive(e, at) => ArrivalKeepsDistinct(f, e, at);
      case Poll(batch, fates) => TickKeepsDistinct(f, batch, fates);
      case PollFails =>
    }
  }

  /** An envelope already in the log is refused as a duplicate key, and the log does not change. */
  lemma ReplayIsRefused(f: Feed, i: nat, at: nat)
    requires i < |f.rows|
    ensures Append(f, f.rows[i].ev, at) == (f, DuplicateKey)
  {
  }

  /** What the sender is told: the key is looked up first, so a replay with another id is a duplicate key. */
  lemma AppendAnswersExactly(f: Feed, e: EventEnvelope, at: nat)
    ensures var r := Append(f, e, at).1;
      var sameKey := exists i :: 0 <= i < |f.rows| && f.rows[i].ev.idempotency == e.idempotency;
      var sameId := exists i :: 0 <= i < |f.rows| && f.rows[i].ev.eventId == e.eventId;
      && (r == DuplicateKey <==> sameKey) && (r == DuplicateId <==> !sameKey && sameId)
      && (r == Accepted <==> !sameKey && !sameId)
  {
  }

  /** An arrival is never dropped: it is a new pending row with its stamp, or the log already has its key or its id. */
  lemma ArrivalIsLogged(f: Feed, e: EventEnvelope, at: nat)
    ensures var f' := Next(f, Arrive(e, at));
      if HasKey(f.rows, e) || HasId(f.rows, e) then f' == f
      else
        && |f'.rows| == |f.rows| + 1 && f'.rows[..|f.rows|] == f.rows
        && f'.rows[|f.rows|].ev == e && f'.rows[|f.rows|].receivedAt == at && Pending(f'.rows[|f.rows|])
  {
  }

  /**
   With others between the look-ups and the CREATE, an append is an arrival at the moment of the CREATE with the stamp
   drawn before it. The results about runs take arrivals with any stamps and so cover it; what an overtaken stamp does
   is in `ConsumerRefinesFold` and `CrossedStampsReverse`. The CREATE of an event that passed its look-ups is refused,
   an error instead of a duplicate, exactly when its key or id arrived in between.
   */
  lemma RacedAppend(base: Index, before: seq<Move>, between: seq<Move>, e: EventEnvelope, at: nat)
    requires LookUp(Run(Start(base), before).rows, e).Accepted?
    ensures var f, f' := Run(Start(base), before), Run(Run(Start(base), before), between);
      && Create(f', e, at).0 == Next(f', Arrive(e, at))
      && |f.rows| <= |f'.rows|
      && (!Create(f', e, at).1 <==> HasKey(f'.rows[|f.rows|..], e) || HasId(f'.rows[|f.rows|..], e))
  {
    var f, f' := Run(Start(base), before), Run(Run(Start(base), before), between);
    EventsGrow(f, between);
    assert forall i :: 0 <= i < |f.rows| ==> f'.rows[i].ev == Events(f'.rows)[..|f.rows|][i] == f.rows[i].ev;
    var newRows := f'.rows[|f.rows|..];
    assert forall i :: 0 <= i < |newRows| ==> newRows[i] == f'.rows[|f.rows| + i];
    assert forall i :: |f.rows| <= i < |f'.rows| ==> f'.rows[i] == newRows[i - |f.rows|];
  }

  /** The log only grows at its end. */
  lemma {:induction false} EventsGrow(f: Feed, moves: seq<Move>)
    ensures |f.rows| <= |Run(f, moves).rows|
    ensures Events(Run(f, moves).rows)[..|f.rows|] == Events(f.rows)
  {
    if moves == [] {
      assert Events(f.rows)[..|f.rows|] == Events(f.rows);
    } else {
      var g, m := Run(f, moves[..|moves| - 1]), moves[|moves| - 1];
      EventsGrow(f, moves[..|moves| - 1]);
      match m
      case Arrive(_, _) => assert Events(Next(g, m).rows)[..|g.rows|] == Events(g.rows);
      case Poll(batch, fates) => WorkKeepsEvents(g, Unprocessed(g.rows, batch), fates);
      case PollFails =>
    }
  }

  // ---- The order of the marks decides ----

  /** The row last applied to a resource is in the index, and if it is marked, no mark of the resource is later. */
  ghost predicate LastApplied(f: Feed, base: Index, rid: string) {
    if rid in f.touched then
      var t := f.touched[rid];
      && t < |f.rows| && Rid(f.rows[t].ev) == rid
      && Lookup(f.index, rid) == Effect(f.rows[t].ev)
      && (f.rows[t].processedAt.Some? ==>
            forall j :: 0 <= j < |f.rows| && Rid(f.rows[j].ev) == rid && f.rows[j].processedAt.Some? ==>
              f.rows[j].processedAt.value <= f.rows[t].processedAt.value)
    else
      && Lookup(f.index, rid) == Lookup(base, rid)
      && forall j :: 0 <= j < |f.rows| && Rid(f.rows[j].ev) == rid ==> f.rows[j].processedAt.None?
  }

  ghost predicate StampsPast(f: Feed) {
    && (forall j :: 0 <= j < |f.rows| && f.rows[j].processedAt.Some? ==> f.rows[j].processedAt.value < f.marks)
    && (forall i, j :: 0 <= i < j < |f.rows| && f.rows[i].processedAt.Some? ==>
          f.rows[i].processedAt != f.rows[j].processedAt)
  }

  ghost predicate Traced(f: Feed, base: Index) {
    StampsPast(f) && forall rid :: LastApplied(f, base, rid)
  }

  lemma HandleKeepsStamps(f: Feed, i: nat, fate: Fate)
    requires StampsPast(f) && i < |f.rows|
    ensures StampsPast(Handle(f, i, fate))
  {
  }

  lemma HandleKeepsTrace(f: Feed, base: Index, i: nat, fate: Fate, rid: string)
    requires Traced(f, base) && i < |f.rows| && Pending(f.rows[i])
    ensures LastApplied(Handle(f, i, fate), base, rid)
  {
    assert LastApplied(f, base, rid);
    ApplyEffect(f.index, f.rows[i].ev, rid);
  }

  lemma HandleSorted(f: Feed, todo: seq<nat>, fate: Fate)
    requires todo != [] && AllPending(f.rows, todo) && Sorted(f.rows, todo)
    ensures AllPending(Handle(f, todo[0], fate).rows, todo[1..]) && Sorted(Handle(f, todo[0], fate).rows, todo[1..])
  {
    assert SameLog(f, Handle(f, todo[0], fate), todo[0]);
    assert forall k :: 0 <= k < |todo| - 1 ==> todo[1..][k] == todo[k + 1];
  }

  lemma {:induction false} WorkKeepsTrace(f: Feed, base: Index, todo: seq<nat>, fates: map<nat, Fate>)
    requires Traced(f, base) && AllPending(f.rows, todo) && Sorted(f.rows, todo)
    ensures Traced(Work(f, todo, fates), base)
    decreases |todo|
  {
    if todo != [] {
      var fate := FateOf(fates, todo[0]);
      var f' := Handle(f, todo[0], fate);
      HandleKeepsStamps(f, todo[0], fate);
      forall rid ensures LastApplied(f', base, rid) {
        HandleKeepsTrace(f, base, todo[0], fate, rid);
      }
      if !fate.Crash? {
        HandleSorted(f, todo, fate);
        WorkKeepsTrace(f', base, todo[1..], fates);
      }
    }
  }

  lemma AppendKeepsTrace(f: Feed, base: Index, e: EventEnvelope, at: nat)
    requires Traced(f, base)
    ensures Traced(Append(f, e, at).0, base)
  {
    forall rid ensures LastApplied(Append(f, e, at).0, base, rid) {
      assert LastApplied(f, base, rid);
    }
  }

  lemma {:induction false} RunKeepsTrace(base: Index, moves: seq<Move>)
    ensures Traced(Run(Start(base), moves), base)
  {
    if moves != [] {
      var f, m := Run(Start(base), moves[..|moves| - 1]), moves[|moves| - 1];
      RunKeepsTrace(base, moves[..|moves| - 1]);
      match m
      case Arrive(e, at) => AppendKeepsTrace(f, base, e, at);
      case Poll(batch, fates) =>
        UnprocessedPassed(f, batch);
        WorkKeepsTrace(f, base, Unprocessed(f.rows, batch), fates);
      case PollFails =>
    }
  }

  /** What was last done to the resource: the effect of the row last applied to it, or nothing since the start. */
  function LastDone(f: Feed, base: Index, rid: string): Option<Resource> {
    if rid in f.touched && f.touched[rid] < |f.rows| then Effect(f.rows[f.touched[rid]].ev) else Lookup(base, rid)
  }

  /** `last` is the row of the resource with the latest stamp. */
  ghost predicate LatestStamp(rows: seq<Row>, rid: string, last: nat) {
    Of(rows, last, rid) && forall j :: Of(rows, j, rid) && j != last ==> Before(rows, j, last)
  }

  /**
   With failures or overtaken stamps the order of the stamps can be lost. At every moment of every run, with events
   pending, processed or dead-lettered, the index agrees with the fold of the log on a resource exactly when the
   event last applied to it, or the start where none was, says the same as the event with the latest stamp.
   */
  lemma LastAppliedDecides(base: Index, moves: seq<Move>, rid: string, last: nat)
    requires LatestStamp(Run(Start(base), moves).rows, rid, last)
    ensures var f := Run(Start(base), moves);
      Lookup(f.index, rid) == Lookup(Fold(base, Log(f.rows)), rid)
      <==> LastDone(f, base, rid) == Effect(f.rows[last].ev)
  {
    RunKeepsTrace(base, moves);
    var f := Run(Start(base), moves);
    assert LastApplied(f, base, rid);
    LastStampIsFolded(f.rows, base, rid, last);
  }

  /** `marked` is the row of `rid` that was marked last; all are processed. */
  ghost predicate AllMarked(f: Feed, rid: string, marked: nat) {
    && Of(f.rows, marked, rid)
    && (forall j :: Of(f.rows, j, rid) ==> Processed(f.rows[j]))
    && (forall j :: Of(f.rows, j, rid) ==> f.rows[j].processedAt.value <= f.rows[marked].processedAt.value)
  }

  lemma LastMarkIsApplied(f: Feed, base: Index, rid: string, marked: nat)
    requires Traced(f, base) && AllMarked(f, rid, marked)
    ensures LastDone(f, base, rid) == Effect(f.rows[marked].ev)
  {
    assert LastApplied(f, base, rid);
    assert rid in f.touched;
    assert Of(f.rows, f.touched[rid], rid);
    assert f.rows[f.touched[rid]].processedAt == f.rows[marked].processedAt;
  }

  /**
   Once every event of a resource is processed, the log alone tells: the index agrees with the fold exactly when
   the event marked last says the same as the event with the latest stamp.
   */
  lemma MarkOrderDecides(base: Index, moves: seq<Move>, rid: string, last: nat, marked: nat)
    requires LatestStamp(Run(Start(base), moves).rows, rid, last) && AllMarked(Run(Start(base), moves), rid, marked)
    ensures var f := Run(Start(base), moves);
      Lookup(f.index, rid) == Lookup(Fold(base, Log(f.rows)), rid)
      <==> Effect(f.rows[marked].ev) == Effect(f.rows[last].ev)
  {
    RunKeepsTrace(base, moves);
    LastMarkIsApplied(Run(Start(base), moves), base, rid, marked);
    LastAppliedDecides(base, moves, rid, last);
  }

  lemma Then(base: Index, moves: seq<Move>, m: Move) returns (more: seq<Move>)
    ensures Run(Start(base), more) == Next(Run(Start(base), moves), m)
  {
    more := moves + [m];
    assert more[..|more| - 1] == moves;
  }

  lemma TwoArrivals(base: Index, e1: EventEnvelope, e2: EventEnvelope) returns (moves: seq<Move>)
    requires e1.eventId != e2.eventId && e1.idempotency != e2.idempotency
    ensures Run(Start(base), moves) == Start(base).(rows := [Row(e1, 1, 0, false, None), Row(e2, 2, 0, false, None)])
  {
    moves := Then(base, [], Arrive(e1, 1));
    assert Run(Start(base), moves) == Start(base).(rows := [Row(e1, 1, 0, false, None)]);
    moves := Then(base, moves, Arrive(e2, 2));
  }

  lemma WorkOne(f: Feed, todo: seq<nat>, fates: map<nat, Fate>)
    requires todo != [] && InRange(f.rows, todo) && !FateOf(fates, todo[0]).Crash?
    ensures Work(f, todo, fates) == Work(Handle(f, todo[0], FateOf(fates, todo[0])), todo[1..], fates)
  {
  }

  /** A tick over a single pending row. */
  lemma OneRowTick(f: Feed, i: nat, fates: map<nat, Fate>)
    requires i < |f.rows| && Pending(f.rows[i]) && !FateOf(fates, i).Crash?
    requires PendingFrom(f.rows, 0) == [i]
    ensures Next(f, Poll(2, fates)) == Handle(f, i, FateOf(fates, i))
  {
    assert ByStamp(f.rows, [i]) == [i];
    WorkOne(f, [i], fates);
    assert [i][1..] == [];
  }

  /** A tick over two pending rows in the order of their stamps. */
  lemma TwoRowTick(f: Feed, fates: map<nat, Fate>)
    requires |f.rows| == 2 && Pending(f.rows[0]) && Pending(f.rows[1]) && Before(f.rows, 0, 1)
    requires !FateOf(fates, 0).Crash? && !FateOf(fates, 1).Crash?
    ensures Next(f, Poll(2, fates)) == Handle(Handle(f, 0, FateOf(fates, 0)), 1, FateOf(fates, 1))
  {
    TwoPending(f.rows);
    WorkOne(f, [0, 1], fates);
    assert [0, 1][1..] == [1] && [1][1..] == [];
    WorkOne(Handle(f, 0, FateOf(fates, 0)), [1], fates);
  }

  lemma TwoPending(rows: seq<Row>)
    requires |rows| == 2 && Pending(rows[0]) && Pending(rows[1]) && Before(rows, 0, 1)
    ensures Unprocessed(rows, 2) == [0, 1]
  {
    assert PendingFrom(rows, 2) == [] && PendingFrom(rows, 1) == [1];
    assert PendingFrom(rows, 0) == [0, 1];
    assert [0, 1][1..] == [1] && [1][1..] == [];
    assert ByStamp(rows, [1]) == [1];
  }

  /**
   One failed mark is enough: the first event is applied but not marked, the second goes through in the same
   tick, and the next tick applies the first one again, over the newer state.
   */
  lemma FailedMarkReverses(base: Index, e1: EventEnvelope, e2: EventEnvelope) returns (moves: seq<Move>)
    requires Rid(e1) == Rid(e2) && e1.eventId != e2.eventId && e1.idempotency != e2.idempotency
    ensures OlderWins(base, Run(Start(base), moves), e1, e2)
  {
    moves := TwoArrivals(base, e1, e2);
    var f2 := Run(Start(base), moves);
    var f3 := Handle(Handle(f2, 0, MarkFails), 1, Done);
    moves := Then(base, moves, Poll(2, map[0 := MarkFails]));
    TwoRowTick(f2, map[0 := MarkFails]);
    assert Run(Start(base), moves) == f3;
    moves := Then(base, moves, Poll(2, map[]));
    assert PendingFrom(f3.rows, 2) == [] && PendingFrom(f3.rows, 1) == [];
    OneRowTick(f3, 0, map[]);
    AppliedLast(base, f3, 0, 1);
  }

  /** Both events are processed, the index has what the older one leaves, and the fold says the newer one. */
  ghost predicate OlderWins(base: Index, f: Feed, older: EventEnvelope, newer: EventEnvelope) {
    && DrainedFor(f, Rid(older)) && Log(f.rows) == [older, newer]
    && Lookup(f.index, Rid(older)) == Effect(older)
    && Lookup(Fold(base, Log(f.rows)), Rid(older)) == Effect(newer)
  }

  /** The older of two rows is applied and marked after the newer one. */
  lemma AppliedLast(base: Index, f: Feed, i: nat, j: nat)
    requires |f.rows| == 2 && {i, j} == {0, 1} && Before(f.rows, i, j) && !Pending(f.rows[j])
    requires Rid(f.rows[i].ev) == Rid(f.rows[j].ev)
    ensures OlderWins(base, Handle(f, i, Done), f.rows[i].ev, f.rows[j].ev)
  {
    var f' := Handle(f, i, Done);
    var rid := Rid(f.rows[i].ev);
    ApplyEffect(f.index, f.rows[i].ev, rid);
    LastStampIsFolded(f'.rows, base, rid, j);
    var p := PlaceOf(f'.rows, j);
    var q := PlaceOf(f'.rows, i);
    assert p == 1 && q == 0;
    assert Log(f'.rows) == [f.rows[i].ev, f.rows[j].ev];
  }

  lemma NewerApplied(base: Index, e2: EventEnvelope) returns (moves: seq<Move>)
    ensures var f := Run(Start(base), moves);
      && f.rows == [Row(e2, 2, 0, false, Some(0))] && f.dirty == {} && f.touched == map[Rid(e2) := 0]
  {
    moves := Then(base, [], Arrive(e2, 2));
    var f1 := Run(Start(base), moves);
    assert f1 == Start(base).(rows := [Row(e2, 2, 0, false, None)]);
    moves := Then(base, moves, Poll(2, map[]));
    assert PendingFrom(f1.rows, 1) == [];
    OneRowTick(f1, 0, map[]);
  }

  /**
   Crossed stamps do the same with no failure at all. The older event draws its stamp first but is created last, when
   the newer one has been applied: it is late, is applied over the newer state, and stays.
   */
  lemma CrossedStampsReverse(base: Index, e1: EventEnvelope, e2: EventEnvelope) returns (moves: seq<Move>)
    requires Rid(e1) == Rid(e2) && e1.eventId != e2.eventId && e1.idempotency != e2.idempotency
    ensures OlderWins(base, Run(Start(base), moves), e1, e2)
    ensures Run(Start(base), moves).dirty == {}
  {
    moves := NewerApplied(base, e2);
    moves := Then(base, moves, Arrive(e1, 1));
    var f := Run(Start(base), moves);
    assert f.rows == [Row(e2, 2, 0, false, Some(0)), Row(e1, 1, 0, false, None)];
    moves := Then(base, moves, Poll(2, map[]));
    LateRowTick(base, f);
  }

  lemma LateRowTick(base: Index, f: Feed)
    requires |f.rows| == 2 && !Pending(f.rows[0]) && Pending(f.rows[1]) && Before(f.rows, 1, 0)
    requires Rid(f.rows[0].ev) == Rid(f.rows[1].ev)
    ensures OlderWins(base, Next(f, Poll(2, map[])), f.rows[1].ev, f.rows[0].ev)
    ensures Next(f, Poll(2, map[])).dirty == f.dirty
  {
    assert PendingFrom(f.rows, 2) == [] && PendingFrom(f.rows, 1) == [1];
    OneRowTick(f, 1, map[]);
    AppliedLast(base, f, 1, 0);
  }
}
