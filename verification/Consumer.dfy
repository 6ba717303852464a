/**
 The event log and the consumer as the program runs them: rows updated in place, and a tick that loops over the
 polled events and counts. Each method is proved against the step of `Feed` it performs.
 */
module Consumer {
  import opened Wrappers
  import opened Envelope
  import F = Feed

  function ProcessedCount(rows: seq<F.Row>): nat {
    if rows == [] then 0 else ProcessedCount(rows[1..]) + if rows[0].processedAt.Some? then 1 else 0
  }

  lemma {:induction false} CountUpdate(rows: seq<F.Row>, i: nat, r: F.Row)
    requires i < |rows|
    ensures ProcessedCount(rows[i := r]) - ProcessedCount(rows) ==
            (if r.processedAt.Some? then 1 else 0) - (if rows[i].processedAt.Some? then 1 else 0)
  {
    if i == 0 {
      assert rows[0 := r][1..] == rows[1..];
    } else {
      assert rows[i := r][1..] == rows[1..][i - 1 := r];
      CountUpdate(rows[1..], i - 1, r);
    }
  }

  class EventStore {
    var rows: seq<F.Row>
    var index: F.Index
    var marks: nat
    ghost var dirty: set<string>
    ghost var late: set<string>
    ghost var touched: map<string, nat>

    ghost function View(): F.Feed
      reads this
    {
      F.Feed(rows, index, marks, dirty, late, touched)
    }

    constructor (base: F.Index)
      ensures View() == F.Start(base)
    {
      rows, index, marks, dirty, late, touched := [], base, 0, {}, {}, map[];
    }

    /** The two look-ups of an append. */
    method LookUp(e: EventEnvelope) returns (r: F.AppendResult)
      ensures r == F.LookUp(rows, e)
    {
      if i :| 0 <= i < |rows| && rows[i].ev.idempotency == e.idempotency {
        return F.DuplicateKey;
      }
      if i :| 0 <= i < |rows| && rows[i].ev.eventId == e.eventId {
        return F.DuplicateId;
      }
      return F.Accepted;
    }

    /** The CREATE of an append; either unique index can refuse it, which is an error to the caller. */
    method Create(e: EventEnvelope, receivedAt: nat) returns (created: bool)
      modifies this`rows, this`late
      ensures (View(), created) == F.Create(old(View()), e, receivedAt)
    {
      if i :| 0 <= i < |rows| && (rows[i].ev.idempotency == e.idempotency || rows[i].ev.eventId == e.eventId) {
        return false;
      }
      if F.IsLate(View(), e, receivedAt) {
        late := late + {F.Rid(e)};
      }
      rows := rows + [F.Row(e, receivedAt, 0, false, None)];
      return true;
    }

    /** An append that nobody disturbs; `Feed.RacedAppend` has the others. */
    method Append(e: EventEnvelope, now: nat) returns (r: Result<F.AppendResult, bool>)
      modifies this`rows, this`late
      ensures r.Ok? && (View(), r.value) == F.Append(old(View()), e, now)
    {
      var found := LookUp(e);
      if !found.Accepted? {
        return Ok(found);
      }
      var created := Create(e, now);
      return if created then Ok(F.Accepted) else Err(created);
    }

    /** Two statements; `recording` says which of them the database completed. */
    method RecordFailure(i: nat, recording: F.Recording)
      requires i < |rows|
      modifies this`rows
      ensures rows == old(rows)[i := F.RecordFailure(old(rows)[i], recording)]
    {
      if recording.Lost? {
        return;
      }
      rows := rows[i := rows[i].(retries := rows[i].retries + 1)];
      if recording.CountOnly? {
        return;
      }
      if rows[i].retries >= F.MAX_RETRIES && !rows[i].failed {
        rows := rows[i := rows[i].(failed := true)];
      }
    }

    method MarkProcessed(i: nat)
      requires i < |rows|
      modifies this`rows, this`marks
      ensures View() == F.MarkRow(old(View()), i)
    {
      rows := rows[i := rows[i].(processedAt := Some(marks))];
      marks := marks + 1;
    }

    method ApplyEvent(i: nat)
      requires i < |rows|
      modifies this`index, this`touched
      ensures View() == F.ApplyRow(old(View()), i)
    {
      var e := rows[i].ev;
      match e.kind {
        case Created => index := index[e.resource.id := e.resource];
        case Updated => index := index[e.resource.id := e.resource];
        case Deleted => index := index - {e.resource.id};
      }
      touched := touched[e.resource.id := i];
    }

    /** The body of the loop: apply, then mark or record. `died` is a crash of the process. */
    method HandleEvent(i: nat, fate: F.Fate) returns (died: bool, marked: bool)
      requires i < |rows| && F.Pending(rows[i])
      modifies this
      ensures View() == F.Handle(old(View()), i, fate)
      ensures died <==> fate.Crash?
      ensures marked <==> fate.Done?
      ensures ProcessedCount(rows) == ProcessedCount(old(rows)) + if marked then 1 else 0
    {
      died, marked := false, false;
      ghost var rid := F.Rid(rows[i].ev);
      match fate
      case Done =>
        ApplyEvent(i);
        CountUpdate(rows, i, rows[i].(processedAt := Some(marks)));
        MarkProcessed(i);
        marked := true;
      case MarkFails =>
        ApplyEvent(i);
        dirty := dirty + {rid};
      case ApplyFails(recording) =>
        CountUpdate(rows, i, F.RecordFailure(rows[i], recording));
        RecordFailure(i, recording);
        dirty := dirty + {rid};
      case Crash(applied) =>
        if applied {
          ApplyEvent(i);
        }
        died := true;
    }

    /** The loop of a tick over what was polled. */
    method HandleAll(pending: seq<nat>, fates: map<nat, F.Fate>)
      returns (died: bool, processed: nat, errors: nat)
      requires F.Passed(View(), pending)
      modifies this
      ensures View() == F.Work(old(View()), pending, fates)
      ensures ProcessedCount(rows) == ProcessedCount(old(rows)) + processed
      ensures !died ==> processed + errors == |pending|
    {
      died, processed, errors := false, 0, 0;
      var k := 0;
      ghost var todo := pending;
      while k < |pending|
        invariant 0 <= k <= |pending| && todo == pending[k..]
        invariant F.Passed(View(), todo)
        invariant F.Work(View(), todo, fates) == F.Work(old(View()), pending, fates)
        invariant processed + errors == k
        invariant ProcessedCount(rows) == ProcessedCount(old(rows)) + processed
      {
        WorkStep(View(), todo, fates);
        var marked;
        died, marked := HandleEvent(pending[k], F.FateOf(fates, pending[k]));
        if marked {
          processed := processed + 1;
        }
        if died {
          return;
        }
        if !marked {
          errors := errors + 1;
        }
        k := k + 1;
        todo := todo[1..];
      }
    }

    /**
     One tick. It takes exactly the step of the model, and its counters are honest: `processed` events became
     processed, and every other polled event is an error. A failed poll is one error and changes nothing.
     */
    method Tick(batch: nat, pollOk: bool, fates: map<nat, F.Fate>)
      returns (died: bool, processed: nat, errors: nat)
      modifies this
      ensures View() == F.Next(old(View()), if pollOk then F.Poll(batch, fates) else F.PollFails)
      ensures ProcessedCount(rows) == ProcessedCount(old(rows)) + processed
      ensures !pollOk ==> !died && processed == 0 && errors == 1
      ensures pollOk && !died ==> processed + errors == |F.Unprocessed(old(rows), batch)|
    {
      if !pollOk {
        return false, 0, 1;
      }
      var pending := F.Unprocessed(rows, batch);
      F.UnprocessedPassed(View(), batch);
      died, processed, errors := HandleAll(pending, fates);
    }
  }

  lemma WorkStep(f: F.Feed, todo: seq<nat>, fates: map<nat, F.Fate>)
    requires todo != [] && F.Passed(f, todo)
    ensures var fate := F.FateOf(fates, todo[0]);
      var f' := F.Handle(f, todo[0], fate);
      if fate.Crash? then F.Work(f, todo, fates) == f'
      else F.Passed(f', todo[1..]) && F.Work(f, todo, fates) == F.Work(f', todo[1..], fates)
  {
    if !F.FateOf(fates, todo[0]).Crash? {
      F.HandlePasses(f, todo, F.FateOf(fates, todo[0]));
    }
  }
}
