/**
 Puts and deletes of publications with their steps interleaved. A handler first checks the request, then reads
 whose the row is, and then writes: a put UPSERTs, a delete DELETEs, and neither statement asks again. Any number
 of requests run in between, and so do renames, joins and changes to the app roster.

 One at a time the requests are the operations of `Publishing`. Interleaved, a request can change another app's
 row, and `ForeignChangeExactly` says when.
 */
module PublishingRaces {
  import opened Wrappers
  import opened Roster
  import opened Publishing

  type Key = (string, string)

  datatype Request =
    | PutRow(put: PutRequest)
    | DeleteRow(appId: string, name: string, slug: string, actorSub: string)

  datatype Answer =
    | PutAnswered(a: PutAnswer, shown: Option<Publication>)
    | DeleteAnswered(d: DeleteAnswer)
    | Failed(error: DbError)

  /** `Owning` is before the look at whose the row is, `Look`, `Write` and `Remove` are behind it. */
  datatype Pc =
    | Start
    | Owning(key: Key, row: Option<Publication>)
    | Look(key: Key, newRow: Publication)
    | Write(key: Key, newRow: Publication, existed: bool)
    | Reread(key: Key, created: bool)
    | Remove(key: Key)
    | Answered(answer: Answer)

  /** A request in flight; `checkedAt` is the step number of its look at whose the row is. */
  datatype Process = Process(req: Request, pc: Pc, attempt: nat, checkedAt: nat)

  /** A write to the index: who wrote which key in which step, and whether a row or its removal. */
  datatype Event = Event(step: nat, key: Key, appId: string, put: bool)

  datatype World = World(site: Site, procs: map<nat, Process>, log: seq<Event>, steps: nat)

  /** What the database makes of a step: it works, the write loses to another transaction, or it fails outright. */
  datatype Choice = Proceed | Conflict | Break

  /** `Elsewhere` is any operation that does not write the index. */
  datatype Move = Spawn(p: nat, req: Request) | Go(p: nat, choice: Choice) | Elsewhere(op: SiteOp)

  function AppOf(req: Request): string {
    if req.PutRow? then req.put.appId else req.appId
  }

  // ---- One step of one request ----

  function Reply(pr: Process, a: Answer): Process {
    pr.(pc := Answered(a))
  }

  ghost function StartStep(site: Site, pr: Process): Process {
    match pr.req
    case PutRow(r) =>
      (match CheckRequest(site, r)
       case Err(a) => Reply(pr, PutAnswered(a, None))
       case Ok((key, row)) => pr.(pc := Owning(key, Some(row))))
    case DeleteRow(_, name, slug, actorSub) =>
      (match CheckDelete(site, name, slug, actorSub)
       case Err(a) => Reply(pr, DeleteAnswered(a))
       case Ok(key) => pr.(pc := Owning(key, None)))
  }

  function OwningStep(pubs: map<Key, Publication>, pr: Process, steps: nat): Process
    requires pr.pc.Owning?
  {
    var key := pr.pc.key;
    match pr.pc.row
    case Some(row) =>
      if OwnedByOther(pubs, key, AppOf(pr.req)) then Reply(pr, PutAnswered(OtherApp, None))
      else pr.(pc := Look(key, row), checkedAt := steps)
    case None =>
      if key !in pubs then Reply(pr, DeleteAnswered(NoSuchPublication))
      else if OwnedByOther(pubs, key, AppOf(pr.req)) then Reply(pr, DeleteAnswered(OwnedByOtherApp))
      else pr.(pc := Remove(key), checkedAt := steps)
  }

  /** A lost UPSERT starts over from the look before it, twice; a lost DELETE is an error. */
  function ConflictStep(pr: Process): Process
    requires pr.pc.Write? || pr.pc.Remove?
  {
    if pr.pc.Write? && pr.attempt < 2 then pr.(pc := Look(pr.pc.key, pr.pc.newRow), attempt := pr.attempt + 1)
    else Reply(pr, Failed(WriteConflict))
  }

  function RereadStep(pubs: map<Key, Publication>, pr: Process): Process
    requires pr.pc.Reread?
  {
    if pr.pc.key in pubs then
      Reply(pr, PutAnswered(if pr.pc.created then Created else Replaced, Some(pubs[pr.pc.key])))
    else Reply(pr, Failed(Vanished))
  }

  ghost function Act(site: Site, pr: Process, choice: Choice, steps: nat)
    : (map<Key, Publication>, Process, seq<Event>)
  {
    var pubs := site.pubs;
    if pr.pc.Answered? then (pubs, pr, [])
    else if choice == Break then (pubs, Reply(pr, Failed(Broken)), [])
    else match pr.pc
      case Start => (pubs, StartStep(site, pr), [])
      case Owning(_, _) => (pubs, OwningStep(pubs, pr, steps), [])
      case Look(key, row) => (pubs, pr.(pc := Write(key, row, key in pubs)), [])
      case Write(key, row, existed) =>
        if choice == Conflict then (pubs, ConflictStep(pr), [])
        else (pubs[key := row], pr.(pc := Reread(key, !existed)), [Event(steps, key, AppOf(pr.req), true)])
      case Reread(_, _) => (pubs, RereadStep(pubs, pr), [])
      case Remove(key) =>
        if choice == Conflict then (pubs, ConflictStep(pr), [])
        else (pubs - {key}, Reply(pr, DeleteAnswered(Deleted)), [Event(steps, key, AppOf(pr.req), false)])
  }

  ghost function Next(w: World, m: Move): World {
    match m
    case Spawn(p, req) => if p in w.procs then w else w.(procs := w.procs[p := Process(req, Start, 0, 0)])
    case Elsewhere(op) => if op.Put? || op.Delete? then w else w.(site := SiteStep(w.site, op))
    case Go(p, choice) =>
      if p !in w.procs then w
      else
        var (pubs, pr, events) := Act(w.site, w.procs[p], choice, w.steps);
        World(w.site.(pubs := pubs), w.procs[p := pr], w.log + events, w.steps + 1)
  }

  ghost function Run(w: World, moves: seq<Move>): World {
    if moves == [] then w else Next(Run(w, moves[..|moves| - 1]), moves[|moves| - 1])
  }

  predicate Initial(w: World) {
    w.procs == map[] && w.log == []
  }

  // ---- What the log tells ----

  function Last(log: seq<Event>, key: Key): Option<Event> {
    if log == [] then None
    else if log[|log| - 1].key == key then Some(log[|log| - 1])
    else Last(log[..|log| - 1], key)
  }

  lemma LastGrows(log: seq<Event>, e: Event, key: Key)
    ensures Last(log + [e], key) == if e.key == key then Some(e) else Last(log, key)
  {
    assert (log + [e])[..|log|] == log;
  }

  /** The request is past its look at whose the row is, and about to write this key. */
  predicate LetThrough(pr: Process, key: Key) {
    (pr.pc.Look? || pr.pc.Write? || pr.pc.Remove?) && pr.pc.key == key
  }

  predicate Pending(pr: Process, key: Key) {
    (pr.pc.Write? || pr.pc.Remove?) && pr.pc.key == key
  }

  /** The last write to the key is newer than the step. */
  predicate WrittenSince(log: seq<Event>, key: Key, step: nat) {
    Last(log, key).Some? && Last(log, key).value.step >= step
  }

  predicate LogTells(w: World, key: Key) {
    match Last(w.log, key)
    case None => true
    case Some(e) => e.step < w.steps && if e.put then key in w.site.pubs && w.site.pubs[key].appId == e.appId
                                        else key !in w.site.pubs
  }

  /** What a request carries is its own app's row, and what it saw still holds unless the key was written since. */
  predicate ProcHolds(w: World, pr: Process) {
    && (pr.pc.Owning? && pr.pc.row.Some? ==> pr.pc.row.value.appId == AppOf(pr.req))
    && (pr.pc.Look? || pr.pc.Write? ==> pr.pc.newRow.appId == AppOf(pr.req))
    && (pr.pc.Look? || pr.pc.Write? || pr.pc.Remove? ==>
          WrittenSince(w.log, pr.pc.key, pr.checkedAt) || !OwnedByOther(w.site.pubs, pr.pc.key, AppOf(pr.req)))
    && (pr.pc.Reread? ==> Last(w.log, pr.pc.key).Some?)
  }

  ghost predicate Inv(w: World) {
    && (forall key :: LogTells(w, key))
    && (forall p :: p in w.procs ==> ProcHolds(w, w.procs[p]) && w.procs[p].checkedAt <= w.steps)
  }

  /** A step writes at most the key its request is about, and logs it. */
  lemma ActWrites(site: Site, pr: Process, choice: Choice, steps: nat)
    ensures var (pubs, pr', events) := Act(site, pr, choice, steps);
      if choice == Proceed && (pr.pc.Write? || pr.pc.Remove?) then
        && events == [Event(steps, pr.pc.key, AppOf(pr.req), pr.pc.Write?)]
        && pubs == (if pr.pc.Write? then site.pubs[pr.pc.key := pr.pc.newRow] else site.pubs - {pr.pc.key})
      else events == [] && pubs == site.pubs
  {
  }

  lemma NextTells(w: World, m: Move, key: Key)
    requires Inv(w)
    ensures LogTells(Next(w, m), key)
  {
    assert LogTells(w, key);
    if m.Go? && m.p in w.procs {
      var pr := w.procs[m.p];
      ActWrites(w.site, pr, m.choice, w.steps);
      assert ProcHolds(w, pr);
      if m.choice == Proceed && (pr.pc.Write? || pr.pc.Remove?) {
        LastGrows(w.log, Event(w.steps, pr.pc.key, AppOf(pr.req), pr.pc.Write?), key);
      } else {
        assert w.log + [] == w.log;
      }
    }
  }

  /** The steps of a request on itself that write nothing. */
  lemma QuietStepHolds(w: World, p: nat, choice: Choice)
    requires Inv(w) && p in w.procs && !(choice == Proceed && (w.procs[p].pc.Write? || w.procs[p].pc.Remove?))
    ensures ProcHolds(Next(w, Go(p, choice)), Next(w, Go(p, choice)).procs[p])
    ensures Next(w, Go(p, choice)).procs[p].checkedAt <= w.steps
  {
    var pr := w.procs[p];
    ActWrites(w.site, pr, choice, w.steps);
    assert w.log + [] == w.log;
    assert ProcHolds(w, pr);
    if pr.pc.Start? && choice != Break {
      StartHolds(w.site, pr);
    }
  }

  lemma StartHolds(site: Site, pr: Process)
    requires pr.pc.Start?
    ensures var pr' := StartStep(site, pr);
      && pr'.req == pr.req && pr'.checkedAt == pr.checkedAt && (pr'.pc.Owning? || pr'.pc.Answered?)
      && (pr'.pc.Owning? && pr'.pc.row.Some? ==> pr'.pc.row.value.appId == AppOf(pr.req))
  {
  }

  lemma OwnStepHolds(w: World, p: nat, choice: Choice)
    requires Inv(w) && p in w.procs
    ensures ProcHolds(Next(w, Go(p, choice)), Next(w, Go(p, choice)).procs[p])
    ensures Next(w, Go(p, choice)).procs[p].checkedAt <= w.steps
  {
    var pr := w.procs[p];
    if choice == Proceed && (pr.pc.Write? || pr.pc.Remove?) {
      LastGrows(w.log, Event(w.steps, pr.pc.key, AppOf(pr.req), pr.pc.Write?), pr.pc.key);
    } else {
      QuietStepHolds(w, p, choice);
    }
  }

  lemma OthersHold(w: World, m: Move, p: nat)
    requires Inv(w) && p in w.procs && !(m.Go? && m.p == p)
    ensures p in Next(w, m).procs && ProcHolds(Next(w, m), w.procs[p])
  {
    var pr := w.procs[p];
    assert ProcHolds(w, pr);
    if m.Go? && m.p in w.procs {
      var other := w.procs[m.p];
      ActWrites(w.site, other, m.choice, w.steps);
      if m.choice == Proceed && (other.pc.Write? || other.pc.Remove?) {
        if !pr.pc.Start? && !pr.pc.Answered? {
          LastGrows(w.log, Event(w.steps, other.pc.key, AppOf(other.req), other.pc.Write?), pr.pc.key);
        }
      } else {
        assert w.log + [] == w.log;
      }
    }
  }

  lemma NextKeepsInv(w: World, m: Move)
    requires Inv(w)
    ensures Inv(Next(w, m))
  {
    forall key ensures LogTells(Next(w, m), key) {
      NextTells(w, m, key);
    }
    forall p | p in Next(w, m).procs
      ensures ProcHolds(Next(w, m), Next(w, m).procs[p]) && Next(w, m).procs[p].checkedAt <= Next(w, m).steps
    {
      if p in w.procs {
        if m.Go? && m.p == p {
          OwnStepHolds(w, p, m.choice);
        } else {
          OthersHold(w, m, p);
        }
      }
    }
  }

  lemma {:induction false} RunKeepsInv(w: World, moves: seq<Move>)
    requires Initial(w)
    ensures Inv(Run(w, moves))
  {
    if moves != [] {
      RunKeepsInv(w, moves[..|moves| - 1]);
      NextKeepsInv(Run(w, moves[..|moves| - 1]), moves[|moves| - 1]);
    }
  }

  /** The stamp of a request is the step of its look at whose the row is, and nothing moves it afterwards. */
  lemma LookIsStamped(w: World, p: nat, choice: Choice, key: Key)
    requires p in w.procs && LetThrough(Next(w, Go(p, choice)).procs[p], key)
    ensures var pr, pr' := w.procs[p], Next(w, Go(p, choice)).procs[p];
      if pr.pc.Owning?
      then pr'.checkedAt == w.steps && pr.pc.key == key && !OwnedByOther(w.site.pubs, key, AppOf(pr.req))
      else LetThrough(pr, key) && pr'.checkedAt == pr.checkedAt
  {
  }

  /** Whatever else happens on the site happens to the site alone, and a request in flight is not replaced. */
  lemma ElsewhereIsElsewhere(w: World, op: SiteOp, p: nat, req: Request)
    ensures !op.Put? && !op.Delete? ==>
              Next(w, Elsewhere(op)) == w.(site := SiteStep(w.site, op)) && SiteStep(w.site, op).pubs == w.site.pubs
    ensures p in w.procs ==> Next(w, Spawn(p, req)) == w
    ensures p !in w.procs ==> Next(w, Spawn(p, req)).procs == w.procs[p := Process(req, Start, 0, 0)]
  {
  }

  // ---- How each request can end ----

  /** The database failed outright under some step of the request. */
  ghost predicate HitBreak(w: World, moves: seq<Move>, p: nat) {
    moves != [] &&
    var t, m := Run(w, moves[..|moves| - 1]), moves[|moves| - 1];
    || HitBreak(w, moves[..|moves| - 1], p)
    || (m == Go(p, Break) && p in t.procs && !t.procs[p].pc.Answered?)
  }

  /** How many of the request's writes lost to another transaction. */
  ghost function Conflicts(w: World, moves: seq<Move>, p: nat): nat {
    if moves == [] then 0
    else
      var t, m := Run(w, moves[..|moves| - 1]), moves[|moves| - 1];
      Conflicts(w, moves[..|moves| - 1], p) +
        if m == Go(p, Conflict) && p in t.procs && (t.procs[p].pc.Write? || t.procs[p].pc.Remove?) then 1 else 0
  }

  /** A put has three attempts at its write, a delete has one. */
  function Tries(req: Request): nat {
    if req.PutRow? then 3 else 1
  }

  ghost predicate Attempts(pr: Process, n: nat) {
    && n <= Tries(pr.req)
    && (n < Tries(pr.req) ==> pr.attempt == n && pr.pc != Answered(Failed(WriteConflict)))
    && (n == Tries(pr.req) ==> pr.pc == Answered(Failed(WriteConflict)))
    && (pr.pc.Look? || pr.pc.Write? ==> pr.req.PutRow?)
    && (pr.pc.Remove? ==> pr.req.DeleteRow?)
    && (pr.pc.Owning? ==> (pr.pc.row.Some? <==> pr.req.PutRow?))
  }

  ghost predicate ErrorsKnown(pr: Process) {
    pr.pc.Answered? && pr.pc.answer.Failed? ==>
      pr.pc.answer.error in {Broken, WriteConflict} || (pr.pc.answer.error == Vanished && pr.req.PutRow?)
  }

  lemma ActEnds(site: Site, pr: Process, choice: Choice, steps: nat, n: nat)
    requires Attempts(pr, n) && ErrorsKnown(pr) && !pr.pc.Answered? && (pr.pc.Reread? ==> pr.req.PutRow?)
    ensures var pr' := Act(site, pr, choice, steps).1;
      && Attempts(pr', if choice == Conflict && (pr.pc.Write? || pr.pc.Remove?) then n + 1 else n) && ErrorsKnown(pr')
      && (pr'.pc.Reread? ==> pr'.req.PutRow?)
      && (pr'.pc == Answered(Failed(Broken)) <==> choice == Break)
  {
    if pr.pc.Start? && choice != Break {
      StartHolds(site, pr);
      StartKinds(site, pr);
    }
  }

  lemma StartKinds(site: Site, pr: Process)
    requires pr.pc.Start?
    ensures var pr' := StartStep(site, pr);
      && pr'.attempt == pr.attempt && (pr'.pc.Owning? ==> (pr'.pc.row.Some? <==> pr.req.PutRow?))
      && (pr'.pc.Answered? ==> !pr'.pc.answer.Failed?)
  {
  }

  /**
   Every way a request can fail, over every interleaving and exactly: `Broken` when the database failed under a step, a
   conflict when all three writes of a put, or the one of a delete, lost, and nothing else but a put whose row has
   vanished by its re-read.
   */
  lemma {:induction false} EndsExactly(w: World, moves: seq<Move>, p: nat)
    requires Initial(w)
    ensures p in Run(w, moves).procs ==>
      var pr := Run(w, moves).procs[p];
      && ErrorsKnown(pr) && Attempts(pr, Conflicts(w, moves, p)) && (pr.pc.Reread? ==> pr.req.PutRow?)
      && (pr.pc == Answered(Failed(Broken)) <==> HitBreak(w, moves, p))
    ensures p !in Run(w, moves).procs ==> !HitBreak(w, moves, p) && Conflicts(w, moves, p) == 0
  {
    if moves != [] {
      var t, m := Run(w, moves[..|moves| - 1]), moves[|moves| - 1];
      EndsExactly(w, moves[..|moves| - 1], p);
      if m.Go? && m.p == p && p in t.procs && !t.procs[p].pc.Answered? {
        ActEnds(t.site, t.procs[p], m.choice, t.steps, Conflicts(w, moves[..|moves| - 1], p));
      }
    }
  }

  /** A put whose write lost, but not for the third time, looks for the row again before it writes again. */
  lemma LostPutLooksAgain(w: World, p: nat)
    requires p in w.procs && w.procs[p].pc.Write? && w.procs[p].attempt < 2
    ensures var t := Next(w, Go(p, Conflict)); var pc := w.procs[p].pc;
      && t.site == w.site && t.procs[p].pc == Look(pc.key, pc.newRow)
      && Next(t, Go(p, Proceed)).procs[p].pc == Write(pc.key, pc.newRow, pc.key in w.site.pubs)
  {
  }

  // ---- When a request changes another app's row ----

  /** This step of `p` replaces or removes a row that belongs to another app. */
  ghost predicate ChangesOthers(w: World, p: nat, choice: Choice, key: Key)
    requires p in w.procs
  {
    var pubs := Next(w, Go(p, choice)).site.pubs;
    OwnedByOther(w.site.pubs, key, AppOf(w.procs[p].req)) && (key !in pubs || pubs[key] != w.site.pubs[key])
  }

  /**
   Over every interleaved run, a step changes another app's publication exactly when it is a write or delete that
   goes through, and the last write to that key is another app's put, made after this request had looked whose
   the row is. Every earlier put of another app was seen by that look.
   */
  lemma ForeignChangeExactly(w: World, moves: seq<Move>, p: nat, choice: Choice, key: Key)
    requires Initial(w) && p in Run(w, moves).procs
    ensures var t := Run(w, moves); var pr := t.procs[p];
      ChangesOthers(t, p, choice, key) <==>
        && choice == Proceed && Pending(pr, key)
        && Last(t.log, key).Some?
        && var e := Last(t.log, key).value; e.put && e.appId != AppOf(pr.req) && e.step >= pr.checkedAt
  {
    RunKeepsInv(w, moves);
    var t := Run(w, moves);
    ActWrites(t.site, t.procs[p], choice, t.steps);
    assert LogTells(t, key) && ProcHolds(t, t.procs[p]);
  }

  /** A request of another app is past its look and has not written yet. */
  ghost predicate InFlight(w: World, key: Key, appId: string) {
    exists p :: p in w.procs && LetThrough(w.procs[p], key) && AppOf(w.procs[p].req) != appId
  }

  /** No request of this app writes the key during the moves. */
  ghost predicate NoOwnWrite(w: World, moves: seq<Move>, key: Key, appId: string) {
    moves == [] ||
    var t, m := Run(w, moves[..|moves| - 1]), moves[|moves| - 1];
    && NoOwnWrite(w, moves[..|moves| - 1], key, appId)
    && !(m.Go? && m.p in t.procs && m.choice == Proceed && Pending(t.procs[m.p], key)
         && AppOf(t.procs[m.p].req) == appId)
  }

  ghost predicate SameRow(w: World, w': World, key: Key) {
    key in w.site.pubs && key in w'.site.pubs && w'.site.pubs[key] == w.site.pubs[key]
  }

  lemma StepPersists(w: World, m: Move, key: Key)
    requires key in w.site.pubs && !InFlight(w, key, w.site.pubs[key].appId)
    requires !(m.Go? && m.p in w.procs && m.choice == Proceed && Pending(w.procs[m.p], key)
               && AppOf(w.procs[m.p].req) == w.site.pubs[key].appId)
    ensures SameRow(w, Next(w, m), key) && !InFlight(Next(w, m), key, w.site.pubs[key].appId)
  {
    var w' := Next(w, m);
    var appId := w.site.pubs[key].appId;
    if m.Go? && m.p in w.procs {
      ActWrites(w.site, w.procs[m.p], m.choice, w.steps);
      assert !(LetThrough(w.procs[m.p], key) && AppOf(w.procs[m.p].req) != appId);
    }
    forall p | p in w'.procs ensures !(LetThrough(w'.procs[p], key) && AppOf(w'.procs[p].req) != appId) {
      if p in w.procs {
        assert !(LetThrough(w.procs[p], key) && AppOf(w.procs[p].req) != appId);
      }
    }
  }

  lemma {:induction false} Persists(w: World, moves: seq<Move>, key: Key)
    requires key in w.site.pubs && !InFlight(w, key, w.site.pubs[key].appId)
    requires NoOwnWrite(w, moves, key, w.site.pubs[key].appId)
    ensures SameRow(w, Run(w, moves), key) && !InFlight(Run(w, moves), key, w.site.pubs[key].appId)
  {
    if moves != [] {
      Persists(w, moves[..|moves| - 1], key);
      StepPersists(Run(w, moves[..|moves| - 1]), moves[|moves| - 1], key);
    }
  }

  ghost predicate AlwaysPersists(w: World, key: Key) {
    forall moves :: key in w.site.pubs && NoOwnWrite(w, moves, key, w.site.pubs[key].appId) ==>
      SameRow(w, Run(w, moves), key)
  }

  /** A request of another app that is past its look needs nobody's leave to change the row. */
  lemma InFlightChanges(w: World, p: nat, key: Key) returns (moves: seq<Move>)
    requires p in w.procs && LetThrough(w.procs[p], key) && ProcHolds(w, w.procs[p])
    requires OwnedByOther(w.site.pubs, key, AppOf(w.procs[p].req))
    ensures NoOwnWrite(w, moves, key, w.site.pubs[key].appId) && !SameRow(w, Run(w, moves), key)
  {
    moves := [Go(p, Proceed)];
    assert moves[..0] == [];
    assert Run(w, moves) == Next(w, Go(p, Proceed));
    assert NoOwnWrite(w, [], key, w.site.pubs[key].appId);
    if w.procs[p].pc.Look? {
      var w1 := Next(w, Go(p, Proceed));
      assert w1.procs[p].pc.Write? && w1.site.pubs == w.site.pubs;
      assert NoOwnWrite(w, moves, key, w.site.pubs[key].appId);
      var more := moves + [Go(p, Proceed)];
      assert more[..1] == moves;
      assert Run(w, more) == Next(w1, Go(p, Proceed));
      moves := more;
    }
  }

  /**
   A publication is safe from every other app, over all further runs in which its own app does not write it,
   exactly when no request of another app is already past its look at whose the row is.
   */
  lemma PersistsExactly(w: World, before: seq<Move>, key: Key)
    requires Initial(w) && key in Run(w, before).site.pubs
    ensures var t := Run(w, before);
      AlwaysPersists(t, key) <==> !InFlight(t, key, t.site.pubs[key].appId)
  {
    RunKeepsInv(w, before);
    var t := Run(w, before);
    if p :| p in t.procs && LetThrough(t.procs[p], key) && AppOf(t.procs[p].req) != t.site.pubs[key].appId {
      var moves := InFlightChanges(t, p, key);
      assert !AlwaysPersists(t, key);
    } else {
      forall moves | NoOwnWrite(t, moves, key, t.site.pubs[key].appId) ensures SameRow(t, Run(t, moves), key) {
        Persists(t, moves, key);
      }
    }
  }

  /** A request gets past its first check only for someone who may publish under the name at that moment. */
  lemma LetInMayPublish(w: World, p: nat)
    requires Coherent(w.site.roster) && p in w.procs && w.procs[p].pc.Start?
    requires Next(w, Go(p, Proceed)).procs[p].pc.Owning?
    ensures var s, req := w.site.roster, w.procs[p].req;
      var actorSub := if req.PutRow? then req.put.actorSub else req.actorSub;
      && Enrolled(s, actorSub)
      && MayPublish(s, w.site.memberships, Account(s, actorSub), Next(w, Go(p, Proceed)).procs[p].pc.key.0)
  {
    var req := w.procs[p].req;
    if req.PutRow? {
      PutMayPublish(w.site, req.put);
    } else {
      DeleteMayPublish(w.site, req.name, req.slug, req.actorSub);
    }
  }

  lemma PutMayPublish(site: Site, r: PutRequest)
    requires Coherent(site.roster) && CheckRequest(site, r).Ok?
    ensures Enrolled(site.roster, r.actorSub)
    ensures MayPublish(site.roster, site.memberships, Account(site.roster, r.actorSub), CheckRequest(site, r).value.0.0)
  {
    AcceptedMayPublish(site.roster, site.memberships, r.name, r.actorSub);
  }

  lemma DeleteMayPublish(site: Site, name: string, slug: string, actorSub: string)
    requires Coherent(site.roster) && CheckDelete(site, name, slug, actorSub).Ok?
    ensures Enrolled(site.roster, actorSub)
    ensures MayPublish(site.roster, site.memberships, Account(site.roster, actorSub),
                       CheckDelete(site, name, slug, actorSub).value.0)
  {
    AcceptedMayPublish(site.roster, site.memberships, name, actorSub);
  }

  /**
   What a put is shown after its write: the row of the key's last writer, which need not be its own, or the
   "vanished" error, exactly when the key's last write is a removal.
   */
  lemma RereadExactly(w: World, moves: seq<Move>, p: nat)
    requires Initial(w) && p in Run(w, moves).procs && Run(w, moves).procs[p].pc.Reread?
    ensures var t := Run(w, moves); var pc := t.procs[p].pc;
      var a := Next(t, Go(p, Proceed)).procs[p].pc;
      && Last(t.log, pc.key).Some? && a.Answered?
      && (a.answer == Failed(Vanished) <==> !Last(t.log, pc.key).value.put)
      && (a.answer.PutAnswered? <==> Last(t.log, pc.key).value.put)
      && (a.answer.PutAnswered? ==>
            a.answer.shown.Some? && a.answer.shown.value.appId == Last(t.log, pc.key).value.appId)
  {
    RunKeepsInv(w, moves);
    var t := Run(w, moves);
    assert ProcHolds(t, t.procs[p]) && LogTells(t, t.procs[p].pc.key);
  }

  // ---- One at a time ----

  /** The steps behind the first one, with nobody in between. */
  ghost function Rest(w: World, p: nat): World {
    Next(Next(Next(Next(w, Go(p, Proceed)), Go(p, Proceed)), Go(p, Proceed)), Go(p, Proceed))
  }

  /** A request that runs from its first step to its answer with nobody in between. */
  ghost function Solo(w: World, p: nat): World {
    Rest(Next(w, Go(p, Proceed)), p)
  }

  lemma AnsweredStays(w: World, p: nat)
    requires p in w.procs && w.procs[p].pc.Answered?
    ensures Rest(w, p).site == w.site && Rest(w, p).procs[p] == w.procs[p]
  {
    var w1 := Next(w, Go(p, Proceed));
    assert w1.site == w.site && w1.procs[p] == w.procs[p];
    var w2 := Next(w1, Go(p, Proceed));
    assert w2.site == w.site && w2.procs[p] == w.procs[p];
  }

  lemma RestOfPut(w: World, p: nat, key: Key, row: Publication)
    requires p in w.procs && w.procs[p].pc == Owning(key, Some(row)) && w.procs[p].req.PutRow?
    ensures var t := Rest(w, p);
      if OwnedByOther(w.site.pubs, key, AppOf(w.procs[p].req)) then
        t.site == w.site && t.procs[p].pc == Answered(PutAnswered(OtherApp, None))
      else
        && t.site == w.site.(pubs := w.site.pubs[key := row])
        && t.procs[p].pc == Answered(PutAnswered(if key in w.site.pubs then Replaced else Created, Some(row)))
  {
    var w1 := Next(w, Go(p, Proceed));
    if !OwnedByOther(w.site.pubs, key, AppOf(w.procs[p].req)) {
      assert w1.site == w.site && w1.procs[p].pc == Look(key, row);
      var w2 := Next(w1, Go(p, Proceed));
      assert w2.site == w.site && w2.procs[p].pc == Write(key, row, key in w.site.pubs);
      var w3 := Next(w2, Go(p, Proceed));
      assert w3.procs[p].pc == Reread(key, key !in w.site.pubs);
    } else {
      assert w1.site == w.site && w1.procs[p].pc == Answered(PutAnswered(OtherApp, None));
    }
  }

  lemma RestOfDelete(w: World, p: nat, key: Key)
    requires p in w.procs && w.procs[p].pc == Owning(key, None)
    ensures var t := Rest(w, p);
      if key !in w.site.pubs then
        t.site == w.site && t.procs[p].pc == Answered(DeleteAnswered(NoSuchPublication))
      else if OwnedByOther(w.site.pubs, key, AppOf(w.procs[p].req)) then
        t.site == w.site && t.procs[p].pc == Answered(DeleteAnswered(OwnedByOtherApp))
      else
        && t.site == w.site.(pubs := w.site.pubs - {key})
        && t.procs[p].pc == Answered(DeleteAnswered(Deleted))
  {
    var w1 := Next(w, Go(p, Proceed));
    assert w1.site == w.site;
    var w2 := Next(w1, Go(p, Proceed));
    assert w2.procs[p].pc.Answered?;
  }

  /** Left alone, each request is exactly the operation of `Publishing`, and a put is shown its own row. */
  lemma SoloIsAtomic(w: World, p: nat)
    requires p in w.procs && w.procs[p].pc.Start?
    ensures var t := Solo(w, p);
      match w.procs[p].req
      case PutRow(r) =>
        var (site, a) := PutPublication(w.site, r);
        && t.site == site
        && t.procs[p].pc ==
             Answered(PutAnswered(a, if CheckPut(w.site, r).Ok? then Some(CheckPut(w.site, r).value.1) else None))
      case DeleteRow(appId, name, slug, actorSub) =>
        var (site, d) := DeletePublication(w.site, appId, name, slug, actorSub);
        t.site == site && t.procs[p].pc == Answered(DeleteAnswered(d))
  {
    match w.procs[p].req
    case PutRow(r) => SoloPut(w, p, r);
    case DeleteRow(appId, name, slug, actorSub) => SoloDelete(w, p, appId, name, slug, actorSub);
  }

  lemma SoloPut(w: World, p: nat, r: PutRequest)
    requires p in w.procs && w.procs[p].pc.Start? && w.procs[p].req == PutRow(r)
    ensures var t := Solo(w, p); var (site, a) := PutPublication(w.site, r);
      && t.site == site
      && t.procs[p].pc ==
           Answered(PutAnswered(a, if CheckPut(w.site, r).Ok? then Some(CheckPut(w.site, r).value.1) else None))
  {
    var w1 := Next(w, Go(p, Proceed));
    assert w1.site == w.site;
    match CheckRequest(w.site, r)
    case Err(_) => AnsweredStays(w1, p);
    case Ok((key, row)) => RestOfPut(w1, p, key, row);
  }

  lemma SoloDelete(w: World, p: nat, appId: string, name: string, slug: string, actorSub: string)
    requires p in w.procs && w.procs[p].pc.Start? && w.procs[p].req == DeleteRow(appId, name, slug, actorSub)
    ensures var t := Solo(w, p); var (site, d) := DeletePublication(w.site, appId, name, slug, actorSub);
      t.site == site && t.procs[p].pc == Answered(DeleteAnswered(d))
  {
    var w1 := Next(w, Go(p, Proceed));
    assert w1.site == w.site;
    match CheckDelete(w.site, name, slug, actorSub)
    case Err(_) => AnsweredStays(w1, p);
    case Ok(key) => RestOfDelete(w1, p, key);
  }

  // ---- The runs that show it ----

  lemma Then(w: World, moves: seq<Move>, m: Move) returns (more: seq<Move>)
    ensures Run(w, more) == Next(Run(w, moves), m)
  {
    more := moves + [m];
    assert more[..|more| - 1] == moves;
  }

  /** The checks of a request read the roster, the memberships and the apps, never the index. */
  lemma ChecksIgnoreIndex(site: Site, pubs: map<Key, Publication>, r: PutRequest,
                          name: string, slug: string, actorSub: string)
    ensures CheckRequest(site.(pubs := pubs), r) == CheckRequest(site, r)
    ensures CheckDelete(site.(pubs := pubs), name, slug, actorSub) == CheckDelete(site, name, slug, actorSub)
  {
  }

  /** Only the index and the process of `p` differ, and the process is now at `pc`. */
  predicate Stepped(t: World, t': World, p: nat, pubs: map<Key, Publication>, pc: Pc) {
    && t'.site == t.site.(pubs := pubs)
    && p in t'.procs && t'.procs[p].pc == pc && t'.procs.Keys == t.procs.Keys + {p}
    && forall q :: q in t.procs && q != p ==> t'.procs[q] == t.procs[q]
  }

  /** A new put passes both checks and has looked for the row. */
  lemma ThenPutReady(w: World, moves: seq<Move>, p: nat, r: PutRequest, key: Key, row: Publication)
    returns (more: seq<Move>)
    requires p !in Run(w, moves).procs && CheckRequest(Run(w, moves).site, r) == Ok((key, row))
    requires !OwnedByOther(Run(w, moves).site.pubs, key, r.appId)
    ensures var t := Run(w, moves);
      Stepped(t, Run(w, more), p, t.site.pubs, Write(key, row, key in t.site.pubs))
    ensures Run(w, more).procs[p].req == PutRow(r)
  {
    more := Then(w, moves, Spawn(p, PutRow(r)));
    more := Then(w, more, Go(p, Proceed));
    assert Run(w, more).procs[p].pc == Owning(key, Some(row)) && Run(w, more).site == Run(w, moves).site;
    more := Then(w, more, Go(p, Proceed));
    more := Then(w, more, Go(p, Proceed));
  }

  /** A put that waits at its write writes, is shown its own row and answers. */
  lemma ThenAnswered(w: World, moves: seq<Move>, p: nat) returns (more: seq<Move>)
    requires p in Run(w, moves).procs && Run(w, moves).procs[p].pc.Write?
    ensures var t := Run(w, moves); var pc := t.procs[p].pc;
      Stepped(t, Run(w, more), p, t.site.pubs[pc.key := pc.newRow],
              Answered(PutAnswered(if pc.existed then Replaced else Created, Some(pc.newRow))))
  {
    more := Then(w, moves, Go(p, Proceed));
    more := Then(w, more, Go(p, Proceed));
  }

  /** A new delete of the app's own row passes both checks. */
  lemma ThenDeleteReady(w: World, moves: seq<Move>, p: nat, d: Request, key: Key) returns (more: seq<Move>)
    requires p !in Run(w, moves).procs && d.DeleteRow?
    requires CheckDelete(Run(w, moves).site, d.name, d.slug, d.actorSub) == Ok(key)
    requires key in Run(w, moves).site.pubs && Run(w, moves).site.pubs[key].appId == d.appId
    ensures Stepped(Run(w, moves), Run(w, more), p, Run(w, moves).site.pubs, Remove(key))
  {
    more := Then(w, moves, Spawn(p, d));
    more := Then(w, more, Go(p, Proceed));
    assert Run(w, more).procs[p].pc == Owning(key, None) && Run(w, more).site == Run(w, moves).site;
    more := Then(w, more, Go(p, Proceed));
  }

  lemma ThenRemoved(w: World, moves: seq<Move>, p: nat) returns (more: seq<Move>)
    requires p in Run(w, moves).procs && Run(w, moves).procs[p].pc.Remove?
    ensures var t := Run(w, moves);
      && Run(w, more) == Next(t, Go(p, Proceed))
      && Stepped(t, Run(w, more), p, t.site.pubs - {t.procs[p].pc.key}, Answered(DeleteAnswered(Deleted)))
  {
    more := Then(w, moves, Go(p, Proceed));
  }

  /** Both requests may put this slug, which is free, and they come from different apps. */
  ghost predicate SameFreeSlug(w: World, a: PutRequest, b: PutRequest) {
    && Initial(w) && CheckRequest(w.site, a).Ok? && CheckRequest(w.site, b).Ok? && a.appId != b.appId
    && CheckRequest(w.site, a).value.0 == CheckRequest(w.site, b).value.0
    && CheckRequest(w.site, a).value.0 !in w.site.pubs
  }

  lemma BothReady(w: World, a: PutRequest, b: PutRequest, key: Key, rowA: Publication, rowB: Publication)
    returns (moves: seq<Move>)
    requires Initial(w) && CheckRequest(w.site, a) == Ok((key, rowA)) && CheckRequest(w.site, b) == Ok((key, rowB))
    requires key !in w.site.pubs
    ensures var t := Run(w, moves);
      && t.site == w.site && t.procs.Keys == {1, 2}
      && t.procs[1].pc == Write(key, rowA, false) && t.procs[2].pc == Write(key, rowB, false)
  {
    moves := ThenPutReady(w, [], 1, a, key, rowA);
    assert Run(w, moves).site == w.site;
    moves := ThenPutReady(w, moves, 2, b, key, rowB);
  }

  lemma BothAnswered(w: World, moves: seq<Move>, key: Key, rowA: Publication, rowB: Publication)
    returns (more: seq<Move>)
    requires Run(w, moves).procs.Keys == {1, 2}
    requires Run(w, moves).procs[1].pc == Write(key, rowA, false)
    requires Run(w, moves).procs[2].pc == Write(key, rowB, false)
    ensures var t := Run(w, more);
      && key in t.site.pubs && t.site.pubs[key] == rowB && t.procs.Keys == {1, 2}
      && t.procs[1].pc == Answered(PutAnswered(Created, Some(rowA)))
      && t.procs[2].pc == Answered(PutAnswered(Created, Some(rowB)))
  {
    more := ThenAnswered(w, moves, 1);
    more := ThenAnswered(w, more, 2);
  }

  /**
   Two apps put the same free slug. Both look before either writes, both are told that they created it and are
   shown their own row, and the row is the second one's.
   */
  lemma PutTakesOver(w: World, a: PutRequest, b: PutRequest) returns (moves: seq<Move>)
    requires SameFreeSlug(w, a, b)
    ensures var t := Run(w, moves); var (key, rowB) := CheckRequest(w.site, b).value;
      && key in t.site.pubs && t.site.pubs[key] == rowB
      && 1 in t.procs && 2 in t.procs
      && t.procs[1].pc == Answered(PutAnswered(Created, Some(CheckRequest(w.site, a).value.1)))
      && t.procs[2].pc == Answered(PutAnswered(Created, Some(rowB)))
  {
    var (key, rowA) := CheckRequest(w.site, a).value;
    var rowB := CheckRequest(w.site, b).value.1;
    moves := BothReady(w, a, b, key, rowA, rowB);
    moves := BothAnswered(w, moves, key, rowA, rowB);
  }

  /** An app's own row, another app's put for its slug, and the owner's delete. */
  ghost predicate OwnRowAndRival(w: World, d: Request, b: PutRequest) {
    && Initial(w) && d.DeleteRow? && CheckRequest(w.site, b).Ok? && d.appId != b.appId
    && CheckDelete(w.site, d.name, d.slug, d.actorSub) == Ok(CheckRequest(w.site, b).value.0)
    && CheckRequest(w.site, b).value.0 in w.site.pubs
    && w.site.pubs[CheckRequest(w.site, b).value.0].appId == d.appId
  }

  /** One delete is past its checks, and a second one has removed the row. */
  lemma OneDeleteAhead(w: World, d: Request, key: Key) returns (moves: seq<Move>)
    requires Initial(w) && d.DeleteRow? && CheckDelete(w.site, d.name, d.slug, d.actorSub) == Ok(key)
    requires key in w.site.pubs && w.site.pubs[key].appId == d.appId
    ensures var t := Run(w, moves);
      && t.site == w.site.(pubs := w.site.pubs - {key}) && t.procs.Keys == {1, 2} && t.procs[1].pc == Remove(key)
  {
    moves := ThenDeleteReady(w, [], 1, d, key);
    assert Run(w, moves).site == w.site;
    moves := ThenDeleteReady(w, moves, 2, d, key);
    moves := ThenRemoved(w, moves, 2);
  }

  lemma RivalMovesIn(w: World, d: Request, b: PutRequest, key: Key, rowB: Publication) returns (moves: seq<Move>)
    requires Initial(w) && d.DeleteRow? && CheckDelete(w.site, d.name, d.slug, d.actorSub) == Ok(key)
    requires key in w.site.pubs && w.site.pubs[key].appId == d.appId
    requires CheckRequest(w.site, b) == Ok((key, rowB))
    ensures var t := Run(w, moves);
      && key in t.site.pubs && t.site.pubs[key] == rowB && t.procs.Keys == {1, 2, 3}
      && t.procs[1].pc == Remove(key) && t.procs[3].pc == Answered(PutAnswered(Created, Some(rowB)))
  {
    moves := OneDeleteAhead(w, d, key);
    ChecksIgnoreIndex(w.site, w.site.pubs - {key}, b, d.name, d.slug, d.actorSub);
    moves := ThenPutReady(w, moves, 3, b, key, rowB);
    moves := ThenAnswered(w, moves, 3);
  }

  lemma RivalRemoved(w: World, before: seq<Move>, key: Key, rowB: Publication) returns (moves: seq<Move>)
    requires Run(w, before).procs.Keys == {1, 2, 3} && Run(w, before).procs[1].pc == Remove(key)
    requires Run(w, before).procs[3].pc == Answered(PutAnswered(Created, Some(rowB)))
    ensures var t' := Run(w, moves);
      && t' == Next(Run(w, before), Go(1, Proceed)) && key !in t'.site.pubs && t'.procs.Keys == {1, 2, 3}
      && t'.procs[1].pc == Answered(DeleteAnswered(Deleted))
      && t'.procs[3].pc == Answered(PutAnswered(Created, Some(rowB)))
  {
    moves := ThenRemoved(w, before, 1);
  }

  /**
   A delete has passed its checks on the app's own row when a second delete removes that row and another app puts
   its own. The first delete then removes the other app's row, and both are told that they succeeded.
   */
  lemma DeleteTakesAway(w: World, d: Request, b: PutRequest) returns (before: seq<Move>, moves: seq<Move>)
    requires OwnRowAndRival(w, d, b)
    ensures var t, t' := Run(w, before), Run(w, moves); var (key, rowB) := CheckRequest(w.site, b).value;
      && key in t.site.pubs && t.site.pubs[key] == rowB && rowB.appId != d.appId
      && t' == Next(t, Go(1, Proceed)) && key !in t'.site.pubs
      && 1 in t'.procs && t'.procs[1].pc == Answered(DeleteAnswered(Deleted))
      && 3 in t'.procs && t'.procs[3].pc == Answered(PutAnswered(Created, Some(rowB)))
  {
    var (key, rowB) := CheckRequest(w.site, b).value;
    before := RivalMovesIn(w, d, b, key, rowB);
    moves := RivalRemoved(w, before, key, rowB);
  }

  lemma WrittenThenRemoved(w: World, a: PutRequest, d: Request, key: Key, row: Publication) returns (moves: seq<Move>)
    requires Initial(w) && CheckRequest(w.site, a) == Ok((key, row)) && !OwnedByOther(w.site.pubs, key, a.appId)
    requires d.DeleteRow? && row.appId == d.appId && CheckDelete(w.site, d.name, d.slug, d.actorSub) == Ok(key)
    ensures var t := Run(w, moves);
      1 in t.procs && t.procs[1].pc.Reread? && t.procs[1].pc.key == key && key !in t.site.pubs
  {
    moves := ThenPutReady(w, [], 1, a, key, row);
    moves := ThenGoWrites(w, moves, 1);
    ChecksIgnoreIndex(w.site, w.site.pubs[key := row], a, d.name, d.slug, d.actorSub);
    moves := ThenDeleteReady(w, moves, 2, d, key);
    moves := ThenRemoved(w, moves, 2);
  }

  lemma ThenGoWrites(w: World, moves: seq<Move>, p: nat) returns (more: seq<Move>)
    requires p in Run(w, moves).procs && Run(w, moves).procs[p].pc.Write?
    ensures var t := Run(w, moves); var pc := t.procs[p].pc;
      Stepped(t, Run(w, more), p, t.site.pubs[pc.key := pc.newRow], Reread(pc.key, !pc.existed))
  {
    more := Then(w, moves, Go(p, Proceed));
  }

  lemma ThenVanishes(w: World, moves: seq<Move>, p: nat) returns (more: seq<Move>)
    requires p in Run(w, moves).procs && Run(w, moves).procs[p].pc.Reread?
    requires Run(w, moves).procs[p].pc.key !in Run(w, moves).site.pubs
    ensures p in Run(w, more).procs && Run(w, more).procs[p].pc == Answered(Failed(Vanished))
  {
    more := Then(w, moves, Go(p, Proceed));
  }

  /** A put is written and, before it is shown, deleted again: it answers with an error although it went through. */
  lemma PutVanishes(w: World, a: PutRequest, d: Request, key: Key, row: Publication) returns (moves: seq<Move>)
    requires Initial(w) && CheckRequest(w.site, a) == Ok((key, row)) && !OwnedByOther(w.site.pubs, key, a.appId)
    requires d.DeleteRow? && row.appId == d.appId && CheckDelete(w.site, d.name, d.slug, d.actorSub) == Ok(key)
    ensures 1 in Run(w, moves).procs && Run(w, moves).procs[1].pc == Answered(Failed(Vanished))
  {
    moves := WrittenThenRemoved(w, a, d, key, row);
    moves := ThenVanishes(w, moves, 1);
  }
}
