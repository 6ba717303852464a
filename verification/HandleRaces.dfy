/**
 The same roster operations with their steps interleaved. Every request is a process: it reads, checks, writes
 in one transaction, reads again and answers, and any number of requests and clock ticks run in between.

 What survives is what the unique indexes and the transaction carry. What does not is reserve exclusivity: the
 check for somebody else's reserve runs before the transaction. `TheftNeedsARelease` says when it can fail, and
 `ReserveCanBeTaken` is a run in which it does.
 */
module HandleRaces {
  import opened Wrappers
  import opened Names
  import opened Roster

  datatype Request =
    | Enrol(sub: string, newIds: nat -> string)
    | ClaimName(usr: string, target: string)
    | MoveName(usr: string, prev: string, target: string)

  datatype Answer =
    | Account(user: User)
    | ClaimAnswer(claimed: Option<User>)
    | MoveAnswer(outcome: RenameOutcome)
    | Error(error: DbError)

  datatype Pc = Start | Check | Write | Reread | Answered(answer: Answer)

  /**
   A request in flight. An enrolment draws a fresh id in each attempt. `wrote` records that one of its steps
   changed the tables, `checkedAt` the step number of its last reserve check, `wroteAt` the time of its commit.
   */
  datatype Process = Process(req: Request, pc: Pc, attempt: nat, wrote: bool, checkedAt: nat, wroteAt: nat)

  datatype Event = Acquired(handle: string) | Released(handle: string)

  /** `log` lists every change of hands, `born` the step number at which each reserve row was last written. */
  datatype World = World(db: State, procs: map<nat, Process>, log: seq<Event>, steps: nat, born: map<string, nat>)

  /** What the database makes of a step: it works, the write loses to another transaction, or it fails outright. */
  datatype Choice = Proceed | Conflict | Break

  datatype Move = Spawn(p: nat, req: Request) | Go(p: nat, choice: Choice) | Tick(dt: nat)

  predicate LegalRequest(req: Request) {
    match req
    case Enrol(_, _) => true
    case ClaimName(_, h) => IsHandle(h)
    case MoveName(_, prev, h) => IsHandle(h) && prev != h
  }

  // ---- One step of one request ----

  function Reply(pr: Process, a: Answer): Process {
    pr.(pc := Answered(a))
  }

  ghost function StartStep(db: State, pr: Process): Process {
    match pr.req
    case Enrol(sub, _) =>
      if Enrolled(db, sub) then Reply(pr, Account(db.users[Roster.Account(db, sub)])) else pr.(pc := Write)
    case ClaimName(_, h) =>
      if Held(db, h) then Reply(pr, ClaimAnswer(None)) else pr.(pc := Check)
    case MoveName(usr, _, _) =>
      if Cooling(db, usr) then Reply(pr, MoveAnswer(Cooldown(db.users[usr].changedAt.value + COOLDOWN)))
      else pr.(pc := Check)
  }

  function CheckStep(db: State, pr: Process, steps: nat): Process {
    match pr.req
    case Enrol(_, _) => pr
    case ClaimName(usr, h) =>
      if KeptFromOthers(db, h, usr) then Reply(pr, ClaimAnswer(None)) else pr.(pc := Write, checkedAt := steps)
    case MoveName(usr, _, h) =>
      if KeptFromOthers(db, h, usr) then Reply(pr, MoveAnswer(Taken)) else pr.(pc := Write, checkedAt := steps)
  }

  /** A lost write starts the request over, twice; the third loss is an error, or for a rename "taken". */
  function ConflictStep(pr: Process): Process {
    if pr.attempt < 2 then pr.(pc := Start, attempt := pr.attempt + 1)
    else if pr.req.MoveName? then Reply(pr, MoveAnswer(Taken))
    else Reply(pr, Error(WriteConflict))
  }

  ghost function WriteStep(db: State, pr: Process): (State, Process, seq<Event>) {
    match pr.req
    case Enrol(sub, newIds) =>
      var newId := newIds(pr.attempt);
      if newId in db.users then (db, Reply(pr, Error(RecordExists)), [])
      else if Enrolled(db, sub) then (db, pr.(pc := Reread), [])
      else (AddPerson(db, newId, sub), pr.(pc := Reread, wrote := true), [])
    case ClaimName(usr, h) =>
      if !Claimable(db, usr) then (db, pr.(pc := Reread), [])
      else if HeldByAnother(db, h, usr) then (db, Reply(pr, ClaimAnswer(None)), [])
      else (GiveHandle(db, usr, h), pr.(pc := Reread, wrote := true, wroteAt := db.now), [Acquired(h)])
    case MoveName(usr, prev, h) =>
      if !Renamable(db, usr, prev) || HeldByAnother(db, h, usr) then (db, Reply(pr, MoveAnswer(Taken)), [])
      else (Committed(db, usr, prev, h), pr.(pc := Reread, wrote := true, wroteAt := db.now),
            [Released(prev), Acquired(h)])
  }

  ghost function RereadStep(db: State, pr: Process): Process {
    match pr.req
    case Enrol(sub, _) =>
      Reply(pr, if Enrolled(db, sub) then Account(db.users[Roster.Account(db, sub)]) else Error(Vanished))
    case ClaimName(usr, h) =>
      var u := UserById(db, usr);
      Reply(pr, ClaimAnswer(if u.Some? && u.value.handle == Some(h) then u else None))
    case MoveName(usr, _, h) =>
      var u := UserById(db, usr);
      Reply(pr, if u.Some? && u.value.handle == Some(h) then MoveAnswer(Renamed(u.value)) else Error(NotShown))
  }

  ghost function Act(db: State, pr: Process, choice: Choice, steps: nat): (State, Process, seq<Event>) {
    if pr.pc.Answered? then (db, pr, [])
    else if choice == Break then (db, Reply(pr, Error(Broken)), [])
    else match pr.pc
      case Start => (db, StartStep(db, pr), [])
      case Check => (db, CheckStep(db, pr, steps), [])
      case Write => if choice == Conflict then (db, ConflictStep(pr), []) else WriteStep(db, pr)
      case Reread => (db, RereadStep(db, pr), [])
  }

  ghost function Next(w: World, m: Move): World {
    match m
    case Spawn(p, req) =>
      if p in w.procs || !LegalRequest(req) then w
      else w.(procs := w.procs[p := Process(req, Start, 0, false, 0, 0)])
    case Tick(dt) => w.(db := w.db.(now := w.db.now + dt))
    case Go(p, choice) =>
      if p !in w.procs then w
      else
        var (db', pr', events) := Act(w.db, w.procs[p], choice, w.steps);
        World(db', w.procs[p := pr'], w.log + events, w.steps + 1,
              if pr'.req.MoveName? && events != [] then w.born[pr'.req.prev := w.steps] else w.born)
  }

  ghost function Run(w: World, moves: seq<Move>): World {
    if moves == [] then w else Next(Run(w, moves[..|moves| - 1]), moves[|moves| - 1])
  }

  /** No request yet, and a roster that is consistent as far as the unique indexes go. */
  ghost predicate Initial(w: World) {
    Rows(w.db) && w.procs == map[] && w.log == []
  }

  // ---- What every interleaving keeps ----

  ghost predicate NotYetWritten(pr: Process) {
    pr.pc.Start? || pr.pc.Check? || pr.pc.Write? ==> !pr.wrote
  }

  ghost predicate EnrolInv(db: State, pr: Process) {
    pr.req.Enrol? ==>
      && !pr.pc.Check?
      && (pr.pc.Reread? ==> Enrolled(db, pr.req.sub))
      && (pr.pc.Answered? ==>
            pr.pc.answer.Error? || (pr.pc.answer.Account? && IsAccountOf(db, pr.pc.answer.user, pr.req.sub)))
  }

  ghost predicate IsAccountOf(db: State, u: User, sub: string) {
    && u.sub == Some(sub) && u.usrId.Some?
    && u.usrId.value in db.users && db.users[u.usrId.value].sub == Some(sub)
  }

  ghost predicate ClaimInv(pr: Process) {
    pr.req.ClaimName? && pr.pc.Answered? ==>
      pr.pc.answer.Error?
      || (pr.pc.answer.ClaimAnswer? && (pr.pc.answer.claimed.Some? ==>
            pr.pc.answer.claimed.value.usrId == Some(pr.req.usr)
            && pr.pc.answer.claimed.value.handle == Some(pr.req.target)))
  }

  /** After the commit the row is where this rename left it, or a later rename has passed a whole cooldown. */
  ghost predicate CommitStands(db: State, pr: Process)
    requires pr.req.MoveName?
  {
    && pr.wrote && pr.wroteAt <= db.now
    && UserById(db, pr.req.usr).Some?
    && var u := UserById(db, pr.req.usr).value;
      u.kind.Person? && u.changedAt.Some?
      && ((u.changedAt.value == pr.wroteAt && u.handle == Some(pr.req.target))
          || u.changedAt.value >= pr.wroteAt + COOLDOWN)
  }

  ghost predicate MoveInv(db: State, pr: Process) {
    pr.req.MoveName? ==>
      && LegalRequest(pr.req)
      && (pr.pc.Reread? ==> CommitStands(db, pr))
      && (pr.pc.Answered? ==>
            pr.pc.answer.Error?
            || (pr.pc.answer.MoveAnswer?
                && (pr.pc.answer.outcome.Renamed? <==> pr.wrote)
                && (pr.wrote ==> pr.pc.answer.outcome.user.handle == Some(pr.req.target)
                                 && pr.pc.answer.outcome.user.usrId == Some(pr.req.usr))))
  }

  /** Between check and write, a foreign live reserve on the target can only be younger than the check. */
  ghost predicate CheckHolds(w: World, pr: Process) {
    !pr.req.Enrol? && pr.pc.Write? && KeptFromOthers(w.db, pr.req.target, pr.req.usr) ==>
      pr.req.target in w.born && w.born[pr.req.target] >= pr.checkedAt
  }

  ghost predicate ProcInv(w: World, pr: Process) {
    && LegalRequest(pr.req) && NotYetWritten(pr) && pr.pc != Answered(Error(Vanished))
    && EnrolInv(w.db, pr) && ClaimInv(pr) && MoveInv(w.db, pr) && CheckHolds(w, pr)
  }

  ghost predicate Inv(w: World) {
    Rows(w.db) && forall p :: p in w.procs ==> ProcInv(w, w.procs[p])
  }

  lemma ActKeepsRows(db: State, pr: Process, choice: Choice, steps: nat)
    requires Rows(db) && LegalRequest(pr.req)
    ensures Rows(Act(db, pr, choice, steps).0)
  {
    if Act(db, pr, choice, steps).0 != db {
      match pr.req
      case Enrol(sub, newIds) => AddPersonKeepsRows(db, newIds(pr.attempt), sub);
      case ClaimName(usr, h) => GiveHandleKeepsRows(db, usr, h);
      case MoveName(usr, prev, h) => CommittedKeepsRows(db, usr, prev, h);
    }
  }

  /** What other requests rely on: subjects never move, and a handle moves only after a whole cooldown. */
  ghost predicate Relied(db: State, db': State) {
    && db'.now >= db.now
    && forall id :: id in db.users ==>
      && id in db'.users && db'.users[id].sub == db.users[id].sub && db'.users[id].kind == db.users[id].kind
      && db'.users[id].usrId == db.users[id].usrId
      && (db.users[id].changedAt.Some? && db.users[id].kind.Person? ==>
            && db'.users[id].changedAt.Some?
            && ((db'.users[id].changedAt == db.users[id].changedAt && db'.users[id].handle == db.users[id].handle)
                || db'.users[id].changedAt.value >= db.users[id].changedAt.value + COOLDOWN))
  }

  lemma ActRelied(db: State, pr: Process, choice: Choice, steps: nat)
    requires ChangesPast(db) && IdsKeyed(db)
    ensures Relied(db, Act(db, pr, choice, steps).0)
  {
    var db' := Act(db, pr, choice, steps).0;
    if db' != db {
      match pr.req
      case Enrol(sub, newIds) => assert Relied(db, AddPerson(db, newIds(pr.attempt), sub));
      case ClaimName(usr, h) => assert Relied(db, GiveHandle(db, usr, h));
      case MoveName(usr, prev, h) => assert Relied(db, Committed(db, usr, prev, h));
    }
  }

  lemma OthersKeepProc(db: State, db': State, pr: Process)
    requires Relied(db, db')
    requires EnrolInv(db, pr) && MoveInv(db, pr)
    ensures EnrolInv(db', pr) && MoveInv(db', pr)
  {
    if pr.req.Enrol? && Enrolled(db, pr.req.sub) {
      var id := Roster.Account(db, pr.req.sub);
      assert id in db'.users && db'.users[id].sub == Some(pr.req.sub);
    }
  }

  lemma OwnStepKeepsProc(db: State, pr: Process, choice: Choice, steps: nat)
    requires Rows(db) && LegalRequest(pr.req) && NotYetWritten(pr)
    requires EnrolInv(db, pr) && ClaimInv(pr) && MoveInv(db, pr)
    ensures var (db', pr', _) := Act(db, pr, choice, steps);
      && pr'.req == pr.req && NotYetWritten(pr')
      && (pr.pc != Answered(Error(Vanished)) ==> pr'.pc != Answered(Error(Vanished)))
      && EnrolInv(db', pr') && ClaimInv(pr') && MoveInv(db', pr')
  {
    var (db', pr', _) := Act(db, pr, choice, steps);
    if pr.pc.Write? && pr.req.Enrol? && pr'.wrote {
      assert db'.users[pr.req.newIds(pr.attempt)].sub == Some(pr.req.sub);
    }
  }

  /** Only a commit writes a reserve row, and it stamps the row with the step number. */
  lemma ReservesStamped(w: World, m: Move, h: string, usr: string)
    requires forall p :: p in w.procs ==> LegalRequest(w.procs[p].req)
    requires KeptFromOthers(Next(w, m).db, h, usr)
    ensures
      || (h in Next(w, m).born && Next(w, m).born[h] == w.steps)
      || (KeptFromOthers(w.db, h, usr) && (h in w.born ==> h in Next(w, m).born && Next(w, m).born[h] == w.born[h]))
  {
  }

  /** And the stamp of a name moves only when a rename away from it commits in this very step. */
  lemma StampsAreCommits(w: World, m: Move, h: string)
    requires h in Next(w, m).born && (h !in w.born || Next(w, m).born[h] != w.born[h])
    ensures m.Go? && m.p in w.procs && w.procs[m.p].req.MoveName? && w.procs[m.p].req.prev == h
    ensures var req := w.procs[m.p].req;
      && Next(w, m).born[h] == w.steps && h in Next(w, m).db.reserves
      && Next(w, m).db.reserves[h] == Reserve(req.usr, req.target, w.db.now + RESERVATION)
  {
  }

  ghost predicate Stamps(w: World) {
    forall p :: p in w.procs ==> w.procs[p].checkedAt <= w.steps
  }

  /** A request at its write was there before this step, or has just made its check. */
  lemma WriteSince(w: World, m: Move, p: nat)
    requires p in Next(w, m).procs && !Next(w, m).procs[p].req.Enrol? && Next(w, m).procs[p].pc.Write?
    ensures p in w.procs && w.procs[p].req == Next(w, m).procs[p].req
    ensures
      || (w.procs[p].pc.Write? && w.procs[p] == Next(w, m).procs[p])
      || (Next(w, m).procs[p].checkedAt == w.steps && Next(w, m).db == w.db
          && !KeptFromOthers(w.db, w.procs[p].req.target, w.procs[p].req.usr))
  {
  }

  lemma CheckStillHolds(w: World, m: Move, p: nat)
    requires Inv(w) && Stamps(w) && p in Next(w, m).procs
    ensures CheckHolds(Next(w, m), Next(w, m).procs[p])
  {
    var w' := Next(w, m);
    var pr' := w'.procs[p];
    if !pr'.req.Enrol? && pr'.pc.Write? && KeptFromOthers(w'.db, pr'.req.target, pr'.req.usr) {
      WriteSince(w, m, p);
      ReservesStamped(w, m, pr'.req.target, pr'.req.usr);
      assert w.procs[p].checkedAt <= w.steps && CheckHolds(w, w.procs[p]);
    }
  }

  lemma NextRelied(w: World, m: Move)
    requires Rows(w.db) && forall p :: p in w.procs ==> LegalRequest(w.procs[p].req)
    ensures Rows(Next(w, m).db) && Relied(w.db, Next(w, m).db)
  {
    if m.Go? && m.p in w.procs {
      ActKeepsRows(w.db, w.procs[m.p], m.choice, w.steps);
      ActRelied(w.db, w.procs[m.p], m.choice, w.steps);
    }
  }

  lemma NextKeepsProc(w: World, m: Move, p: nat)
    requires Inv(w) && Stamps(w) && p in Next(w, m).procs
    ensures ProcInv(Next(w, m), Next(w, m).procs[p])
  {
    CheckStillHolds(w, m, p);
    if p in w.procs {
      assert ProcInv(w, w.procs[p]);
      if m.Go? && m.p == p {
        OwnStepKeepsProc(w.db, w.procs[p], m.choice, w.steps);
      } else {
        NextRelied(w, m);
        OthersKeepProc(w.db, Next(w, m).db, w.procs[p]);
      }
    }
  }

  lemma NextKeepsStamps(w: World, m: Move)
    requires Stamps(w)
    ensures Stamps(Next(w, m))
  {
  }

  lemma NextKeepsInv(w: World, m: Move)
    requires Inv(w) && Stamps(w)
    ensures Inv(Next(w, m)) && Stamps(Next(w, m))
  {
    NextKeepsStamps(w, m);
    NextRelied(w, m);
    forall p | p in Next(w, m).procs ensures ProcInv(Next(w, m), Next(w, m).procs[p]) {
      NextKeepsProc(w, m, p);
    }
  }

  lemma {:induction false} RunKeepsInv(w: World, moves: seq<Move>)
    requires Initial(w)
    ensures Inv(Run(w, moves)) && Stamps(Run(w, moves))
  {
    if moves != [] {
      RunKeepsInv(w, moves[..|moves| - 1]);
      NextKeepsInv(Run(w, moves[..|moves| - 1]), moves[|moves| - 1]);
    }
  }

  // ---- First contact converges ----

  /**
   In every interleaving there is at most one row per subject, every first contact that succeeds answers with
   that row's id, and the row never vanishes between the create and the read after it.
   */
  lemma FirstContactConverges(w: World, moves: seq<Move>, p: nat, q: nat)
    requires Initial(w)
    requires p in Run(w, moves).procs && q in Run(w, moves).procs
    ensures var t := Run(w, moves); var a, b := t.procs[p], t.procs[q];
      && SubsUnique(t.db)
      && a.pc != Answered(Error(Vanished))
      && (a.req.Enrol? && b.req.Enrol? && a.req.sub == b.req.sub && a.pc.Answered? && b.pc.Answered?
          && a.pc.answer.Account? && b.pc.answer.Account? ==>
            a.pc.answer.user.usrId == b.pc.answer.user.usrId && IsAccountOf(t.db, a.pc.answer.user, a.req.sub))
  {
    RunKeepsInv(w, moves);
    var t := Run(w, moves);
    assert ProcInv(t, t.procs[p]) && ProcInv(t, t.procs[q]);
  }

  // ---- Names are conserved ----

  function Change(e: Event, h: string): int {
    match e
    case Acquired(n) => if n == h then 1 else 0
    case Released(n) => if n == h then -1 else 0
  }

  /** Acquisitions of `h` minus releases of `h`. */
  function Balance(log: seq<Event>, h: string): int {
    if log == [] then 0 else Balance(log[..|log| - 1], h) + Change(log[|log| - 1], h)
  }

  lemma BalanceGrows(log: seq<Event>, a: Event, b: Event, h: string)
    ensures Balance(log + [a], h) == Balance(log, h) + Change(a, h)
    ensures Balance(log + [a, b], h) == Balance(log, h) + Change(a, h) + Change(b, h)
  {
    assert (log + [a])[..|log|] == log;
    assert (log + [a, b])[..|log| + 1] == log + [a];
  }

  ghost function HeldCount(db: State, h: string): int {
    if Held(db, h) then 1 else 0
  }

  function One(o: Option<string>, h: string): int {
    if o == Some(h) then 1 else 0
  }

  /** When one row's handle changes, the count of a name changes by what that row gained and lost. */
  lemma OneRowMoved(db: State, db': State, usr: string, h: string)
    requires HandlesUnique(db) && HandlesUnique(db')
    requires usr in db.users && db'.users.Keys == db.users.Keys
    requires forall id | id in db.users && id != usr :: db'.users[id].handle == db.users[id].handle
    ensures HeldCount(db', h) - HeldCount(db, h) == One(db'.users[usr].handle, h) - One(db.users[usr].handle, h)
  {
    if Held(db, h) && Holder(db, h) != usr {
      assert db'.users[Holder(db, h)].handle == Some(h);
    }
    if Held(db', h) && Holder(db', h) != usr {
      assert db.users[Holder(db', h)].handle == Some(h);
    }
  }

  lemma SameRowsHeld(db: State, pr: Process, choice: Choice, steps: nat, h: string)
    requires Act(db, pr, choice, steps).2 == []
    ensures Held(Act(db, pr, choice, steps).0, h) <==> Held(db, h)
  {
    var db' := Act(db, pr, choice, steps).0;
    assert forall id :: id in db.users ==> id in db'.users && db'.users[id] == db.users[id];
    assert forall id :: id in db'.users && id !in db.users ==> db'.users[id].handle.None?;
  }

  lemma ClaimBalances(db: State, usr: string, target: string, h: string)
    requires HandlesUnique(db) && Claimable(db, usr) && !HeldByAnother(db, target, usr)
    ensures HeldCount(GiveHandle(db, usr, target), h) - HeldCount(db, h) == Change(Acquired(target), h)
  {
    var db' := GiveHandle(db, usr, target);
    assert HandlesUnique(db');
    OneRowMoved(db, db', usr, h);
  }

  lemma MoveBalances(db: State, usr: string, prev: string, target: string, h: string)
    requires Rows(db) && Renamable(db, usr, prev) && !HeldByAnother(db, target, usr) && IsHandle(target)
    ensures HeldCount(Committed(db, usr, prev, target), h) - HeldCount(db, h)
            == Change(Released(prev), h) + Change(Acquired(target), h)
  {
    CommittedKeepsRows(db, usr, prev, target);
    OneRowMoved(db, Committed(db, usr, prev, target), usr, h);
  }

  lemma ActBalances(db: State, pr: Process, choice: Choice, steps: nat, log: seq<Event>, h: string)
    requires Rows(db) && LegalRequest(pr.req)
    ensures var (db', _, events) := Act(db, pr, choice, steps);
      Balance(log + events, h) - Balance(log, h) == HeldCount(db', h) - HeldCount(db, h)
  {
    var (db', _, events) := Act(db, pr, choice, steps);
    if events == [] {
      assert log + events == log;
      SameRowsHeld(db, pr, choice, steps, h);
    } else {
      BalanceGrows(log, events[0], events[|events| - 1], h);
      if pr.req.ClaimName? {
        ClaimBalances(db, pr.req.usr, pr.req.target, h);
      } else {
        MoveBalances(db, pr.req.usr, pr.req.prev, pr.req.target, h);
      }
    }
  }

  /** For each handle, acquisitions minus releases is the difference between held now and held at the start. */
  lemma {:induction false} NamesConserved(w: World, moves: seq<Move>, h: string)
    requires Initial(w)
    ensures Balance(Run(w, moves).log, h) == HeldCount(Run(w, moves).db, h) - HeldCount(w.db, h)
    ensures HandlesUnique(Run(w, moves).db)
  {
    RunKeepsInv(w, moves);
    if moves != [] {
      var t, m := Run(w, moves[..|moves| - 1]), moves[|moves| - 1];
      NamesConserved(w, moves[..|moves| - 1], h);
      RunKeepsInv(w, moves[..|moves| - 1]);
      if m.Go? && m.p in t.procs {
        ActBalances(t.db, t.procs[m.p], m.choice, t.steps, t.log, h);
      } else {
        assert Held(Run(w, moves).db, h) <==> Held(t.db, h);
      }
    }
  }

  // ---- Answers are honest ----

  ghost predicate StepTouches(w: World, m: Move, p: nat) {
    m.Go? && m.p == p && Next(w, m).db != w.db
  }

  /** Some step of request `p` changed the tables during the run. */
  ghost predicate Touched(w: World, moves: seq<Move>, p: nat) {
    moves != [] &&
    (Touched(w, moves[..|moves| - 1], p) || StepTouches(Run(w, moves[..|moves| - 1]), moves[|moves| - 1], p))
  }

  lemma ActTouches(db: State, pr: Process, choice: Choice, steps: nat)
    requires LegalRequest(pr.req)
    ensures Act(db, pr, choice, steps).1.wrote <==> pr.wrote || Act(db, pr, choice, steps).0 != db
  {
    var (db', pr', _) := Act(db, pr, choice, steps);
    if pr.pc.Write? && pr'.wrote && !pr.wrote {
      match pr.req
      case Enrol(_, newIds) => assert newIds(pr.attempt) in db'.users && newIds(pr.attempt) !in db.users;
      case ClaimName(usr, _) => assert db'.users[usr].handle != db.users[usr].handle;
      case MoveName(usr, _, _) => assert db'.users[usr].handle != db.users[usr].handle;
    }
  }

  lemma {:induction false} WroteIffTouched(w: World, moves: seq<Move>, p: nat)
    requires Initial(w)
    ensures p in Run(w, moves).procs ==> (Run(w, moves).procs[p].wrote <==> Touched(w, moves, p))
    ensures p !in Run(w, moves).procs ==> !Touched(w, moves, p)
  {
    if moves != [] {
      var t, m := Run(w, moves[..|moves| - 1]), moves[|moves| - 1];
      WroteIffTouched(w, moves[..|moves| - 1], p);
      RunKeepsInv(w, moves[..|moves| - 1]);
      if m.Go? && m.p == p && p in t.procs {
        assert ProcInv(t, t.procs[p]);
        ActTouches(t.db, t.procs[p], m.choice, t.steps);
      }
    }
  }

  /**
   A rename that answers anything but `Renamed` changed nothing, over all its attempts and whatever ran in
   between: a lost race, a stale `prev`, a cooldown or three conflicts leave every row and every reserve as the
   others wrote them. One that answers `Renamed` did commit. A claim answers only with the caller's own row
   under the name asked for.
   */
  lemma AnswersAreHonest(w: World, moves: seq<Move>, p: nat)
    requires Initial(w) && p in Run(w, moves).procs && Run(w, moves).procs[p].pc.Answered?
    ensures var pr := Run(w, moves).procs[p];
      && (pr.pc.answer.MoveAnswer? ==>
            && pr.req.MoveName?
            && (pr.pc.answer.outcome.Renamed? <==> Touched(w, moves, p))
            && (pr.pc.answer.outcome.Renamed? ==>
                  pr.pc.answer.outcome.user.usrId == Some(pr.req.usr)
                  && pr.pc.answer.outcome.user.handle == Some(pr.req.target)))
      && (pr.pc.answer.ClaimAnswer? && pr.pc.answer.claimed.Some? ==>
            && pr.req.ClaimName?
            && pr.pc.answer.claimed.value.usrId == Some(pr.req.usr)
            && pr.pc.answer.claimed.value.handle == Some(pr.req.target))
  {
    RunKeepsInv(w, moves);
    WroteIffTouched(w, moves, p);
    assert ProcInv(Run(w, moves), Run(w, moves).procs[p]);
  }

  /**
   The read after a commit fails to show the new name exactly when the user has moved on since, and that takes
   a whole cooldown: a re-read inside it always answers `Renamed`.
   */
  lemma CommitShows(w: World, moves: seq<Move>, p: nat)
    requires Initial(w) && p in Run(w, moves).procs
    requires Run(w, moves).procs[p].req.MoveName? && Run(w, moves).procs[p].pc.Reread?
    ensures var t := Run(w, moves); var pr := t.procs[p];
      var a := Next(t, Go(p, Proceed)).procs[p].pc;
      && UserById(t.db, pr.req.usr).Some?
      && (a == Answered(Error(NotShown)) <==> UserById(t.db, pr.req.usr).value.handle != Some(pr.req.target))
      && (t.db.now < pr.wroteAt + COOLDOWN ==>
            a == Answered(MoveAnswer(Renamed(UserById(t.db, pr.req.usr).value))))
  {
    RunKeepsInv(w, moves);
    assert ProcInv(Run(w, moves), Run(w, moves).procs[p]);
  }

  /** What no request undoes: a person with a handle keeps it, or has renamed, and then at this moment or later. */
  ghost predicate HandlesStand(db: State, db': State) {
    && db'.now >= db.now
    && forall id :: id in db.users && db.users[id].kind.Person? && db.users[id].handle.Some? ==>
      && id in db'.users && db'.users[id].kind.Person? && db'.users[id].usrId == db.users[id].usrId
      && ((db'.users[id].handle == db.users[id].handle && db'.users[id].changedAt == db.users[id].changedAt)
          || (db'.users[id].handle.Some? && db'.users[id].changedAt == Some(db.now)))
  }

  lemma ActHandlesStand(db: State, pr: Process, choice: Choice, steps: nat)
    ensures HandlesStand(db, Act(db, pr, choice, steps).0)
  {
  }

  /** A claim that committed stands, or its owner has renamed since. */
  ghost predicate ClaimStands(db: State, pr: Process) {
    pr.req.ClaimName? && pr.pc.Reread? && pr.wrote ==>
      && pr.wroteAt <= db.now && UserById(db, pr.req.usr).Some?
      && var u := UserById(db, pr.req.usr).value;
        && u.kind.Person? && u.handle.Some?
        && (if u.changedAt.None? then u.handle == Some(pr.req.target) else pr.wroteAt <= u.changedAt.value)
  }

  lemma ClaimKeepsStanding(db: State, db': State, pr: Process)
    requires ClaimStands(db, pr) && HandlesStand(db, db')
    ensures ClaimStands(db', pr)
  {
  }

  lemma OwnClaimStands(db: State, pr: Process, choice: Choice, steps: nat)
    requires Rows(db) && NotYetWritten(pr)
    ensures ClaimStands(Act(db, pr, choice, steps).0, Act(db, pr, choice, steps).1)
  {
  }

  lemma NextClaimStands(w: World, m: Move, p: nat)
    requires Inv(w) && p in Next(w, m).procs
    requires p in w.procs ==> ClaimStands(w.db, w.procs[p])
    ensures ClaimStands(Next(w, m).db, Next(w, m).procs[p])
  {
    if p in w.procs {
      assert ProcInv(w, w.procs[p]);
      if m.Go? && m.p == p {
        OwnClaimStands(w.db, w.procs[p], m.choice, w.steps);
      } else {
        if m.Go? && m.p in w.procs {
          ActHandlesStand(w.db, w.procs[m.p], m.choice, w.steps);
        }
        ClaimKeepsStanding(w.db, Next(w, m).db, w.procs[p]);
      }
    }
  }

  lemma {:induction false} RunClaimStands(w: World, moves: seq<Move>, p: nat)
    requires Initial(w) && p in Run(w, moves).procs
    ensures ClaimStands(Run(w, moves).db, Run(w, moves).procs[p])
  {
    if moves != [] {
      var before := moves[..|moves| - 1];
      RunKeepsInv(w, before);
      if p in Run(w, before).procs {
        RunClaimStands(w, before, p);
      }
      NextClaimStands(Run(w, before), moves[|moves| - 1], p);
    }
  }

  /**
   The read after a claim answers "taken" exactly when the caller's row does not carry the name at that moment. For
   a claim that committed that means that the caller has renamed since, which needs no cooldown after a claim.
   */
  lemma ClaimShows(w: World, moves: seq<Move>, p: nat)
    requires Initial(w) && p in Run(w, moves).procs
    requires Run(w, moves).procs[p].req.ClaimName? && Run(w, moves).procs[p].pc.Reread?
    ensures var t := Run(w, moves); var pr := t.procs[p];
      var a, u := Next(t, Go(p, Proceed)).procs[p].pc, UserById(t.db, pr.req.usr);
      && (a == Answered(ClaimAnswer(None)) <==> u.None? || u.value.handle != Some(pr.req.target))
      && (a == Answered(ClaimAnswer(u)) <==> u.None? || u.value.handle == Some(pr.req.target))
      && (pr.wrote ==> u.Some? && (u.value.changedAt.None? ==> a == Answered(ClaimAnswer(u))))
      && (pr.wrote && a == Answered(ClaimAnswer(None)) ==>
            u.value.changedAt.Some? && pr.wroteAt <= u.value.changedAt.value)
  {
    RunClaimStands(w, moves, p);
  }

  // ---- How each request can end ----

  /** The database failed outright under some step of the request. */
  ghost predicate HitBreak(w: World, moves: seq<Move>, p: nat) {
    moves != [] &&
    var t, m := Run(w, moves[..|moves| - 1]), moves[|moves| - 1];
    || HitBreak(w, moves[..|moves| - 1], p)
    || (m == Go(p, Break) && p in t.procs && !t.procs[p].pc.Answered?)
  }

  /** How many of the request's writes lost to another transaction. */
  ghost function Conflicts(w: World, moves: seq<Move>, p: nat): nat {
    if moves == [] then 0
    else
      var t, m := Run(w, moves[..|moves| - 1]), moves[|moves| - 1];
      Conflicts(w, moves[..|moves| - 1], p) +
        if m == Go(p, Conflict) && p in t.procs && t.procs[p].pc.Write? then 1 else 0
  }

  /** Some write of the first contact drew an id that was in the table. */
  ghost predicate IdTaken(w: World, moves: seq<Move>, p: nat) {
    moves != [] &&
    var t, m := Run(w, moves[..|moves| - 1]), moves[|moves| - 1];
    || IdTaken(w, moves[..|moves| - 1], p)
    || (m == Go(p, Proceed) && p in t.procs && t.procs[p].pc.Write? && t.procs[p].req.Enrol?
        && t.procs[p].req.newIds(t.procs[p].attempt) in t.db.users)
  }

  /** After `n` lost writes the request is in its attempt `n`, or has given up on the third. */
  ghost predicate Attempts(pr: Process, n: nat) {
    && n <= 3
    && (n < 3 ==> pr.attempt == n && pr.pc != Answered(Error(WriteConflict)))
    && (n == 3 ==> pr.pc == Answered(if pr.req.MoveName? then MoveAnswer(Taken) else Error(WriteConflict)))
  }

  /** A request cannot fail in any other way: a renaming may also miss its name at the last read. */
  ghost predicate ErrorsKnown(pr: Process) {
    pr.pc.Answered? && pr.pc.answer.Error? ==>
      || pr.pc.answer.error in {Broken, WriteConflict}
      || (pr.pc.answer.error == RecordExists && pr.req.Enrol?)
      || (pr.pc.answer.error == NotShown && pr.req.MoveName?)
  }

  lemma ActErrors(db: State, pr: Process, choice: Choice, steps: nat)
    requires LegalRequest(pr.req) && ErrorsKnown(pr) && !pr.pc.Answered?
    requires pr.pc.Reread? && pr.req.Enrol? ==> Enrolled(db, pr.req.sub)
    requires pr.req.Enrol? ==> !pr.pc.Check?
    ensures var pr' := Act(db, pr, choice, steps).1;
      && ErrorsKnown(pr') && pr'.req == pr.req
      && (pr'.pc == Answered(Error(Broken)) <==> choice == Break)
      && (pr'.pc == Answered(Error(RecordExists)) <==>
            choice == Proceed && pr.pc.Write? && pr.req.Enrol? && pr.req.newIds(pr.attempt) in db.users)
  {
  }

  lemma ActAttempts(db: State, pr: Process, choice: Choice, steps: nat, n: nat)
    requires Attempts(pr, n)
    ensures Attempts(Act(db, pr, choice, steps).1, if choice == Conflict && pr.pc.Write? then n + 1 else n)
  {
  }

  /**
   Every way a request can end badly, over every interleaving and exactly: `Broken` when the database failed under a
   step, a conflict when three writes lost, which a renaming answers as `Taken`, `RecordExists` when a first contact
   drew an id in the table. Nothing else is an error, but for a renaming that misses its name at the last read.
   */
  lemma {:induction false} EndsExactly(w: World, moves: seq<Move>, p: nat)
    requires Initial(w)
    ensures p in Run(w, moves).procs ==>
      var pr := Run(w, moves).procs[p];
      && ErrorsKnown(pr) && Attempts(pr, Conflicts(w, moves, p))
      && (pr.pc == Answered(Error(Broken)) <==> HitBreak(w, moves, p))
      && (pr.pc == Answered(Error(RecordExists)) <==> IdTaken(w, moves, p))
    ensures p !in Run(w, moves).procs ==>
      !HitBreak(w, moves, p) && !IdTaken(w, moves, p) && Conflicts(w, moves, p) == 0
  {
    if moves != [] {
      var t, m := Run(w, moves[..|moves| - 1]), moves[|moves| - 1];
      EndsExactly(w, moves[..|moves| - 1], p);
      RunKeepsInv(w, moves[..|moves| - 1]);
      if m.Go? && m.p == p && p in t.procs {
        assert ProcInv(t, t.procs[p]);
        ActAttempts(t.db, t.procs[p], m.choice, t.steps, Conflicts(w, moves[..|moves| - 1], p));
        if !t.procs[p].pc.Answered? {
          ActErrors(t.db, t.procs[p], m.choice, t.steps);
        }
      }
    }
  }

  /**
   A first contact succeeds, also when it loses the race on the subject. One that is answered has the row of its
   subject, which is still there, exactly when no step of it broke, not all three writes lost, and no write drew an id
   that was in the table.
   */
  lemma FirstContactSucceeds(w: World, moves: seq<Move>, p: nat)
    requires Initial(w) && p in Run(w, moves).procs
    requires Run(w, moves).procs[p].req.Enrol? && Run(w, moves).procs[p].pc.Answered?
    ensures var t := Run(w, moves); var a := t.procs[p].pc.answer;
      && (a.Account? <==> !HitBreak(w, moves, p) && Conflicts(w, moves, p) < 3 && !IdTaken(w, moves, p))
      && (a.Account? ==> IsAccountOf(t.db, a.user, t.procs[p].req.sub))
  {
    EndsExactly(w, moves, p);
    RunKeepsInv(w, moves);
    assert ProcInv(Run(w, moves), Run(w, moves).procs[p]);
  }

  /** The step of a first contact after its write answers at once, and before it, a fresh id is enough to get there. */
  lemma FirstContactAdvances(w: World, moves: seq<Move>, p: nat)
    requires Initial(w) && p in Run(w, moves).procs && Run(w, moves).procs[p].req.Enrol?
    ensures var t := Run(w, moves); var pr := t.procs[p];
      var next := Next(t, Go(p, Proceed)).procs[p].pc;
      && (pr.pc.Start? ==> next == (if Enrolled(t.db, pr.req.sub) then
                                      Answered(Account(t.db.users[Roster.Account(t.db, pr.req.sub)])) else Write))
      && (pr.pc.Write? && pr.req.newIds(pr.attempt) !in t.db.users ==> next.Reread?)
      && (pr.pc.Reread? ==> Enrolled(t.db, pr.req.sub)
                            && next == Answered(Account(t.db.users[Roster.Account(t.db, pr.req.sub)])))
  {
    RunKeepsInv(w, moves);
    assert ProcInv(Run(w, moves), Run(w, moves).procs[p]);
  }

  /** What tells a claim at this point that the name is not to be had. */
  ghost predicate ClaimRefused(db: State, pr: Process)
    requires pr.req.ClaimName?
  {
    var usr, h := pr.req.usr, pr.req.target;
    match pr.pc
    case Start => Held(db, h)
    case Check => h in db.reserves && db.reserves[h].expiresAt > db.now && db.reserves[h].usrId != usr
    case Write => Claimable(db, usr) && HeldByAnother(db, h, usr)
    case Reread => UserById(db, usr).None? || UserById(db, usr).value.handle != Some(h)
    case Answered(_) => false
  }

  /**
   A claim that proceeds is refused exactly there: the name is held, or kept for somebody else, or was lost to another
   row at the unique index, or the own row does not carry it in the end. A write that matches no row decides nothing.
   */
  lemma ClaimRefusedExactly(w: World, p: nat)
    requires p in w.procs && w.procs[p].req.ClaimName? && !w.procs[p].pc.Answered?
    ensures var pr := w.procs[p];
      var next := Next(w, Go(p, Proceed)).procs[p].pc;
      && (next == Answered(ClaimAnswer(None)) <==> ClaimRefused(w.db, pr))
      && (!ClaimRefused(w.db, pr) ==>
            match pr.pc
            case Start => next.Check?
            case Check => next.Write?
            case Write => next.Reread?
            case Reread => next == Answered(ClaimAnswer(UserById(w.db, pr.req.usr)))
            case Answered(_) => true)
      && (Next(w, Go(p, Proceed)).db != w.db ==>
            pr.pc.Write? && Next(w, Go(p, Proceed)).db == GiveHandle(w.db, pr.req.usr, pr.req.target))
  {
  }

  // ---- Reserve exclusivity, and how it can fail ----

  /** `usr` holds a name that is kept, and live, for somebody else. */
  ghost predicate Stolen(db: State, usr: string, h: string) {
    usr in db.users && db.users[usr].handle == Some(h) && KeptFromOthers(db, h, usr)
  }

  /**
   A commit takes a name kept for somebody else exactly when that name was left, and so kept, after this
   request had looked for a reserve on it. Without a release between check and commit, exclusivity holds.
   */
  lemma TheftNeedsARelease(w: World, moves: seq<Move>, p: nat)
    requires Initial(w) && p in Run(w, moves).procs
    requires !Run(w, moves).procs[p].req.Enrol? && Run(w, moves).procs[p].pc.Write?
    requires Next(Run(w, moves), Go(p, Proceed)).db != Run(w, moves).db
    ensures var t := Run(w, moves); var pr := t.procs[p];
      Stolen(Next(t, Go(p, Proceed)).db, pr.req.usr, pr.req.target) <==>
        (KeptFromOthers(t.db, pr.req.target, pr.req.usr)
         && pr.req.target in t.born && t.born[pr.req.target] >= pr.checkedAt)
  {
    RunKeepsInv(w, moves);
    assert ProcInv(Run(w, moves), Run(w, moves).procs[p]);
  }

  /** A request that runs from its first step to its answer with nobody in between. */
  ghost function Solo(w: World, p: nat): World {
    Next(Next(Next(Next(w, Go(p, Proceed)), Go(p, Proceed)), Go(p, Proceed)), Go(p, Proceed))
  }

  /** Left alone, each request is exactly the atomic operation of `Roster`. */
  lemma SoloIsAtomic(w: World, p: nat)
    requires Rows(w.db) && p in w.procs && w.procs[p].pc.Start? && LegalRequest(w.procs[p].req)
    ensures var t := Solo(w, p);
      match w.procs[p].req
      case Enrol(sub, newIds) =>
        var (db, r) := EnsureUser(w.db, sub, newIds(w.procs[p].attempt));
        t.db == db && t.procs[p].pc == Answered(if r.Ok? then Account(r.value) else Error(r.error))
      case ClaimName(usr, h) =>
        var (db, r) := Claim(w.db, usr, h);
        t.db == db && t.procs[p].pc == Answered(ClaimAnswer(r))
      case MoveName(usr, prev, h) =>
        var (db, o) := Rename(w.db, usr, prev, h);
        t.db == db && t.procs[p].pc == Answered(MoveAnswer(o))
  {
    match w.procs[p].req
    case Enrol(_, _) => SoloEnrol(w, p);
    case ClaimName(_, _) => SoloClaim(w, p);
    case MoveName(_, _, _) => SoloMove(w, p);
  }

  lemma SoloMove(w: World, p: nat)
    requires p in w.procs && w.procs[p].pc.Start? && w.procs[p].req.MoveName? && Rows(w.db)
    ensures var t := Solo(w, p); var req := w.procs[p].req;
      var (db, o) := Rename(w.db, req.usr, req.prev, req.target);
      t.db == db && t.procs[p].pc == Answered(MoveAnswer(o))
  {
  }

  lemma SoloEnrol(w: World, p: nat)
    requires SubsUnique(w.db) && p in w.procs && w.procs[p].pc.Start? && w.procs[p].req.Enrol?
    ensures var t := Solo(w, p); var pr := w.procs[p];
      var (db, r) := EnsureUser(w.db, pr.req.sub, pr.req.newIds(pr.attempt));
      t.db == db && t.procs[p].pc == Answered(if r.Ok? then Account(r.value) else Error(r.error))
  {
    var sub, newId := w.procs[p].req.sub, w.procs[p].req.newIds(w.procs[p].attempt);
    if !Enrolled(w.db, sub) && newId !in w.db.users {
      var db := AddPerson(w.db, newId, sub);
      assert db.users[newId].sub == Some(sub) && SubsUnique(db);
    }
  }

  lemma SoloClaim(w: World, p: nat)
    requires IdsKeyed(w.db) && p in w.procs && w.procs[p].pc.Start? && w.procs[p].req.ClaimName?
    ensures var t := Solo(w, p); var (db, r) := Claim(w.db, w.procs[p].req.usr, w.procs[p].req.target);
      t.db == db && t.procs[p].pc == Answered(ClaimAnswer(r))
  {
    var usr, h := w.procs[p].req.usr, w.procs[p].req.target;
    if !Held(w.db, h) && !KeptFromOthers(w.db, h, usr) {
      assert !HeldByAnother(w.db, h, usr);
    }
  }

  // ---- The two runs that show the limits ----

  /** Two people who have never renamed hold `x` and `y`; nobody holds `z`, and no name is kept. */
  ghost predicate TwoPeople(w: World, dana: string, evan: string, x: string, y: string, z: string) {
    && Initial(w) && w.db.reserves == map[] && dana != evan
    && dana in w.db.users && w.db.users[dana].kind.Person? && w.db.users[dana].handle == Some(x)
    && evan in w.db.users && w.db.users[evan].kind.Person? && w.db.users[evan].handle == Some(y)
    && w.db.users[dana].changedAt.None? && w.db.users[evan].changedAt.None?
    && IsHandle(z) && !Held(w.db, z)
  }

  lemma Then(w: World, moves: seq<Move>, m: Move) returns (more: seq<Move>)
    ensures Run(w, more) == Next(Run(w, moves), m)
  {
    more := moves + [m];
    assert more[..|more| - 1] == moves;
  }

  /** A rename that passes both checks waits at its transaction, and nothing else has moved. */
  lemma ThenChecked(w: World, moves: seq<Move>, p: nat, req: Request) returns (more: seq<Move>)
    requires p !in Run(w, moves).procs && LegalRequest(req) && req.MoveName?
    requires !Cooling(Run(w, moves).db, req.usr) && !KeptFromOthers(Run(w, moves).db, req.target, req.usr)
    ensures var t, t' := Run(w, moves), Run(w, more);
      && t'.db == t.db && t'.procs.Keys == t.procs.Keys + {p}
      && t'.procs[p].req == req && t'.procs[p].pc.Write?
      && forall q :: q in t.procs ==> t'.procs[q] == t.procs[q]
  {
    more := Then(w, moves, Spawn(p, req));
    more := Then(w, more, Go(p, Proceed));
    more := Then(w, more, Go(p, Proceed));
  }

  lemma ThenCommitted(w: World, moves: seq<Move>, p: nat) returns (more: seq<Move>)
    requires p in Run(w, moves).procs
    requires var pr := Run(w, moves).procs[p];
      && pr.pc.Write? && pr.req.MoveName?
      && Renamable(Run(w, moves).db, pr.req.usr, pr.req.prev)
      && !HeldByAnother(Run(w, moves).db, pr.req.target, pr.req.usr)
    ensures var t, t' := Run(w, moves), Run(w, more); var req := t.procs[p].req;
      && t'.db == Committed(t.db, req.usr, req.prev, req.target)
      && t'.procs.Keys == t.procs.Keys
      && t'.procs[p].req == req && t'.procs[p].pc.Reread? && t'.procs[p].wrote
      && forall q :: q in t.procs && q != p ==> t'.procs[q] == t.procs[q]
  {
    more := Then(w, moves, Go(p, Proceed));
  }

  /**
   Evan asks for `x` while Dana holds it: no reserve yet, so his check passes. Dana then leaves `x`, which is now
   kept for her, and Evan's transaction finds the name unheld. He ends up holding a name kept for Dana.
   */
  lemma ReserveCanBeTaken(w: World, dana: string, evan: string, x: string, y: string, z: string)
    returns (moves: seq<Move>)
    requires TwoPeople(w, dana, evan, x, y, z)
    ensures Stolen(Run(w, moves).db, evan, x)
    ensures Run(w, moves).db.reserves[x] == Reserve(dana, z, Run(w, moves).db.now + RESERVATION)
    ensures Run(w, moves).db.users[evan].kind.Person?
  {
    moves := ThenChecked(w, [], 1, MoveName(evan, y, x));
    moves := ThenChecked(w, moves, 2, MoveName(dana, x, z));
    assert !HeldByAnother(w.db, z, dana);
    moves := ThenCommitted(w, moves, 2);
    assert !HeldByAnother(Run(w, moves).db, x, evan);
    moves := ThenCommitted(w, moves, 1);
  }

  /**
   Dana's first rename commits, thirty days pass before its last read, and a second rename moves her on: the
   first request finds a row that does not show the name it asked for.
   */
  lemma CommitMayNotShow(w: World, dana: string, evan: string, x: string, y: string, z: string)
    returns (moves: seq<Move>)
    requires TwoPeople(w, dana, evan, x, y, z)
    ensures 1 in Run(w, moves).procs
    ensures Run(w, moves).procs[1].pc == Answered(Error(NotShown)) && Run(w, moves).procs[1].wrote
  {
    moves := CommitsAndWaits(w, dana, evan, x, y, z);
    var db := Run(w, moves).db;
    assert Renamable(db, dana, z) && !HeldByAnother(db, x, dana) && !KeptFromOthers(db, x, dana);
    moves := MovesOn(w, moves, dana, z, x);
    moves := Then(w, moves, Go(1, Proceed));
  }

  lemma CommitsAndWaits(w: World, dana: string, evan: string, x: string, y: string, z: string)
    returns (moves: seq<Move>)
    requires TwoPeople(w, dana, evan, x, y, z)
    ensures var t := Run(w, moves); var db := Committed(w.db, dana, x, z);
      && t.db == db.(now := db.now + COOLDOWN)
      && t.procs.Keys == {1} && t.procs[1].req == MoveName(dana, x, z) && t.procs[1].pc.Reread? && t.procs[1].wrote
  {
    moves := ThenChecked(w, [], 1, MoveName(dana, x, z));
    assert !HeldByAnother(w.db, z, dana);
    moves := ThenCommitted(w, moves, 1);
    moves := Then(w, moves, Tick(COOLDOWN));
  }

  /**
   A newcomer's claim commits, and before its last read another request of theirs renames them: the claim answers
   "taken" although it went through.
   */
  lemma ClaimMayNotShow(w: World, dana: string, a: string, b: string) returns (moves: seq<Move>)
    requires Initial(w) && w.db.reserves == map[] && IsHandle(a) && IsHandle(b) && a != b
    requires dana in w.db.users && w.db.users[dana].kind.Person? && w.db.users[dana].handle.None?
    requires !Held(w.db, a) && !Held(w.db, b)
    ensures 1 in Run(w, moves).procs
    ensures Run(w, moves).procs[1].pc == Answered(ClaimAnswer(None)) && Run(w, moves).procs[1].wrote
  {
    moves := ThenClaimed(w, dana, a);
    var db := Run(w, moves).db;
    assert db.users[dana].changedAt.None?;
    assert !HeldByAnother(db, b, dana);
    moves := MovesOn(w, moves, dana, a, b);
    moves := Then(w, moves, Go(1, Proceed));
  }

  lemma ThenClaimed(w: World, dana: string, a: string) returns (moves: seq<Move>)
    requires Initial(w) && w.db.reserves == map[] && IsHandle(a) && !Held(w.db, a)
    requires Claimable(w.db, dana)
    ensures var t := Run(w, moves);
      && t.db == GiveHandle(w.db, dana, a) && t.procs.Keys == {1}
      && t.procs[1].req == ClaimName(dana, a) && t.procs[1].pc.Reread? && t.procs[1].wrote
  {
    moves := Then(w, [], Spawn(1, ClaimName(dana, a)));
    moves := Then(w, moves, Go(1, Proceed));
    moves := Then(w, moves, Go(1, Proceed));
    assert !HeldByAnother(w.db, a, dana);
    moves := Then(w, moves, Go(1, Proceed));
  }

  lemma MovesOn(w: World, moves: seq<Move>, usr: string, prev: string, next: string) returns (more: seq<Move>)
    requires 2 !in Run(w, moves).procs && IsHandle(next) && prev != next
    requires Renamable(Run(w, moves).db, usr, prev) && !KeptFromOthers(Run(w, moves).db, next, usr)
    requires !HeldByAnother(Run(w, moves).db, next, usr) && IdsKeyed(Run(w, moves).db)
    ensures var t, t' := Run(w, moves), Run(w, more);
      && t'.db == Committed(t.db, usr, prev, next)
      && forall q :: q in t.procs ==> q in t'.procs && t'.procs[q] == t.procs[q]
  {
    more := ThenChecked(w, moves, 2, MoveName(usr, prev, next));
    more := ThenCommitted(w, more, 2);
  }
}
