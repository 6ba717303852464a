/**
 Kept names when requests interleave. The tables stay coherent, but the name a reserve keeps can be held by somebody
 whose check came before it. Here is what then depends on nobody holding the name, and when that is certain.
 */
module KeptNames {
  import opened Wrappers
  import opened Names
  import opened Roster
  import opened HandleRaces
  import HandleRuns

  // ---- What every interleaving keeps of the two tables ----

  lemma ActKeepsCoherent(db: State, pr: Process, choice: Choice, steps: nat)
    requires Coherent(db) && LegalRequest(pr.req)
    ensures Coherent(Act(db, pr, choice, steps).0)
  {
    if Act(db, pr, choice, steps).0 != db {
      match pr.req
      case Enrol(sub, newIds) => AddPersonKeepsCoherent(db, newIds(pr.attempt), sub);
      case ClaimName(usr, h) => GiveHandleKeepsCoherent(db, usr, h);
      case MoveName(usr, prev, h) => CommittedKeepsCoherent(db, usr, prev, h);
    }
  }

  lemma NextKeepsCoherent(w: World, m: Move)
    requires HandleRaces.Inv(w) && Coherent(w.db)
    ensures Coherent(Next(w, m).db)
  {
    match m
    case Spawn(_, _) =>
    case Tick(dt) => WaitKeepsCoherent(w.db, dt);
    case Go(p, choice) =>
      if p in w.procs {
        assert ProcInv(w, w.procs[p]);
        ActKeepsCoherent(w.db, w.procs[p], choice, w.steps);
      }
  }

  /**
   In every interleaving a user has at most one reserve row, whose owner holds exactly its `new_handle`, differs from
   the name kept and last moved 100 days before it expires.
   */
  lemma {:induction false} RunKeepsCoherent(w: World, moves: seq<Move>)
    requires Initial(w) && Coherent(w.db)
    ensures Coherent(Run(w, moves).db)
  {
    if moves != [] {
      RunKeepsCoherent(w, moves[..|moves| - 1]);
      RunKeepsInv(w, moves[..|moves| - 1]);
      NextKeepsCoherent(Run(w, moves[..|moves| - 1]), moves[|moves| - 1]);
    }
  }

  // ---- Taking a name back ----

  /** Whoever holds a kept name is not its owner. */
  lemma HolderIsAnother(s: State, n: string)
    requires Coherent(s) && n in s.reserves
    ensures Held(s, n) <==> HeldByAnother(s, n, s.reserves[n].usrId)
  {
    assert ReserveIsLastMove(s, n);
    if Held(s, n) {
      assert Holder(s, n) != s.reserves[n].usrId;
    }
  }

  /**
   Past the cooldown, the owner of a live reserve can take the name back exactly when nobody holds it. Nobody does as
   long as requests run one at a time; a request that raced the owner's rename can.
   */
  lemma TakeBackExactly(s: State, n: string)
    requires Coherent(s) && n in s.reserves && Live(s.reserves[n], s.now)
    requires s.now >= s.reserves[n].expiresAt - RESERVATION + COOLDOWN
    ensures var r := s.reserves[n];
      Rename(s, r.usrId, r.newHandle, n).1.Renamed? <==> !Held(s, n)
  {
    assert ReserveIsLastMove(s, n);
    HolderIsAnother(s, n);
  }

  // ---- When a kept name is safe ----

  /** A request of somebody else for the name is past its look for a reserve. */
  ghost predicate InFlight(w: World, n: string, usr: string) {
    exists p :: p in w.procs && Threatens(w.procs[p], n, usr)
  }

  predicate Threatens(pr: Process, n: string, usr: string) {
    !pr.req.Enrol? && pr.pc.Write? && pr.req.target == n && pr.req.usr != usr
  }

  /** The name is kept for this user as the reserve row says, and nobody holds it. */
  ghost predicate KeptAs(db: State, n: string, r: Reserve) {
    n in db.reserves && db.reserves[n] == r && !Held(db, n)
  }

  /** This step is a rename of the user that commits. */
  ghost predicate CommitsRename(w: World, m: Move, usr: string) {
    && m.Go? && m.p in w.procs && w.procs[m.p].req.MoveName? && w.procs[m.p].req.usr == usr
    && Next(w, m).db != w.db
  }

  /** No rename of the user commits during the moves. */
  ghost predicate NoRenameOf(w: World, moves: seq<Move>, usr: string) {
    moves == [] ||
    (NoRenameOf(w, moves[..|moves| - 1], usr) && !CommitsRename(Run(w, moves[..|moves| - 1]), moves[|moves| - 1], usr))
  }

  lemma ActKeepsName(db: State, pr: Process, choice: Choice, steps: nat, n: string, r: Reserve)
    requires Coherent(db) && LegalRequest(pr.req) && KeptAs(db, n, r) && !Threatens(pr, n, r.usrId)
    requires pr.req.MoveName? && pr.req.usr == r.usrId ==> Act(db, pr, choice, steps).0 == db
    ensures KeptAs(Act(db, pr, choice, steps).0, n, r)
  {
    var db' := Act(db, pr, choice, steps).0;
    if db' != db {
      assert ReserveIsLastMove(db, n);
      match pr.req
      case Enrol(sub, newIds) =>
        assert forall id :: id in db'.users && db'.users[id].handle.Some? ==>
          id in db.users && db'.users[id] == db.users[id];
      case ClaimName(usr, h) =>
        assert forall id :: id in db'.users && id != usr ==> id in db.users && db'.users[id] == db.users[id];
      case MoveName(usr, prev, h) =>
        assert prev != n by { assert db.users[usr].handle == Some(prev); }
        assert forall id :: id in db'.users && id != usr ==> id in db.users && db'.users[id] == db.users[id];
    }
  }

  lemma NextKeepsName(w: World, m: Move, n: string, r: Reserve)
    requires HandleRaces.Inv(w) && Coherent(w.db) && KeptAs(w.db, n, r) && Live(r, Next(w, m).db.now)
    requires !InFlight(w, n, r.usrId) && !CommitsRename(w, m, r.usrId)
    ensures KeptAs(Next(w, m).db, n, r) && !InFlight(Next(w, m), n, r.usrId)
  {
    var w' := Next(w, m);
    if m.Go? && m.p in w.procs {
      assert ProcInv(w, w.procs[m.p]);
      assert !Threatens(w.procs[m.p], n, r.usrId);
      ActKeepsName(w.db, w.procs[m.p], m.choice, w.steps, n, r);
    }
    forall p | p in w'.procs ensures !Threatens(w'.procs[p], n, r.usrId) {
      assert p in w.procs ==> !Threatens(w.procs[p], n, r.usrId);
      if Threatens(w'.procs[p], n, r.usrId) {
        WriteSince(w, m, p);
        assert false;
      }
    }
  }

  lemma NextAdvances(w: World, m: Move)
    ensures Next(w, m).db.now >= w.db.now
  {
  }

  lemma {:induction false} NameStaysKept(t: World, moves: seq<Move>, n: string, r: Reserve)
    requires HandleRaces.Inv(t) && Stamps(t) && Coherent(t.db)
    requires KeptAs(t.db, n, r) && !InFlight(t, n, r.usrId)
    requires NoRenameOf(t, moves, r.usrId) && Live(r, Run(t, moves).db.now)
    ensures HandleRaces.Inv(Run(t, moves)) && Stamps(Run(t, moves)) && Coherent(Run(t, moves).db)
    ensures KeptAs(Run(t, moves).db, n, r) && !InFlight(Run(t, moves), n, r.usrId)
  {
    if moves != [] {
      var t1, m := Run(t, moves[..|moves| - 1]), moves[|moves| - 1];
      NextAdvances(t1, m);
      NameStaysKept(t, moves[..|moves| - 1], n, r);
      NextKeepsInv(t1, m);
      NextKeepsCoherent(t1, m);
      NextKeepsName(t1, m, n, r);
    }
  }

  /**
   Reserve exclusivity, with requests interleaved. In any reachable state, a live reserve on a name nobody holds stays
   as it is and the name stays unheld until it expires or its owner's rename commits, whatever everybody else sends, as
   long as no request of somebody else for the name is already past its look for a reserve.
   */
  lemma KeptNameSafe(w: World, before: seq<Move>, moves: seq<Move>, n: string)
    requires Initial(w) && Coherent(w.db)
    requires n in Run(w, before).db.reserves && !Held(Run(w, before).db, n)
    requires var r := Run(w, before).db.reserves[n];
      && !InFlight(Run(w, before), n, r.usrId)
      && NoRenameOf(Run(w, before), moves, r.usrId)
      && Live(r, Run(Run(w, before), moves).db.now)
    ensures var r := Run(w, before).db.reserves[n];
      var db := Run(Run(w, before), moves).db;
      && Coherent(db) && KeptAs(db, n, r) && ControlOf(db, n) == KeptFor(r.usrId, r.expiresAt)
      && UserById(db, r.usrId).Some? && UserById(db, r.usrId).value.handle == Some(r.newHandle)
  {
    RunKeepsInv(w, before);
    RunKeepsCoherent(w, before);
    var t := Run(w, before);
    NameStaysKept(t, moves, n, t.db.reserves[n]);
    assert ReserveIsLastMove(Run(t, moves).db, n);
  }

  /**
   So, with requests interleaved, take-back is enabled from 30 to 100 days after the rename, as long as nobody was past
   the look when the name was left: the rename goes through and leaves the owner one reserve, on the name just left.
   */
  lemma TakeBackInRaces(w: World, before: seq<Move>, moves: seq<Move>, n: string)
    requires Initial(w) && Coherent(w.db)
    requires n in Run(w, before).db.reserves && !Held(Run(w, before).db, n)
    requires var r := Run(w, before).db.reserves[n];
      && !InFlight(Run(w, before), n, r.usrId)
      && NoRenameOf(Run(w, before), moves, r.usrId)
      && r.expiresAt - RESERVATION + COOLDOWN <= Run(Run(w, before), moves).db.now < r.expiresAt
    ensures var r := Run(w, before).db.reserves[n];
      var db := Run(Run(w, before), moves).db;
      var (db', o) := Rename(db, r.usrId, r.newHandle, n);
      && o.Renamed? && o.user.handle == Some(n)
      && db'.reserves.Keys == db.reserves.Keys - {n} + {r.newHandle}
      && db'.reserves[r.newHandle] == Reserve(r.usrId, n, db.now + RESERVATION)
      && forall m :: m in db'.reserves && db'.reserves[m].usrId == r.usrId ==> m == r.newHandle
  {
    KeptNameSafe(w, before, moves, n);
    var r := Run(w, before).db.reserves[n];
    assert ReserveIsLastMove(Run(Run(w, before), moves).db, n);
    HandleRuns.TakeBackNow(Run(Run(w, before), moves).db, r.usrId, n, r.newHandle);
  }

  /** After the theft the owner's take-back answers "taken", thirty days later and with the reserve still live. */
  lemma StolenNotTakenBack(w: World, dana: string, evan: string, x: string, y: string, z: string)
    returns (moves: seq<Move>)
    requires TwoPeople(w, dana, evan, x, y, z) && Coherent(w.db)
    ensures var db := Run(w, moves).db;
      && x in db.reserves && Live(db.reserves[x], db.now) && db.reserves[x].usrId == dana
      && !Cooling(db, dana) && UserById(db, dana).Some? && UserById(db, dana).value.handle == Some(z)
      && Rename(db, dana, z, x).1 == Taken
      && evan in db.users && db.users[evan].handle == Some(x) && db.users[evan].kind.Person?
  {
    moves := ReserveCanBeTaken(w, dana, evan, x, y, z);
    var stolen := Run(w, moves).db;
    moves := Then(w, moves, Tick(COOLDOWN));
    RunKeepsCoherent(w, moves);
    var db := Run(w, moves).db;
    assert ReserveIsLastMove(db, x);
    assert db == stolen.(now := stolen.now + COOLDOWN);
    TakeBackExactly(db, x);
  }

  // ---- How often a name can change ----

  /** A rename of the user that has committed. */
  predicate Committing(pr: Process, usr: string) {
    pr.req.MoveName? && pr.req.usr == usr && pr.wrote
  }

  predicate Apart(a: nat, b: nat) {
    a >= b + COOLDOWN || b >= a + COOLDOWN
  }

  /** The row's last change is no older than any commit of its user. */
  ghost predicate CommitsPast(w: World, usr: string) {
    forall p :: p in w.procs && Committing(w.procs[p], usr) ==>
      && usr in w.db.users && w.db.users[usr].kind.Person? && w.db.users[usr].changedAt.Some?
      && w.procs[p].wroteAt <= w.db.users[usr].changedAt.value
  }

  ghost predicate CommitsApart(w: World, usr: string) {
    forall p, q | p in w.procs && q in w.procs && p != q
                  && Committing(w.procs[p], usr) && Committing(w.procs[q], usr) ::
      Apart(w.procs[p].wroteAt, w.procs[q].wroteAt)
  }

  /** A step of a request leaves its earlier commit alone, or is the commit, a cooldown after the last change. */
  lemma ActCommits(db: State, pr: Process, choice: Choice, steps: nat, usr: string)
    requires Rows(db) && LegalRequest(pr.req) && NotYetWritten(pr)
    ensures var (db', pr', _) := Act(db, pr, choice, steps);
      && (Committing(pr, usr) ==> Committing(pr', usr) && pr'.wroteAt == pr.wroteAt)
      && (Committing(pr', usr) && !Committing(pr, usr) ==>
            && pr'.wroteAt == db.now && usr in db.users && usr in db'.users
            && db'.users[usr].kind.Person? && db'.users[usr].changedAt == Some(db.now)
            && (db.users[usr].changedAt.Some? ==> db.users[usr].changedAt.value + COOLDOWN <= db.now))
  {
  }

  lemma NextKeepsCommits(w: World, m: Move, usr: string)
    requires HandleRaces.Inv(w) && CommitsPast(w, usr) && CommitsApart(w, usr)
    ensures CommitsPast(Next(w, m), usr) && CommitsApart(Next(w, m), usr)
  {
    NextRelied(w, m);
    if m.Go? && m.p in w.procs {
      assert ProcInv(w, w.procs[m.p]);
      ActCommits(w.db, w.procs[m.p], m.choice, w.steps, usr);
    }
  }

  lemma {:induction false} RunKeepsCommits(w: World, moves: seq<Move>, usr: string)
    requires Initial(w)
    ensures CommitsPast(Run(w, moves), usr) && CommitsApart(Run(w, moves), usr)
  {
    if moves != [] {
      RunKeepsCommits(w, moves[..|moves| - 1], usr);
      RunKeepsInv(w, moves[..|moves| - 1]);
      NextKeepsCommits(Run(w, moves[..|moves| - 1]), moves[|moves| - 1], usr);
    }
  }

  /** In every interleaving two renames of one user commit at least 30 days apart; the transaction sees to it. */
  lemma CommitsSpaced(w: World, moves: seq<Move>, usr: string, p: nat, q: nat)
    requires Initial(w) && p in Run(w, moves).procs && q in Run(w, moves).procs && p != q
    requires Committing(Run(w, moves).procs[p], usr) && Committing(Run(w, moves).procs[q], usr)
    ensures Apart(Run(w, moves).procs[p].wroteAt, Run(w, moves).procs[q].wroteAt)
  {
    RunKeepsCommits(w, moves, usr);
  }

  /** The latest of some commits, and the others at least a cooldown before it. */
  lemma {:induction false} LatestCommit(w: World, ps: set<nat>, usr: string) returns (p: nat)
    requires ps != {} && ps <= w.procs.Keys && CommitsApart(w, usr)
    requires forall q :: q in ps ==> Committing(w.procs[q], usr)
    ensures p in ps && forall q :: q in ps && q != p ==> w.procs[q].wroteAt + COOLDOWN <= w.procs[p].wroteAt
    decreases |ps|
  {
    p :| p in ps;
    if ps != {p} {
      var rest := ps - {p};
      assert rest != {};
      var best := LatestCommit(w, rest, usr);
      assert Apart(w.procs[p].wroteAt, w.procs[best].wroteAt);
      if w.procs[p].wroteAt < w.procs[best].wroteAt {
        p := best;
      }
    }
  }

  lemma {:induction false} SpacedSet(w: World, ps: set<nat>, usr: string, lo: nat, hi: nat)
    requires ps <= w.procs.Keys && CommitsApart(w, usr) && lo <= hi
    requires forall q :: q in ps ==> Committing(w.procs[q], usr) && lo <= w.procs[q].wroteAt <= hi
    ensures (|ps| - 1) * COOLDOWN <= hi - lo
    decreases |ps|
  {
    if |ps| > 1 {
      var p := LatestCommit(w, ps, usr);
      var rest := ps - {p};
      assert |rest| == |ps| - 1 && rest != {};
      var q :| q in rest;
      SpacedSet(w, rest, usr, lo, w.procs[p].wroteAt - COOLDOWN);
    }
  }

  /** In every interleaving, in any window of length L a user's renames commit at most L / 30d + 1 times. */
  lemma CommitRate(w: World, moves: seq<Move>, usr: string, ps: set<nat>, lo: nat, length: nat)
    requires Initial(w) && ps <= Run(w, moves).procs.Keys
    requires forall p :: p in ps ==>
      Committing(Run(w, moves).procs[p], usr) && lo <= Run(w, moves).procs[p].wroteAt <= lo + length
    ensures |ps| <= length / COOLDOWN + 1
  {
    RunKeepsCommits(w, moves, usr);
    SpacedSet(Run(w, moves), ps, usr, lo, lo + length);
  }
}
