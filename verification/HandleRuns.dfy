/**
 The handle lifecycle over whole runs: what holds after any sequence of roster operations, each one atomic,
 with the clock advancing between them. (What survives when their steps interleave is in `HandleRaces`.)
 */
module HandleRuns {
  import opened Wrappers
  import opened Names
  import opened Roster

  datatype Op =
    | Contact(sub: string, newId: string)
    | Claiming(usr: string, handle: string)
    | Renaming(usr: string, prev: string, next: string)
    | Seeding(id: string, handle: string)
    | Waiting(dt: nat)

  /** What the callers guarantee: names are canonical, and nobody renames onto the name they pass as their own. */
  predicate Legal(op: Op) {
    match op
    case Claiming(_, h) => IsHandle(h)
    case Renaming(_, prev, next) => IsHandle(next) && prev != next
    case Seeding(_, h) => IsHandle(h)
    case _ => true
  }

  predicate AllLegal(ops: seq<Op>) {
    forall i :: 0 <= i < |ops| ==> Legal(ops[i])
  }

  ghost function Step(s: State, op: Op): State {
    match op
    case Contact(sub, newId) => EnsureUser(s, sub, newId).0
    case Claiming(usr, h) => Claim(s, usr, h).0
    case Renaming(usr, prev, next) => Rename(s, usr, prev, next).0
    case Seeding(id, h) => SeedOrganization(s, id, h)
    case Waiting(dt) => s.(now := s.now + dt)
  }

  ghost function Run(s: State, ops: seq<Op>): State
    decreases |ops|
  {
    if ops == [] then s else Run(Step(s, ops[0]), ops[1..])
  }

  /** After the migrations: reserved names and organizations, nobody has renamed. */
  ghost predicate Initial(s: State) {
    && RowsKeyed(s) && HandlesUnique(s) && s.reserves == map[]
    && forall id :: id in s.users ==> !s.users[id].kind.Person? && s.users[id].changedAt.None?
  }

  lemma StepKeepsInv(s: State, op: Op)
    requires Inv(s) && Legal(op)
    ensures Inv(Step(s, op))
  {
    match op
    case Contact(sub, newId) => EnsureUserKeepsInv(s, sub, newId);
    case Claiming(usr, h) => ClaimKeepsInv(s, usr, h);
    case Renaming(usr, prev, next) => RenameKeepsInv(s, usr, prev, next);
    case Seeding(id, h) => SeedKeepsInv(s, id, h);
    case Waiting(dt) => WaitKeepsInv(s, dt);
  }

  lemma StepKeepsCoherent(s: State, op: Op)
    requires Coherent(s) && Legal(op)
    ensures Coherent(Step(s, op))
  {
    if Step(s, op) != s {
      match op
      case Contact(sub, newId) => AddPersonKeepsCoherent(s, newId, sub);
      case Claiming(usr, h) => GiveHandleKeepsCoherent(s, usr, h);
      case Renaming(usr, prev, next) => CommittedKeepsCoherent(s, usr, prev, next);
      case Seeding(id, h) => SeedKeepsCoherent(s, id, h);
      case Waiting(dt) => WaitKeepsCoherent(s, dt);
    }
  }

  lemma SeedKeepsCoherent(s: State, id: string, h: string)
    requires Coherent(s) && IsHandle(h) && SeedOrganization(s, id, h) != s
    ensures Coherent(SeedOrganization(s, id, h))
  {
    assert Rows(SeedOrganization(s, id, h));
    RowChangeKeepsMoves(s, SeedOrganization(s, id, h), id);
  }

  /** The lifecycle invariant holds in every reachable state. */
  lemma {:induction false} RunKeepsInv(s: State, ops: seq<Op>)
    requires Inv(s) || Initial(s)
    requires AllLegal(ops)
    ensures Inv(Run(s, ops))
    decreases |ops|
  {
    if ops != [] {
      StepKeepsInv(s, ops[0]);
      RunKeepsInv(Step(s, ops[0]), ops[1..]);
    }
  }

  // ---- The handler of PUT /v1/me/handle ----

  datatype PutAnswer =
    | BadHandle
    | Accepted(user: User)
    | Conflict
    | CoolingDown(until: nat)
    | Failed(error: DbError)

  /** The handler over the stored operations: canonicalise, find or create the caller, then keep, move or claim. */
  ghost function PutHandle(s: State, sub: string, input: string, newId: string): (State, PutAnswer) {
    match CanonicalHandle(input)
    case None => (s, BadHandle)
    case Some(h) =>
      var (s1, me) := EnsureUser(s, sub, newId);
      match me
      case Err(e) => (s1, Failed(e))
      case Ok(u) =>
        if u.handle == Some(h) then (s1, Accepted(u))
        else if u.usrId.None? then (s1, Conflict)
        else if u.handle.Some? then
          var (s2, o) := Rename(s1, u.usrId.value, u.handle.value, h);
          match o {
            case Renamed(v) => (s2, Accepted(v))
            case Taken => (s2, Conflict)
            case Cooldown(until) => (s2, CoolingDown(until))
          }
        else
          var (s2, r) := Claim(s1, u.usrId.value, h);
          (s2, if r.Some? then Accepted(r.value) else Conflict)
  }

  /** The stored operations the handler issues for one request. */
  ghost function PutOps(s: State, sub: string, input: string, newId: string): seq<Op> {
    match CanonicalHandle(input)
    case None => []
    case Some(h) =>
      var (s1, me) := EnsureUser(s, sub, newId);
      if me.Err? || me.value.handle == Some(h) || me.value.usrId.None? then [Contact(sub, newId)]
      else if me.value.handle.Some? then
        [Contact(sub, newId), Renaming(me.value.usrId.value, me.value.handle.value, h)]
      else [Contact(sub, newId), Claiming(me.value.usrId.value, h)]
  }

  lemma ShortRuns(s: State, ops: seq<Op>)
    ensures |ops| == 1 ==> Run(s, ops) == Step(s, ops[0])
    ensures |ops| == 2 ==> Run(s, ops) == Step(Step(s, ops[0]), ops[1])
  {
    if |ops| == 2 {
      assert Run(s, ops) == Run(Step(s, ops[0]), ops[1..]);
      assert ops[1..][1..] == [];
    }
  }

  /** The handler only issues legal operations, so every request is covered by the theorems about runs. */
  lemma HandlerIsLegalRun(s: State, sub: string, input: string, newId: string)
    requires Inv(s)
    ensures AllLegal(PutOps(s, sub, input, newId))
    ensures Run(s, PutOps(s, sub, input, newId)) == PutHandle(s, sub, input, newId).0
    ensures Inv(PutHandle(s, sub, input, newId).0)
  {
    PutOpsLegal(s, sub, input, newId);
    ShortRuns(s, PutOps(s, sub, input, newId));
    ContactGivesRow(s, sub, newId);
    RunKeepsInv(s, PutOps(s, sub, input, newId));
  }

  lemma PutOpsLegal(s: State, sub: string, input: string, newId: string)
    ensures AllLegal(PutOps(s, sub, input, newId))
  {
  }

  /**
   What the caller learns. An accepted request leaves the caller's row holding the canonical form of what was
   asked, whatever branch was taken; any other answer leaves every name under the same control.
   */
  lemma PutHandleMeans(s: State, sub: string, input: string, newId: string)
    requires Inv(s)
    ensures var (s', a) := PutHandle(s, sub, input, newId);
      && (a.BadHandle? <==> CanonicalHandle(input).None?)
      && (a.Accepted? ==>
            && Enrolled(s', sub) && s'.users[Account(s', sub)] == a.user
            && a.user.handle == CanonicalHandle(input)
            && ControlOf(s', a.user.handle.value) == HeldBy(Account(s', sub)))
      && (!a.Accepted? ==> forall n :: ControlOf(s', n) == ControlOf(s, n))
  {
    var (s', a) := PutHandle(s, sub, input, newId);
    HandlerIsLegalRun(s, sub, input, newId);
    if CanonicalHandle(input).Some? {
      ContactKeepsControl(s, sub, newId);
      var (s1, me) := EnsureUser(s, sub, newId);
      if me.Ok? {
        ContactGivesRow(s, sub, newId);
        AnswerMeans(s1, sub, me.value.usrId.value, CanonicalHandle(input).value, s', a);
      }
    }
  }

  /** The handler's three branches after first contact, from the caller's row `id`. */
  lemma AnswerMeans(s1: State, sub: string, id: string, h: string, s': State, a: PutAnswer)
    requires Inv(s1) && Inv(s')
    requires id in s1.users && s1.users[id].sub == Some(sub)
    requires
      var u := s1.users[id];
      if u.handle == Some(h) then s' == s1 && a == Accepted(u)
      else if u.handle.Some? then
        var (s2, o) := Rename(s1, id, u.handle.value, h);
        s' == s2 && (o.Renamed? ==> a == Accepted(o.user)) && (a.Accepted? ==> o.Renamed?)
      else
        var (s2, r) := Claim(s1, id, h);
        s' == s2 && a == (if r.Some? then Accepted(r.value) else Conflict)
    ensures a.Accepted? ==>
      && Enrolled(s', sub) && Account(s', sub) == id && s'.users[id] == a.user && a.user.handle == Some(h)
      && ControlOf(s', h) == HeldBy(id)
    ensures !a.Accepted? ==> s' == s1
  {
    if a.Accepted? {
      assert s'.users[id] == a.user && a.user.sub == Some(sub) && a.user.handle == Some(h);
      HolderIs(s', id, h);
    }
  }

  /** The row changed its handle less than 30 days ago. */
  predicate ChangedLately(u: User, now: nat) {
    u.changedAt.Some? && now < u.changedAt.value + 30 * DAY
  }

  /** Nobody controls the name, or it is kept for this very user. */
  ghost predicate Obtainable(s: State, h: string, id: string) {
    ControlOf(s, h) == Free || (ControlOf(s, h).KeptFor? && ControlOf(s, h).usr == id)
  }

  /**
   Which answer the handler gives to somebody on the roster, exactly. The name already held is accepted at any time;
   another name is cooling down within 30 days of the last rename, and `until` is the end of them; outside them it is
   accepted when nobody controls it, or for a rename also when it is kept for the caller; anything else conflicts.
   */
  lemma PutHandleExact(s: State, sub: string, input: string, newId: string)
    requires Inv(s) && Enrolled(s, sub) && CanonicalHandle(input).Some?
    ensures var a := PutHandle(s, sub, input, newId).1;
      var h, id := CanonicalHandle(input).value, Account(s, sub);
      var u := s.users[id];
      && (a.CoolingDown? <==> u.handle.Some? && u.handle != Some(h) && ChangedLately(u, s.now))
      && (a.CoolingDown? ==> a.until == u.changedAt.value + 30 * DAY)
      && (a.Accepted? <==>
            || u.handle == Some(h)
            || (u.handle.None? && ControlOf(s, h) == Free)
            || (u.handle.Some? && !ChangedLately(u, s.now) && Obtainable(s, h, id)))
      && (a.Conflict? <==> !a.CoolingDown? && !a.Accepted?)
  {
    var h, id := CanonicalHandle(input).value, Account(s, sub);
    HandleFixedPoint(input);
    HandleFixedPoint(h);
    if s.users[id].handle.Some? && s.users[id].handle != Some(h) {
      RenameExact(s, id, s.users[id].handle.value, h);
    } else if s.users[id].handle.None? {
      ClaimExact(s, id, h);
    }
  }

  /** And to a newcomer: an error exactly when the fresh id is taken, else the name when nobody controls it. */
  lemma PutHandleNewcomer(s: State, sub: string, input: string, newId: string)
    requires Inv(s) && !Enrolled(s, sub) && CanonicalHandle(input).Some?
    ensures var a := PutHandle(s, sub, input, newId).1;
      var h := CanonicalHandle(input).value;
      && (a.Failed? <==> newId in s.users) && (a.Failed? ==> a.error == RecordExists)
      && (a.Accepted? <==> newId !in s.users && ControlOf(s, h) == Free)
      && (a.Conflict? <==> newId !in s.users && ControlOf(s, h) != Free)
  {
    var h := CanonicalHandle(input).value;
    HandleFixedPoint(input);
    HandleFixedPoint(h);
    if newId !in s.users {
      var s1 := EnsureUser(s, sub, newId).0;
      ContactGivesRow(s, sub, newId);
      ContactKeepsControl(s, sub, newId);
      ClaimExact(s1, newId, h);
    }
  }

  lemma ContactGivesRow(s: State, sub: string, newId: string)
    requires Inv(s)
    ensures var (s1, me) := EnsureUser(s, sub, newId);
      me.Ok? ==> me.value.usrId.Some? && me.value.usrId.value in s1.users
                 && s1.users[me.value.usrId.value] == me.value && me.value.sub == Some(sub) && Inv(s1)
  {
    EnsureUserKeepsInv(s, sub, newId);
  }

  lemma ContactKeepsControl(s: State, sub: string, newId: string)
    requires Inv(s)
    ensures forall n :: ControlOf(EnsureUser(s, sub, newId).0, n) == ControlOf(s, n)
  {
    var s' := EnsureUser(s, sub, newId).0;
    EnsureUserKeepsInv(s, sub, newId);
    forall n ensures ControlOf(s', n) == ControlOf(s, n) {
      SameControl(s, s', n);
    }
  }

  // ---- A kept name stays kept ----

  predicate RenamedBy(op: Op, usr: string) {
    op.Renaming? && op.usr == usr
  }

  ghost predicate Keeps(s: State, n: string, r: Reserve) {
    n in s.reserves && s.reserves[n] == r && Live(r, s.now)
  }

  /** The row and the reserve of this user are as they were. */
  predicate SameHoldings(s: State, s': State, n: string, usr: string) {
    && usr in s.users && usr in s'.users && s'.users[usr] == s.users[usr]
    && n in s.reserves && n in s'.reserves && s'.reserves[n] == s.reserves[n]
  }

  lemma RenameLeavesOthers(s: State, usr: string, prev: string, next: string, n: string)
    requires Inv(s) && n in s.reserves && Live(s.reserves[n], s.now) && s.reserves[n].usrId != usr
    ensures SameHoldings(s, Rename(s, usr, prev, next).0, n, s.reserves[n].usrId)
  {
    assert ReserveIsLastMove(s, n);
  }

  lemma OthersLeaveReserve(s: State, op: Op, n: string)
    requires Inv(s) && n in s.reserves && !op.Renaming?
    ensures SameHoldings(s, Step(s, op), n, s.reserves[n].usrId)
  {
    assert ReserveIsLastMove(s, n);
  }

  lemma StepKeepsReserve(s: State, op: Op, n: string, r: Reserve)
    requires Inv(s) && Legal(op) && Keeps(s, n, r)
    requires !RenamedBy(op, r.usrId)
    ensures n in Step(s, op).reserves && Step(s, op).reserves[n] == r
    ensures r.usrId in s.users && UserById(Step(s, op), r.usrId) == UserById(s, r.usrId)
  {
    if op.Renaming? {
      RenameLeavesOthers(s, op.usr, op.prev, op.next, n);
    } else {
      OthersLeaveReserve(s, op, n);
    }
  }

  lemma ClockAdvances(s: State, ops: seq<Op>)
    ensures Run(s, ops).now >= s.now
    decreases |ops|
  {
    if ops != [] {
      ClockAdvances(Step(s, ops[0]), ops[1..]);
    }
  }

  /**
   Reserve exclusivity: until it expires, the reserve on a name can be ended only by a rename of its owner.
   Nobody else's operations, in any number and order, take the name or move the owner's row.
   */
  lemma {:induction false} KeptNameStaysKept(s: State, ops: seq<Op>, n: string)
    requires Inv(s) && AllLegal(ops)
    requires n in s.reserves && Run(s, ops).now < s.reserves[n].expiresAt
    requires forall i :: 0 <= i < |ops| ==> !RenamedBy(ops[i], s.reserves[n].usrId)
    ensures var s' := Run(s, ops);
      && Keeps(s', n, s.reserves[n]) && !Held(s', n)
      && UserById(s', s.reserves[n].usrId) == UserById(s, s.reserves[n].usrId)
      && ControlOf(s', n) == KeptFor(s.reserves[n].usrId, s.reserves[n].expiresAt)
    decreases |ops|
  {
    RunKeepsInv(s, ops);
    ClockAdvances(s, ops);
    if ops != [] {
      StepKeepsReserve(s, ops[0], n, s.reserves[n]);
      StepKeepsInv(s, ops[0]);
      KeptNameStaysKept(Step(s, ops[0]), ops[1..], n);
    }
  }

  // ---- Taking a name back ----

  /**
   Take-back is always enabled. After a rename at time c, whatever everybody else does, in [c+30d, c+100d) the
   owner can rename back: the transaction commits, the reserve that was taken back is gone, and the only
   reserve of the owner is on the name just left.
   */
  lemma TakeBackSucceeds(s: State, usr: string, prev: string, next: string, ops: seq<Op>)
    requires Inv(s) && IsHandle(next) && prev != next && AllLegal(ops)
    requires Rename(s, usr, prev, next).1.Renamed?
    requires forall i :: 0 <= i < |ops| ==> !RenamedBy(ops[i], usr)
    requires s.now + COOLDOWN <= Run(Rename(s, usr, prev, next).0, ops).now < s.now + RESERVATION
    ensures var t := Run(Rename(s, usr, prev, next).0, ops);
      var (t', o) := Rename(t, usr, next, prev);
      && o.Renamed? && o.user.handle == Some(prev)
      && t'.reserves.Keys == t.reserves.Keys - {prev} + {next}
      && t'.reserves[next] == Reserve(usr, prev, t.now + RESERVATION)
      && forall m :: m in t'.reserves && t'.reserves[m].usrId == usr ==> m == next
  {
    var s1 := Rename(s, usr, prev, next).0;
    RenameKeepsInv(s, usr, prev, next);
    KeptNameStaysKept(s1, ops, prev);
    RunKeepsInv(s1, ops);
    TakeBackNow(Run(s1, ops), usr, prev, next);
  }

  lemma TakeBackNow(t: State, usr: string, prev: string, next: string)
    requires Coherent(t) && !Held(t, prev) && prev != next
    requires prev in t.reserves && t.reserves[prev].usrId == usr && t.reserves[prev].newHandle == next
    requires Live(t.reserves[prev], t.now)
    requires t.now >= t.reserves[prev].expiresAt - RESERVATION + COOLDOWN
    ensures var (t', o) := Rename(t, usr, next, prev);
      && o.Renamed? && o.user.handle == Some(prev)
      && t'.reserves.Keys == t.reserves.Keys - {prev} + {next}
      && t'.reserves[next] == Reserve(usr, prev, t.now + RESERVATION)
      && forall m :: m in t'.reserves && t'.reserves[m].usrId == usr ==> m == next
  {
    assert ReserveIsLastMove(t, prev);
    assert !HeldByAnother(t, prev, usr);
    assert forall m :: m in t.reserves && t.reserves[m].usrId == usr ==> m == prev;
  }

  /** The same, said of any reachable state: the window is read off the row's own `changedAt`. */
  lemma TakeBackEnabled(s: State, usr: string) returns (n: string)
    requires Inv(s)
    requires usr in s.users && s.users[usr].changedAt.Some?
    requires s.users[usr].changedAt.value + COOLDOWN <= s.now < s.users[usr].changedAt.value + RESERVATION
    ensures ControlOf(s, n) == KeptFor(usr, s.users[usr].changedAt.value + RESERVATION)
    ensures Rename(s, usr, s.users[usr].handle.value, n).1.Renamed?
  {
    assert KeepsAName(s, usr);
    n :| n in s.reserves && s.reserves[n].usrId == usr;
    assert ReserveIsLastMove(s, n);
    RenameExact(s, usr, s.users[usr].handle.value, n);
  }

  // ---- How often, and how many ----

  ghost predicate Completes(s: State, op: Op, usr: string) {
    RenamedBy(op, usr) && Rename(s, op.usr, op.prev, op.next).1.Renamed?
  }

  /** The times at which `usr` completed a rename during a run. */
  ghost function RenameTimes(s: State, ops: seq<Op>, usr: string): seq<nat>
    decreases |ops|
  {
    if ops == [] then []
    else (if Completes(s, ops[0], usr) then [s.now] else []) + RenameTimes(Step(s, ops[0]), ops[1..], usr)
  }

  predicate Spaced(ts: seq<nat>) {
    forall i :: 0 <= i < |ts| - 1 ==> ts[i] + COOLDOWN <= ts[i + 1]
  }

  ghost function LastChange(s: State, usr: string): Option<nat> {
    if usr in s.users then s.users[usr].changedAt else None
  }

  lemma StepChange(s: State, op: Op, usr: string)
    requires Inv(s) && Legal(op)
    ensures Completes(s, op, usr) ==>
              LastChange(Step(s, op), usr) == Some(s.now)
              && (LastChange(s, usr).Some? ==> LastChange(s, usr).value + COOLDOWN <= s.now)
    ensures !Completes(s, op, usr) ==> LastChange(Step(s, op), usr) == LastChange(s, usr)
    ensures Step(s, op).now >= s.now
  {
  }

  lemma {:induction false} RenamesSpaced(s: State, ops: seq<Op>, usr: string)
    requires Inv(s) && AllLegal(ops)
    ensures var ts := RenameTimes(s, ops, usr);
      && Spaced(ts)
      && (ts != [] ==> ts[0] >= s.now)
      && (ts != [] && LastChange(s, usr).Some? ==> ts[0] >= LastChange(s, usr).value + COOLDOWN)
    decreases |ops|
  {
    if ops != [] {
      StepChange(s, ops[0], usr);
      StepKeepsInv(s, ops[0]);
      RenamesSpaced(Step(s, ops[0]), ops[1..], usr);
    }
  }

  function CountIn(ts: seq<nat>, lo: nat, hi: nat): nat {
    if ts == [] then 0 else (if lo <= ts[0] <= hi then 1 else 0) + CountIn(ts[1..], lo, hi)
  }

  lemma {:induction false} NoneInPast(ts: seq<nat>, lo: nat, lo': nat, hi: nat)
    requires Spaced(ts) && lo' <= lo
    requires ts != [] ==> ts[0] >= lo
    ensures CountIn(ts, lo', hi) == CountIn(ts, lo, hi)
    ensures lo > hi ==> CountIn(ts, lo', hi) == 0
  {
    if |ts| > 1 {
      assert ts[1..][0] >= ts[0] + COOLDOWN;
    }
    if ts != [] {
      NoneInPast(ts[1..], lo, lo', hi);
    }
  }

  lemma {:induction false} SpacedCount(ts: seq<nat>, lo: nat, hi: nat)
    requires Spaced(ts) && lo <= hi
    ensures (CountIn(ts, lo, hi) - 1) * COOLDOWN <= hi - lo
  {
    if ts != [] {
      if ts[0] < lo {
        SpacedCount(ts[1..], lo, hi);
      } else {
        NoneInPast(ts, ts[0], lo, hi);
        NoneInPast(ts[1..], ts[0] + COOLDOWN, lo, hi);
        if ts[0] + COOLDOWN <= hi {
          SpacedCount(ts[1..], ts[0] + COOLDOWN, hi);
        }
      }
    }
  }

  /** In any window of length L a user completes at most L / 30d + 1 renames. */
  lemma RenameRate(s: State, ops: seq<Op>, usr: string, lo: nat, length: nat)
    requires Inv(s) && AllLegal(ops)
    ensures CountIn(RenameTimes(s, ops, usr), lo, lo + length) <= length / COOLDOWN + 1
  {
    RenamesSpaced(s, ops, usr);
    SpacedCount(RenameTimes(s, ops, usr), lo, lo + length);
  }

  ghost predicate Controls(s: State, usr: string, n: string) {
    ControlOf(s, n) == HeldBy(usr) || (ControlOf(s, n).KeptFor? && ControlOf(s, n).usr == usr)
  }

  /** At any instant a user controls at most two names, the current handle and one live reserve: of any three,
      two are the same. */
  lemma AtMostTwoNames(s: State, usr: string, a: string, b: string, c: string)
    requires Coherent(s)
    requires Controls(s, usr, a) && Controls(s, usr, b) && Controls(s, usr, c)
    ensures a == b || b == c || a == c
  {
    assert forall n | n in {a, b, c} ::
      s.users[usr].handle == Some(n) || (n in s.reserves && s.reserves[n].usrId == usr);
  }
}
