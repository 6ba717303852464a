/**
 The `user` and `handle_reserve` tables as values, and each roster operation as one atomic step on them.

 A rename keeps the name it leaves for 100 days for its owner. The kept name is a row of a second table that
 expires by the clock and is never swept, so "who controls a name" is spread over two tables and `now`.
 `Control` puts it back together, and `ClaimExact` and `RenameExact` say what the operations do to it.
 */
module Roster {
  import opened Wrappers
  import opened Names

  /** Times are whole seconds; every operation reads the clock once. */
  const DAY: nat := 86400
  const COOLDOWN: nat := 30 * DAY
  const RESERVATION: nat := 100 * DAY

  datatype Kind = Person | Organization | ReservedName

  /** A row of `user`. A reserved name has neither `usrId` nor `sub`; an organization has no `sub`. */
  datatype User = User(usrId: Option<string>, handle: Option<string>, sub: Option<string>,
                       changedAt: Option<nat>, kind: Kind)

  /** A row of `handle_reserve`; its key in the table is the name that was left. */
  datatype Reserve = Reserve(usrId: string, newHandle: string, expiresAt: nat)

  /** `users` is keyed by record id, which is the `usrId` of every row that has one. */
  datatype State = State(users: map<string, User>, reserves: map<string, Reserve>, now: nat)

  datatype DbError = WriteConflict | RecordExists | Vanished | NotShown | Broken

  datatype RenameOutcome = Renamed(user: User) | Taken | Cooldown(until: nat)

  predicate Live(r: Reserve, now: nat) {
    r.expiresAt > now
  }

  ghost predicate Held(s: State, h: string) {
    exists id :: id in s.users && s.users[id].handle == Some(h)
  }

  ghost predicate Enrolled(s: State, sub: string) {
    exists id :: id in s.users && s.users[id].sub == Some(sub)
  }

  /** Some row with this handle; which one only matters in a state where two rows share it. */
  ghost function Holder(s: State, h: string): (id: string)
    requires Held(s, h)
    ensures id in s.users && s.users[id].handle == Some(h)
  {
    var id :| id in s.users && s.users[id].handle == Some(h); id
  }

  ghost function Account(s: State, sub: string): (id: string)
    requires Enrolled(s, sub)
    ensures id in s.users && s.users[id].sub == Some(sub)
  {
    var id :| id in s.users && s.users[id].sub == Some(sub); id
  }

  function UserById(s: State, usr: string): Option<User> {
    if usr in s.users && s.users[usr].usrId == Some(usr) then Some(s.users[usr]) else None
  }

  /** A live reserve on `h` that belongs to someone other than `usr`. */
  predicate KeptFromOthers(s: State, h: string, usr: string) {
    h in s.reserves && Live(s.reserves[h], s.now) && s.reserves[h].usrId != usr
  }

  /** `handle_changed_at > time::now() - 30d` for the row of `usr`. */
  predicate Cooling(s: State, usr: string) {
    var u := UserById(s, usr);
    u.Some? && u.value.changedAt.Some? && u.value.changedAt.value > s.now as int - COOLDOWN
  }

  // ---- The operations ----

  function AddPerson(s: State, id: string, sub: string): State {
    s.(users := s.users[id := User(Some(id), None, Some(sub), None, Person)])
  }

  function GiveHandle(s: State, usr: string, h: string): State
    requires usr in s.users
  {
    s.(users := s.users[usr := s.users[usr].(handle := Some(h))])
  }

  /** First contact: the row of `sub`, created under the id `newId` when there is none. */
  ghost function EnsureUser(s: State, sub: string, newId: string): (State, Result<User, DbError>) {
    if Enrolled(s, sub) then
      (s, Ok(s.users[Account(s, sub)]))
    else if newId in s.users then
      (s, Err(RecordExists))
    else
      (AddPerson(s, newId, sub), Ok(User(Some(newId), None, Some(sub), None, Person)))
  }

  /** The row the claiming UPDATE matches. */
  predicate Claimable(s: State, usr: string) {
    usr in s.users && s.users[usr].handle.None? && s.users[usr].kind.Person?
  }

  ghost function Claim(s: State, usr: string, h: string): (State, Option<User>) {
    if Held(s, h) || KeptFromOthers(s, h, usr) || !Claimable(s, usr) then
      (s, None)
    else
      (GiveHandle(s, usr, h), Some(s.users[usr].(handle := Some(h))))
  }

  /** The row the renaming UPDATE matches: its WHERE repeats the current handle and the cooldown. */
  predicate Renamable(s: State, usr: string, prev: string) {
    && usr in s.users && s.users[usr].handle == Some(prev) && s.users[usr].kind.Person?
    && (s.users[usr].changedAt.None? || s.users[usr].changedAt.value <= s.now as int - COOLDOWN)
  }

  /** Another row than `usr` carries the name, so the unique index refuses the UPDATE. */
  ghost predicate HeldByAnother(s: State, h: string, usr: string) {
    exists id :: id in s.users && id != usr && s.users[id].handle == Some(h)
  }

  /** The committed transaction: move the row, drop the owner's reserve, keep the name just left. */
  function Committed(s: State, usr: string, prev: string, next: string): State
    requires usr in s.users
  {
    var u := s.users[usr].(handle := Some(next), changedAt := Some(s.now));
    var others := map n | n in s.reserves && s.reserves[n].usrId != usr :: s.reserves[n];
    s.(users := s.users[usr := u],
       reserves := others[prev := Reserve(usr, next, s.now + RESERVATION)])
  }

  ghost function Rename(s: State, usr: string, prev: string, next: string): (State, RenameOutcome) {
    if Cooling(s, usr) then
      (s, Cooldown(s.users[usr].changedAt.value + COOLDOWN))
    else if KeptFromOthers(s, next, usr) then
      (s, Taken)
    else if !Renamable(s, usr, prev) || HeldByAnother(s, next, usr) then
      (s, Taken)
    else
      (Committed(s, usr, prev, next), Renamed(s.users[usr].(handle := Some(next), changedAt := Some(s.now))))
  }

  /** A migration adds an organization unless its handle is held or kept. */
  ghost function SeedOrganization(s: State, id: string, h: string): State {
    if Held(s, h) || (h in s.reserves && Live(s.reserves[h], s.now)) || id in s.users then
      s
    else
      s.(users := s.users[id := User(Some(id), Some(h), None, None, Organization)])
  }

  // ---- What every run keeps ----

  ghost predicate IdsKeyed(s: State) {
    forall id :: id in s.users ==>
      && (s.users[id].usrId.Some? ==> s.users[id].usrId == Some(id))
      && (s.users[id].kind.Person? ==> s.users[id].usrId.Some?)
  }

  ghost predicate RowsKeyed(s: State) {
    forall id :: id in s.users ==>
      && s.users[id].usrId == (if s.users[id].kind.ReservedName? then None else Some(id))
      && (s.users[id].sub.Some? ==> s.users[id].kind.Person?)
      && (s.users[id].handle.Some? ==> IsHandle(s.users[id].handle.value))
  }

  ghost predicate HandlesUnique(s: State) {
    forall i, j | i in s.users && j in s.users && i != j && s.users[i].handle.Some? ::
      s.users[i].handle != s.users[j].handle
  }

  ghost predicate SubsUnique(s: State) {
    forall i, j | i in s.users && j in s.users && i != j && s.users[i].sub.Some? ::
      s.users[i].sub != s.users[j].sub
  }

  ghost predicate ChangesPast(s: State) {
    forall id :: id in s.users && s.users[id].changedAt.Some? ==>
      s.users[id].kind.Person? && s.users[id].handle.Some? && s.users[id].changedAt.value <= s.now
  }

  /** The reserve row of a name is exactly its owner's last move away from it. */
  ghost predicate ReserveIsLastMove(s: State, n: string)
    requires n in s.reserves
  {
    var r := s.reserves[n];
    && IsHandle(n) && n != r.newHandle
    && r.usrId in s.users
    && s.users[r.usrId].kind.Person?
    && s.users[r.usrId].handle == Some(r.newHandle)
    && s.users[r.usrId].changedAt.Some?
    && r.expiresAt == s.users[r.usrId].changedAt.value + RESERVATION
  }

  ghost predicate OneReserveEach(s: State) {
    forall m, n | m in s.reserves && n in s.reserves && m != n ::
      s.reserves[m].usrId != s.reserves[n].usrId
  }

  ghost predicate LiveReservesUnheld(s: State) {
    forall n, id | n in s.reserves && Live(s.reserves[n], s.now) && id in s.users ::
      s.users[id].handle != Some(n)
  }

  ghost predicate KeepsAName(s: State, usr: string) {
    exists n :: n in s.reserves && s.reserves[n].usrId == usr
  }

  /** For 100 days after a rename the name left is on record; afterwards it may be overwritten. */
  ghost predicate RecentMovesKept(s: State) {
    forall id :: id in s.users && s.users[id].changedAt.Some? && s.now < s.users[id].changedAt.value + RESERVATION ==>
      KeepsAName(s, id)
  }

  ghost predicate Rows(s: State) {
    RowsKeyed(s) && HandlesUnique(s) && SubsUnique(s) && ChangesPast(s)
  }

  ghost predicate Reserves(s: State) {
    && (forall n :: n in s.reserves ==> ReserveIsLastMove(s, n))
    && OneReserveEach(s) && LiveReservesUnheld(s) && RecentMovesKept(s)
  }

  ghost predicate Inv(s: State) {
    Rows(s) && Reserves(s)
  }

  /** Every reserve row is its owner's last move away from the name. */
  ghost predicate LastMoves(s: State) {
    forall n :: n in s.reserves ==> ReserveIsLastMove(s, n)
  }

  /**
   What the unique indexes and the one transaction carry, and what is therefore left when requests interleave: the
   invariant without the claim that nobody holds a kept name.
   */
  ghost predicate Coherent(s: State) {
    Rows(s) && LastMoves(s) && OneReserveEach(s)
  }

  /** Only row `usr` may differ, and its user never left a name that is still on record. */
  ghost predicate OnlyRowChanged(s: State, s': State, usr: string) {
    && s'.reserves == s.reserves && s'.now == s.now
    && s.users.Keys <= s'.users.Keys <= s.users.Keys + {usr}
    && (forall id | id in s.users && id != usr :: s'.users[id] == s.users[id])
    && (usr in s.users ==> s.users[usr].handle.None?)
    && (usr in s'.users ==> s'.users[usr].changedAt.None?)
  }

  lemma MovesUntouched(s: State, s': State, usr: string)
    requires Inv(s) && OnlyRowChanged(s, s', usr)
    ensures forall n :: n in s'.reserves ==> ReserveIsLastMove(s', n)
    ensures RecentMovesKept(s')
  {
    forall n | n in s'.reserves ensures ReserveIsLastMove(s', n) {
      assert ReserveIsLastMove(s, n);
    }
    forall id | id in s'.users && s'.users[id].changedAt.Some? && s'.now < s'.users[id].changedAt.value + RESERVATION
      ensures KeepsAName(s', id)
    {
      assert KeepsAName(s, id);
    }
  }

  lemma RowChangeKeepsMoves(s: State, s': State, usr: string)
    requires LastMoves(s) && OnlyRowChanged(s, s', usr)
    ensures LastMoves(s')
  {
    forall n | n in s'.reserves ensures ReserveIsLastMove(s', n) {
      assert ReserveIsLastMove(s, n);
    }
  }

  lemma ReservesUntouched(s: State, s': State, usr: string)
    requires Inv(s) && OnlyRowChanged(s, s', usr)
    requires usr in s'.users && s'.users[usr].handle.Some? ==>
      s'.users[usr].handle.value !in s.reserves || !Live(s.reserves[s'.users[usr].handle.value], s.now)
    ensures Reserves(s')
  {
    MovesUntouched(s, s', usr);
    forall n, id | n in s'.reserves && Live(s'.reserves[n], s'.now) && id in s'.users
      ensures s'.users[id].handle != Some(n)
    {
      assert id != usr ==> id in s.users;
    }
  }

  lemma AddPersonKeepsRows(s: State, id: string, sub: string)
    requires Rows(s) && id !in s.users && !Enrolled(s, sub)
    ensures Rows(AddPerson(s, id, sub))
  {
    assert HandlesUnique(AddPerson(s, id, sub));
  }

  lemma GiveHandleKeepsRows(s: State, usr: string, h: string)
    requires Rows(s) && Claimable(s, usr) && !HeldByAnother(s, h, usr) && IsHandle(h)
    ensures Rows(GiveHandle(s, usr, h))
  {
    assert SubsUnique(GiveHandle(s, usr, h));
  }

  lemma CommittedKeepsRows(s: State, usr: string, prev: string, next: string)
    requires Rows(s) && Renamable(s, usr, prev) && !HeldByAnother(s, next, usr) && IsHandle(next)
    ensures Rows(Committed(s, usr, prev, next))
  {
    var s' := Committed(s, usr, prev, next);
    assert forall id | id in s'.users && id != usr :: s'.users[id] == s.users[id];
    assert SubsUnique(s');
  }

  lemma CommittedKeepsMoves(s: State, usr: string, prev: string, next: string)
    requires LastMoves(s) && Renamable(s, usr, prev) && IsHandle(prev) && prev != next
    ensures LastMoves(Committed(s, usr, prev, next))
  {
    var s' := Committed(s, usr, prev, next);
    forall n | n in s'.reserves ensures ReserveIsLastMove(s', n) {
      if n != prev {
        assert ReserveIsLastMove(s, n);
      }
    }
  }

  /** The three writes that requests make, each with the test its statement or index makes, keep the state coherent. */
  lemma AddPersonKeepsCoherent(s: State, id: string, sub: string)
    requires Coherent(s) && id !in s.users && !Enrolled(s, sub)
    ensures Coherent(AddPerson(s, id, sub))
  {
    AddPersonKeepsRows(s, id, sub);
    RowChangeKeepsMoves(s, AddPerson(s, id, sub), id);
  }

  lemma GiveHandleKeepsCoherent(s: State, usr: string, h: string)
    requires Coherent(s) && Claimable(s, usr) && !HeldByAnother(s, h, usr) && IsHandle(h)
    ensures Coherent(GiveHandle(s, usr, h))
  {
    GiveHandleKeepsRows(s, usr, h);
    RowChangeKeepsMoves(s, GiveHandle(s, usr, h), usr);
  }

  lemma CommittedKeepsCoherent(s: State, usr: string, prev: string, next: string)
    requires Coherent(s) && Renamable(s, usr, prev) && !HeldByAnother(s, next, usr) && IsHandle(next) && prev != next
    ensures Coherent(Committed(s, usr, prev, next))
  {
    CommittedKeepsRows(s, usr, prev, next);
    CommittedKeepsMoves(s, usr, prev, next);
    CommittedKeepsOneEach(s, usr, prev, next);
  }

  lemma CommittedKeepsOneEach(s: State, usr: string, prev: string, next: string)
    requires OneReserveEach(s) && usr in s.users
    ensures OneReserveEach(Committed(s, usr, prev, next))
  {
    var s' := Committed(s, usr, prev, next);
    assert forall n | n in s'.reserves && n != prev ::
      n in s.reserves && s'.reserves[n] == s.reserves[n] && s.reserves[n].usrId != usr;
  }

  lemma WaitKeepsCoherent(s: State, dt: nat)
    requires Coherent(s)
    ensures Coherent(s.(now := s.now + dt))
  {
    var s' := s.(now := s.now + dt);
    forall n | n in s'.reserves ensures ReserveIsLastMove(s', n) {
      assert ReserveIsLastMove(s, n);
    }
  }

  lemma EnsureUserKeepsCoherent(s: State, sub: string, newId: string)
    requires Coherent(s)
    ensures Coherent(EnsureUser(s, sub, newId).0)
  {
    if EnsureUser(s, sub, newId).0 != s {
      AddPersonKeepsCoherent(s, newId, sub);
    }
  }

  lemma EnsureUserKeepsInv(s: State, sub: string, newId: string)
    requires Inv(s)
    ensures Inv(EnsureUser(s, sub, newId).0)
  {
    var s' := EnsureUser(s, sub, newId).0;
    if s' != s {
      AddPersonKeepsRows(s, newId, sub);
      ReservesUntouched(s, s', newId);
    }
  }

  lemma ClaimKeepsInv(s: State, usr: string, h: string)
    requires Inv(s) && IsHandle(h)
    ensures Inv(Claim(s, usr, h).0)
  {
    var s' := Claim(s, usr, h).0;
    if s' != s {
      GiveHandleKeepsRows(s, usr, h);
      assert h in s.reserves ==> s.reserves[h].usrId != usr;
      ReservesUntouched(s, s', usr);
    }
  }

  lemma SeedKeepsInv(s: State, id: string, h: string)
    requires Inv(s) && IsHandle(h)
    ensures Inv(SeedOrganization(s, id, h))
  {
    var s' := SeedOrganization(s, id, h);
    if s' != s {
      assert Rows(s');
      ReservesUntouched(s, s', id);
    }
  }

  lemma RenameKeepsMoves(s: State, usr: string, prev: string, next: string)
    requires Inv(s) && prev != next
    requires Rename(s, usr, prev, next).1.Renamed?
    ensures var s' := Rename(s, usr, prev, next).0;
      (forall n :: n in s'.reserves ==> ReserveIsLastMove(s', n)) && RecentMovesKept(s')
  {
    var s' := Rename(s, usr, prev, next).0;
    forall n | n in s'.reserves ensures ReserveIsLastMove(s', n) {
      if n != prev {
        assert ReserveIsLastMove(s, n);
      }
    }
    forall id | id in s'.users && s'.users[id].changedAt.Some? && s'.now < s'.users[id].changedAt.value + RESERVATION
      ensures KeepsAName(s', id)
    {
      if id == usr {
        assert prev in s'.reserves && s'.reserves[prev].usrId == id;
      } else {
        assert KeepsAName(s, id);
        var n :| n in s.reserves && s.reserves[n].usrId == id;
        assert ReserveIsLastMove(s, n);
        assert n in s'.reserves && s'.reserves[n].usrId == id;
      }
    }
  }

  lemma RenameKeepsExclusion(s: State, usr: string, prev: string, next: string)
    requires OneReserveEach(s) && LiveReservesUnheld(s) && HandlesUnique(s) && prev != next
    requires Rename(s, usr, prev, next).1.Renamed?
    ensures var s' := Rename(s, usr, prev, next).0; OneReserveEach(s') && LiveReservesUnheld(s')
  {
    var s' := Rename(s, usr, prev, next).0;
    assert forall n | n in s'.reserves && n != prev :: n in s.reserves && s'.reserves[n] == s.reserves[n];
  }

  lemma RenameKeepsInv(s: State, usr: string, prev: string, next: string)
    requires Inv(s) && IsHandle(next) && prev != next
    ensures Inv(Rename(s, usr, prev, next).0)
  {
    if Rename(s, usr, prev, next).1.Renamed? {
      CommittedKeepsRows(s, usr, prev, next);
      RenameKeepsMoves(s, usr, prev, next);
      RenameKeepsExclusion(s, usr, prev, next);
    }
  }

  lemma WaitKeepsInv(s: State, dt: nat)
    requires Inv(s)
    ensures Inv(s.(now := s.now + dt))
  {
    var s' := s.(now := s.now + dt);
    forall n | n in s'.reserves ensures ReserveIsLastMove(s', n) {
      assert ReserveIsLastMove(s, n);
    }
    forall id | id in s'.users && s'.users[id].changedAt.Some? && s'.now < s'.users[id].changedAt.value + RESERVATION
      ensures KeepsAName(s', id)
    {
      assert KeepsAName(s, id);
    }
  }

  // ---- Names and who controls them ----

  datatype Control = Free | HeldBy(id: string) | KeptFor(usr: string, until: nat)

  ghost function ControlOf(s: State, n: string): Control {
    if Held(s, n) then HeldBy(Holder(s, n))
    else if n in s.reserves && Live(s.reserves[n], s.now) then
      KeptFor(s.reserves[n].usrId, s.reserves[n].expiresAt)
    else Free
  }

  /** With unique handles the holder is the row itself. */
  lemma HolderIs(s: State, id: string, h: string)
    requires HandlesUnique(s)
    requires id in s.users && s.users[id].handle == Some(h)
    ensures Held(s, h) && Holder(s, h) == id
  {
  }

  /** Rows whose handles are untouched keep holding them. */
  lemma SameControl(s: State, s': State, n: string)
    requires HandlesUnique(s) && HandlesUnique(s')
    requires forall id ::
      (id in s.users && s.users[id].handle == Some(n)) <==> (id in s'.users && s'.users[id].handle == Some(n))
    ensures Held(s, n) <==> Held(s', n)
    ensures Held(s, n) ==> Holder(s, n) == Holder(s', n)
  {
    if Held(s, n) {
      HolderIs(s', Holder(s, n), n);
    }
  }

  /**
   A claim succeeds exactly for a person without a handle on a name nobody controls, and then changes the
   control of that one name. In particular nobody can claim a kept name, its owner included.
   */
  lemma ClaimExact(s: State, usr: string, h: string)
    requires Inv(s) && IsHandle(h)
    ensures var (s', r) := Claim(s, usr, h);
      && (r.Some? <==> Claimable(s, usr) && ControlOf(s, h) == Free)
      && (r.None? ==> s' == s)
      && (r.Some? ==>
            && UserById(s', usr) == r && r.value.handle == Some(h)
            && (forall n :: ControlOf(s', n) == if n == h then HeldBy(usr) else ControlOf(s, n)))
  {
    var (s', r) := Claim(s, usr, h);
    if r.Some? {
      ClaimKeepsInv(s, usr, h);
      forall n ensures ControlOf(s', n) == if n == h then HeldBy(usr) else ControlOf(s, n) {
        if n == h {
          HolderIs(s', usr, h);
        } else {
          SameControl(s, s', n);
        }
      }
    }
  }

  /**
   A rename succeeds exactly for a person who still holds `prev`, is past the cooldown, and asks for a name
   that is free or kept for that same person. Every other answer changes nothing.
   */
  lemma RenameExact(s: State, usr: string, prev: string, next: string)
    requires Inv(s) && prev != next
    ensures var (s', o) := Rename(s, usr, prev, next);
      && (o.Renamed? <==>
            && usr in s.users && s.users[usr].kind.Person? && s.users[usr].handle == Some(prev)
            && !Cooling(s, usr)
            && (ControlOf(s, next) == Free || (ControlOf(s, next).KeptFor? && ControlOf(s, next).usr == usr)))
      && (o.Cooldown? <==> Cooling(s, usr))
      && (o.Cooldown? ==> o.until == s.users[usr].changedAt.value + COOLDOWN && o.until > s.now)
      && (!o.Renamed? ==> s' == s)
      && (forall id :: id != usr ==> UserById(s', id) == UserById(s, id))
  {
    if usr in s.users && s.users[usr].kind.Person? && s.users[usr].handle == Some(prev) && !Cooling(s, usr) {
      assert Renamable(s, usr, prev);
      if Held(s, next) {
        assert Holder(s, next) != usr;
        assert HeldByAnother(s, next, usr);
      }
    }
  }

  /**
   What a successful rename does to every name: the new one is held, the old one is kept for 100 days, the
   name kept before becomes free unless it is the one taken back, and no other name changes hands.
   */
  lemma RenameMovesControl(s: State, usr: string, prev: string, next: string, n: string)
    requires Inv(s) && IsHandle(next) && prev != next
    requires Rename(s, usr, prev, next).1.Renamed?
    ensures var (s', o) := Rename(s, usr, prev, next);
      && UserById(s', usr) == Some(o.user)
      && o.user == s.users[usr].(handle := Some(next), changedAt := Some(s.now))
      && ControlOf(s', n) ==
           if n == next then HeldBy(usr)
           else if n == prev then KeptFor(usr, s.now + RESERVATION)
           else if ControlOf(s, n).KeptFor? && ControlOf(s, n).usr == usr then Free
           else ControlOf(s, n)
  {
    var s' := Rename(s, usr, prev, next).0;
    CommittedKeepsRows(s, usr, prev, next);
    if n == next {
      HolderIs(s', usr, next);
    } else if n == prev {
      HolderIs(s, usr, prev);
      assert prev in s'.reserves && Live(s'.reserves[prev], s'.now);
      assert !Held(s', prev);
    } else {
      assert forall id :: id in s.users && id != usr ==> s'.users[id] == s.users[id];
      SameControl(s, s', n);
    }
  }

  /**
   The handler never asks for the name already held, and it must not: a rename onto itself would keep a held
   name for its own owner. It breaks the invariant exactly when it goes through, as it does for every person past the
   cooldown who holds the name.
   */
  lemma RenameInPlace(s: State, usr: string, h: string)
    requires Inv(s) && IsHandle(h)
    ensures Inv(Rename(s, usr, h, h).0) <==> !Rename(s, usr, h, h).1.Renamed?
    ensures Rename(s, usr, h, h).1.Renamed? <==>
            usr in s.users && s.users[usr].kind.Person? && s.users[usr].handle == Some(h) && !Cooling(s, usr)
  {
    var (s', o) := Rename(s, usr, h, h);
    if usr in s.users && s.users[usr].handle == Some(h) {
      HolderIs(s, usr, h);
    }
    if o.Renamed? {
      assert h in s'.reserves && !ReserveIsLastMove(s', h);
    }
  }

  /** A migration seeds an organization exactly onto a name nobody controls and an id that is free, and nothing else. */
  lemma SeedExact(s: State, id: string, h: string)
    requires Inv(s) && IsHandle(h)
    ensures var s' := SeedOrganization(s, id, h);
      if ControlOf(s, h) == Free && id !in s.users then
        && s' == s.(users := s.users[id := User(Some(id), Some(h), None, None, Organization)])
        && ControlOf(s', h) == HeldBy(id)
      else s' == s
  {
    var s' := SeedOrganization(s, id, h);
    if s' != s {
      SeedKeepsInv(s, id, h);
      HolderIs(s', id, h);
    }
  }

  /** At one instant the pre-check refuses a person exactly when the transaction's WHERE would. */
  lemma CooldownTestsAgree(s: State, usr: string, prev: string)
    requires Inv(s)
    requires usr in s.users && s.users[usr].kind.Person? && s.users[usr].handle == Some(prev)
    ensures Cooling(s, usr) <==> !Renamable(s, usr, prev)
  {
  }
}
