/**
 The roster part of the store as the program runs it: tables updated in place, a transaction that is rolled
 back statement by statement, and retry loops around write conflicts. Every method is proved against the
 atomic operation of `Roster`.

 The database is seen through its answers. `conflict(attempt)` says that the write of that attempt loses to a
 concurrent transaction; a write that loses changes nothing. Reads do not fail here.
 */
module HandleStore {
  import opened Wrappers
  import opened Names
  import opened Roster
  import HandleRuns

  /** Every attempt up to the last one conflicts. */
  predicate AlwaysConflicts(conflict: nat -> bool, attempts: nat) {
    forall i :: 0 <= i < attempts ==> conflict(i)
  }

  /** The attempt whose write is not lost, when there is one among the three. */
  function FirstFree(conflict: nat -> bool): nat {
    if !conflict(0) then 0 else if !conflict(1) then 1 else 2
  }

  class Store {
    var users: map<string, User>
    var reserves: map<string, Reserve>
    var now: nat

    ghost function View(): State
      reads this
    {
      State(users, reserves, now)
    }

    constructor (users: map<string, User>, reserves: map<string, Reserve>, now: nat)
      ensures View() == State(users, reserves, now)
    {
      this.users, this.reserves, this.now := users, reserves, now;
    }

    method GetUserByHandle(h: string) returns (u: Option<User>)
      ensures u.Some? <==> Held(View(), h)
      ensures u.Some? && HandlesUnique(View()) ==> u.value == users[Holder(View(), h)]
      ensures u.Some? ==> u.value.handle == Some(h)
    {
      if id :| id in users && users[id].handle == Some(h) {
        u := Some(users[id]);
      } else {
        u := None;
      }
    }

    method GetUserBySub(sub: string) returns (u: Option<User>)
      ensures u.Some? <==> Enrolled(View(), sub)
      ensures u.Some? && SubsUnique(View()) ==> u.value == users[Account(View(), sub)]
    {
      if id :| id in users && users[id].sub == Some(sub) {
        u := Some(users[id]);
      } else {
        u := None;
      }
    }

    method GetUserById(usr: string) returns (u: Option<User>)
      requires IdsKeyed(View())
      ensures u == UserById(View(), usr)
    {
      if id :| id in users && users[id].usrId == Some(usr) {
        u := Some(users[id]);
      } else {
        u := None;
      }
    }

    /** The live reserve on a name; an expired row is still there but is not returned. */
    method GetReserve(h: string) returns (r: Option<Reserve>)
      ensures r.Some? <==> h in reserves && Live(reserves[h], now)
      ensures r.Some? ==> r.value == reserves[h]
    {
      r := if h in reserves && reserves[h].expiresAt > now then Some(reserves[h]) else None;
    }

    /** CREATE of a fresh row, refused by the record id or by the unique index on the subject. */
    method CreateUser(sub: string, newId: string, conflict: bool) returns (e: Option<DbError>, duplicate: bool)
      modifies this`users
      ensures e.Some? || duplicate ==> users == old(users)
      ensures e == (if conflict then Some(WriteConflict) else if newId in old(users) then Some(RecordExists) else None)
      ensures duplicate <==> e.None? && Enrolled(old(View()), sub)
      ensures e.None? && !duplicate ==> View() == AddPerson(old(View()), newId, sub)
    {
      e, duplicate := None, false;
      if conflict {
        e := Some(WriteConflict);
      } else if newId in users {
        e := Some(RecordExists);
      } else if id :| id in users && users[id].sub == Some(sub) {
        duplicate := true;
      } else {
        users := users[newId := User(Some(newId), None, Some(sub), None, Person)];
      }
    }

    /** First contact, with up to three attempts, each of which draws its own id. */
    method EnsureUser(sub: string, newIds: nat -> string, conflict: nat -> bool) returns (r: Result<User, DbError>)
      requires SubsUnique(View())
      modifies this`users
      ensures r == Err(WriteConflict) <==> !Enrolled(old(View()), sub) && AlwaysConflicts(conflict, 3)
      ensures r == Err(WriteConflict) ==> users == old(users)
      ensures r != Err(WriteConflict) ==>
                (View(), r) == Roster.EnsureUser(old(View()), sub, newIds(FirstFree(conflict)))
    {
      var attempt := 0;
      while true
        invariant attempt <= 2
        invariant users == old(users)
        invariant AlwaysConflicts(conflict, attempt)
        invariant attempt > 0 ==> !Enrolled(View(), sub)
        decreases 2 - attempt
      {
        var found := GetUserBySub(sub);
        if found.Some? {
          return Ok(found.value);
        }
        var newId := newIds(attempt);
        var e, duplicate := CreateUser(sub, newId, conflict(attempt));
        if e == Some(WriteConflict) && attempt < 2 {
          attempt := attempt + 1;
        } else if e.Some? {
          return Err(e.value);
        } else {
          assert users[newId].sub == Some(sub);
          found := GetUserBySub(sub);
          return if found.Some? then Ok(found.value) else Err(Vanished);
        }
      }
    }

    /** The claiming UPDATE: a row that does not match its WHERE is left alone, and that is a success. */
    method UpdateHandle(usr: string, h: string) returns (uniqueViolation: bool)
      modifies this`users
      ensures uniqueViolation <==> Claimable(old(View()), usr) && HeldByAnother(old(View()), h, usr)
      ensures View() == if Claimable(old(View()), usr) && !uniqueViolation
                        then GiveHandle(old(View()), usr, h) else old(View())
    {
      uniqueViolation := false;
      if usr in users && users[usr].handle.None? && users[usr].kind.Person? {
        if id :| id in users && id != usr && users[id].handle == Some(h) {
          uniqueViolation := true;
        } else {
          users := users[usr := users[usr].(handle := Some(h))];
        }
      }
    }

    /** Claim a handle, with up to three attempts. */
    method ClaimHandle(usr: string, h: string, conflict: nat -> bool) returns (r: Result<Option<User>, DbError>)
      requires IdsKeyed(View())
      modifies this`users
      ensures r.Err? ==> r == Err(WriteConflict) && users == old(users)
      ensures r.Err? <==> !Held(old(View()), h) && !KeptFromOthers(old(View()), h, usr) && AlwaysConflicts(conflict, 3)
      ensures r.Ok? ==> (View(), r.value) == Roster.Claim(old(View()), usr, h)
    {
      var attempt := 0;
      while true
        invariant attempt <= 2
        invariant users == old(users)
        invariant AlwaysConflicts(conflict, attempt)
        invariant attempt > 0 ==> !Held(View(), h) && !KeptFromOthers(View(), h, usr)
        decreases 2 - attempt
      {
        var holder := GetUserByHandle(h);
        if holder.Some? {
          return Ok(None);
        }
        var reserve := GetReserve(h);
        if reserve.Some? && reserve.value.usrId != usr {
          return Ok(None);
        }
        if conflict(attempt) {
          if attempt == 2 {
            return Err(WriteConflict);
          }
          attempt := attempt + 1;
        } else {
          var uniqueViolation := UpdateHandle(usr, h);
          if uniqueViolation {
            return Ok(None);
          }
          var mine := GetUserById(usr);
          return Ok(if mine.Some? && mine.value.handle == Some(h) then mine else None);
        }
      }
    }

    /**
     The renaming transaction: the UPDATE, the THROW when no row matched, the DELETE and the UPSERT, each on the
     tables themselves. On a failed statement everything done so far is put back.
     */
    method RenameTransaction(usr: string, prev: string, next: string) returns (committed: bool)
      modifies this`users, this`reserves
      ensures committed <==> Renamable(old(View()), usr, prev) && !HeldByAnother(old(View()), next, usr)
      ensures View() == if committed then Roster.Committed(old(View()), usr, prev, next) else old(View())
    {
      var savedUsers, savedReserves := users, reserves;
      var matched := false;
      var violated := false;
      if usr in users && users[usr].handle == Some(prev) && users[usr].kind.Person?
         && (users[usr].changedAt.None? || users[usr].changedAt.value <= now as int - COOLDOWN) {
        users := users[usr := users[usr].(handle := Some(next), changedAt := Some(now))];
        matched := true;
        if id :| id in users && id != usr && users[id].handle == Some(next) {
          violated := true;
        }
      }
      if violated || !matched {
        users, reserves := savedUsers, savedReserves;
        assert violated ==> HeldByAnother(old(View()), next, usr);
        return false;
      }
      assert forall id :: id in old(users) && id != usr ==> users[id] == old(users)[id];
      reserves := map n | n in reserves && reserves[n].usrId != usr :: reserves[n];
      reserves := reserves[prev := Reserve(usr, next, now + RESERVATION)];
      assert View() == Roster.Committed(old(View()), usr, prev, next);
      return true;
    }

    /** One attempt. `None` is a conflict worth retrying. */
    method RenameOnce(usr: string, prev: string, next: string, conflict: bool) returns (r: Option<RenameOutcome>)
      requires IdsKeyed(View())
      modifies this`users, this`reserves
      ensures r.None? <==> conflict && !Cooling(old(View()), usr) && !KeptFromOthers(old(View()), next, usr)
      ensures r.None? ==> View() == old(View())
      ensures r.Some? ==> (View(), r.value) == Roster.Rename(old(View()), usr, prev, next)
    {
      var me := GetUserById(usr);
      if me.Some? && me.value.changedAt.Some? && me.value.changedAt.value > now as int - COOLDOWN {
        return Some(Cooldown(me.value.changedAt.value + COOLDOWN));
      }
      var reserve := GetReserve(next);
      if reserve.Some? && reserve.value.usrId != usr {
        return Some(Taken);
      }
      if conflict {
        return None;
      }
      var committed := RenameTransaction(usr, prev, next);
      if !committed {
        return Some(Taken);
      }
      me := GetUserById(usr);
      // Nobody runs between the commit and this read, so the row shows the new name. `HandleRaces` has the
      // interleaving in which it does not.
      assert me.Some? && me.value.handle == Some(next);
      return Some(Renamed(me.value));
    }

    /** Rename with up to three attempts; three conflicts in a row count as having lost the name. */
    method RenameHandle(usr: string, prev: string, next: string, conflict: nat -> bool)
      returns (r: RenameOutcome)
      requires IdsKeyed(View())
      modifies this`users, this`reserves
      ensures
        var gaveUp := AlwaysConflicts(conflict, 3)
                      && !Cooling(old(View()), usr) && !KeptFromOthers(old(View()), next, usr);
        (View(), r) == if gaveUp then (old(View()), Taken) else Roster.Rename(old(View()), usr, prev, next)
    {
      for attempt := 0 to 3
        invariant View() == old(View())
        invariant AlwaysConflicts(conflict, attempt)
        invariant attempt > 0 ==> !Cooling(View(), usr) && !KeptFromOthers(View(), next, usr)
      {
        var once := RenameOnce(usr, prev, next, conflict(attempt));
        if once.Some? {
          return once.value;
        }
      }
      return Taken;
    }

    /**
     The handler of `PUT /v1/me/handle`: canonicalise, find or create the caller, then keep, move or claim. Unless the
     writes of one of its operations all conflict, it is the handler of `HandleRuns`.
     */
    method PutHandle(sub: string, input: string, newIds: nat -> string, contact: nat -> bool, write: nat -> bool)
      returns (a: HandleRuns.PutAnswer)
      requires Coherent(View())
      modifies this`users, this`reserves
      ensures !AlwaysConflicts(contact, 3) && !AlwaysConflicts(write, 3) ==>
                (View(), a) == HandleRuns.PutHandle(old(View()), sub, input, newIds(FirstFree(contact)))
      ensures CanonicalHandle(input).Some? && !Enrolled(old(View()), sub) && AlwaysConflicts(contact, 3) ==>
                a == HandleRuns.Failed(WriteConflict) && View() == old(View())
      ensures CanonicalHandle(input).None? ==> a == HandleRuns.BadHandle && View() == old(View())
    {
      ghost var before := View();
      var h := CanonicalHandle(input);
      if h.None? {
        return HandleRuns.BadHandle;
      }
      var found := EnsureUser(sub, newIds, contact);
      if found.Err? {
        return HandleRuns.Failed(found.error);
      }
      EnsureUserKeepsCoherent(before, sub, newIds(FirstFree(contact)));
      var me := found.value;
      if me.handle == Some(h.value) {
        return HandleRuns.Accepted(me);
      }
      if me.usrId.None? {
        return HandleRuns.Conflict;
      }
      if me.handle.Some? {
        var outcome := RenameHandle(me.usrId.value, me.handle.value, h.value, write);
        return match outcome {
          case Renamed(u) => HandleRuns.Accepted(u)
          case Taken => HandleRuns.Conflict
          case Cooldown(until) => HandleRuns.CoolingDown(until)
        };
      }
      var claimed := ClaimHandle(me.usrId.value, h.value, write);
      if claimed.Err? {
        return HandleRuns.Failed(claimed.error);
      }
      return if claimed.value.Some? then HandleRuns.Accepted(claimed.value.value) else HandleRuns.Conflict;
    }
  }
}
