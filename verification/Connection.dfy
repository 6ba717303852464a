/**
 The connection replacement protocol: any number of checkers ping the database over the shared connection and,
 when their ping fails, replace it under a mutex. The swap of the connection and the bump of the generation
 counter are two separate steps, and the counter is read before the connection is taken.

 Connections are numbered by version: version k is the one the k-th replacement installed.
 */
module Connection {
  import opened Wrappers

  /** The steps of one `check`, in the order the code performs them. */
  datatype Pc =
    | ReadGeneration
    | TakeConn
    | Pinging
    | WaitLock
    | Compare
    | Opening
    | Swapping
    | Bumping
    | Counting
    | Leaving
    | TakeAgain
    | PingingAgain
    | Finished(ok: bool)

  /** `seen` is the generation read first, `on` the version the first ping went out on, `again` the second. */
  datatype Checker = Checker(pc: Pc, seen: nat, on: nat, again: nat)

  /** One replacement: who did it, the generation it had seen, the version its ping failed on, the one it dropped. */
  datatype Swap = Swap(checker: nat, seen: nat, failedOn: nat, discarded: nat)

  /** What the checkers share: the connection's version, the two counters, and who is in the mutex. */
  datatype Shared = Shared(remote: bool, conn: nat, generation: nat, reconnects: nat, lock: Option<nat>,
                           swaps: seq<Swap>)

  datatype World = World(shared: Shared, checkers: map<nat, Checker>)

  /** `answer` is what the database says to a ping or an open; the other steps ignore it. */
  datatype Move = Begin(p: nat) | Go(p: nat, answer: bool)

  predicate Inside(pc: Pc) {
    pc.Compare? || pc.Opening? || pc.Swapping? || pc.Bumping? || pc.Counting? || pc.Leaving?
  }

  /** One step of checker `p`. */
  function Act(s: Shared, p: nat, c: Checker, answer: bool): (Shared, Checker) {
    match c.pc
    case ReadGeneration => (s, c.(seen := s.generation, pc := TakeConn))
    case TakeConn => (s, c.(on := s.conn, pc := Pinging))
    case Pinging =>
      if answer then (s, c.(pc := Finished(true)))
      else if s.remote then (s, c.(pc := WaitLock))
      else (s, c.(pc := Finished(false)))
    case WaitLock => if s.lock.Some? then (s, c) else (s.(lock := Some(p)), c.(pc := Compare))
    case Compare => (s, c.(pc := if s.generation != c.seen then Leaving else Opening))
    case Opening => if answer then (s, c.(pc := Swapping)) else (s.(lock := None), c.(pc := Finished(false)))
    case Swapping =>
      (s.(conn := s.conn + 1, swaps := s.swaps + [Swap(p, c.seen, c.on, s.conn)]), c.(pc := Bumping))
    case Bumping => (s.(generation := s.generation + 1), c.(pc := Counting))
    case Counting => (s.(reconnects := s.reconnects + 1), c.(pc := Leaving))
    case Leaving => (s.(lock := None), c.(pc := TakeAgain))
    case TakeAgain => (s, c.(again := s.conn, pc := PingingAgain))
    case PingingAgain => (s, c.(pc := Finished(answer)))
    case Finished(_) => (s, c)
  }

  function Next(w: World, m: Move): World {
    match m
    case Begin(p) =>
      if p in w.checkers then w else w.(checkers := w.checkers[p := Checker(ReadGeneration, 0, 0, 0)])
    case Go(p, answer) =>
      if p !in w.checkers then w
      else var (s, c) := Act(w.shared, p, w.checkers[p], answer); World(s, w.checkers[p := c])
  }

  function Run(w: World, moves: seq<Move>): World {
    if moves == [] then w else Next(Run(w, moves[..|moves| - 1]), moves[|moves| - 1])
  }

  /** Right after `connect`. */
  predicate Initial(w: World) {
    w.checkers == map[] && w.shared == Shared(w.shared.remote, 0, 0, 0, None, [])
  }

  // ---- The protocol invariant ----

  predicate InStep(s: Shared) {
    s.conn == s.generation == s.reconnects
  }

  /** Where the counters stand, by what the holder of the mutex is doing. */
  predicate Holds(s: Shared, c: Checker) {
    && Inside(c.pc)
    && match c.pc {
         case Bumping => c.seen == s.generation == s.reconnects && s.conn == s.generation + 1
         case Counting => s.conn == s.generation == s.reconnects + 1
         case Opening => InStep(s) && c.seen == s.conn
         case Swapping => InStep(s) && c.seen == s.conn
         case _ => InStep(s)
       }
  }

  /** What a checker has read is in the past, and its connection is no older than the generation it saw. */
  predicate ReadsOrdered(s: Shared, c: Checker) {
    && (!c.pc.ReadGeneration? ==> c.seen <= s.generation)
    && (!c.pc.ReadGeneration? && !c.pc.TakeConn? ==> c.seen <= c.on <= s.conn)
    && (c.pc.Counting? || c.pc.Leaving? || c.pc.TakeAgain? ==> c.seen < s.generation)
    && (c.pc.PingingAgain? ==> c.seen < c.again <= s.conn)
    && (Inside(c.pc) || c.pc.WaitLock? ==> s.remote)
  }

  predicate SwapsExact(s: Shared) {
    |s.swaps| == s.conn &&
    forall i :: 0 <= i < |s.swaps| ==>
      s.swaps[i].discarded == i && s.swaps[i].failedOn == i && s.swaps[i].seen == i
  }

  predicate SharedInv(s: Shared) {
    && s.generation <= s.conn <= s.generation + 1
    && SwapsExact(s)
    && (!s.remote ==> s.conn == 0)
    && (s.lock.None? ==> InStep(s))
  }

  predicate Inv(w: World) {
    && SharedInv(w.shared)
    && (w.shared.lock.Some? ==> w.shared.lock.value in w.checkers && Holds(w.shared, w.checkers[w.shared.lock.value]))
    && (forall p :: p in w.checkers ==>
          ReadsOrdered(w.shared, w.checkers[p]) && (Inside(w.checkers[p].pc) ==> w.shared.lock == Some(p)))
  }

  /** Versions and counters only grow. */
  predicate Grows(s: Shared, s': Shared) {
    s'.remote == s.remote && s.conn <= s'.conn && s.generation <= s'.generation
  }

  lemma ActKeepsShared(s: Shared, p: nat, c: Checker, answer: bool)
    requires SharedInv(s) && ReadsOrdered(s, c)
    requires Inside(c.pc) ==> s.lock == Some(p) && Holds(s, c)
    ensures var (s', c') := Act(s, p, c, answer);
      && SharedInv(s') && ReadsOrdered(s', c') && Grows(s, s')
      && (s.lock.Some? && s.lock != Some(p) ==> s' == s && !Inside(c'.pc))
      && (Inside(c'.pc) <==> s'.lock == Some(p) && (Inside(c.pc) || s.lock.None?))
      && (Inside(c'.pc) ==> Holds(s', c'))
      && (s'.lock == s.lock || s'.lock == None || s'.lock == Some(p))
  {
  }

  lemma NextKeepsInv(w: World, m: Move)
    requires Inv(w)
    ensures Inv(Next(w, m))
  {
    if m.Go? && m.p in w.checkers {
      ActKeepsShared(w.shared, m.p, w.checkers[m.p], m.answer);
    }
  }

  lemma {:induction false} RunKeepsInv(w: World, moves: seq<Move>)
    requires Initial(w)
    ensures Inv(Run(w, moves))
  {
    if moves != [] {
      RunKeepsInv(w, moves[..|moves| - 1]);
      NextKeepsInv(Run(w, moves[..|moves| - 1]), moves[|moves| - 1]);
    }
  }

  /**
   In every interleaving of any number of checks, each replacement discards the connection current at that
   moment, which is exactly the one its own checker's ping failed on, and never a newer one. Whenever the mutex
   is free the generation is the connection's version and the number of replacements.
   */
  lemma DiscardsOwnFailure(w: World, moves: seq<Move>, i: nat)
    requires Initial(w) && i < |Run(w, moves).shared.swaps|
    ensures var s := Run(w, moves).shared;
      && s.swaps[i].discarded == i == s.swaps[i].failedOn
      && |s.swaps| == s.conn
      && (s.lock.None? ==> s.generation == s.conn == s.reconnects)
      && s.generation <= s.conn <= s.generation + 1
  {
    RunKeepsInv(w, moves);
  }

  /** Checkers that saw the same generation cause at most one replacement between them. */
  lemma OneReplacementPerGeneration(w: World, moves: seq<Move>, i: nat, j: nat)
    requires Initial(w) && i < |Run(w, moves).shared.swaps| && j < |Run(w, moves).shared.swaps|
    ensures Run(w, moves).shared.swaps[i].seen == Run(w, moves).shared.swaps[j].seen <==> i == j
  {
    RunKeepsInv(w, moves);
  }

  /** An embedded database is never reopened. */
  lemma {:induction false} EmbeddedNeverReplaced(w: World, moves: seq<Move>)
    requires Initial(w) && !w.shared.remote
    ensures Run(w, moves).shared == w.shared
  {
    RunKeepsInv(w, moves);
    if moves != [] {
      EmbeddedNeverReplaced(w, moves[..|moves| - 1]);
      RunKeepsInv(w, moves[..|moves| - 1]);
    }
  }

  /**
   A checker whose failed ping went out on the version it had seen pings again on a newer connection. The other
   checkers took a connection that was already newer than the generation they read, and may ping it twice, as
   `RetryMayRepeat` does.
   */
  lemma RetryIsOnNewer(w: World, moves: seq<Move>, p: nat)
    requires Initial(w)
    requires p in Run(w, moves).checkers && Run(w, moves).checkers[p].pc.PingingAgain?
    ensures var c := Run(w, moves).checkers[p];
      && c.again > c.seen
      && (c.on == c.seen ==> c.again > c.on)
  {
    RunKeepsInv(w, moves);
  }

  // ---- Where a verdict comes from ----

  /** Some step of checker `p`, taken at one of these places, got this answer from the database. */
  predicate Told(w: World, moves: seq<Move>, p: nat, at: set<Pc>, answer: bool) {
    moves != [] &&
    var t, m := Run(w, moves[..|moves| - 1]), moves[|moves| - 1];
    || Told(w, moves[..|moves| - 1], p, at, answer)
    || (m == Go(p, answer) && p in t.checkers && t.checkers[p].pc in at)
  }

  /** A checker that finds the mutex taken waits, and one that finds it free takes it. */
  lemma WaitsForMutex(w: World, p: nat, answer: bool)
    requires p in w.checkers && w.checkers[p].pc.WaitLock?
    ensures w.shared.lock.Some? ==> Next(w, Go(p, answer)) == w
    ensures w.shared.lock.None? ==>
              Next(w, Go(p, answer)).shared.lock == Some(p) && Next(w, Go(p, answer)).checkers[p].pc.Compare?
  {
    assert w.checkers[p := w.checkers[p]] == w.checkers;
  }

  /**
   Every verdict is earned, over every interleaving. "Up" means that one of the checker's own pings worked; "down"
   that its reopening or its second ping failed, or, for an embedded database, its only ping.
   */
  lemma {:induction false} VerdictsEarned(w: World, moves: seq<Move>, p: nat)
    requires Initial(w) && p in Run(w, moves).checkers
    ensures var pc := Run(w, moves).checkers[p].pc;
      && (pc == Finished(true) ==> Told(w, moves, p, {Pinging, PingingAgain}, true))
      && (pc == Finished(false) ==>
            Told(w, moves, p, if w.shared.remote then {Opening, PingingAgain} else {Pinging}, false))
      && (pc.PingingAgain? || pc.TakeAgain? || Inside(pc) || pc.WaitLock? ==>
            w.shared.remote && Told(w, moves, p, {Pinging}, false))
    ensures Run(w, moves).shared.remote == w.shared.remote
  {
    if moves != [] {
      var before, m := moves[..|moves| - 1], moves[|moves| - 1];
      if p in Run(w, before).checkers {
        VerdictsEarned(w, before, p);
      }
      RemoteFixed(w, before);
    }
  }

  lemma {:induction false} RemoteFixed(w: World, moves: seq<Move>)
    ensures Run(w, moves).shared.remote == w.shared.remote
  {
    if moves != [] {
      RemoteFixed(w, moves[..|moves| - 1]);
    }
  }

  /**
   A checker in the mutex whose ping failed on the connection that is still current replaces it exactly when that
   connection is the version of the generation it had read. Otherwise it took the connection after a swap whose
   bump it had not seen, and leaves it in place.
   */
  lemma ReplacesExactly(w: World, moves: seq<Move>, p: nat, answer: bool)
    requires Initial(w)
    requires p in Run(w, moves).checkers && Run(w, moves).checkers[p].pc.Compare?
    requires Run(w, moves).checkers[p].on == Run(w, moves).shared.conn
    ensures var c := Run(w, moves).checkers[p];
      Act(Run(w, moves).shared, p, c, answer).1.pc == Opening <==> c.seen == c.on
  {
    RunKeepsInv(w, moves);
  }

  lemma Then(w: World, moves: seq<Move>, m: Move) returns (more: seq<Move>)
    ensures Run(w, more) == Next(Run(w, moves), m)
  {
    more := moves + [m];
    assert more[..|more| - 1] == moves;
  }

  /** Checker 1 has swapped the connection and not yet bumped the generation; checker 2 has not started. */
  predicate MidSwap(w: World) {
    && 1 in w.checkers && w.checkers[1].pc.Bumping? && 2 in w.checkers && w.checkers[2].pc.ReadGeneration?
    && w.shared.remote && w.shared.conn == 1 && w.shared.generation == 0 && w.shared.lock == Some(1)
  }

  /** Let checker `p` take one step, which is known to bring it to `pc`. */
  lemma ThenGo(w: World, moves: seq<Move>, p: nat, answer: bool, pc: Pc) returns (more: seq<Move>)
    requires p in Run(w, moves).checkers
    requires Act(Run(w, moves).shared, p, Run(w, moves).checkers[p], answer).1.pc == pc
    ensures var t, t' := Run(w, moves), Run(w, more);
      && p in t'.checkers && (t'.shared, t'.checkers[p]) == Act(t.shared, p, t.checkers[p], answer)
      && t'.checkers.Keys == t.checkers.Keys && t'.checkers[p].pc == pc
      && forall q :: q in t.checkers && q != p ==> t'.checkers[q] == t.checkers[q]
  {
    more := Then(w, moves, Go(p, answer));
  }

  lemma BothBegin(w: World) returns (moves: seq<Move>)
    requires Initial(w)
    ensures Run(w, moves) ==
      World(w.shared, map[2 := Checker(ReadGeneration, 0, 0, 0), 1 := Checker(ReadGeneration, 0, 0, 0)])
  {
    moves := Then(w, [], Begin(2));
    moves := Then(w, moves, Begin(1));
  }

  /** Nothing is replaced yet, checker 1's ping has failed and checker 2 has not started. */
  predicate FirstFailed(w: World) {
    && 1 in w.checkers && w.checkers[1] == Checker(WaitLock, 0, 0, 0)
    && 2 in w.checkers && w.checkers[2].pc.ReadGeneration?
    && w.shared.remote && w.shared.conn == 0 && w.shared.generation == 0 && w.shared.lock.None?
  }

  lemma ReachFirstFailed(w: World) returns (moves: seq<Move>)
    requires Initial(w) && w.shared.remote
    ensures FirstFailed(Run(w, moves))
  {
    moves := BothBegin(w);
    moves := ThenGo(w, moves, 1, true, TakeConn);
    moves := ThenGo(w, moves, 1, true, Pinging);
    moves := ThenGo(w, moves, 1, false, WaitLock);
  }

  lemma ReachMidSwap(w: World) returns (moves: seq<Move>)
    requires Initial(w) && w.shared.remote
    ensures MidSwap(Run(w, moves))
  {
    moves := ReachFirstFailed(w);
    moves := ThenGo(w, moves, 1, true, Compare);
    moves := ThenGo(w, moves, 1, true, Opening);
    moves := ThenGo(w, moves, 1, true, Swapping);
    moves := ThenGo(w, moves, 1, true, Bumping);
  }

  /** The new connection failed for checker 2, which saw the generation before the bump; then checker 1 is done. */
  predicate SecondWaits(w: World) {
    && 2 in w.checkers && w.checkers[2].pc.WaitLock? && w.checkers[2].seen == 0 && w.checkers[2].on == 1
    && w.shared.conn == 1 && w.shared.generation == 1 && w.shared.lock.None?
  }

  lemma ReachSecondWaits(w: World) returns (moves: seq<Move>)
    requires Initial(w) && w.shared.remote
    ensures SecondWaits(Run(w, moves))
  {
    moves := ReachMidSwap(w);
    moves := ThenGo(w, moves, 2, true, TakeConn);
    moves := ThenGo(w, moves, 2, true, Pinging);
    moves := ThenGo(w, moves, 2, false, WaitLock);
    moves := ThenGo(w, moves, 1, true, Counting);
    moves := ThenGo(w, moves, 1, true, Leaving);
    moves := ThenGo(w, moves, 1, true, TakeAgain);
  }

  /** Between the swap and the bump a checker reads the old generation and takes the new connection. */
  lemma RetryMayRepeat(w: World) returns (moves: seq<Move>)
    requires Initial(w) && w.shared.remote
    ensures var t := Run(w, moves);
      && 2 in t.checkers && t.checkers[2].pc.PingingAgain?
      && t.checkers[2].again == t.checkers[2].on && t.shared.generation == 1
  {
    moves := ReachSecondWaits(w);
    moves := ThenGo(w, moves, 2, true, Compare);
    moves := ThenGo(w, moves, 2, true, Leaving);
    moves := ThenGo(w, moves, 2, true, TakeAgain);
    moves := ThenGo(w, moves, 2, true, PingingAgain);
  }

  // ---- A check that runs alone ----

  /** What one undisturbed check leaves behind: the connection's version and its verdict. */
  function CheckAlone(remote: bool, conn: nat, first: bool, openOk: bool, second: bool): (nat, bool) {
    if first then (conn, true)
    else if !remote then (conn, false)
    else if !openOk then (conn, false)
    else (conn + 1, second)
  }

  function Remaining(pc: Pc): nat {
    match pc
    case ReadGeneration => 12
    case TakeConn => 11
    case Pinging => 10
    case WaitLock => 9
    case Compare => 8
    case Opening => 7
    case Swapping => 6
    case Bumping => 5
    case Counting => 4
    case Leaving => 3
    case TakeAgain => 2
    case PingingAgain => 1
    case Finished(_) => 0
  }

  /** Run the steps of one checker until it is finished or waits for the mutex. */
  function Finish(s: Shared, p: nat, c: Checker, first: bool, openOk: bool, second: bool): (Shared, Checker)
    decreases Remaining(c.pc)
  {
    if c.pc.Finished? || (c.pc.WaitLock? && s.lock.Some?) then (s, c)
    else
      var (s', c') := Act(s, p, c, if c.pc.Pinging? then first else if c.pc.Opening? then openOk else second);
      Finish(s', p, c', first, openOk, second)
  }

  /** The counters while checker `p`, alone, replaces version `conn`. */
  predicate Replacing(s: Shared, p: nat, c: Checker, conn: nat) {
    && s.remote
    && match c.pc {
         case WaitLock => s.lock.None? && InStep(s) && c.seen == conn == s.conn
         case Compare => InStep(s) && c.seen == conn == s.conn
         case Opening => InStep(s) && conn == s.conn
         case Swapping => InStep(s) && conn == s.conn
         case Bumping => conn + 1 == s.conn && conn == s.generation == s.reconnects
         case Counting => conn + 1 == s.conn == s.generation && conn == s.reconnects
         case Leaving => InStep(s) && conn + 1 == s.conn
         case TakeAgain => s.lock.None? && InStep(s) && conn + 1 == s.conn
         case PingingAgain => s.lock.None? && InStep(s) && conn + 1 == s.conn
         case _ => false
       }
  }

  lemma {:induction false} ReplacingFinishes(s: Shared, p: nat, c: Checker, conn: nat, openOk: bool, second: bool)
    requires Replacing(s, p, c, conn)
    requires Remaining(c.pc) <= Remaining(Swapping) ==> openOk
    ensures var (s', c') := Finish(s, p, c, false, openOk, second);
      && InStep(s') && s'.conn == (if openOk then conn + 1 else conn)
      && s'.lock.None? && c'.pc == Finished(openOk && second)
    decreases Remaining(c.pc)
  {
    var (s', c') := Act(s, p, c, if c.pc.Opening? then openOk else second);
    if !c'.pc.Finished? {
      ReplacingFinishes(s', p, c', conn, openOk, second);
    }
  }

  /**
   From the mutex on, undisturbed and with an open that works, a checker pings the connection its first ping
   failed on once more exactly when that connection is still current and it had read an older generation.
   */
  lemma RetryRepeatsExactly(w: World, moves: seq<Move>, p: nat, second: bool)
    requires Initial(w)
    requires p in Run(w, moves).checkers && Run(w, moves).checkers[p].pc.Compare?
    ensures var s, c := Run(w, moves).shared, Run(w, moves).checkers[p];
      var c' := Finish(s, p, c, false, true, second).1;
      && c'.pc == Finished(second)
      && (c'.again == c.on <==> c.on == s.conn && c.seen < c.on)
  {
    RunKeepsInv(w, moves);
    var s, c := Run(w, moves).shared, Run(w, moves).checkers[p];
    var next1 := FinishStep(s, p, c, second);
    if next1.1.pc.Opening? {
      var next2 := FinishStep(next1.0, p, next1.1, second);
      var next3 := FinishStep(next2.0, p, next2.1, second);
      var next4 := FinishStep(next3.0, p, next3.1, second);
      var next5 := FinishStep(next4.0, p, next4.1, second);
      LeavesAndPings(next5.0, p, next5.1, second);
    } else {
      LeavesAndPings(next1.0, p, next1.1, second);
    }
  }

  lemma FinishStep(s: Shared, p: nat, c: Checker, second: bool) returns (next: (Shared, Checker))
    requires !c.pc.Finished? && !c.pc.WaitLock?
    ensures next == Act(s, p, c, if c.pc.Pinging? then false else if c.pc.Opening? then true else second)
    ensures Finish(s, p, c, false, true, second) == Finish(next.0, p, next.1, false, true, second)
  {
    next := Act(s, p, c, if c.pc.Pinging? then false else if c.pc.Opening? then true else second);
  }

  /** The last steps of a checker that leaves the mutex. */
  lemma LeavesAndPings(s: Shared, p: nat, c: Checker, second: bool)
    requires c.pc.Leaving?
    ensures var (s', c') := Finish(s, p, c, false, true, second);
      c'.again == s.conn && c'.pc == Finished(second)
  {
    var next1 := FinishStep(s, p, c, second);
    var next2 := FinishStep(next1.0, p, next1.1, second);
    var next3 := FinishStep(next2.0, p, next2.1, second);
  }

  /** Undisturbed, the steps add up to `CheckAlone`, and the mutex is free again. */
  lemma AloneIsCheckAlone(s: Shared, p: nat, c: Checker, first: bool, openOk: bool, second: bool)
    requires InStep(s) && s.lock.None? && c.pc.ReadGeneration?
    ensures var (s', c') := Finish(s, p, c, first, openOk, second);
      var (conn, ok) := CheckAlone(s.remote, s.conn, first, openOk, second);
      InStep(s') && s'.conn == conn && s'.lock.None? && c'.pc == Finished(ok)
  {
    var (_, c1) := Act(s, p, c, second);
    var (_, c2) := Act(s, p, c1, second);
    var (_, c3) := Act(s, p, c2, first);
    assert Finish(s, p, c, first, openOk, second) == Finish(s, p, c1, first, openOk, second);
    assert Finish(s, p, c1, first, openOk, second) == Finish(s, p, c2, first, openOk, second);
    assert Finish(s, p, c2, first, openOk, second) == Finish(s, p, c3, first, openOk, second);
    if !first && s.remote {
      ReplacingFinishes(s, p, c3, s.conn, openOk, second);
    }
  }
}

/** The database handle itself, as one task uses it: fields replaced in place, and the health it reports. */
module DbHandle {
  import opened Wrappers
  import opened Connection

  /** `lastError` is a short kind; it and its time survive a recovery. */
  datatype Health = Health(ok: bool, checkedAt: Option<nat>, lastError: Option<string>,
                           lastErrorAt: Option<nat>, reconnects: nat)

  /** A query that worked, or failed with an error of some kind. */
  datatype Outcome = Fine | Failed(kind: string)

  class Db {
    const remote: bool
    var conn: nat
    var generation: nat
    var health: Health

    constructor (remote: bool)
      ensures this.remote == remote && conn == generation == 0
      ensures health == Health(true, None, None, None, 0)
    {
      this.remote := remote;
      conn, generation := 0, 0;
      health := Health(true, None, None, None, 0);
    }

    /** Counters agree whenever nobody is replacing the connection. */
    ghost predicate Valid()
      reads this
    {
      conn == generation == health.reconnects
    }

    /** Replace the connection unless somebody else did since `seen`. */
    method ReconnectFrom(seen: nat, open: Outcome) returns (r: Outcome)
      requires Valid()
      modifies this
      ensures Valid()
      ensures var replaced := remote && old(generation) == seen && open.Fine?;
        && conn == old(conn) + (if replaced then 1 else 0)
        && health == old(health).(reconnects := conn)
        && r == (if remote && old(generation) == seen then open else Fine)
    {
      if !remote {
        return Fine;
      }
      if generation != seen {
        return Fine;
      }
      if open.Failed? {
        return open;
      }
      conn := conn + 1;
      generation := generation + 1;
      health := health.(reconnects := health.reconnects + 1);
      return Fine;
    }

    /** Write the result of a check into the health; a recovery does not forget the last error. */
    method Record(result: Outcome, now: nat) returns (h: Health)
      modifies this`health
      ensures h == health
      ensures health.ok == result.Fine? && health.checkedAt == Some(now)
      ensures health.reconnects == old(health).reconnects
      ensures result.Fine? ==>
                health.lastError == old(health).lastError && health.lastErrorAt == old(health).lastErrorAt
      ensures result.Failed? ==> health.lastError == Some(result.kind) && health.lastErrorAt == Some(now)
    {
      h := health.(checkedAt := Some(now));
      match result {
        case Fine =>
          h := h.(ok := true);
        case Failed(kind) =>
          h := h.(ok := false, lastError := Some(kind), lastErrorAt := h.checkedAt);
      }
      health := h;
    }

    /** Ping; on failure, if remote, replace the connection and ping again; record the verdict. */
    method Check(first: Outcome, open: Outcome, second: Outcome, now: nat) returns (h: Health)
      requires Valid()
      modifies this
      ensures Valid() && h == health
      ensures (conn, h.ok) == CheckAlone(remote, old(conn), first.Fine?, open.Fine?, second.Fine?)
      ensures h.checkedAt == Some(now) && h.reconnects == conn
      ensures h.ok ==> h.lastError == old(health).lastError && h.lastErrorAt == old(health).lastErrorAt
      ensures !h.ok ==>
        h.lastErrorAt == Some(now)
        && h.lastError == Some(if !remote then first.kind else if open.Failed? then open.kind else second.kind)
    {
      var seen := generation;
      var result := first;
      if first.Failed? && remote {
        var reconnected := ReconnectFrom(seen, open);
        result := if reconnected.Fine? then second else reconnected;
      }
      h := Record(result, now);
    }
  }
}
