/**
 The relay map: which connection a node can be reached on right now. Channels insert and remove names as their
 requests are answered, and a closing channel removes every name it registered. A request is served in three
 separate steps, so other channels run in between.
 */
module Relay {
  import opened Wrappers
  import opened Nodes

  /** Where a channel is in serving a request. The snapshot is the set of live nodes read before the request ran. */
  datatype Phase =
    | Idle
    | Snapped(principal: Option<Principal>, req: Request, snapshot: set<string>)
    | Answered(reply: Reply, snapshot: set<string>)

  /** One `nodes` channel; several channels may share a connection. */
  datatype Channel = Channel(connection: nat, isOpen: bool, registered: seq<string>, phase: Phase)

  datatype World = World(reg: Registry, live: map<string, nat>, channels: map<nat, Channel>, authRequired: bool)

  datatype Move =
    | Open(c: nat, connection: nat)
    | Receive(c: nat, principal: Option<Principal>, req: Request)
    | Serve(c: nat)
    | Sync(c: nat)
    | Close(c: nat)
    | Wait(dt: nat)

  // ---- The map and the channel's own list ----

  function Without(xs: seq<string>, w: string): (r: seq<string>)
    ensures forall x :: x in r <==> x in xs && x != w
  {
    if xs == [] then [] else (if xs[0] == w then [] else [xs[0]]) + Without(xs[1..], w)
  }

  /** What an answer does to the map. Only a node id counts, and only Register and Unregister answers carry one. */
  function SyncLive(live: map<string, nat>, connection: nat, reply: Reply): map<string, nat> {
    match reply
    case Registered(Some(w), _, _, _, _) => live[w := connection]
    case Unregistered(Some(w), _, _) => live - {w}
    case _ => live
  }

  function SyncRegistered(registered: seq<string>, reply: Reply): seq<string> {
    match reply
    case Registered(Some(w), _, _, _, _) => if w in registered then registered else registered + [w]
    case Unregistered(Some(w), _, _) => Without(registered, w)
    case _ => registered
  }

  function CloseLive(live: map<string, nat>, registered: seq<string>): map<string, nat> {
    map w | w in live && w !in registered :: live[w]
  }

  // ---- Steps ----

  predicate IsOpen(w: World, c: nat) {
    c in w.channels && w.channels[c].isOpen
  }

  function Next(w: World, m: Move): World {
    match m
    case Open(c, connection) =>
      if c in w.channels then w else w.(channels := w.channels[c := Channel(connection, true, [], Idle)])
    case Receive(c, principal, req) =>
      if IsOpen(w, c) && w.channels[c].phase.Idle? then
        w.(channels := w.channels[c := w.channels[c].(phase := Snapped(principal, req, w.live.Keys))])
      else w
    case Serve(c) =>
      if IsOpen(w, c) && w.channels[c].phase.Snapped? then
        var p := w.channels[c].phase;
        var (reg, reply) := Handle(w.reg, p.principal, w.authRequired, p.req, p.snapshot);
        w.(reg := reg, channels := w.channels[c := w.channels[c].(phase := Answered(reply, p.snapshot))])
      else w
    case Sync(c) =>
      if IsOpen(w, c) && w.channels[c].phase.Answered? then
        var ch := w.channels[c];
        w.(live := SyncLive(w.live, ch.connection, ch.phase.reply),
           channels := w.channels[c := ch.(registered := SyncRegistered(ch.registered, ch.phase.reply), phase := Idle)])
      else w
    case Close(c) =>
      if IsOpen(w, c) && w.channels[c].phase.Idle? then
        w.(live := CloseLive(w.live, w.channels[c].registered),
           channels := w.channels[c := w.channels[c].(isOpen := false)])
      else w
    case Wait(dt) => w.(reg := w.reg.(now := w.reg.now + dt))
  }

  function Run(w: World, moves: seq<Move>): World {
    if moves == [] then w else Next(Run(w, moves[..|moves| - 1]), moves[|moves| - 1])
  }

  /** A channel serves one request at a time: while it does it takes no other and does not close. */
  lemma OneAtATime(w: World, c: nat, principal: Option<Principal>, req: Request)
    requires IsOpen(w, c)
    ensures var busy := !w.channels[c].phase.Idle?;
      && (busy ==> Next(w, Receive(c, principal, req)) == w && Next(w, Close(c)) == w)
      && (!busy ==>
            && Next(w, Receive(c, principal, req)).channels[c].phase == Snapped(principal, req, w.live.Keys)
            && !Next(w, Close(c)).channels[c].isOpen)
  {
  }

  // ---- Soundness ----

  /** Channel `c` is open, on the connection the map gives for the name, and has the name in its own list. */
  predicate BackedBy(w: World, name: string, c: nat) {
    name in w.live && IsOpen(w, c) && w.channels[c].connection == w.live[name] && name in w.channels[c].registered
  }

  ghost predicate Backed(w: World, name: string) {
    exists c :: BackedBy(w, name, c)
  }

  ghost predicate Sound(w: World) {
    forall name :: name in w.live ==> Backed(w, name)
  }

  /** A served Discover says `connected` only for nodes in the snapshot taken for it. */
  predicate FromSnapshot(ch: Channel) {
    ch.phase.Answered? && ch.phase.reply.Nodes? ==>
      forall rid :: rid in ch.phase.reply.entries ==>
        (ch.phase.reply.entries[rid].connected <==>
           Connected(ch.phase.reply.entries[rid].node, ch.phase.snapshot))
  }

  predicate AllFromSnapshot(w: World) {
    forall c :: c in w.channels ==> FromSnapshot(w.channels[c])
  }

  lemma NextKeepsSound(w: World, m: Move)
    requires Sound(w)
    ensures Sound(Next(w, m))
  {
    var w' := Next(w, m);
    forall name | name in w'.live ensures Backed(w', name) {
      if m.Sync? && BackedBy(w', name, m.c) {
      } else {
        assert Backed(w, name);
        var c :| BackedBy(w, name, c);
        assert BackedBy(w', name, c);
      }
    }
  }

  lemma NextKeepsSnapshots(w: World, m: Move)
    requires AllFromSnapshot(w)
    ensures AllFromSnapshot(Next(w, m))
  {
  }

  predicate Initial(w: World) {
    w.live == map[] && w.channels == map[]
  }

  /**
   Over every run of registrations, takeovers, removals and closes, every entry of the map is backed by an open
   channel on that connection with the name in its own list, and every liveness flag comes from a snapshot.
   */
  lemma {:induction false} RunKeepsSound(w: World, moves: seq<Move>)
    requires Initial(w)
    ensures Sound(Run(w, moves)) && AllFromSnapshot(Run(w, moves))
  {
    if moves != [] {
      RunKeepsSound(w, moves[..|moves| - 1]);
      NextKeepsSound(Run(w, moves[..|moves| - 1]), moves[|moves| - 1]);
      NextKeepsSnapshots(Run(w, moves[..|moves| - 1]), moves[|moves| - 1]);
    }
  }

  /** Every node a Discover will call connected had an open channel of its own when the snapshot was taken. */
  lemma SnapshotIsBacked(w: World, moves: seq<Move>, c: nat, principal: Option<Principal>, req: Request)
    requires Initial(w)
    requires IsOpen(Run(w, moves), c) && Run(w, moves).channels[c].phase.Idle?
    ensures var w1 := Run(w, moves);
      var phase := Next(w1, Receive(c, principal, req)).channels[c].phase;
      phase.Snapped? && forall name :: name in phase.snapshot ==> Backed(w1, name)
  {
    RunKeepsSound(w, moves);
  }

  /**
   After a close the names that are left are exactly those the channel had not registered, and none of them
   leads to the closed channel's connection unless another channel is open on it.
   */
  lemma CloseLeavesNothing(w: World, moves: seq<Move>, c: nat)
    requires Initial(w)
    requires IsOpen(Run(w, moves), c) && Run(w, moves).channels[c].phase.Idle?
    ensures var w1 := Run(w, moves);
      var w2 := Next(w1, Close(c));
      && (forall name :: name in w2.live <==> name in w1.live && name !in w1.channels[c].registered)
      && (forall name :: name in w2.live ==> w2.live[name] == w1.live[name])
      && ((forall d :: IsOpen(w1, d) && d != c ==> w1.channels[d].connection != w1.channels[c].connection) ==>
            forall name :: name in w2.live ==> w2.live[name] != w1.channels[c].connection)
  {
    RunKeepsSound(w, moves);
    var w1 := Run(w, moves);
    var w2 := Next(w1, Close(c));
    NextKeepsSound(w1, Close(c));
    forall name | name in w2.live
      ensures (forall d :: IsOpen(w1, d) && d != c ==> w1.channels[d].connection != w1.channels[c].connection) ==>
        w2.live[name] != w1.channels[c].connection
    {
      assert Backed(w2, name);
      var d :| BackedBy(w2, name, d);
      assert d != c && IsOpen(w1, d);
    }
  }

  // ---- Relaying ----

  datatype RelayStatus = Refused | ToRequired | Offline | Established(connection: nat)

  function RelayTo(live: map<string, nat>, principal: Option<Principal>, authRequired: bool, to: Option<string>)
    : RelayStatus
  {
    if !Authorized(principal, READ_SCOPE, authRequired) then Refused
    else if to.None? then ToRequired
    else if to.value !in live then Offline
    else Established(live[to.value])
  }

  /** Every answer of the relay has its one cause; who is live is reached on the connection the map gives. */
  lemma RelayExactly(live: map<string, nat>, principal: Option<Principal>, authRequired: bool, to: Option<string>)
    ensures var a := RelayTo(live, principal, authRequired, to);
      && (a.Refused? <==>
            || (principal.None? && authRequired)
            || (principal.Some? && principal.value.App? && "federation.read" !in principal.value.scopes))
      && (a.ToRequired? <==> !a.Refused? && to.None?)
      && (a.Offline? <==> !a.Refused? && to.Some? && to.value !in live)
      && (a.Established? <==> !a.Refused? && to.Some? && to.value in live)
      && (a.Established? ==> a.connection == live[to.value])
  {
  }

  /** A message is only ever forwarded on a connection with an open channel that registered the addressee. */
  lemma RelayReaches(w: World, moves: seq<Move>, principal: Option<Principal>, to: Option<string>)
    requires Initial(w)
    requires RelayTo(Run(w, moves).live, principal, w.authRequired, to).Established?
    ensures to.Some? && exists c ::
      BackedBy(Run(w, moves), to.value, c) &&
      Run(w, moves).channels[c].connection == RelayTo(Run(w, moves).live, principal, w.authRequired, to).connection
  {
    RunKeepsSound(w, moves);
    var w1 := Run(w, moves);
    assert Backed(w1, to.value);
    var c :| BackedBy(w1, to.value, c);
  }

  // ---- Completeness, and exactly when it is lost ----

  /** Every name an open channel has registered is in the map. */
  predicate Complete(w: World) {
    forall c, name | c in w.channels && name in w.channels[c].registered ::
      w.channels[c].isOpen ==> name in w.live
  }

  /** Some other open channel has this name in its list. */
  ghost predicate Shared(w: World, c: nat, name: string) {
    exists d :: d != c && IsOpen(w, d) && name in w.channels[d].registered
  }

  /** Closing a channel loses a reachable node exactly when another open channel registered one of its names too. */
  lemma CloseLosesExactly(w: World, c: nat)
    requires Complete(w) && IsOpen(w, c) && w.channels[c].phase.Idle?
    ensures Complete(Next(w, Close(c))) <==>
            forall name :: name in w.channels[c].registered ==> !Shared(w, c, name)
  {
    var w' := Next(w, Close(c));
    var mine := w.channels[c].registered;
    if name :| name in mine && Shared(w, c, name) {
      var d :| d != c && IsOpen(w, d) && name in w.channels[d].registered;
      assert d in w'.channels && name in w'.channels[d].registered && w'.channels[d].isOpen;
      assert name !in w'.live;
      assert !Complete(w');
    } else {
      forall d, name | d in w'.channels && name in w'.channels[d].registered && w'.channels[d].isOpen
        ensures name in w'.live
      {
        assert IsOpen(w, d) && w.channels[d] == w'.channels[d];
        assert !(name in mine && Shared(w, c, name));
      }
    }
  }

  /**
   An answer loses a reachable node exactly when it is to an Unregister of a node id that another open channel
   has registered. How many rows were removed plays no part in it.
   */
  lemma SyncLosesExactly(w: World, c: nat)
    requires Complete(w) && IsOpen(w, c) && w.channels[c].phase.Answered?
    ensures var reply := w.channels[c].phase.reply;
      Complete(Next(w, Sync(c))) <==>
      !(reply.Unregistered? && reply.nodeId.Some? && Shared(w, c, reply.nodeId.value))
  {
    var w' := Next(w, Sync(c));
    var reply := w.channels[c].phase.reply;
    if reply.Unregistered? && reply.nodeId.Some? && Shared(w, c, reply.nodeId.value) {
      var d :| d != c && IsOpen(w, d) && reply.nodeId.value in w.channels[d].registered;
      assert d in w'.channels && w'.channels[d] == w.channels[d];
    } else {
      forall d, name | d in w'.channels && name in w'.channels[d].registered && w'.channels[d].isOpen
        ensures name in w'.live
      {
        assert IsOpen(w, d);
        if d != c {
          assert w.channels[d] == w'.channels[d] && name in w.live;
          assert !(reply.Unregistered? && reply.nodeId == Some(name));
        }
      }
    }
  }

  /** No other step loses anything. */
  lemma OthersLoseNothing(w: World, m: Move)
    requires Complete(w) && !m.Sync? && !m.Close?
    ensures Complete(Next(w, m))
  {
    assert Next(w, m).live == w.live;
  }

  // ---- The two ways to lose a live node ----

  lemma Then(w: World, moves: seq<Move>, m: Move) returns (more: seq<Move>)
    ensures Run(w, more) == Next(Run(w, moves), m)
  {
    more := moves + [m];
    assert more[..|more| - 1] == moves;
  }

  /** One whole request on an idle channel, nobody in between. */
  function Served(w: World, c: nat, principal: Option<Principal>, req: Request): World
    requires IsOpen(w, c) && w.channels[c].phase.Idle?
  {
    var ch := w.channels[c];
    var (reg, reply) := Handle(w.reg, principal, w.authRequired, req, w.live.Keys);
    World(reg, SyncLive(w.live, ch.connection, reply),
          w.channels[c := ch.(registered := SyncRegistered(ch.registered, reply))], w.authRequired)
  }

  /** The names that are not those of secret records are as they were: where they lead, and who registered them. */
  ghost predicate OpenlySame(w: World, w': World, ids: set<string>) {
    && (forall n :: RecordId(n) !in ids ==> (n in w.live <==> n in w'.live))
    && (forall n :: n in w.live && RecordId(n) !in ids ==> w'.live[n] == w.live[n])
    && w'.channels.Keys == w.channels.Keys
    && forall c, n | c in w.channels && RecordId(n) !in ids ::
         n in w'.channels[c].registered <==> n in w.channels[c].registered
  }

  /**
   A secret request, in the sense of `Nodes.NonInterference`, changes the map and the lists only at names of secret
   records. So the liveness snapshots of other requests differ only there, as `Nodes.Purge` allows.
   */
  lemma SecretRequestStaysSecret(w: World, c: nat, principal: Option<Principal>, req: Request,
                                 viewer: Option<string>, ids: set<string>)
    requires IsOpen(w, c) && w.channels[c].phase.Idle?
    requires Secret(Ask(principal, req, w.live.Keys), viewer, ids) && SecretsHidden(w.reg, viewer, ids)
    ensures var w' := Served(w, c, principal, req);
      && OpenlySame(w, w', ids) && OpenlyLive(w'.live.Keys, ids) == OpenlyLive(w.live.Keys, ids)
      && LooksSame(w'.reg, w.reg, viewer, ids)
  {
    SecretStepInvisible(w.reg, w.reg, Ask(principal, req, w.live.Keys), w.authRequired, viewer, ids);
    SecretReply(w.reg, principal, w.authRequired, req, w.live.Keys, viewer, ids);
  }

  lemma SecretReply(reg: Registry, principal: Option<Principal>, authRequired: bool, req: Request, live: set<string>,
                    viewer: Option<string>, ids: set<string>)
    requires Secret(Ask(principal, req, live), viewer, ids)
    ensures var reply := Handle(reg, principal, authRequired, req, live).1;
      (reply.Registered? || reply.Unregistered?) && reply.nodeId.Some? ==> RecordId(reply.nodeId.value) in ids
  {
  }

  lemma ThenServed(w: World, moves: seq<Move>, c: nat, principal: Option<Principal>, req: Request)
    returns (more: seq<Move>)
    requires IsOpen(Run(w, moves), c) && Run(w, moves).channels[c].phase.Idle?
    ensures Run(w, more) == Served(Run(w, moves), c, principal, req)
  {
    more := Then(w, moves, Receive(c, principal, req));
    more := Then(w, more, Serve(c));
    more := Then(w, more, Sync(c));
  }

  lemma ServedRegister(w: World, c: nat, usr: string, n: string)
    requires IsOpen(w, c) && w.channels[c].phase.Idle?
    requires RecordId(n) in w.reg.nodes ==> OwnedBy(w.reg, RecordId(n), usr)
    ensures var ch := w.channels[c];
      var w' := Served(w, c, Some(User(usr)), Register(Some(n), Some(n), None, [], None));
      && OwnedBy(w'.reg, RecordId(n), usr) && w'.live == w.live[n := ch.connection] && w'.authRequired == w.authRequired
      && w'.channels ==
           w.channels[c := ch.(registered := if n in ch.registered then ch.registered else ch.registered + [n])]
  {
  }

  lemma BothOpen(w: World) returns (moves: seq<Move>)
    requires Initial(w)
    ensures Run(w, moves) ==
            w.(channels := map[0 := Channel(10, true, [], Idle), 1 := Channel(11, true, [], Idle)])
  {
    moves := Then(w, [], Open(0, 10));
    assert Run(w, moves) == w.(channels := map[0 := Channel(10, true, [], Idle)]);
    moves := Then(w, moves, Open(1, 11));
  }

  /** The user registers the node on channel 0 of connection 10, then again on channel 1 of connection 11. */
  lemma TakenOver(w: World, usr: string, n: string) returns (moves: seq<Move>)
    requires Initial(w) && RecordId(n) !in w.reg.nodes
    ensures var w1 := Run(w, moves);
      && w1.live == map[n := 11] && OwnedBy(w1.reg, RecordId(n), usr) && w1.authRequired == w.authRequired
      && w1.channels == map[0 := Channel(10, true, [n], Idle), 1 := Channel(11, true, [n], Idle)]
  {
    var req := Register(Some(n), Some(n), None, [], None);
    var none: seq<string> := [];
    assert none + [n] == [n];
    moves := BothOpen(w);
    ServedRegister(Run(w, moves), 0, usr, n);
    moves := ThenServed(w, moves, 0, Some(User(usr)), req);
    assert Run(w, moves).channels == map[0 := Channel(10, true, [n], Idle), 1 := Channel(11, true, [], Idle)];
    ServedRegister(Run(w, moves), 1, usr, n);
    moves := ThenServed(w, moves, 1, Some(User(usr)), req);
  }

  /** Closing the older channel makes the node unreachable although the newer one is open and holds the name. */
  lemma OlderCloseLosesName(w: World, usr: string, n: string) returns (moves: seq<Move>)
    requires Initial(w) && RecordId(n) !in w.reg.nodes
    ensures var w1 := Run(w, moves);
      && n !in w1.live && IsOpen(w1, 1) && n in w1.channels[1].registered && OwnedBy(w1.reg, RecordId(n), usr)
      && RelayTo(w1.live, Some(User(usr)), w.authRequired, Some(n)) == Offline
  {
    moves := TakenOver(w, usr, n);
    moves := Then(w, moves, Close(0));
  }

  /** So does another user's Unregister, which is answered with nothing removed and leaves the row in place. */
  lemma StrangerDropsName(w: World, usr: string, other: string, n: string) returns (moves: seq<Move>)
    requires Initial(w) && RecordId(n) !in w.reg.nodes && usr != other
    ensures var w1 := Run(w, moves);
      && n !in w1.live && IsOpen(w1, 1) && n in w1.channels[1].registered && OwnedBy(w1.reg, RecordId(n), usr)
  {
    moves := TakenOver(w, usr, n);
    var w1 := Run(w, moves);
    moves := Then(w, moves, Open(2, 12));
    moves := ThenServed(w, moves, 2, Some(User(other)), Unregister(Some(n), None));
    OthersCannotTouch(w1.reg, Some(User(other)), w.authRequired, Unregister(Some(n), None), w1.live.Keys,
                      RecordId(n), usr);
  }
}
