/**
 The node registry: who may write which record, and who sees it. A record is named by the node id, or by the
 handle when there is none; it belongs to the user who registered it, or to nobody.
 */
module Nodes {
  import opened Wrappers
  import opened Envelope

  const REGISTER_SCOPE := "federation.register"
  const READ_SCOPE := "federation.read"

  datatype Principal = User(userId: string) | App(appId: string, scopes: set<string>)

  datatype Node = Node(nodeId: Option<string>, handle: string, name: string, endpoints: seq<string>,
                       owner: Option<string>, visibility: Visibility, createdAt: nat)

  /** The `vp-node` rows of `hub_resource`, keyed by record id. */
  datatype Registry = Registry(nodes: map<string, Node>, now: nat)

  /** The payload fields a request carries; a field of another JSON type counts as absent. */
  datatype Request =
    | Register(nodeId: Option<string>, handle: Option<string>, name: Option<string>, endpoints: seq<string>,
               visibility: Option<string>)
    | Discover
    | Unregister(nodeId: Option<string>, handle: Option<string>)
    | OtherMethod(unknown: string)

  datatype NodeError = Unauthorized | MissingField | BadVisibility | OwnedByAnother | UnknownMethod

  datatype Entry = Entry(node: Node, connected: bool)

  /** What a Discover lists, keyed by record id. */
  type Listing = map<string, Entry>

  datatype Reply =
    | Registered(nodeId: Option<string>, handle: string, registeredAt: nat, endpoints: seq<string>,
                 visibility: Visibility)
    | Nodes(entries: Listing)
    | Unregistered(nodeId: Option<string>, named: Option<string>, removed: nat)
    | Failed(error: NodeError)

  // ---- Gates ----

  function UsrIdOf(principal: Option<Principal>): Option<string> {
    if principal.Some? && principal.value.User? then Some(principal.value.userId) else None
  }

  predicate Authorized(principal: Option<Principal>, scope: string, authRequired: bool) {
    match principal
    case Some(User(_)) => true
    case Some(App(_, scopes)) => scope in scopes
    case None => !authRequired
  }

  /** Explicit `public` or `private`; by default private with an owner and public without one. */
  function ParseVisibility(field: Option<string>, owner: Option<string>): Result<Visibility, NodeError> {
    match field
    case Some(v) =>
      if v == "public" then Ok(Public) else if v == "private" then Ok(Private) else Err(BadVisibility)
    case None => Ok(if owner.Some? then Private else Public)
  }

  function RecordId(name: string): string {
    "vp-node:" + name
  }

  /** The record a request is about: the node id decides, the handle only stands in for a missing one. */
  function Target(req: Request): Option<string> {
    match req
    case Register(nodeId, handle, _, _, _) =>
      if handle.None? then None
      else Some(RecordId(if nodeId.Some? then nodeId.value else handle.value))
    case Unregister(nodeId, handle) =>
      if nodeId.Some? then Some(RecordId(nodeId.value))
      else if handle.Some? then Some(RecordId(handle.value)) else None
    case _ => None
  }

  // ---- The stored operations ----

  /** The owner guard of both statements: no owner, or the caller's own. */
  predicate Guarded(n: Node, usr: Option<string>) {
    n.owner.None? || n.owner == usr
  }

  function RegisterNode(reg: Registry, rid: string, n: Node): (Registry, Result<nat, NodeError>) {
    if rid in reg.nodes && !Guarded(reg.nodes[rid], n.owner) then (reg, Err(OwnedByAnother))
    else (reg.(nodes := reg.nodes[rid := n.(createdAt := reg.now)]), Ok(reg.now))
  }

  function UnregisterNode(reg: Registry, rid: string, requester: Option<string>): (Registry, nat) {
    if rid in reg.nodes && Guarded(reg.nodes[rid], requester) then (reg.(nodes := reg.nodes - {rid}), 1)
    else (reg, 0)
  }

  predicate Visible(n: Node, viewer: Option<string>) {
    n.visibility == Public || (viewer.Some? && n.owner == viewer)
  }

  function VisibleTo(reg: Registry, viewer: Option<string>): map<string, Node> {
    map rid | rid in reg.nodes && Visible(reg.nodes[rid], viewer) :: reg.nodes[rid]
  }

  predicate Connected(n: Node, live: set<string>) {
    n.nodeId.Some? && n.nodeId.value in live
  }

  function WithLiveness(nodes: map<string, Node>, live: set<string>): Listing {
    map rid | rid in nodes :: Entry(nodes[rid], Connected(nodes[rid], live))
  }

  // ---- The channel's dispatch ----

  function NewNode(req: Request, owner: Option<string>, visibility: Visibility): Node
    requires req.Register? && req.handle.Some?
  {
    var handle := req.handle.value;
    Node(req.nodeId, handle, if req.name.Some? then req.name.value else handle, req.endpoints, owner, visibility, 0)
  }

  function Handle(reg: Registry, principal: Option<Principal>, authRequired: bool, req: Request, live: set<string>)
    : (Registry, Reply)
  {
    var usr := UsrIdOf(principal);
    match req
    case Register(nodeId, handle, _, endpoints, field) =>
      if !Authorized(principal, REGISTER_SCOPE, authRequired) then (reg, Failed(Unauthorized))
      else if handle.None? then (reg, Failed(MissingField))
      else (
        match ParseVisibility(field, usr)
        case Err(e) => (reg, Failed(e))
        case Ok(v) =>
          var (reg', at) := RegisterNode(reg, Target(req).value, NewNode(req, usr, v));
          (reg', if at.Ok? then Registered(nodeId, handle.value, at.value, endpoints, v) else Failed(at.error))
      )
    case Discover =>
      if !Authorized(principal, READ_SCOPE, authRequired) then (reg, Failed(Unauthorized))
      else (reg, Nodes(WithLiveness(VisibleTo(reg, usr), live)))
    case Unregister(nodeId, handle) =>
      if !Authorized(principal, REGISTER_SCOPE, authRequired) then (reg, Failed(Unauthorized))
      else if Target(req).None? then (reg, Failed(MissingField))
      else
        var (reg', removed) := UnregisterNode(reg, Target(req).value, usr);
        (reg', Unregistered(nodeId, handle, removed))
    case OtherMethod(_) => (reg, Failed(UnknownMethod))
  }

  // ---- Runs ----

  datatype Step = Ask(principal: Option<Principal>, req: Request, live: set<string>) | Tick(dt: nat)

  function Next(reg: Registry, s: Step, authRequired: bool): Registry {
    match s
    case Ask(principal, req, live) => Handle(reg, principal, authRequired, req, live).0
    case Tick(dt) => reg.(now := reg.now + dt)
  }

  function Run(reg: Registry, steps: seq<Step>, authRequired: bool): Registry
    decreases |steps|
  {
    if steps == [] then reg else Run(Next(reg, steps[0], authRequired), steps[1..], authRequired)
  }

  // ---- Who is refused ----

  /**
   Exactly who is refused: without a principal when one is required, and an app whose token lacks the scope of the
   method. A user's identity is enough for all of them. Who is refused changes nothing and learns nothing else. A method
   the channel does not know is answered so, whoever asks.
   */
  lemma RefusedExactly(reg: Registry, principal: Option<Principal>, authRequired: bool, req: Request, live: set<string>)
    ensures var (reg', reply) := Handle(reg, principal, authRequired, req, live);
      var scope := if req.Discover? then "federation.read" else "federation.register";
      && (reply == Failed(Unauthorized) <==>
            && !req.OtherMethod?
            && ((principal.None? && authRequired)
                || (principal.Some? && principal.value.App? && scope !in principal.value.scopes)))
      && (reply == Failed(UnknownMethod) <==> req.OtherMethod?)
      && (reply.Failed? ==> reg' == reg)
  {
  }

  /** The other errors, for those who are let in: each has its one cause. */
  lemma FailsExactly(reg: Registry, principal: Option<Principal>, authRequired: bool, req: Request, live: set<string>)
    requires Handle(reg, principal, authRequired, req, live).1 != Failed(Unauthorized)
    ensures var reply := Handle(reg, principal, authRequired, req, live).1;
      var shown := if req.Register? then req.visibility else None;
      && (reply == Failed(MissingField) <==>
            (req.Register? && req.handle.None?) || (req.Unregister? && req.nodeId.None? && req.handle.None?))
      && (reply == Failed(BadVisibility) <==>
            req.Register? && req.handle.Some? && shown.Some? && shown.value != "public" && shown.value != "private")
      && (reply == Failed(OwnedByAnother) <==>
            req.Register? && req.handle.Some? && reply != Failed(BadVisibility)
            && exists usr :: OwnedBy(reg, Target(req).value, usr) && UsrIdOf(principal) != Some(usr))
      && (reply.Registered? ==>
            reply.visibility == (if shown.Some? then (if shown.value == "public" then Public else Private)
                                 else if UsrIdOf(principal).Some? then Private else Public))
  {
    if req.Register? && Target(req).Some? && Target(req).value in reg.nodes {
      var n := reg.nodes[Target(req).value];
      if n.owner.Some? {
        assert OwnedBy(reg, Target(req).value, n.owner.value);
      }
    }
  }

  /** An answer names what was asked: the same node id, handle and endpoints, and the time of the registration. */
  lemma AnswersEcho(reg: Registry, principal: Option<Principal>, authRequired: bool, req: Request, live: set<string>)
    ensures var reply := Handle(reg, principal, authRequired, req, live).1;
      && (reply.Registered? ==> req.Register? && reply.nodeId == req.nodeId && Some(reply.handle) == req.handle
                                && reply.endpoints == req.endpoints && reply.registeredAt == reg.now)
      && (reply.Unregistered? ==> req.Unregister? && reply.nodeId == req.nodeId && reply.named == req.handle)
      && (reply.Nodes? ==> req.Discover?)
  {
  }

  // ---- Ownership ----

  predicate By(s: Step, usr: string) {
    s.Ask? && UsrIdOf(s.principal) == Some(usr)
  }

  predicate OwnedBy(reg: Registry, rid: string, usr: string) {
    rid in reg.nodes && reg.nodes[rid].owner == Some(usr)
  }

  /**
   A request by anyone but its owner leaves an owned record alone, in both name spaces, and the answer says no
   more than that: a Register is refused, an Unregister reports that nothing was removed.
   */
  lemma OthersCannotTouch(reg: Registry, principal: Option<Principal>, authRequired: bool, req: Request,
                          live: set<string>, rid: string, usr: string)
    requires OwnedBy(reg, rid, usr) && UsrIdOf(principal) != Some(usr)
    ensures var (reg', reply) := Handle(reg, principal, authRequired, req, live);
      && rid in reg'.nodes && reg'.nodes[rid] == reg.nodes[rid]
      && (Target(req) == Some(rid) ==> reply.Failed? || (reply.Unregistered? && reply.removed == 0))
  {
  }

  /** Over any run: whatever others do, an owned record stays as its owner left it. */
  lemma {:induction false} OwnershipPersists(reg: Registry, steps: seq<Step>, authRequired: bool,
                                             rid: string, usr: string)
    requires OwnedBy(reg, rid, usr)
    requires forall i :: 0 <= i < |steps| ==> !By(steps[i], usr)
    ensures rid in Run(reg, steps, authRequired).nodes
    ensures Run(reg, steps, authRequired).nodes[rid] == reg.nodes[rid]
    decreases |steps|
  {
    if steps != [] {
      if steps[0].Ask? {
        assert !By(steps[0], usr);
        OthersCannotTouch(reg, steps[0].principal, authRequired, steps[0].req, steps[0].live, rid, usr);
      }
      OwnershipPersists(Next(reg, steps[0], authRequired), steps[1..], authRequired, rid, usr);
    }
  }

  /** The owner keeps both rights: its next Register replaces the record, its next Unregister removes it. */
  lemma OwnerKeepsControl(reg: Registry, authRequired: bool, req: Request, live: set<string>, rid: string, usr: string)
    requires OwnedBy(reg, rid, usr) && Target(req) == Some(rid)
    requires req.Register? ==> ParseVisibility(req.visibility, Some(usr)).Ok?
    ensures var (reg', reply) := Handle(reg, Some(User(usr)), authRequired, req, live);
      if req.Register? then
        && reply.Registered? && OwnedBy(reg', rid, usr)
        && reg'.nodes[rid].endpoints == req.endpoints && reg'.nodes[rid].visibility == reply.visibility
        && reply.visibility == (if req.visibility == Some("public") then Public else Private)
      else
        reply.Unregistered? && reply.removed == 1 && rid !in reg'.nodes
  {
  }

  // ---- What a registration makes visible ----

  /**
   Round trip. After a registration goes through, an authorised Discover lists the record exactly for its owner
   and, when it is public, for everybody; it shows the endpoints and name given, and `connected` from the snapshot.
   */
  lemma RegisterThenDiscover(reg: Registry, principal: Option<Principal>, authRequired: bool, req: Request,
                             live: set<string>, other: Option<Principal>, live': set<string>)
    requires Handle(reg, principal, authRequired, req, live).1.Registered?
    requires Authorized(other, READ_SCOPE, authRequired)
    ensures var (reg', reply) := Handle(reg, principal, authRequired, req, live);
      var seen := Handle(reg', other, authRequired, Discover, live').1;
      var rid := Target(req).value;
      && seen.Nodes?
      && (rid in seen.entries <==>
            reply.visibility == Public || (UsrIdOf(other).Some? && UsrIdOf(other) == UsrIdOf(principal)))
      && (rid in seen.entries ==>
            var e := seen.entries[rid];
            && e.node.endpoints == req.endpoints && e.node.nodeId == req.nodeId && Some(e.node.handle) == req.handle
            && Some(e.node.name) == (if req.name.Some? then req.name else req.handle)
            && e.node.owner == UsrIdOf(principal) && e.node.createdAt == reply.registeredAt
            && (e.connected <==> req.nodeId.Some? && req.nodeId.value in live'))
  {
  }

  /** An Unregister that removed something leaves the record on nobody's list; one that did not changes no list. */
  lemma UnregisterThenDiscover(reg: Registry, principal: Option<Principal>, authRequired: bool, req: Request,
                               live: set<string>, other: Option<Principal>)
    requires Handle(reg, principal, authRequired, req, live).1.Unregistered?
    ensures var (reg', reply) := Handle(reg, principal, authRequired, req, live);
      var rid := Target(req).value;
      && reply.removed <= 1
      && (reply.removed == 1 <==> rid in reg.nodes && Guarded(reg.nodes[rid], UsrIdOf(principal)))
      && VisibleTo(reg', UsrIdOf(other)) == VisibleTo(reg, UsrIdOf(other)) - (if reply.removed == 1 then {rid} else {})
  {
    var (reg', reply) := Handle(reg, principal, authRequired, req, live);
    var before, after := VisibleTo(reg, UsrIdOf(other)), VisibleTo(reg', UsrIdOf(other));
    if reply.removed == 1 {
      assert after == before - {Target(req).value};
    }
  }

  // ---- Non-interference ----

  /** A step of another user on a record in `ids` that the viewer has no business with. */
  predicate Secret(s: Step, viewer: Option<string>, ids: set<string>) {
    && s.Ask? && UsrIdOf(s.principal).Some? && UsrIdOf(s.principal) != viewer
    && Target(s.req).Some? && Target(s.req).value in ids
    && (s.req.Register? ==> ParseVisibility(s.req.visibility, UsrIdOf(s.principal)) == Ok(Private))
  }

  /** Records in `ids` are only registered secretly: by owners other than the viewer, and not as public. */
  predicate KeepsSecrets(s: Step, viewer: Option<string>, ids: set<string>) {
    s.Ask? && s.req.Register? && Target(s.req).Some? && Target(s.req).value in ids ==> Secret(s, viewer, ids)
  }

  predicate AllKeepSecrets(steps: seq<Step>, viewer: Option<string>, ids: set<string>) {
    forall i :: 0 <= i < |steps| ==> KeepsSecrets(steps[i], viewer, ids)
  }

  /** The live nodes that are not named by a secret record. */
  function OpenlyLive(live: set<string>, ids: set<string>): set<string> {
    set w | w in live && RecordId(w) !in ids
  }

  /** The run without the secret steps, and without secret nodes in the liveness snapshots. */
  function Purge(steps: seq<Step>, viewer: Option<string>, ids: set<string>): seq<Step> {
    if steps == [] then []
    else
      var rest := Purge(steps[1..], viewer, ids);
      var s := steps[0];
      if Secret(s, viewer, ids) then rest
      else if s.Ask? then [s.(live := OpenlyLive(s.live, ids))] + rest
      else [s] + rest
  }

  /** Everything the viewer is told in a run. */
  function Seen(reg: Registry, steps: seq<Step>, authRequired: bool, viewer: Option<string>): seq<Reply>
    decreases |steps|
  {
    if steps == [] then []
    else
      var s := steps[0];
      (if s.Ask? && UsrIdOf(s.principal) == viewer
       then [Handle(reg, s.principal, authRequired, s.req, s.live).1] else [])
      + Seen(Next(reg, s, authRequired), steps[1..], authRequired, viewer)
  }

  predicate Hidden(n: Node, viewer: Option<string>) {
    n.owner.Some? && n.owner != viewer && n.visibility == Private
  }

  /** Records registered under a node id are keyed by it. */
  predicate Keyed(reg: Registry) {
    forall rid :: rid in reg.nodes && reg.nodes[rid].nodeId.Some? ==> rid == RecordId(reg.nodes[rid].nodeId.value)
  }

  predicate SecretsHidden(reg: Registry, viewer: Option<string>, ids: set<string>) {
    Keyed(reg) && forall rid :: rid in reg.nodes && rid in ids ==> Hidden(reg.nodes[rid], viewer)
  }

  /** The two registries agree outside `ids`, and the viewer sees neither's records inside. */
  ghost predicate LooksSame(a: Registry, b: Registry, viewer: Option<string>, ids: set<string>) {
    && a.now == b.now && SecretsHidden(a, viewer, ids) && SecretsHidden(b, viewer, ids)
    && (forall rid :: rid !in ids ==> (rid in a.nodes <==> rid in b.nodes))
    && (forall rid :: rid in a.nodes && rid !in ids ==> a.nodes[rid] == b.nodes[rid])
  }

  lemma SecretStepInvisible(a: Registry, b: Registry, s: Step, authRequired: bool,
                            viewer: Option<string>, ids: set<string>)
    requires LooksSame(a, b, viewer, ids) && Secret(s, viewer, ids)
    ensures LooksSame(Next(a, s, authRequired), b, viewer, ids)
  {
  }

  lemma SameListing(a: Registry, b: Registry, usr: Option<string>, live: set<string>,
                    viewer: Option<string>, ids: set<string>)
    requires LooksSame(a, b, viewer, ids) && usr == viewer
    ensures WithLiveness(VisibleTo(a, usr), live) == WithLiveness(VisibleTo(b, usr), OpenlyLive(live, ids))
  {
    var va, vb := VisibleTo(a, usr), VisibleTo(b, usr);
    assert forall rid :: rid in va ==> rid !in ids && rid in vb;
    assert forall rid :: rid in vb ==> rid !in ids && rid in va;
  }

  lemma OpenStepLooksSame(a: Registry, b: Registry, s: Step, authRequired: bool,
                          viewer: Option<string>, ids: set<string>)
    requires LooksSame(a, b, viewer, ids) && KeepsSecrets(s, viewer, ids) && !Secret(s, viewer, ids) && s.Ask?
    ensures LooksSame(Next(a, s, authRequired), Next(b, s.(live := OpenlyLive(s.live, ids)), authRequired), viewer, ids)
  {
  }

  lemma OpenStepReplies(a: Registry, b: Registry, s: Step, authRequired: bool, viewer: Option<string>, ids: set<string>)
    requires LooksSame(a, b, viewer, ids) && KeepsSecrets(s, viewer, ids) && s.Ask? && UsrIdOf(s.principal) == viewer
    ensures Handle(a, s.principal, authRequired, s.req, s.live).1 ==
            Handle(b, s.principal, authRequired, s.req, OpenlyLive(s.live, ids)).1
  {
    if s.req.Discover? {
      SameListing(a, b, viewer, s.live, viewer, ids);
    }
  }

  lemma {:induction false} PurgeUnseen(a: Registry, b: Registry, steps: seq<Step>, authRequired: bool,
                                       viewer: Option<string>, ids: set<string>)
    requires LooksSame(a, b, viewer, ids) && AllKeepSecrets(steps, viewer, ids)
    ensures Seen(a, steps, authRequired, viewer) == Seen(b, Purge(steps, viewer, ids), authRequired, viewer)
    decreases |steps|
  {
    if steps != [] {
      var s := steps[0];
      assert KeepsSecrets(s, viewer, ids);
      if Secret(s, viewer, ids) {
        SecretStepInvisible(a, b, s, authRequired, viewer, ids);
        PurgeUnseen(Next(a, s, authRequired), b, steps[1..], authRequired, viewer, ids);
      } else {
        var s' := if s.Ask? then s.(live := OpenlyLive(s.live, ids)) else s;
        if s.Ask? {
          OpenStepLooksSame(a, b, s, authRequired, viewer, ids);
          if UsrIdOf(s.principal) == viewer {
            OpenStepReplies(a, b, s, authRequired, viewer, ids);
          }
        }
        PurgeUnseen(Next(a, s, authRequired), Next(b, s', authRequired), steps[1..], authRequired, viewer, ids);
        assert Purge(steps, viewer, ids)[1..] == Purge(steps[1..], viewer, ids);
      }
    }
  }

  /**
   Non-interference of discovery. Two runs that differ only in other owners' steps on their own non-public
   nodes, at records the viewer never registers, tell the viewer exactly the same: the same Discover lists with
   the same liveness, the same Unregister counts, also for the secret records themselves, the same refusals.
   */
  lemma NonInterference(reg: Registry, steps1: seq<Step>, steps2: seq<Step>, authRequired: bool,
                        viewer: Option<string>, ids: set<string>)
    requires SecretsHidden(reg, viewer, ids)
    requires AllKeepSecrets(steps1, viewer, ids) && AllKeepSecrets(steps2, viewer, ids)
    requires Purge(steps1, viewer, ids) == Purge(steps2, viewer, ids)
    ensures Seen(reg, steps1, authRequired, viewer) == Seen(reg, steps2, authRequired, viewer)
  {
    PurgeUnseen(reg, reg, steps1, authRequired, viewer, ids);
    PurgeUnseen(reg, reg, steps2, authRequired, viewer, ids);
  }

  /**
   The premise is needed: a viewer who does try to register a record learns from the refusal that somebody else
   has it, and exactly then.
   */
  lemma RegisterTells(reg: Registry, authRequired: bool, req: Request, live: set<string>, viewer: string)
    requires req.Register? && Target(req).Some? && ParseVisibility(req.visibility, Some(viewer)).Ok?
    ensures Handle(reg, Some(User(viewer)), authRequired, req, live).1.Failed?
            <==> exists usr :: usr != viewer && OwnedBy(reg, Target(req).value, usr)
  {
    var rid := Target(req).value;
    if rid in reg.nodes && reg.nodes[rid].owner.Some? {
      assert OwnedBy(reg, rid, reg.nodes[rid].owner.value);
    }
  }
}
