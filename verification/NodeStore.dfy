/** The node registry as the program runs it: rows written in place behind the owner guard. */
module NodeStore {
  import opened Wrappers
  import opened Envelope
  import opened Nodes

  class Store {
    var nodes: map<string, Node>
    var now: nat

    ghost function View(): Registry
      reads this
    {
      Registry(nodes, now)
    }

    constructor (nodes: map<string, Node>, now: nat)
      ensures View() == Registry(nodes, now)
    {
      this.nodes, this.now := nodes, now;
    }

    /** The guarded UPSERT; a guard that refuses leaves no row to answer with. */
    method RegisterNode(nodeId: Option<string>, handle: string, name: string, endpoints: seq<string>,
                        owner: Option<string>, visibility: Visibility)
      returns (r: Result<nat, NodeError>)
      modifies this`nodes
      ensures var rid := RecordId(if nodeId.Some? then nodeId.value else handle);
        (View(), r) ==
          Nodes.RegisterNode(old(View()), rid, Node(nodeId, handle, name, endpoints, owner, visibility, 0))
    {
      var rid := if nodeId.Some? then "vp-node:" + nodeId.value else "vp-node:" + handle;
      if rid !in nodes || nodes[rid].owner == None || nodes[rid].owner == owner {
        nodes := nodes[rid := Node(nodeId, handle, name, endpoints, owner, visibility, now)];
        return Ok(now);
      }
      return Err(OwnedByAnother);
    }

    /** The two forms of the DELETE, with and without a requester. */
    method UnregisterNode(nodeId: Option<string>, handle: Option<string>, requester: Option<string>)
      returns (r: Result<nat, NodeError>)
      modifies this`nodes
      ensures r.Err? <==> nodeId.None? && handle.None?
      ensures r.Err? ==> r.error == MissingField && nodes == old(nodes)
      ensures r.Ok? ==>
        var rid := RecordId(if nodeId.Some? then nodeId.value else handle.value);
        (View(), r.value) == Nodes.UnregisterNode(old(View()), rid, requester)
    {
      var rid: string;
      match nodeId {
        case Some(w) => rid := "vp-node:" + w;
        case None =>
          if handle.None? {
            return Err(MissingField);
          }
          rid := "vp-node:" + handle.value;
      }
      var matches := rid in nodes &&
                     match requester {
                       case Some(u) => nodes[rid].owner == None || nodes[rid].owner == Some(u)
                       case None => nodes[rid].owner == None
                     };
      if matches {
        nodes := nodes - {rid};
        return Ok(1);
      }
      return Ok(0);
    }

    method ListNodesVisibleTo(viewer: Option<string>) returns (rows: map<string, Node>)
      ensures rows == VisibleTo(View(), viewer)
    {
      match viewer
      case Some(u) =>
        rows := map rid | rid in nodes && (nodes[rid].visibility == Public || nodes[rid].owner == Some(u)) ::
          nodes[rid];
      case None =>
        rows := map rid | rid in nodes && nodes[rid].visibility == Public :: nodes[rid];
    }

    /** The dispatch of the `nodes` channel. */
    method HandleNodes(principal: Option<Principal>, authRequired: bool, req: Request, live: set<string>)
      returns (reply: Reply)
      modifies this`nodes
      ensures (View(), reply) == Nodes.Handle(old(View()), principal, authRequired, req, live)
    {
      var usr := UsrIdOf(principal);
      match req
      case Register(nodeId, handle, name, endpoints, field) =>
        if !Authorized(principal, REGISTER_SCOPE, authRequired) {
          return Failed(Unauthorized);
        }
        if handle.None? {
          return Failed(MissingField);
        }
        var shown := if name.Some? then name.value else handle.value;
        var visibility := ParseVisibility(field, usr);
        if visibility.Err? {
          return Failed(visibility.error);
        }
        var at := RegisterNode(nodeId, handle.value, shown, endpoints, usr, visibility.value);
        if at.Err? {
          return Failed(at.error);
        }
        return Registered(nodeId, handle.value, at.value, endpoints, visibility.value);
      case Discover =>
        if !Authorized(principal, READ_SCOPE, authRequired) {
          return Failed(Unauthorized);
        }
        var rows := ListNodesVisibleTo(usr);
        return Reply.Nodes(WithLiveness(rows, live));
      case Unregister(nodeId, handle) =>
        if !Authorized(principal, REGISTER_SCOPE, authRequired) {
          return Failed(Unauthorized);
        }
        if nodeId.None? && handle.None? {
          return Failed(MissingField);
        }
        var removed := UnregisterNode(nodeId, handle, usr);
        return Unregistered(nodeId, handle, removed.value);
      case OtherMethod(_) =>
        return Failed(UnknownMethod);
    }
  }
}
