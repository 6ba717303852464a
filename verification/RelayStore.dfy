/** The shared relay map and a channel's own list of names, updated in place. */
module RelayStore {
  import opened Wrappers
  import opened Nodes
  import opened Relay

  class RelayMap {
    var entries: map<string, nat>

    constructor ()
      ensures entries == map[]
    {
      entries := map[];
    }
  }

  class NodesChannel {
    const connection: nat
    var registered: seq<string>

    constructor (connection: nat)
      ensures this.connection == connection && registered == []
    {
      this.connection, registered := connection, [];
    }

    /** Note the name once, however often it is registered. */
    method Remember(w: string)
      modifies this`registered
      ensures registered == if w in old(registered) then old(registered) else old(registered) + [w]
    {
      var k := 0;
      while k < |registered|
        invariant 0 <= k <= |registered| && w !in registered[..k]
        invariant registered == old(registered)
      {
        if registered[k] == w {
          return;
        }
        k := k + 1;
      }
      registered := registered + [w];
    }

    /** Keep every other name, in order. */
    method Forget(w: string)
      modifies this`registered
      ensures registered == Without(old(registered), w)
    {
      var kept := [];
      var k := 0;
      while k < |registered|
        invariant 0 <= k <= |registered|
        invariant registered == old(registered)
        invariant kept + Without(registered[k..], w) == Without(registered, w)
      {
        ghost var rest := registered[k..];
        assert rest[0] == registered[k] && rest[1..] == registered[k + 1..];
        if registered[k] != w {
          kept := kept + [registered[k]];
        }
        k := k + 1;
      }
      assert kept + Without([], w) == kept;
      registered := kept;
    }

    /** Bring the map and the list up to date with an answer. */
    method SyncRelayRegistry(registry: RelayMap, reply: Reply)
      modifies registry, this`registered
      ensures registry.entries == SyncLive(old(registry.entries), connection, reply)
      ensures registered == SyncRegistered(old(registered), reply)
    {
      match reply
      case Registered(Some(w), _, _, _, _) =>
        registry.entries := registry.entries[w := connection];
        Remember(w);
      case Unregistered(Some(w), _, _) =>
        registry.entries := registry.entries - {w};
        Forget(w);
      case _ =>
    }

    /** The channel is gone: remove every name it registered, one by one. */
    method Cleanup(registry: RelayMap)
      modifies registry
      ensures registry.entries == CloseLive(old(registry.entries), registered)
    {
      var k := 0;
      while k < |registered|
        invariant 0 <= k <= |registered|
        invariant registry.entries == CloseLive(old(registry.entries), registered[..k])
      {
        registry.entries := registry.entries - {registered[k]};
        k := k + 1;
        assert registered[..k] == registered[..k - 1] + [registered[k - 1]];
      }
      assert registered[..|registered|] == registered;
    }
  }
}
