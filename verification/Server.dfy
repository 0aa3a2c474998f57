/** Runs of the registry: any sequence of calls of peers and of peers going away. */
module Server {
  import opened Common
  import opened Json
  import opened Sources
  import opened Signing
  import opened Registry
  import opened Wire
  import opened Batches
  import opened BatchLaws
  import opened Nodes
  import opened Protocol

  datatype Event =
    | RegisterCall(peer: Peer, params: seq<Json>)
    | UnregisterCall(peer: Peer, params: seq<Json>)
    | PeerGone(peer: Peer)

  /** The registry, and whether the process of the node has ended. */
  datatype World = World(reg: Table, down: bool)

  /** The node after one event; `newIds` are the identifiers at hand for a register call. */
  function Serve(w: World, hmac: Hmac, key: string, e: Event, newIds: seq<string>): World
    requires e.RegisterCall? ==> |newIds| == |e.params|
  {
    if w.down then w
    else
      match e
      case RegisterCall(peer, params) =>
        var b := RegisterAll(w.reg, Context(hmac, key, peer), params, newIds);
        World(b.reg, b.crashed)
      case UnregisterCall(peer, params) => World(UnregisterAll(w.reg, peer, params).reg, false)
      case PeerGone(peer) => World(PeerClosed(w.reg, peer), false)
  }

  /** A register call with an item whose name or type is looked at and is a number or a boolean. */
  predicate Fatal(e: Event) {
    e.RegisterCall? && !AllReadable(e.params)
  }

  /** A call ends the process if and only if it is such a call; no other event does. */
  lemma ServeEndsIff(w: World, hmac: Hmac, key: string, e: Event, newIds: seq<string>)
    requires e.RegisterCall? ==> |newIds| == |e.params|
    ensures Serve(w, hmac, key, e, newIds).down <==> w.down || Fatal(e)
  {
    hide RegisterAll, AllReadable;
    if !w.down && e.RegisterCall? {
      BatchEndsIff(w.reg, Context(hmac, key, e.peer), e.params, newIds);
    }
  }

  predicate Possible(w: World, hmac: Hmac, key: string, e: Event, newIds: seq<string>) {
    e.RegisterCall? ==>
      |newIds| == |e.params| && (w.down || AllUnused(w.reg, Context(hmac, key, e.peer), e.params, newIds))
  }

  /** The event makes the owner's entry go. */
  predicate Drops(reg: Table, e: Event, id: string) {
    match e
    case RegisterCall(_, _) => false
    case UnregisterCall(peer, params) => Named(params, id) && Owns(reg, peer, id)
    case PeerGone(peer) => Owns(reg, peer, id)
  }

  /** The event moves an entry to another owner. */
  predicate Moves(hmac: Hmac, key: string, e: Event, id: string) {
    e.RegisterCall? && AnyClaims(Context(hmac, key, e.peer), e.params, id)
  }

  /**
    What an event that does not end the process does to an entry: it goes if and only if its
    owner unregisters it or goes away; it changes hands if and only if it is claimed with a
    signature of this node; and otherwise it stays exactly as it is.
   */
  lemma EntryFate(reg: Table, hmac: Hmac, key: string, e: Event, newIds: seq<string>, id: string)
    requires WellFiled(reg) && Possible(World(reg, false), hmac, key, e, newIds) && !Fatal(e) && id in reg
    ensures var w := Serve(World(reg, false), hmac, key, e, newIds);
            && !w.down && WellFiled(w.reg)
            && (id in w.reg <==> !Drops(reg, e, id))
            && (id in w.reg ==>
                  w.reg[id] == if Moves(hmac, key, e, id) then reg[id].(peer := Some(e.peer)) else reg[id])
  {
    hide AllUnused, AnyClaims, Named, AllReadable, RegisterAll, UnregisterAll;
    match e {
      case RegisterCall(peer, params) => BatchKeeps(reg, Context(hmac, key, peer), params, newIds);
      case UnregisterCall(peer, params) => UnregisterRemoves(reg, peer, params);
      case PeerGone(peer) =>
    }
  }

  /**
    Where entries come from: whatever is registered after an event and was not before was brought
    by an item of a register call, and has exactly the fields of that item, for the calling peer
    and with the signature of the node.
   */
  lemma NewEntryFate(w: World, hmac: Hmac, key: string, e: Event, newIds: seq<string>, id: string) returns (j: nat)
    requires e.RegisterCall? ==> |newIds| == |e.params|
    requires id in Serve(w, hmac, key, e, newIds).reg && id !in w.reg
    ensures e.RegisterCall? && j < |e.params|
    ensures Brings(Context(hmac, key, e.peer), e.params[j], newIds[j], id)
    ensures FiledFrom(Serve(w, hmac, key, e, newIds).reg[id], Context(hmac, key, e.peer), e.params[j])
  {
    hide RegisterAll, UnregisterAll, Brings, FiledFrom;
    j := 0;
    match e {
      case RegisterCall(peer, params) => j := NewEntryIsItem(w.reg, Context(hmac, key, peer), params, newIds, id);
      case UnregisterCall(peer, params) =>
        UnregisterRemoves(w.reg, peer, params);
        assert false;
      case PeerGone(peer) =>
        assert false;
    }
  }

  /** And everything that an item of a readable call brings is registered, for the calling peer. */
  lemma BroughtIsRegistered(reg: Table, hmac: Hmac, key: string, peer: Peer, params: seq<Json>, newIds: seq<string>,
                            j: nat, id: string)
    requires WellFiled(reg) && Possible(World(reg, false), hmac, key, RegisterCall(peer, params), newIds)
    requires !Fatal(RegisterCall(peer, params))
    requires j < |params| && Brings(Context(hmac, key, peer), params[j], newIds[j], id)
    ensures var w := Serve(World(reg, false), hmac, key, RegisterCall(peer, params), newIds);
            && Owns(w.reg, peer, id)
            && (id !in RegisterAll(reg, Context(hmac, key, peer), params[..j], newIds[..j]).reg ==>
                  FiledFrom(w.reg[id], Context(hmac, key, peer), params[j]))
  {
    hide RegisterAll, Brings, FiledFrom, AllUnused, AllReadable;
    ItemIsFiled(reg, Context(hmac, key, peer), params, newIds, j, id);
  }

  /** Every register call has an identifier at hand for each of its items. */
  predicate Supplied(es: seq<Event>, ids: seq<seq<string>>) {
    |es| == |ids| && forall i :: 0 <= i < |es| && es[i].RegisterCall? ==> |ids[i]| == |es[i].params|
  }

  /** The node after a run; `ids[i]` belongs to event i. */
  function ServeAll(w: World, hmac: Hmac, key: string, es: seq<Event>, ids: seq<seq<string>>): World
    requires Supplied(es, ids)
    decreases |es|
  {
    if es == [] then w
    else Serve(ServeAll(w, hmac, key, es[..|es| - 1], ids[..|es| - 1]), hmac, key, es[|es| - 1], ids[|es| - 1])
  }

  /** A run ends the process if and only if some call in it does. */
  lemma {:induction false} RunEndsIff(w: World, hmac: Hmac, key: string, es: seq<Event>, ids: seq<seq<string>>)
    requires Supplied(es, ids) && !w.down
    ensures ServeAll(w, hmac, key, es, ids).down <==> exists i :: 0 <= i < |es| && Fatal(es[i])
    decreases |es|
  {
    hide Serve, Fatal;
    if es != [] {
      var n := |es| - 1;
      RunEndsIff(w, hmac, key, es[..n], ids[..n]);
      ServeEndsIff(ServeAll(w, hmac, key, es[..n], ids[..n]), hmac, key, es[n], ids[n]);
      assert forall i :: 0 <= i < n ==> es[..n][i] == es[i];
    }
  }

  /** Every identifier issued in the run was unused when it was issued. */
  predicate PossibleRun(w: World, hmac: Hmac, key: string, es: seq<Event>, ids: seq<seq<string>>)
    requires Supplied(es, ids)
    decreases |es|
  {
    es == [] ||
    var n := |es| - 1;
    && PossibleRun(w, hmac, key, es[..n], ids[..n])
    && Possible(ServeAll(w, hmac, key, es[..n], ids[..n]), hmac, key, es[n], ids[n])
  }

  /** At no point of the run is the entry unregistered by its owner of that moment or left by it. */
  predicate NeverDropped(w: World, hmac: Hmac, key: string, es: seq<Event>, ids: seq<seq<string>>, id: string)
    requires Supplied(es, ids)
    decreases |es|
  {
    es == [] ||
    var n := |es| - 1;
    && NeverDropped(w, hmac, key, es[..n], ids[..n], id)
    && !Drops(ServeAll(w, hmac, key, es[..n], ids[..n]).reg, es[n], id)
  }

  /**
    In any run that does not end the process, an entry that is never dropped keeps everything
    but its owner, whatever the other peers register, claim or give up.
   */
  lemma {:induction false} EntrySurvives(reg: Table, hmac: Hmac, key: string, es: seq<Event>, ids: seq<seq<string>>,
                                         id: string)
    requires WellFiled(reg) && id in reg && Supplied(es, ids)
    requires PossibleRun(World(reg, false), hmac, key, es, ids)
    requires NeverDropped(World(reg, false), hmac, key, es, ids, id)
    requires forall i :: 0 <= i < |es| ==> !Fatal(es[i])
    ensures var w := ServeAll(World(reg, false), hmac, key, es, ids);
            && !w.down && WellFiled(w.reg)
            && id in w.reg && w.reg[id] == reg[id].(peer := w.reg[id].peer)
    decreases |es|
  {
    hide Serve, Drops, Moves, WellFiled, Possible, Fatal;
    if es != [] {
      var n := |es| - 1;
      assert forall i :: 0 <= i < n ==> es[..n][i] == es[i];
      EntrySurvives(reg, hmac, key, es[..n], ids[..n], id);
      EntryFate(ServeAll(World(reg, false), hmac, key, es[..n], ids[..n]).reg, hmac, key, es[n], ids[n], id);
    }
  }

  /** The node handles one event; `down` says that this has ended its process. */
  method HandleEvent(node: Node, e: Event) returns (down: bool, ghost newIds: seq<string>)
    requires node.Valid()
    modifies node`sourcesById, node`sourcesByPeer, node.sourcesById.Values
    ensures node.Valid() && fresh(node.sourcesById.Values - old(node.sourcesById.Values))
    ensures e.RegisterCall? ==> |newIds| == |e.params|
    ensures Possible(World(old(node.Contents()), false), node.hmac, node.key, e, newIds)
    ensures World(node.Contents(), down) == Serve(World(old(node.Contents()), false), node.hmac, node.key, e, newIds)
  {
    hide Agree, RegisterAll, UnregisterAll, PeerClosed, AllUnused, AllReadable;
    newIds := [];
    down := false;
    match e {
      case RegisterCall(peer, params) =>
        var response;
        response, newIds := OpRegisterContent(node, peer, params);
        down := response.None?;
      case UnregisterCall(peer, params) =>
        var response := OpUnregisterContent(node, peer, params);
      case PeerGone(peer) =>
        node.OnPeerClosed(peer);
    }
  }

  /** What a register call is given that nobody is there to handle. */
  function NoIds(e: Event): (newIds: seq<string>)
    ensures e.RegisterCall? ==> |newIds| == |e.params|
  {
    if e.RegisterCall? then seq(|e.params|, _ => "") else []
  }

  lemma DownStays(w: World, hmac: Hmac, key: string, e: Event)
    requires w.down
    ensures Serve(w, hmac, key, e, NoIds(e)) == w && Possible(w, hmac, key, e, NoIds(e))
  {}

  /**
    Any run of the node's callbacks keeps the two indexes in agreement, so that none of the
    assertions about an owner's table can fail on the way, and makes the registry go through
    the steps of the single map that they stand for, until an unreadable item ends the process.
   */
  method RunEvents(node: Node, es: seq<Event>) returns (down: bool, ghost ids: seq<seq<string>>)
    requires node.Valid()
    modifies node`sourcesById, node`sourcesByPeer, node.sourcesById.Values
    ensures node.Valid()
    ensures |node.sourcesById| == TotalSize(node.sourcesByPeer)
    ensures Supplied(es, ids)
    ensures World(node.Contents(), down) == ServeAll(World(old(node.Contents()), false), node.hmac, node.key, es, ids)
    ensures PossibleRun(World(old(node.Contents()), false), node.hmac, node.key, es, ids)
    ensures down <==> exists i :: 0 <= i < |es| && Fatal(es[i])
  {
    hide Agree, Serve, Possible, Fatal;
    ids := [];
    down := false;
    ghost var start := World(node.Contents(), false);
    for i := 0 to |es|
      invariant node.Valid() && fresh(node.sourcesById.Values - old(node.sourcesById.Values))
      invariant Supplied(es[..i], ids)
      invariant World(node.Contents(), down) == ServeAll(start, node.hmac, node.key, es[..i], ids)
      invariant PossibleRun(start, node.hmac, node.key, es[..i], ids)
    {
      ghost var newIds := NoIds(es[i]);
      if down {
        DownStays(World(node.Contents(), down), node.hmac, node.key, es[i]);
      } else {
        down, newIds := HandleEvent(node, es[i]);
      }
      assert es[..i + 1][..i] == es[..i] && (ids + [newIds])[..i] == ids;
      ids := ids + [newIds];
    }
    assert es[..|es|] == es;
    SizesAgree(node);
    RunEndsIff(start, node.hmac, node.key, es, ids);
  }
}
