/** The node's two indexes of sources, kept in step by the callbacks of filetea-node.c. */
module Nodes {
  import opened Common
  import opened SourceIds
  import opened Sources
  import opened Signing
  import opened Registry

  type ById = map<string, Source>
  type ByPeer = map<Peer, map<string, Source>>

  // ----- the two indexes as values -----------------------------------------------------

  /** The table of peer `p` has an entry for `i`. */
  ghost predicate Listed(tables: ByPeer, p: Peer, i: string) {
    p in tables && i in tables[p]
  }

  /** The table of peer `p` files `s` under `i`. */
  ghost predicate Filed(tables: ByPeer, p: Peer, i: string, s: Source) {
    Listed(tables, p, i) && tables[p][i] == s
  }

  /**
    The indexes stand for `reg`: an identifier leads to a source in the first index iff it
    leads to the same source in its owner's table, and to none in any other table.
   */
  ghost predicate Agree(sources: ById, tables: ByPeer, reg: Table) {
    && sources.Keys == reg.Keys
    && WellFiled(reg)
    && (forall i :: i in reg ==> Filed(tables, reg[i].peer.value, i, sources[i]))
    && (forall p: Peer, i :: Listed(tables, p, i) ==> i in reg && reg[i].peer == Some(p))
  }

  function TableOf(tables: ByPeer, p: Peer): map<string, Source> {
    if p in tables then tables[p] else map[]
  }

  function Added(tables: ByPeer, p: Peer, i: string, s: Source): ByPeer {
    tables[p := TableOf(tables, p)[i := s]]
  }

  function Removed(tables: ByPeer, p: Peer, i: string): ByPeer {
    tables[p := TableOf(tables, p) - {i}]
  }

  lemma AgreeWellFiled(sources: ById, tables: ByPeer, reg: Table)
    requires Agree(sources, tables, reg)
    ensures WellFiled(reg) && sources.Keys == reg.Keys
  {}

  lemma AgreeAdded(sources: ById, tables: ByPeer, reg: Table, i: string, s: Source, r: SourceRec)
    requires Agree(sources, tables, reg) && i !in reg
    requires r.id == Some(i) && r.peer.Some?
    ensures Agree(sources[i := s], Added(tables, r.peer.value, i, s), reg[i := r])
  {
    var tables' := Added(tables, r.peer.value, i, s);
    assert forall p: Peer, j :: Listed(tables', p, j) ==> (p == r.peer.value && j == i) || Listed(tables, p, j);
    forall j | j in reg
      ensures Filed(tables', reg[j].peer.value, j, sources[j])
    {
      assert Filed(tables, reg[j].peer.value, j, sources[j]);
    }
  }

  lemma AgreeRemoved(sources: ById, tables: ByPeer, reg: Table, i: string)
    requires Agree(sources, tables, reg) && i in reg
    ensures Agree(sources - {i}, Removed(tables, reg[i].peer.value, i), reg - {i})
  {
    var tables' := Removed(tables, reg[i].peer.value, i);
    assert Filed(tables, reg[i].peer.value, i, sources[i]);
    forall p: Peer, j | Listed(tables', p, j)
      ensures j != i && Listed(tables, p, j)
    {
      assert Listed(tables, p, j);
    }
    forall j | j in reg - {i}
      ensures Filed(tables', reg[j].peer.value, j, sources[j])
    {
      assert Filed(tables, reg[j].peer.value, j, sources[j]);
    }
  }

  /** Moving a source is removing it from one table and adding it to another. */
  lemma AgreeMoved(sources: ById, tables: ByPeer, reg: Table, i: string, p: Peer)
    requires Agree(sources, tables, reg) && i in reg
    ensures Agree(sources, Added(Removed(tables, reg[i].peer.value, i), p, i, sources[i]),
                  reg[i := reg[i].(peer := Some(p))])
  {
    hide Agree, Added, Removed;
    var r := reg[i].(peer := Some(p));
    AgreeWellFiled(sources, tables, reg);
    AgreeRemoved(sources, tables, reg, i);
    AgreeAdded(sources - {i}, Removed(tables, reg[i].peer.value, i), reg - {i}, i, sources[i], r);
    assert (sources - {i})[i := sources[i]] == sources;
    assert (reg - {i})[i := r] == reg[i := r];
  }

  lemma AgreeClosed(sources: ById, tables: ByPeer, reg: Table, p: Peer)
    requires Agree(sources, tables, reg)
    ensures Agree(sources - TableOf(tables, p).Keys, tables - {p}, PeerClosed(reg, p))
    ensures PeerClosed(reg, p) == reg - TableOf(tables, p).Keys
  {
    assert forall q: Peer, i :: Listed(tables - {p}, q, i) <==> q != p && Listed(tables, q, i);
    assert forall i :: i in TableOf(tables, p) <==> Listed(tables, p, i);
    forall i | i in reg
      ensures i in TableOf(tables, p) <==> reg[i].peer == Some(p)
      ensures reg[i].peer != Some(p) ==> Filed(tables - {p}, reg[i].peer.value, i, sources[i])
    {
      assert Filed(tables, reg[i].peer.value, i, sources[i]);
    }
  }

  // ----- the records behind an index ---------------------------------------------------

  ghost function Records(sources: ById): (reg: Table)
    reads sources.Values
    ensures reg.Keys == sources.Keys
  {
    map i | i in sources :: sources[i].Rec()
  }

  lemma RecordsWith(sources: ById, i: string, s: Source)
    ensures Records(sources[i := s]) == Records(sources)[i := s.Rec()]
  {}

  lemma RecordsWithout(sources: ById, gone: set<string>)
    ensures Records(sources - gone) == Records(sources) - gone
    ensures (sources - gone).Values <= sources.Values
  {}

  lemma TableEntries(sources: ById, tables: ByPeer, p: Peer)
    requires Agree(sources, tables, Records(sources))
    ensures forall i :: i in TableOf(tables, p) ==> TableOf(tables, p)[i].id == Some(i)
  {
    assert forall i :: i in TableOf(tables, p) ==> Listed(tables, p, i);
  }

  /** No source is registered under two identifiers. */
  lemma Distinct(sources: ById, tables: ByPeer, i: string)
    requires i in sources && Agree(sources, tables, Records(sources))
    ensures sources[i].id == Some(i) && sources[i].peer.Some? && Records(sources)[i] == sources[i].Rec()
    ensures Filed(tables, sources[i].peer.value, i, sources[i])
    ensures forall j :: j in sources && j != i ==> sources[j] != sources[i] && sources[j].Rec() == Records(sources)[j]
  {
    assert forall j :: j in sources ==> Records(sources)[j].id == Some(j);
  }

  /** One record has changed since the records were `before`. */
  lemma RecordsChanged(sources: ById, before: Table, i: string)
    requires i in sources && sources.Keys == before.Keys
    requires forall j :: j in sources && j != i ==> sources[j].Rec() == before[j]
    ensures Records(sources) == before[i := sources[i].Rec()]
  {}

  /** An identifier of the shape of the start depth, or of one at most `used` depths above it. */
  ghost predicate ShapedFor(id: string, prefix: string, startDepth: nat, used: nat) {
    exists depth :: startDepth <= depth <= startDepth + used && HasShape(id, prefix, depth)
  }

  class Node {
    const id: string
    const key: string
    const hmac: Hmac
    const sourceIdStartDepth: nat

    var sourcesById: map<string, Source>
    var sourcesByPeer: map<Peer, map<string, Source>>

    /** What the id generator and filetea_source_set_id need of the configuration. */
    predicate Configured() {
      Unpadded(id) && DeepEnough(id, sourceIdStartDepth)
    }

    ghost predicate Valid()
      reads this, sourcesById.Values
    {
      Configured() && Agree(sourcesById, sourcesByPeer, Contents())
    }

    /** The map that both indexes stand for. */
    ghost function Contents(): Table
      reads this, sourcesById.Values
    {
      Records(sourcesById)
    }

    constructor (id: string, key: string, hmac: Hmac, sourceIdStartDepth: nat)
      requires Unpadded(id) && DeepEnough(id, sourceIdStartDepth)
      ensures Valid() && Contents() == map[]
      ensures this.id == id && this.key == key && this.hmac == hmac
    {
      this.id, this.key, this.hmac, this.sourceIdStartDepth := id, key, hmac, sourceIdStartDepth;
      sourcesById, sourcesByPeer := map[], map[];
    }

    /** source_get_signature */
    method SourceGetSignature(source: Source) returns (signature: string)
      requires source.id.Some?
      ensures signature == Signature(hmac, key, source.Rec())
    {
      var data := source.id.value + ":" + source.ctype + ":" + Decimal(source.flags);
      signature := hmac(key, data);
    }

    /** Put `source` into the table of `peer`, making the table first if there is none. */
    method AddToPeer(peer: Peer, id: string, source: Source)
      modifies this`sourcesByPeer
      ensures sourcesByPeer == Added(old(sourcesByPeer), peer, id, source)
    {
      if peer !in sourcesByPeer {
        sourcesByPeer := sourcesByPeer[peer := map[]];
      }
      sourcesByPeer := sourcesByPeer[peer := sourcesByPeer[peer][id := source]];
    }

    /** Take an identifier out of the table of `peer`, which exists. */
    method RemoveFromPeer(peer: Peer, id: string)
      requires peer in sourcesByPeer
      modifies this`sourcesByPeer
      ensures sourcesByPeer == Removed(old(sourcesByPeer), peer, id)
    {
      sourcesByPeer := sourcesByPeer[peer := sourcesByPeer[peer] - {id}];
    }

    /** A source that is claimed changes hands. */
    method MoveToPeer(current: Source, sourceId: string, peer: Peer)
      requires Valid() && sourceId in sourcesById && sourcesById[sourceId] == current
      modifies this`sourcesByPeer, current
      ensures Valid()
      ensures Contents() == old(Contents())[sourceId := old(current.Rec()).(peer := Some(peer))]
    {
      hide Agree, Added, Removed;
      ghost var reg := Contents();
      AgreeMoved(sourcesById, sourcesByPeer, reg, sourceId, peer);
      Distinct(sourcesById, sourcesByPeer, sourceId);
      RemoveFromPeer(current.peer.value, sourceId);
      current.SetPeer(peer);
      RecordsChanged(sourcesById, reg, sourceId);
      AddToPeer(peer, sourceId, current);
    }

    /** A source that is not registered yet enters both indexes. */
    method Insert(source: Source, sourceId: string, peer: Peer)
      requires Valid() && sourceId !in sourcesById
      requires source.id == Some(sourceId) && source.peer == Some(peer)
      modifies this`sourcesById, this`sourcesByPeer
      ensures Valid()
      ensures sourcesById == old(sourcesById)[sourceId := source]
      ensures Contents() == old(Contents())[sourceId := source.Rec()]
    {
      hide Agree, Added;
      AgreeAdded(sourcesById, sourcesByPeer, Contents(), sourceId, source, source.Rec());
      RecordsWith(sourcesById, sourceId, source);
      sourcesById := sourcesById[sourceId := source];
      AddToPeer(peer, sourceId, source);
    }

    /** Give a source a fresh identifier and sign it. */
    method Issue(source: Source) returns (ghost newId: string)
      requires Configured() && source.id.None?
      modifies source
      ensures source.Rec() == Issued(hmac, key, old(source.Rec()), newId)
      ensures newId !in sourcesById && |newId| >= MIN_ID_LENGTH
      ensures ShapedFor(newId, id, sourceIdStartDepth, |sourcesById|)
    {
      var sourceId, lookups, depth := GenerateSourceId(sourcesById.Keys, id, sourceIdStartDepth);
      assert |sourcesById.Keys| == |sourcesById|;
      LongEnough(sourceId, id, sourceIdStartDepth, depth);
      source.SetId(sourceId);
      var signature := SourceGetSignature(source);
      source.SetSignature(signature);
      newId := sourceId;
    }

    /**
      register_source; `newId` is the identifier issued, if one is. The source is a new object
      made for the peer that registers it.
     */
    method RegisterSource(peer: Peer, source: Source) returns (accepted: bool, ghost newId: string)
      requires Valid() && source !in sourcesById.Values && source.peer == Some(peer)
      modifies this`sourcesById, this`sourcesByPeer, source, sourcesById.Values
      ensures Valid() && sourcesById.Values <= old(sourcesById.Values) + {source}
      ensures Registration(Contents(), source.Rec(), accepted)
              == Register(old(Contents()), hmac, key, peer, old(source.Rec()), newId)
      ensures |newId| >= MIN_ID_LENGTH
      ensures old(source.id).None? ==>
                && newId !in old(sourcesById)
                && ShapedFor(newId, id, sourceIdStartDepth, |old(sourcesById)|)
    {
      hide Agree;
      newId := "-------";
      if source.id.Some? {
        var sourceId := source.id.value;
        var actual := SourceGetSignature(source);
        if source.signature != Some(actual) {
          accepted := false;
          return;
        }
        if sourceId in sourcesById {
          MoveToPeer(sourcesById[sourceId], sourceId, peer);
          accepted := true;
          return;
        }
      } else {
        newId := Issue(source);
      }
      Insert(source, source.id.value, peer);
      accepted := true;
    }

    /** unregister_source */
    method UnregisterSource(peer: Peer, sourceId: string) returns (done: bool)
      requires Valid()
      modifies this`sourcesById, this`sourcesByPeer
      ensures Valid() && sourcesById.Values <= old(sourcesById.Values)
      ensures Contents() == Unregister(old(Contents()), peer, sourceId)
      ensures done <==> Owns(old(Contents()), peer, sourceId)
    {
      hide Agree, Removed;
      if sourceId !in sourcesById {
        return false;
      }
      var source := sourcesById[sourceId];
      Distinct(sourcesById, sourcesByPeer, sourceId);
      if source.peer != Some(peer) {
        return false;
      }
      AgreeRemoved(sourcesById, sourcesByPeer, Contents(), sourceId);
      RecordsWithout(sourcesById, {sourceId});
      RemoveFromPeer(peer, sourceId);
      RemoveSource(source);
      return true;
    }

    /** remove_source */
    method RemoveSource(source: Source)
      requires source.id.Some?
      modifies this`sourcesById
      ensures sourcesById == old(sourcesById) - {source.id.value}
    {
      sourcesById := sourcesById - {source.id.value};
    }

    /** on_peer_closed: every source of the peer's table is removed, then the table. */
    method OnPeerClosed(peer: Peer)
      requires Valid()
      modifies this`sourcesById, this`sourcesByPeer
      ensures Valid() && peer !in sourcesByPeer && sourcesById.Values <= old(sourcesById.Values)
      ensures Contents() == PeerClosed(old(Contents()), peer)
    {
      hide Agree, PeerClosed;
      AgreeClosed(sourcesById, sourcesByPeer, Contents(), peer);
      TableEntries(sourcesById, sourcesByPeer, peer);
      if peer !in sourcesByPeer {
        assert sourcesById - {} == sourcesById && sourcesByPeer - {peer} == sourcesByPeer;
        assert Contents() - {} == Contents();
        return;
      }
      var table := sourcesByPeer[peer];
      RecordsWithout(sourcesById, table.Keys);
      RemoveAll(table);
      sourcesByPeer := sourcesByPeer - {peer};
    }

    /** Remove every source of a table, one by one, from the first index. */
    method RemoveAll(table: map<string, Source>)
      requires forall i :: i in table ==> table[i].id == Some(i)
      modifies this`sourcesById
      ensures sourcesById == old(sourcesById) - table.Keys
    {
      var left := table;
      ghost var gone: set<string> := {};
      while left != map[]
        invariant left == table - gone && gone <= table.Keys
        invariant sourcesById == old(sourcesById) - gone
        decreases table.Keys - gone
      {
        var i :| i in left;
        RemoveSource(left[i]);
        left := left - {i};
        gone := gone + {i};
      }
      assert gone == table.Keys by {
        assert forall i :: i in table && i !in gone ==> i in left;
      }
    }
  }

  // ----- conservation ------------------------------------------------------------------

  /** The number of entries in all the per-peer tables together. */
  ghost function TotalSize(tables: ByPeer): nat {
    if tables == map[] then 0
    else |tables[AnyPeer(tables)]| + TotalSize(tables - {AnyPeer(tables)})
  }

  ghost function AnyPeer(tables: ByPeer): (p: Peer)
    requires tables != map[]
    ensures p in tables
  {
    var p :| p in tables;
    p
  }

  lemma SplitMap<T>(m: map<string, T>, part: set<string>)
    requires part <= m.Keys
    ensures |m| == |part| + |m - part|
  {
    assert m.Keys == part + (m - part).Keys;
    assert |m| == |m.Keys| && |m - part| == |(m - part).Keys|;
  }

  /** The tables list exactly what `owner` says who owns. */
  ghost predicate Tallied(tables: ByPeer, owner: map<string, Peer>) {
    && (forall p: Peer, i :: Listed(tables, p, i) ==> i in owner && owner[i] == p)
    && (forall i :: i in owner ==> Listed(tables, owner[i], i))
  }

  lemma TalliedWithout(tables: ByPeer, owner: map<string, Peer>, p: Peer)
    requires Tallied(tables, owner) && p in tables
    ensures tables[p].Keys <= owner.Keys
    ensures Tallied(tables - {p}, owner - tables[p].Keys)
  {
    assert forall i :: i in tables[p] ==> Listed(tables, p, i);
    forall q: Peer, i | Listed(tables - {p}, q, i)
      ensures Listed(tables, q, i) && i !in tables[p]
    {
      assert Listed(tables, q, i);
    }
    forall i | i in owner - tables[p].Keys
      ensures Listed(tables - {p}, owner[i], i)
    {
      assert Listed(tables, owner[i], i);
    }
  }

  lemma {:induction false} Counted(tables: ByPeer, owner: map<string, Peer>)
    requires Tallied(tables, owner)
    ensures |owner| == TotalSize(tables)
    decreases |tables|
  {
    if tables == map[] {
      assert owner == map[];
    } else {
      var p := AnyPeer(tables);
      TalliedWithout(tables, owner, p);
      hide Tallied;
      SplitMap(owner, tables[p].Keys);
      assert |tables[p].Keys| == |tables[p]|;
      assert tables == (tables - {p})[p := tables[p]];
      Counted(tables - {p}, owner - tables[p].Keys);
    }
  }

  /** Nothing is counted twice or forgotten: the per-peer tables add up to the first index. */
  lemma SizesAgree(node: Node)
    requires node.Valid()
    ensures |node.sourcesById| == TotalSize(node.sourcesByPeer)
  {
    var reg := node.Contents();
    var owner := map i | i in reg :: reg[i].peer.value;
    assert forall i :: i in reg ==> Filed(node.sourcesByPeer, reg[i].peer.value, i, node.sourcesById[i]);
    Counted(node.sourcesByPeer, owner);
    assert owner.Keys == node.sourcesById.Keys;
  }

  /** No source is in the tables of two peers. */
  lemma OneOwner(node: Node, p: Peer, q: Peer, i: string, j: string)
    requires node.Valid()
    requires p in node.sourcesByPeer && q in node.sourcesByPeer
    requires i in node.sourcesByPeer[p] && j in node.sourcesByPeer[q]
    requires node.sourcesByPeer[p][i] == node.sourcesByPeer[q][j]
    ensures p == q && i == j
  {
    var reg := node.Contents();
    assert Listed(node.sourcesByPeer, p, i) && Listed(node.sourcesByPeer, q, j);
    assert Filed(node.sourcesByPeer, reg[i].peer.value, i, node.sourcesById[i]);
    assert Filed(node.sourcesByPeer, reg[j].peer.value, j, node.sourcesById[j]);
  }
}
