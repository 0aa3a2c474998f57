/**
  The registry of sources as one map from identifier to record, the record naming its owner.
  The two indexes of class Nodes.Node are proved to stand for this map, step by step.
 */
module Registry {
  import opened Common
  import opened Sources
  import opened Signing

  type Table = map<string, SourceRec>

  /** Every entry is filed under its own identifier and has an owner. */
  predicate WellFiled(reg: Table) {
    forall i :: i in reg ==> reg[i].id == Some(i) && reg[i].peer.Some?
  }

  datatype Registration = Registration(reg: Table, rec: SourceRec, accepted: bool)

  /** The signature that comes with a claim is the one this node would make. */
  predicate Authentic(hmac: Hmac, key: string, rec: SourceRec) {
    rec.id.Some? && rec.signature == Some(Signature(hmac, key, rec))
  }

  /** A record as it is once the node has given it a fresh identifier and signed it. */
  function Issued(hmac: Hmac, key: string, rec: SourceRec, newId: string): SourceRec {
    var r := rec.(id := Some(newId));
    r.(signature := Some(Signature(hmac, key, r)))
  }

  /**
    Registering a source: one without an identifier is issued the fresh one; one with an
    identifier is a claim, which moves an entry that exists and files one that does not.
   */
  function Register(reg: Table, hmac: Hmac, key: string, peer: Peer, rec: SourceRec, newId: string): Registration {
    if rec.id.None? then
      var r := Issued(hmac, key, rec, newId);
      Registration(reg[newId := r], r, true)
    else if !Authentic(hmac, key, rec) then
      Registration(reg, rec, false)
    else if rec.id.value in reg then
      Registration(reg[rec.id.value := reg[rec.id.value].(peer := Some(peer))], rec, true)
    else
      Registration(reg[rec.id.value := rec], rec, true)
  }

  predicate Owns(reg: Table, peer: Peer, id: string) {
    id in reg && reg[id].peer == Some(peer)
  }

  function Unregister(reg: Table, peer: Peer, id: string): Table {
    if Owns(reg, peer, id) then reg - {id} else reg
  }

  function PeerClosed(reg: Table, peer: Peer): Table {
    map i | i in reg && !Owns(reg, peer, i) :: reg[i]
  }

  /**
    What registering does to the registry: an accepted source is filed under its identifier
    and owned by the peer, a refused one is not filed, and no other entry changes.
   */
  lemma RegisterEffect(reg: Table, hmac: Hmac, key: string, peer: Peer, rec: SourceRec, newId: string)
    requires WellFiled(reg) && rec.peer == Some(peer)
    ensures var r := Register(reg, hmac, key, peer, rec, newId);
            && WellFiled(r.reg)
            && (r.accepted <==> rec.id.None? || Authentic(hmac, key, rec))
            && (r.accepted ==> Authentic(hmac, key, r.rec) && Owns(r.reg, peer, r.rec.id.value)
                               && r.reg.Keys == reg.Keys + {r.rec.id.value})
            && (!r.accepted ==> r.reg == reg)
            && (forall i :: i in reg && Some(i) != r.rec.id ==> i in r.reg && r.reg[i] == reg[i])
  {}

  /** Two records describe the same content. */
  predicate SameContent(r: SourceRec, q: SourceRec) {
    && r.name == q.name && r.ctype == q.ctype && r.flags == q.flags && r.size == q.size && r.tags == q.tags
    && r.error == q.error
  }

  /**
    What is filed: an accepted source whose identifier was not registered is filed with exactly
    its own content, for the peer, under the identifier it claims or is issued, with the signature
    of the node; a claim of a registered identifier leaves the content as it was registered. The
    source that is handed back has its own content in any case.
   */
  lemma FiledAsGiven(reg: Table, hmac: Hmac, key: string, peer: Peer, rec: SourceRec, newId: string)
    requires rec.peer == Some(peer)
    requires rec.id.None? || rec.signature == Some(Signature(hmac, key, rec))
    ensures var r := Register(reg, hmac, key, peer, rec, newId);
            var id := if rec.id.Some? then rec.id.value else newId;
            && r.accepted && id in r.reg && r.rec.id == Some(id)
            && r.rec.signature == Some(Signature(hmac, key, r.rec))
            && SameContent(r.rec, rec) && r.rec.peer == Some(peer)
            && (rec.id.None? || id !in reg ==> r.reg[id] == r.rec)
            && (rec.id.Some? && id in reg ==> r.reg[id] == reg[id].(peer := Some(peer)))
            && r.reg.Keys == reg.Keys + {id}
            && forall i :: i in reg && i != id ==> r.reg[i] == reg[i]
  {}

  /** A claim with another signature is refused, and nothing is filed. */
  lemma RefusedAsGiven(reg: Table, hmac: Hmac, key: string, peer: Peer, rec: SourceRec, newId: string)
    requires rec.id.Some? && rec.signature != Some(Signature(hmac, key, rec))
    ensures var r := Register(reg, hmac, key, peer, rec, newId);
            !r.accepted && r.reg == reg && r.rec == rec
  {}

  /** What unregistering and a closing peer leave behind. */
  lemma WhatStays(reg: Table, peer: Peer, id: string)
    ensures Unregister(reg, peer, id)
            == map i | i in reg && !(i == id && reg[i].peer == Some(peer)) :: reg[i]
    ensures PeerClosed(reg, peer) == map i | i in reg && reg[i].peer != Some(peer) :: reg[i]
  {}
}
