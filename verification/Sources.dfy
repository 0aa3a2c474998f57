/** The record of one shared source, which the registry, the protocol and the transfers share. */
module Sources {
  import opened Common
  import opened Words

  /** Identity of a connected peer. */
  type Peer = nat

  const FLAG_CHUNKABLE: nat := 8

  /** The shortest identifier that filetea_source_set_id accepts has seven characters. */
  const MIN_ID_LENGTH: nat := 7

  /** The value of a source record at some moment. */
  datatype SourceRec = SourceRec(
    id: Option<string>,
    signature: Option<string>,
    peer: Option<Peer>,
    flags: nat,
    name: string,
    ctype: string,
    size: nat,
    tags: Option<seq<string>>,
    error: Option<string>
  )

  /** `guint` flags and a `gsize` size. */
  predicate Representable(r: SourceRec) {
    r.flags < TWO_32 && r.size < TWO_64
  }

  /** An identifier that is too short is ignored. */
  function WithId(r: SourceRec, id: string): SourceRec {
    if |id| >= MIN_ID_LENGTH then r.(id := Some(id)) else r
  }

  predicate Chunkable(flags: nat) {
    (flags / FLAG_CHUNKABLE) % 2 == 1
  }

  /** Bit 3 of the flags says that a source can be read in parts, whatever the bits above and below. */
  lemma ChunkableIff(above: nat, below: nat)
    requires below < 8
    ensures Chunkable(16 * above + 8 + below) && !Chunkable(16 * above + below)
  {
    assert (16 * above + 8 + below) / 8 == 2 * above + 1;
    assert (16 * above + below) / 8 == 2 * above;
  }

  /** An identifier of more than six characters is taken, a shorter one is ignored. */
  lemma LongIdTaken(r: SourceRec, id: string)
    ensures |id| > 6 ==> WithId(r, id) == r.(id := Some(id))
    ensures |id| <= 6 ==> WithId(r, id) == r
  {}

  class Source {
    var id: Option<string>
    var signature: Option<string>
    var peer: Option<Peer>
    const flags: nat
    const name: string
    const ctype: string
    var size: nat
    const tags: Option<seq<string>>
    var error: Option<string>

    ghost function Rec(): SourceRec
      reads this
    {
      SourceRec(id, signature, peer, flags, name, ctype, size, tags, error)
    }

    constructor (peer: Option<Peer>, name: string, ctype: string, size: nat, flags: nat, tags: Option<seq<string>>)
      ensures Rec() == SourceRec(None, None, peer, flags, name, ctype, size, tags, None)
    {
      this.id, this.signature, this.peer := None, None, peer;
      this.name, this.ctype, this.size, this.flags, this.tags := name, ctype, size, flags, tags;
      this.error := None;
    }

    method SetPeer(peer: Peer)
      modifies this
      ensures Rec() == old(Rec()).(peer := Some(peer))
    {
      this.peer := Some(peer);
    }

    method SetId(id: string)
      modifies this
      ensures Rec() == WithId(old(Rec()), id)
    {
      if |id| <= 6 {
        return;
      }
      this.id := Some(id);
    }

    method SetSignature(signature: string)
      modifies this
      ensures Rec() == old(Rec()).(signature := Some(signature))
    {
      this.signature := Some(signature);
    }

    method SetSize(size: nat)
      modifies this
      ensures Rec() == old(Rec()).(size := size)
    {
      this.size := size;
    }

    method TakeError(error: Option<string>)
      modifies this
      ensures Rec() == old(Rec()).(error := error)
    {
      this.error := error;
    }
  }
}
