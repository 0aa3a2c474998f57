/**
  What a batch leaves in the registry and what it is answered, item by item and in terms of the
  items: nothing is filed that no item describes, and every entry of a response is accounted for.
 */
module BatchLaws {
  import opened Common
  import opened Json
  import opened Sources
  import opened Signing
  import opened Registry
  import opened Wire
  import opened Batches

  /** The signature of the node for what an item describes, under this identifier. */
  function SignatureFor(ctx: Context, rec: SourceRec, id: string): string {
    Signature(ctx.hmac, ctx.key, rec.(id := Some(id)))
  }

  /** The item registers a source under `id`: it claims it with the right signature, or is issued it. */
  predicate Brings(ctx: Context, item: Json, newId: string, id: string) {
    && item.Obj? && Faultless(item.members)
    && var rec := ParseSource(ctx.peer, item).rec;
       if rec.id.Some? then rec.id.value == id && rec.signature == Some(SignatureFor(ctx, rec, id)) else newId == id
  }

  /** The record is that of the source that the item describes, owned by the caller and signed. */
  predicate FiledFrom(r: SourceRec, ctx: Context, item: Json) {
    && item.Obj? && Faultless(item.members)
    && SameContent(r, ParseSource(ctx.peer, item).rec)
    && r.peer == Some(ctx.peer)
    && r.id.Some? && r.signature == Some(SignatureFor(ctx, r, r.id.value))
  }

  // ----- what is filed -----------------------------------------------------------------

  /** One item files one source, under the identifier that it brings, or none. */
  lemma ItemFiles(reg: Table, ctx: Context, item: Json, newId: string)
    requires !ParseSource(ctx.peer, item).Crash?
    ensures var reg' := RegisterItem(reg, ctx, item, newId).0;
            && (forall id :: id in reg' <==> id in reg || Brings(ctx, item, newId, id))
            && (forall id :: id in reg && !Brings(ctx, item, newId, id) ==> reg'[id] == reg[id])
  {
    ParsedIff(ctx.peer, item);
    hide ParseSource, Faultless;
    var p := ParseSource(ctx.peer, item);
    if p.Parsed? {
      ParsedOwner(ctx.peer, item);
      if p.rec.id.None? || p.rec.signature == Some(Signature(ctx.hmac, ctx.key, p.rec)) {
        FiledAsGiven(reg, ctx.hmac, ctx.key, ctx.peer, p.rec, newId);
        SameId(p.rec);
      } else {
        RefusedAsGiven(reg, ctx.hmac, ctx.key, ctx.peer, p.rec, newId);
        SameId(p.rec);
      }
    }
  }

  lemma SameId(rec: SourceRec)
    ensures rec.id.Some? ==> rec.(id := Some(rec.id.value)) == rec
  {}

  lemma ParsedOwner(peer: Peer, item: Json)
    requires ParseSource(peer, item).Parsed?
    ensures ParseSource(peer, item).rec.peer == Some(peer)
  {}

  /** What the item brings is filed with the fields of the item, or, if it was there, keeps its own. */
  lemma ItemFields(reg: Table, ctx: Context, item: Json, newId: string, id: string)
    requires !ParseSource(ctx.peer, item).Crash? && Brings(ctx, item, newId, id)
    ensures var reg' := RegisterItem(reg, ctx, item, newId).0;
            && id in reg' && reg'[id].peer == Some(ctx.peer)
            && (id !in reg || ParseSource(ctx.peer, item).rec.id.None? ==>
                  FiledFrom(reg'[id], ctx, item) && reg'[id].id == Some(id))
            && (id in reg && ParseSource(ctx.peer, item).rec.id.Some? ==>
                  reg'[id] == reg[id].(peer := Some(ctx.peer)))
  {
    ParsedIff(ctx.peer, item);
    ParsedOwner(ctx.peer, item);
    hide ParseSource, Faultless;
    var p := ParseSource(ctx.peer, item);
    SameId(p.rec);
    FiledAsGiven(reg, ctx.hmac, ctx.key, ctx.peer, p.rec, newId);
    var r := Register(reg, ctx.hmac, ctx.key, ctx.peer, p.rec, newId).rec;
    SameId(r);
  }

  /** Item j of the batch has brought the entry, and it has the fields of that item. */
  predicate BroughtBy(r: SourceRec, ctx: Context, items: seq<Json>, newIds: seq<string>, id: string, j: nat)
    requires |items| == |newIds|
  {
    j < |items| && Brings(ctx, items[j], newIds[j], id) && FiledFrom(r, ctx, items[j])
  }

  lemma StepBringer(b: Batch, ctx: Context, items: seq<Json>, newIds: seq<string>, id: string, j: nat)
    requires |items| == |newIds| > 0 && !b.crashed && !ParseSource(ctx.peer, items[|items| - 1]).Crash?
    requires id in b.reg && BroughtBy(b.reg[id], ctx, items[..|items| - 1], newIds[..|items| - 1], id, j)
    ensures var n := |items| - 1;
            var reg' := RegisterItem(b.reg, ctx, items[n], newIds[n]).0;
            && id in reg'
            && (BroughtBy(reg'[id], ctx, items, newIds, id, j) || BroughtBy(reg'[id], ctx, items, newIds, id, n))
  {
    hide ParseSource, RegisterItem, Faultless;
    var n := |items| - 1;
    ItemFiles(b.reg, ctx, items[n], newIds[n]);
    ParsedIff(ctx.peer, items[n]);
    if Brings(ctx, items[n], newIds[n], id) {
      ItemFields(b.reg, ctx, items[n], newIds[n], id);
      if ParseSource(ctx.peer, items[n]).rec.id.Some? {
        OwnerIsCaller(b.reg[id], ctx, items[j]);
      }
    }
  }

  lemma OwnerIsCaller(r: SourceRec, ctx: Context, item: Json)
    requires FiledFrom(r, ctx, item)
    ensures r.(peer := Some(ctx.peer)) == r
  {}

  /**
    Nothing is filed that no item describes: whatever is in the registry after a batch and was not
    there before was brought by one of its items, has exactly the fields of that item, belongs to
    the caller and is signed by the node.
   */
  lemma {:induction false} NewEntryIsItem(reg: Table, ctx: Context, items: seq<Json>, newIds: seq<string>, id: string)
    returns (j: nat)
    requires |items| == |newIds|
    requires id in RegisterAll(reg, ctx, items, newIds).reg && id !in reg
    ensures BroughtBy(RegisterAll(reg, ctx, items, newIds).reg[id], ctx, items, newIds, id, j)
    decreases |items|
  {
    hide ParseSource, RegisterItem, Brings, FiledFrom;
    var n := |items| - 1;
    var before := RegisterAll(reg, ctx, items[..n], newIds[..n]);
    if before.crashed || ParseSource(ctx.peer, items[n]).Crash? {
      j := NewEntryIsItem(reg, ctx, items[..n], newIds[..n], id);
    } else if id in before.reg {
      j := NewEntryIsItem(reg, ctx, items[..n], newIds[..n], id);
      StepBringer(before, ctx, items, newIds, id, j);
      if !BroughtBy(RegisterAll(reg, ctx, items, newIds).reg[id], ctx, items, newIds, id, j) {
        j := n;
      }
    } else {
      ItemFiles(before.reg, ctx, items[n], newIds[n]);
      ItemFields(before.reg, ctx, items[n], newIds[n], id);
      j := n;
    }
  }

  /**
    Everything that an item describes is filed: at the end of the batch the caller owns the entry
    that item j brings, and if it was not registered before item j, it has the fields of item j.
   */
  lemma {:induction false} ItemIsFiled(reg: Table, ctx: Context, items: seq<Json>, newIds: seq<string>,
                                       j: nat, id: string)
    requires WellFiled(reg) && |items| == |newIds| && AllReadable(items) && AllUnused(reg, ctx, items, newIds)
    requires j < |items| && Brings(ctx, items[j], newIds[j], id)
    ensures var b := RegisterAll(reg, ctx, items, newIds);
            && !b.crashed && id in b.reg && b.reg[id].peer == Some(ctx.peer)
            && (id !in RegisterAll(reg, ctx, items[..j], newIds[..j]).reg ==> FiledFrom(b.reg[id], ctx, items[j]))
    decreases |items|
  {
    hide ParseSource, RegisterItem, Brings, FiledFrom, WellFiled, Readable;
    var n := |items| - 1;
    assert AllReadable(items[..n]);
    CrashIff(ctx.peer, items[n]);
    BatchKeeps(reg, ctx, items[..n], newIds[..n]);
    var before := RegisterAll(reg, ctx, items[..n], newIds[..n]);
    if j == n {
      ItemFields(before.reg, ctx, items[n], newIds[n], id);
    } else {
      assert items[..n][..j] == items[..j] && newIds[..n][..j] == newIds[..j];
      ItemIsFiled(reg, ctx, items[..n], newIds[..n], j, id);
      ItemKeeps(before.reg, ctx, items[n], newIds[n]);
      StaysFiled(before.reg[id], ctx, items[j]);
    }
  }

  lemma StaysFiled(r: SourceRec, ctx: Context, item: Json)
    ensures FiledFrom(r, ctx, item) ==> FiledFrom(r.(peer := Some(ctx.peer)), ctx, item)
  {}

  // ----- what is answered --------------------------------------------------------------

  /** The identifier under which an accepted item is filed. */
  function IdFor(rec: SourceRec, newId: string): string {
    if rec.id.Some? then rec.id.value else newId
  }

  /**
    Entry j of a response: the identifier and the signature of what item j has registered, or the
    error of a badly signed claim, or that of the first fault of the item.
   */
  lemma AnswerIs(reg: Table, ctx: Context, items: seq<Json>, newIds: seq<string>, j: nat)
    requires |items| == |newIds| && AllReadable(items) && j < |items|
    ensures var b, p := RegisterAll(reg, ctx, items, newIds), ParseSource(ctx.peer, items[j]);
            && |b.entries| == |items|
            && b.entries[j] ==
               if p.Rejected? then Obj(map["error" := Str(p.msg)])
               else if Brings(ctx, items[j], newIds[j], IdFor(p.rec, newIds[j])) then
                 Obj(map["error" := Null, "id" := Str(IdFor(p.rec, newIds[j])),
                         "signature" := Str(SignatureFor(ctx, p.rec, IdFor(p.rec, newIds[j])))])
               else Obj(map["error" := Str("Invalid source signature")])
  {
    EntryAnswersItem(reg, ctx, items, newIds, j);
    ParsedIff(ctx.peer, items[j]);
    hide ParseSource, Faultless, RegisterAll;
    var before, p := RegisterAll(reg, ctx, items[..j], newIds[..j]).reg, ParseSource(ctx.peer, items[j]);
    if p.Parsed? {
      SameId(p.rec);
    }
  }

  /** Entry j of the response to an unregister call: done, or the first fault of the item. */
  lemma {:induction false} UnregisterAnswerIs(reg: Table, peer: Peer, items: seq<Json>, j: nat)
    requires j < |items|
    ensures UnregisterAll(reg, peer, items).entries[j]
            == if NamesSource(items[j]) then Obj(map["result" := Bool(true)])
               else Obj(map["error" := Str(ParseTarget(items[j]).msg)])
    decreases |items|
  {
    var n := |items| - 1;
    TargetIs(items[j]);
    if j < n {
      UnregisterAnswerIs(reg, peer, items[..n], j);
    }
  }
}
