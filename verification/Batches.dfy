/**
  What a batch of registrations or unregistrations does to the registry, and the exchange by
  which a client gets an identifier and claims it back.
 */
module Batches {
  import opened Common
  import opened Words
  import opened Json
  import opened Sources
  import opened Signing
  import opened Registry
  import opened Wire

  const BAD_SIGNATURE := "Invalid source signature"

  /** What every step of a batch needs to know. */
  datatype Context = Context(hmac: Hmac, key: string, peer: Peer)

  /** The registry and the entries after a batch, or up to the item at which the process ended. */
  datatype Batch = Batch(reg: Table, entries: seq<Json>, crashed: bool)

  // ----- registering -------------------------------------------------------------------

  function EntryFor(r: Registration): Json {
    if r.accepted && r.rec.id.Some? && r.rec.signature.Some? then
      RegisteredEntry(r.rec.id.value, r.rec.signature.value)
    else ErrorEntry(BAD_SIGNATURE)
  }

  /** One item: a malformed one is answered with its error and leaves the registry alone. */
  function RegisterItem(reg: Table, ctx: Context, item: Json, newId: string): (Table, Json)
    requires !ParseSource(ctx.peer, item).Crash?
  {
    match ParseSource(ctx.peer, item)
    case Rejected(msg) => (reg, ErrorEntry(msg))
    case Parsed(rec) =>
      var r := Register(reg, ctx.hmac, ctx.key, ctx.peer, rec, newId);
      (r.reg, EntryFor(r))
  }

  /** An item that is taken is registered, and answered with what has been registered. */
  lemma RegisteredItem(reg: Table, ctx: Context, item: Json, newId: string)
    requires ParseSource(ctx.peer, item).Parsed?
    ensures var r := Register(reg, ctx.hmac, ctx.key, ctx.peer, ParseSource(ctx.peer, item).rec, newId);
            RegisterItem(reg, ctx, item, newId) == (r.reg, EntryFor(r))
  {
    hide ParseSource, Register;
  }

  lemma AcceptedIsSigned(reg: Table, ctx: Context, rec: SourceRec, newId: string)
    ensures var r := Register(reg, ctx.hmac, ctx.key, ctx.peer, rec, newId);
            r.accepted ==> r.rec.id.Some? && r.rec.signature.Some?
  {}

  /** One more item of a batch, unless the process has ended. */
  function Extended(b: Batch, ctx: Context, item: Json, newId: string): Batch {
    if b.crashed then b
    else if ParseSource(ctx.peer, item).Crash? then b.(crashed := true)
    else
      var (reg', entry) := RegisterItem(b.reg, ctx, item, newId);
      Batch(reg', b.entries + [entry], false)
  }

  /** The items one after the other; `newIds[i]` is the identifier at hand for item i. */
  function RegisterAll(reg: Table, ctx: Context, items: seq<Json>, newIds: seq<string>): (b: Batch)
    requires |items| == |newIds|
    ensures !b.crashed ==> |b.entries| == |items|
    decreases |items|
  {
    if items == [] then Batch(reg, [], false)
    else
      var n := |items| - 1;
      Extended(RegisterAll(reg, ctx, items[..n], newIds[..n]), ctx, items[n], newIds[n])
  }

  /** The batch `b` and then, if the process is still there, the batch `c`. */
  function Then(b: Batch, c: Batch): Batch {
    if b.crashed then b else Batch(c.reg, b.entries + c.entries, c.crashed)
  }

  lemma ThenExtended(b: Batch, c: Batch, ctx: Context, item: Json, newId: string)
    ensures Extended(Then(b, c), ctx, item, newId) == Then(b, Extended(c, ctx, item, newId))
  {
    hide RegisterItem, ParseSource;
    if !b.crashed && !c.crashed && !ParseSource(ctx.peer, item).Crash? {
      var (_, entry) := RegisterItem(c.reg, ctx, item, newId);
      assert b.entries + c.entries + [entry] == b.entries + (c.entries + [entry]);
    }
  }

  lemma {:induction false} RegisterConcat(reg: Table, ctx: Context, a: seq<Json>, b: seq<Json>,
                                          x: seq<string>, y: seq<string>)
    requires |a| == |x| && |b| == |y|
    ensures var first := RegisterAll(reg, ctx, a, x);
            RegisterAll(reg, ctx, a + b, x + y) == Then(first, RegisterAll(first.reg, ctx, b, y))
    decreases |b|
  {
    hide Extended;
    var first := RegisterAll(reg, ctx, a, x);
    if b == [] {
      assert a + b == a && x + y == x;
    } else {
      var n := |b| - 1;
      assert (a + b)[..|a| + n] == a + b[..n] && (x + y)[..|a| + n] == x + y[..n];
      RegisterConcat(reg, ctx, a, b[..n], x, y[..n]);
      assert (a + b)[|a| + n] == b[n] && (x + y)[|a| + n] == y[n];
      ThenExtended(first, RegisterAll(first.reg, ctx, b[..n], y[..n]), ctx, b[n], y[n]);
    }
  }

  /** None of the items has a name or type that is looked at without being a string. */
  predicate AllReadable(items: seq<Json>) {
    forall i :: 0 <= i < |items| ==> Readable(items[i])
  }

  /** The process ends with a batch if and only if some item has an unreadable name or type. */
  lemma {:induction false} BatchEndsIff(reg: Table, ctx: Context, items: seq<Json>, newIds: seq<string>)
    requires |items| == |newIds|
    ensures RegisterAll(reg, ctx, items, newIds).crashed <==> !AllReadable(items)
    decreases |items|
  {
    hide RegisterItem, Readable, ParseSource;
    if items != [] {
      var n := |items| - 1;
      BatchEndsIff(reg, ctx, items[..n], newIds[..n]);
      CrashIff(ctx.peer, items[n]);
      assert AllReadable(items) <==> AllReadable(items[..n]) && Readable(items[n]) by {
        assert forall i :: 0 <= i < n ==> items[..n][i] == items[i];
      }
    }
  }

  /**
    One unreadable item takes all others with it: those before it have been registered, those
    after it are not looked at, and none of them is answered.
   */
  lemma UnreadableItemEndsAll(reg: Table, ctx: Context, a: seq<Json>, item: Json, b: seq<Json>,
                              x: seq<string>, newId: string, y: seq<string>)
    requires |a| == |x| && |b| == |y| && !Readable(item)
    ensures var before := RegisterAll(reg, ctx, a, x);
            RegisterAll(reg, ctx, a + [item] + b, x + [newId] + y) == before.(crashed := true)
  {
    hide RegisterItem, ParseSource, Readable;
    var before := RegisterAll(reg, ctx, a, x);
    CrashIff(ctx.peer, item);
    assert (a + [item])[..|a|] == a && (x + [newId])[..|a|] == x;
    assert RegisterAll(reg, ctx, a + [item], x + [newId]) == before.(crashed := true);
    RegisterConcat(reg, ctx, a + [item], b, x + [newId], y);
  }

  /** A number for a name is such an item. */
  lemma NumberForName(n: int, peer: Peer)
    ensures !Readable(Obj(map["name" := Int(n)])) && ParseSource(peer, Obj(map["name" := Int(n)])) == Crash
  {
    assert HasValue(map["name" := Int(n)], "name");
  }

  /** Nothing can come of this item: it is answered with an error, or its claim is badly signed. */
  predicate Hopeless(ctx: Context, item: Json) {
    match ParseSource(ctx.peer, item)
    case Crash => false
    case Rejected(_) => true
    case Parsed(rec) => rec.id.Some? && !Authentic(ctx.hmac, ctx.key, rec)
  }

  predicate IsErrorEntry(j: Json) {
    IsEntry(j) && !j.members["error"].Null?
  }

  lemma HopelessAlone(reg: Table, ctx: Context, item: Json, newId: string)
    requires Hopeless(ctx, item)
    ensures var b := RegisterAll(reg, ctx, [item], [newId]);
            b.reg == reg && !b.crashed && |b.entries| == 1 && IsErrorEntry(b.entries[0])
  {
    assert [item][..0] == [] && [newId][..0] == [];
    assert RegisterAll(reg, ctx, [], []) == Batch(reg, [], false);
  }

  /**
    A malformed or badly signed item that does not end the process changes nothing and does not
    disturb its neighbours: the batch without it gives the same registry and the same other
    entries, and ends the process exactly if the batch with it does.
   */
  lemma HopelessItemIsInvisible(reg: Table, ctx: Context, a: seq<Json>, item: Json, b: seq<Json>,
                                x: seq<string>, newId: string, y: seq<string>)
    requires |a| == |x| && |b| == |y| && Hopeless(ctx, item)
    ensures var whole := RegisterAll(reg, ctx, a + [item] + b, x + [newId] + y);
            var rest := RegisterAll(reg, ctx, a + b, x + y);
            && whole.reg == rest.reg && whole.crashed == rest.crashed
            && if RegisterAll(reg, ctx, a, x).crashed then whole.entries == rest.entries
               else
                 && |a| <= |rest.entries| && |whole.entries| == |rest.entries| + 1
                 && whole.entries[..|a|] == rest.entries[..|a|]
                 && whole.entries[|a| + 1..] == rest.entries[|a|..]
                 && IsErrorEntry(whole.entries[|a|])
  {
    hide Extended, Hopeless, IsErrorEntry;
    var first := RegisterAll(reg, ctx, a, x);
    var one := RegisterAll(first.reg, ctx, [item], [newId]);
    var second := RegisterAll(first.reg, ctx, b, y);
    HopelessAlone(first.reg, ctx, item, newId);
    RegisterConcat(reg, ctx, a, [item], x, [newId]);
    RegisterConcat(reg, ctx, a + [item], b, x + [newId], y);
    RegisterConcat(reg, ctx, a, b, x, y);
    var whole := RegisterAll(reg, ctx, a + [item] + b, x + [newId] + y);
    var rest := RegisterAll(reg, ctx, a + b, x + y);
    if !first.crashed {
      assert whole.entries == first.entries + one.entries + second.entries;
      assert rest.entries == first.entries + second.entries;
    }
  }

  /** An identifier that is issued for the item was not registered. */
  predicate IssuesUnused(reg: Table, ctx: Context, item: Json, newId: string) {
    var p := ParseSource(ctx.peer, item);
    p.Parsed? && p.rec.id.None? ==> newId !in reg
  }

  /** The item claims `id` with a signature of this node. */
  predicate Claims(ctx: Context, item: Json, id: string) {
    var p := ParseSource(ctx.peer, item);
    p.Parsed? && p.rec.id == Some(id) && Authentic(ctx.hmac, ctx.key, p.rec)
  }

  lemma ItemKeeps(reg: Table, ctx: Context, item: Json, newId: string)
    requires WellFiled(reg) && IssuesUnused(reg, ctx, item, newId) && !ParseSource(ctx.peer, item).Crash?
    ensures var reg' := RegisterItem(reg, ctx, item, newId).0;
            && WellFiled(reg')
            && (forall id :: id in reg ==>
                  id in reg' && reg'[id] == if Claims(ctx, item, id) then reg[id].(peer := Some(ctx.peer)) else reg[id])
  {}

  /** Every identifier issued in the batch was unused when it was issued. */
  predicate AllUnused(reg: Table, ctx: Context, items: seq<Json>, newIds: seq<string>)
    requires |items| == |newIds|
    decreases |items|
  {
    items == [] ||
    var n := |items| - 1;
    var before := RegisterAll(reg, ctx, items[..n], newIds[..n]);
    && AllUnused(reg, ctx, items[..n], newIds[..n])
    && (before.crashed || IssuesUnused(before.reg, ctx, items[n], newIds[n]))
  }

  predicate AnyClaims(ctx: Context, items: seq<Json>, id: string) {
    exists i :: 0 <= i < |items| && Claims(ctx, items[i], id)
  }

  /**
    A batch loses no entry: those that it claims move to the peer, all others stay as they are,
    and what is issued never takes the place of anything. Of a batch that ends the process this
    holds up to the item that does (UnreadableItemEndsAll).
   */
  lemma {:induction false} BatchKeeps(reg: Table, ctx: Context, items: seq<Json>, newIds: seq<string>)
    requires WellFiled(reg) && |items| == |newIds| && AllUnused(reg, ctx, items, newIds) && AllReadable(items)
    ensures var b := RegisterAll(reg, ctx, items, newIds);
            && !b.crashed && WellFiled(b.reg)
            && (forall id :: id in reg ==>
                  && id in b.reg
                  && b.reg[id] == if AnyClaims(ctx, items, id) then reg[id].(peer := Some(ctx.peer)) else reg[id])
    decreases |items|
  {
    hide WellFiled, IssuesUnused, Claims, RegisterItem, ParseSource, Readable;
    if items != [] {
      var n := |items| - 1;
      assert AllReadable(items[..n]);
      CrashIff(ctx.peer, items[n]);
      BatchKeeps(reg, ctx, items[..n], newIds[..n]);
      ItemKeeps(RegisterAll(reg, ctx, items[..n], newIds[..n]).reg, ctx, items[n], newIds[n]);
      forall id
        ensures AnyClaims(ctx, items, id) <==> AnyClaims(ctx, items[..n], id) || Claims(ctx, items[n], id)
      {
        assert forall i :: 0 <= i < n ==> items[..n][i] == items[i];
      }
    }
  }

  // ----- unregistering -----------------------------------------------------------------

  function UnregisterItem(reg: Table, peer: Peer, item: Json): Table {
    match ParseTarget(item)
    case Target(id, _) => Unregister(reg, peer, id)
    case BadTarget(_) => reg
  }

  function UnregisterAll(reg: Table, peer: Peer, items: seq<Json>): (b: Batch)
    ensures |b.entries| == |items| && !b.crashed
    decreases |items|
  {
    if items == [] then Batch(reg, [], false)
    else
      var n := |items| - 1;
      var before := UnregisterAll(reg, peer, items[..n]);
      var entry := UnregisteredEntry(ParseTarget(items[n]));
      Batch(UnregisterItem(before.reg, peer, items[n]), before.entries + [entry], false)
  }

  /** The identifier is named by a well-formed item. */
  predicate Named(items: seq<Json>, id: string) {
    exists i :: 0 <= i < |items| && ParseTarget(items[i]).Target? && ParseTarget(items[i]).id == id
  }

  /** Exactly the identifiers that are named and that the caller owns are removed. */
  lemma {:induction false} UnregisterRemoves(reg: Table, peer: Peer, items: seq<Json>)
    ensures UnregisterAll(reg, peer, items).reg
            == map i | i in reg && !(Named(items, i) && Owns(reg, peer, i)) :: reg[i]
    decreases |items|
  {
    if items != [] {
      var n := |items| - 1;
      UnregisterRemoves(reg, peer, items[..n]);
      forall id
        ensures Named(items, id) <==>
                Named(items[..n], id) || (ParseTarget(items[n]).Target? && ParseTarget(items[n]).id == id)
      {
        if Named(items, id) {
          var i :| 0 <= i < |items| && ParseTarget(items[i]).Target? && ParseTarget(items[i]).id == id;
          if i < n {
            assert items[..n][i] == items[i];
          }
        }
        if Named(items[..n], id) {
          var i :| 0 <= i < n && ParseTarget(items[..n][i]).Target? && ParseTarget(items[..n][i]).id == id;
          assert items[i] == items[..n][i];
        }
      }
    }
  }

  /** Saying it twice changes nothing more. */
  lemma UnregisterIdempotent(reg: Table, peer: Peer, items: seq<Json>)
    ensures var once := UnregisterAll(reg, peer, items);
            UnregisterAll(once.reg, peer, items) == once
  {
    var once := UnregisterAll(reg, peer, items);
    UnregisterRemoves(reg, peer, items);
    UnregisterRemoves(once.reg, peer, items);
    SameAnswers(reg, once.reg, peer, items);
  }

  /** The answers do not depend on the registry. */
  lemma {:induction false} SameAnswers(reg: Table, reg': Table, peer: Peer, items: seq<Json>)
    ensures UnregisterAll(reg, peer, items).entries == UnregisterAll(reg', peer, items).entries
    decreases |items|
  {
    if items != [] {
      SameAnswers(reg, reg', peer, items[..|items| - 1]);
    }
  }

  // ----- the exchange ------------------------------------------------------------------

  lemma EntryIsEntry(reg: Table, ctx: Context, item: Json, newId: string)
    requires !ParseSource(ctx.peer, item).Crash?
    ensures IsEntry(RegisterItem(reg, ctx, item, newId).1)
  {}

  /** What the server answers for a printed source, which is always readable. */
  function AnswerTo(reg: Table, ctx: Context, r: SourceRec, newId: string): (Table, Json)
    requires Representable(r)
  {
    ParsePrinted(ctx.peer, r);
    CrashIff(ctx.peer, SourceJson(r));
    RegisterItem(reg, ctx, SourceJson(r), newId)
  }

  /** The client prints a source, the server answers, and the client stores the answer. */
  function Exchange(reg: Table, ctx: Context, r: SourceRec, newId: string): (Table, SourceRec)
    requires Representable(r)
  {
    var (reg', entry) := AnswerTo(reg, ctx, r, newId);
    (reg', Stored(r, entry))
  }

  predicate Succeeds(reg: Table, ctx: Context, r: SourceRec, newId: string)
    requires Representable(r)
  {
    var (_, entry) := AnswerTo(reg, ctx, r, newId);
    entry.Obj? && "error" in entry.members && entry.members["error"].Null?
  }

  /** A client record that this node has signed. */
  predicate Claimable(ctx: Context, r: SourceRec) {
    Sendable(r) && Representable(r) && r.id.Some? && |r.id.value| >= MIN_ID_LENGTH && Authentic(ctx.hmac, ctx.key, r)
  }

  /** A successful exchange leaves the client with a record that the node has signed. */
  lemma ExchangeMakesClaimable(reg: Table, ctx: Context, r: SourceRec, newId: string)
    requires Representable(r) && |newId| >= MIN_ID_LENGTH && Succeeds(reg, ctx, r, newId)
    ensures Claimable(ctx, Exchange(reg, ctx, r, newId).1)
    ensures r.id.None? ==> Exchange(reg, ctx, r, newId).1.id == Some(newId)
  {
    ParsePrinted(ctx.peer, r);
  }

  /**
    A signed record is accepted again from any registry of any node with the same key: the
    identifier and signature stay, the claiming peer becomes the owner, nothing else changes.
   */
  lemma ClaimAccepted(reg: Table, ctx: Context, r: SourceRec, newId: string)
    requires Claimable(ctx, r)
    ensures var (reg', r') := Exchange(reg, ctx, r, newId);
            && Succeeds(reg, ctx, r, newId)
            && r' == r
            && Owns(reg', ctx.peer, r.id.value)
            && reg'.Keys == reg.Keys + {r.id.value}
            && (forall i :: i in reg && i != r.id.value ==> reg'[i] == reg[i])
            && (r.id.value in reg ==> reg'[r.id.value] == reg[r.id.value].(peer := Some(ctx.peer)))
  {
    ParsePrinted(ctx.peer, r);
  }

  /**
    Claim-back: whatever a node has answered to a client once, the client can present again, as
    a possibly different peer, to the registry in any later state under the same key.
   */
  lemma ClaimBack(reg: Table, later: Table, hmac: Hmac, key: string, peer: Peer, laterPeer: Peer,
                  r: SourceRec, newId: string, laterId: string)
    requires Representable(r) && |newId| >= MIN_ID_LENGTH
    requires Succeeds(reg, Context(hmac, key, peer), r, newId)
    ensures var held := Exchange(reg, Context(hmac, key, peer), r, newId).1;
            var ctx := Context(hmac, key, laterPeer);
            && held.id.Some?
            && Succeeds(later, ctx, held, laterId)
            && Exchange(later, ctx, held, laterId).1 == held
            && Owns(Exchange(later, ctx, held, laterId).0, laterPeer, held.id.value)
            && (forall i :: i != held.id.value ==>
                  (i in Exchange(later, ctx, held, laterId).0 <==> i in later)
                  && (i in later ==> Exchange(later, ctx, held, laterId).0[i] == later[i]))
  {
    var ctx := Context(hmac, key, peer);
    ExchangeMakesClaimable(reg, ctx, r, newId);
    hide Exchange, Succeeds;
    var held := Exchange(reg, ctx, r, newId).1;
    ClaimAccepted(later, ctx.(peer := laterPeer), held, laterId);
  }

  // ----- the exchange in batches -------------------------------------------------------

  /** Entry i answers item i, on the registry as the items before it have left it. */
  lemma {:induction false} EntryAnswersItem(reg: Table, ctx: Context, items: seq<Json>, newIds: seq<string>, i: nat)
    requires |items| == |newIds| && AllReadable(items) && i < |items|
    ensures !RegisterAll(reg, ctx, items, newIds).crashed && !ParseSource(ctx.peer, items[i]).Crash?
    ensures RegisterAll(reg, ctx, items, newIds).entries[i]
            == RegisterItem(RegisterAll(reg, ctx, items[..i], newIds[..i]).reg, ctx, items[i], newIds[i]).1
    decreases |items|
  {
    hide RegisterItem, Readable, ParseSource;
    var n := |items| - 1;
    BatchEndsIff(reg, ctx, items, newIds);
    BatchEndsIff(reg, ctx, items[..n], newIds[..n]);
    CrashIff(ctx.peer, items[i]);
    assert AllReadable(items[..n]);
    if i < n {
      EntryAnswersItem(reg, ctx, items[..n], newIds[..n], i);
      assert items[..n][..i] == items[..i] && newIds[..n][..i] == newIds[..i];
    }
  }

  /** The items of a call that registers these sources. */
  function Printed(recs: seq<SourceRec>): seq<Json> {
    seq(|recs|, i requires 0 <= i < |recs| => SourceJson(recs[i]))
  }

  predicate AllRepresentable(recs: seq<SourceRec>) {
    forall i :: 0 <= i < |recs| ==> Representable(recs[i])
  }

  lemma PrintedReadable(peer: Peer, recs: seq<SourceRec>)
    requires AllRepresentable(recs)
    ensures AllReadable(Printed(recs))
  {
    forall i | 0 <= i < |recs|
      ensures Readable(SourceJson(recs[i]))
    {
      ParsePrinted(peer, recs[i]);
    }
  }

  predicate HasNoError(entry: Json) {
    IsEntry(entry) && entry.members["error"].Null?
  }

  /** After a batch of printed sources, each one that was not refused is signed by the node. */
  lemma BatchMakesClaimable(reg: Table, ctx: Context, recs: seq<SourceRec>, newIds: seq<string>, i: nat)
    requires AllRepresentable(recs) && |recs| == |newIds| && i < |recs| && |newIds[i]| >= MIN_ID_LENGTH
    ensures var b := RegisterAll(reg, ctx, Printed(recs), newIds);
            && !b.crashed && IsEntry(b.entries[i])
            && (HasNoError(b.entries[i]) ==> Claimable(ctx, Stored(recs[i], b.entries[i])))
  {
    var items := Printed(recs);
    PrintedReadable(ctx.peer, recs);
    EntryAnswersItem(reg, ctx, items, newIds, i);
    var before := RegisterAll(reg, ctx, items[..i], newIds[..i]).reg;
    EntryIsEntry(before, ctx, items[i], newIds[i]);
    hide RegisterItem, RegisterAll, IsEntry, Stored, Claimable;
    var b := RegisterAll(reg, ctx, items, newIds);
    assert AnswerTo(before, ctx, recs[i], newIds[i]).1 == b.entries[i];
    if HasNoError(b.entries[i]) {
      assert Succeeds(before, ctx, recs[i], newIds[i]) by { NoErrorSucceeds(before, ctx, recs[i], newIds[i]); }
      ExchangeMakesClaimable(before, ctx, recs[i], newIds[i]);
    }
  }

  lemma NoErrorSucceeds(reg: Table, ctx: Context, r: SourceRec, newId: string)
    requires Representable(r) && HasNoError(AnswerTo(reg, ctx, r, newId).1)
    ensures Succeeds(reg, ctx, r, newId)
  {
    hide AnswerTo;
  }

  /** The answer to a claim repeats the identifier and the signature. */
  lemma ClaimAnswered(reg: Table, ctx: Context, r: SourceRec, newId: string)
    requires Claimable(ctx, r)
    ensures !ParseSource(ctx.peer, SourceJson(r)).Crash?
    ensures var (reg', entry) := RegisterItem(reg, ctx, SourceJson(r), newId);
            entry == RegisteredEntry(r.id.value, r.signature.value) && Owns(reg', ctx.peer, r.id.value)
  {
    ParsePrinted(ctx.peer, r);
  }

  /**
    A claim anywhere in any batch is answered with its own identifier and signature, and at the
    end of the batch the caller owns the entry, whatever else is registered around it.
   */
  lemma {:induction false} BatchClaim(reg: Table, ctx: Context, items: seq<Json>, newIds: seq<string>,
                                      j: nat, held: SourceRec)
    requires WellFiled(reg) && |items| == |newIds| && AllReadable(items) && AllUnused(reg, ctx, items, newIds)
    requires j < |items| && items[j] == SourceJson(held) && Claimable(ctx, held)
    ensures var b := RegisterAll(reg, ctx, items, newIds);
            && !b.crashed
            && b.entries[j] == RegisteredEntry(held.id.value, held.signature.value)
            && Owns(b.reg, ctx.peer, held.id.value)
    decreases |items|
  {
    hide RegisterItem, Readable, ParseSource, WellFiled, Claimable, SourceJson;
    var n := |items| - 1;
    var before := RegisterAll(reg, ctx, items[..n], newIds[..n]);
    assert AllReadable(items[..n]);
    BatchKeeps(reg, ctx, items[..n], newIds[..n]);
    CrashIff(ctx.peer, items[n]);
    assert held.id.Some? && held.signature.Some? by { ClaimableSigned(ctx, held); }
    if j == n {
      ClaimAnswered(before.reg, ctx, held, newIds[n]);
    } else {
      BatchClaim(reg, ctx, items[..n], newIds[..n], j, held);
      ItemKeeps(before.reg, ctx, items[n], newIds[n]);
    }
  }

  lemma ClaimableSigned(ctx: Context, r: SourceRec)
    requires Claimable(ctx, r)
    ensures r.id.Some? && r.signature.Some?
  {}

  /**
    Claim-back in batches: whatever item i of one batch was answered with, if not with an error,
    is accepted as item j of any later batch of any peer under the same key, with the same
    identifier and signature, and the entry then belongs to that peer.
   */
  lemma BatchClaimBack(reg: Table, ctx: Context, recs: seq<SourceRec>, newIds: seq<string>, i: nat,
                       later: Table, laterPeer: Peer, items: seq<Json>, laterIds: seq<string>, j: nat)
    requires AllRepresentable(recs) && |recs| == |newIds| && i < |recs| && |newIds[i]| >= MIN_ID_LENGTH
    requires i < |RegisterAll(reg, ctx, Printed(recs), newIds).entries|
    requires HasNoError(RegisterAll(reg, ctx, Printed(recs), newIds).entries[i])
    requires WellFiled(later) && |items| == |laterIds| && j < |items| && AllReadable(items)
    requires AllUnused(later, ctx.(peer := laterPeer), items, laterIds)
    requires items[j] == SourceJson(Stored(recs[i], RegisterAll(reg, ctx, Printed(recs), newIds).entries[i]))
    ensures var held := Stored(recs[i], RegisterAll(reg, ctx, Printed(recs), newIds).entries[i]);
            var b := RegisterAll(later, ctx.(peer := laterPeer), items, laterIds);
            && held.id.Some? && held.signature.Some? && !b.crashed
            && b.entries[j] == RegisteredEntry(held.id.value, held.signature.value)
            && Owns(b.reg, laterPeer, held.id.value)
  {
    BatchMakesClaimable(reg, ctx, recs, newIds, i);
    hide RegisterAll, Stored, AllUnused, AllReadable, HasNoError;
    var held := Stored(recs[i], RegisterAll(reg, ctx, Printed(recs), newIds).entries[i]);
    assert Claimable(ctx.(peer := laterPeer), held);
    hide Claimable;
    ClaimableSigned(ctx, held);
    BatchClaim(later, ctx.(peer := laterPeer), items, laterIds, j, held);
  }
}
