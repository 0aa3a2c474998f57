/** The two ends of the protocol: the loops of filetea-protocol.c over batches and messages. */
module Protocol {
  import opened Common
  import opened Words
  import opened Json
  import opened Sources
  import opened Signing
  import opened Registry
  import opened Wire
  import opened Batches
  import opened Nodes

  // ----- printing ----------------------------------------------------------------------

  /** filetea_source_to_json */
  method SourceToJson(source: Source) returns (node: Json)
    ensures node == SourceJson(source.Rec())
  {
    var obj := map["name" := Str(source.name), "type" := Str(source.ctype)];
    obj := obj["size" := Int(ToSigned(source.size))];
    obj := obj["flags" := Int(source.flags)];
    if source.id.Some? {
      obj := obj["id" := Str(source.id.value)];
    }
    if source.signature.Some? {
      obj := obj["signature" := Str(source.signature.value)];
    }
    if source.tags.Some? {
      var tags := source.tags.value;
      var list := [];
      for i := 0 to |tags|
        invariant list == TagList(tags)[..i]
      {
        list := list + [Str(tags[i])];
      }
      assert list == TagList(tags);
      obj := obj["tags" := Arr(list)];
    }
    node := Obj(obj);
  }

  /** filetea_protocol_register_sources: the parameters of the call. */
  method PrintSources(sources: seq<Source>) returns (params: seq<Json>)
    ensures |params| == |sources|
    ensures forall i :: 0 <= i < |sources| ==> params[i] == SourceJson(sources[i].Rec())
  {
    params := [];
    for i := 0 to |sources|
      invariant |params| == i
      invariant forall j :: 0 <= j < i ==> params[j] == SourceJson(sources[j].Rec())
    {
      var node := SourceToJson(sources[i]);
      params := params + [node];
    }
  }

  // ----- parsing -----------------------------------------------------------------------

  /**
    The tags of an item are put into a vector that starts out empty and ends with NULL; what
    is kept are the entries before the first one that is missing.
   */
  method ReadTags(items: seq<Json>) returns (tags: seq<string>)
    ensures tags == ValidTags(items)
  {
    var vector := new Option<string>[|items| + 1](_ => None);
    for j := 0 to |items|
      invariant forall k :: 0 <= k < j ==> vector[k] == (if ValidTag(items[k]) then Some(items[k].s) else None)
      invariant forall k :: j <= k <= |items| ==> vector[k] == None
    {
      var text := StringOf(items[j]);
      if text.Some? && |text.value| > 0 {
        vector[j] := text;
      }
    }
    tags := [];
    var i := 0;
    assert items[0..] == items;
    while vector[i].Some?
      invariant 0 <= i <= |items|
      invariant tags + ValidTags(items[i..]) == ValidTags(items)
      decreases |items| - i
    {
      assert items[i..][1..] == items[i + 1..];
      tags := tags + [vector[i].value];
      i := i + 1;
    }
  }

  /**
    The checks of op_register_content on one item, and the source made from it; `crashed` says
    that the length of a string was taken that is not there.
   */
  method ReadSource(peer: Peer, item: Json) returns (crashed: bool, error: Option<string>, source: Source?)
    ensures crashed <==> ParseSource(peer, item).Crash?
    ensures source != null <==> ParseSource(peer, item).Parsed?
    ensures ParseSource(peer, item).Rejected? ==> error == Some(ParseSource(peer, item).msg)
    ensures source != null ==> fresh(source) && error.None? && source.Rec() == ParseSource(peer, item).rec
  {
    crashed, error, source := false, None, null;
    if !item.Obj? {
      return false, Some(NOT_AN_OBJECT), null;
    }
    var obj := item.members;
    if "name" !in obj || !HoldsValue(obj["name"]) {
      return false, Some(BAD_NAME), null;
    }
    var name := StringOf(obj["name"]);
    if name.None? {
      return true, None, null;
    }
    if |name.value| == 0 {
      return false, Some(BAD_NAME), null;
    }
    if "type" !in obj || !HoldsValue(obj["type"]) {
      return false, Some(BAD_TYPE), null;
    }
    var ctype := StringOf(obj["type"]);
    if ctype.None? {
      return true, None, null;
    }
    if |ctype.value| == 0 {
      return false, Some(BAD_TYPE), null;
    }
    var size := 0;
    if "size" in obj {
      if !HoldsValue(obj["size"]) {
        return false, Some(BAD_SIZE), null;
      }
      if IntOf(obj["size"]) < 0 {
        return false, Some(NEGATIVE_SIZE), null;
      }
      size := ToUnsigned(IntOf(obj["size"]));
    }
    if "flags" !in obj || !HoldsValue(obj["flags"]) {
      return false, Some(BAD_FLAGS), null;
    }
    if IntOf(obj["flags"]) < 0 {
      return false, Some(NEGATIVE_FLAGS), null;
    }
    var flags := IntOf(obj["flags"]) % TWO_32;
    var tags := None;
    if "tags" in obj {
      if !obj["tags"].Arr? {
        return false, Some(BAD_TAGS), null;
      }
      var list := ReadTags(obj["tags"].items);
      tags := Some(list);
    }
    source := new Source(Some(peer), name.value, ctype.value, size, flags, tags);
    if "id" in obj && "signature" in obj {
      var claimedId, claimedSignature := StringOf(obj["id"]), StringOf(obj["signature"]);
      if claimedId.Some? && claimedSignature.Some? {
        source.SetId(claimedId.value);
        source.SetSignature(claimedSignature.value);
      }
    }
  }

  // ----- the server's batches ----------------------------------------------------------

  /** One item of a register call; no entry means that the process has ended. */
  method RegisterOne(node: Node, peer: Peer, item: Json) returns (entry: Option<Json>, ghost newId: string)
    requires node.Valid()
    modifies node`sourcesById, node`sourcesByPeer, node.sourcesById.Values
    ensures node.Valid() && fresh(node.sourcesById.Values - old(node.sourcesById.Values))
    ensures |newId| >= MIN_ID_LENGTH
    ensures entry.None? <==> ParseSource(peer, item).Crash?
    ensures entry.None? ==> node.Contents() == old(node.Contents())
    ensures entry.Some? ==>
              && IssuesUnused(old(node.Contents()), Context(node.hmac, node.key, peer), item, newId)
              && (node.Contents(), entry.value)
                 == RegisterItem(old(node.Contents()), Context(node.hmac, node.key, peer), item, newId)
  {
    hide Agree, ParseSource, Register, EntryFor;
    newId := "-------";
    var crashed, error, source := ReadSource(peer, item);
    if crashed {
      entry := None;
    } else if source == null {
      entry := Some(ErrorEntry(error.value));
    } else {
      ParsedIsWellFormed(peer, item);
      ghost var reg := node.Contents();
      var answer;
      answer, newId := RegisterAndAnswer(node, peer, source);
      RegisteredItem(reg, Context(node.hmac, node.key, peer), item, newId);
      entry := Some(answer);
    }
  }

  /** The node registers a new source, and the entry of the response is filled in. */
  method RegisterAndAnswer(node: Node, peer: Peer, source: Source) returns (entry: Json, ghost newId: string)
    requires node.Valid() && source !in node.sourcesById.Values && source.peer == Some(peer)
    modifies node`sourcesById, node`sourcesByPeer, source, node.sourcesById.Values
    ensures node.Valid() && node.sourcesById.Values <= old(node.sourcesById.Values) + {source}
    ensures |newId| >= MIN_ID_LENGTH && (old(source.id).None? ==> newId !in old(node.Contents()))
    ensures var r := Register(old(node.Contents()), node.hmac, node.key, peer, old(source.Rec()), newId);
            node.Contents() == r.reg && entry == EntryFor(r)
  {
    hide Agree, ShapedFor, Register;
    ghost var reg, rec := node.Contents(), source.Rec();
    var accepted;
    accepted, newId := node.RegisterSource(peer, source);
    AcceptedIsSigned(reg, Context(node.hmac, node.key, peer), rec, newId);
    if accepted {
      entry := Obj(map["error" := Null, "id" := Str(source.id.value), "signature" := Str(source.signature.value)]);
    } else {
      entry := ErrorEntry(BAD_SIGNATURE);
    }
  }

  /**
    op_register_content: one entry per item, in order; the registry is the left fold of the
    single step over the items. There is no response if an item ends the process.
   */
  method OpRegisterContent(node: Node, peer: Peer, params: seq<Json>)
    returns (response: Option<seq<Json>>, ghost newIds: seq<string>)
    requires node.Valid()
    modifies node`sourcesById, node`sourcesByPeer, node.sourcesById.Values
    ensures node.Valid() && fresh(node.sourcesById.Values - old(node.sourcesById.Values))
    ensures |newIds| == |params| && forall i :: 0 <= i < |newIds| ==> |newIds[i]| >= MIN_ID_LENGTH
    ensures response.None? <==> !AllReadable(params)
    ensures var b := RegisterAll(old(node.Contents()), Context(node.hmac, node.key, peer), params, newIds);
            && node.Contents() == b.reg && (response.None? <==> b.crashed)
            && (response.Some? ==> response.value == b.entries)
    ensures AllUnused(old(node.Contents()), Context(node.hmac, node.key, peer), params, newIds)
  {
    hide Agree, RegisterItem, IssuesUnused, Extended, ParseSource, Readable;
    newIds := [];
    var entries := [];
    ghost var reg, ctx := node.Contents(), Context(node.hmac, node.key, peer);
    for i := 0 to |params|
      invariant node.Valid() && fresh(node.sourcesById.Values - old(node.sourcesById.Values))
      invariant |newIds| == i && forall j :: 0 <= j < i ==> |newIds[j]| >= MIN_ID_LENGTH
      invariant Batch(node.Contents(), entries, false) == RegisterAll(reg, ctx, params[..i], newIds)
      invariant AllUnused(reg, ctx, params[..i], newIds)
    {
      var entry;
      ghost var newId;
      entry, newId := RegisterOne(node, peer, params[i]);
      assert params[..i + 1][..i] == params[..i] && (newIds + [newId])[..i] == newIds;
      if entry.None? {
        newIds := EndsAt(reg, ctx, params, newIds, newId);
        response := None;
        return;
      }
      ExtendedReadable(RegisterAll(reg, ctx, params[..i], newIds), ctx, params[i], newId);
      entries := entries + [entry.value];
      newIds := newIds + [newId];
    }
    assert params[..|params|] == params;
    BatchEndsIff(reg, ctx, params, newIds);
    response := Some(entries);
  }

  lemma ExtendedReadable(b: Batch, ctx: Context, item: Json, newId: string)
    requires !b.crashed && !ParseSource(ctx.peer, item).Crash?
    ensures Extended(b, ctx, item, newId)
            == Batch(RegisterItem(b.reg, ctx, item, newId).0,
                     b.entries + [RegisterItem(b.reg, ctx, item, newId).1], false)
  {}

  /** The process ends at the item after those for which there are identifiers. */
  lemma EndsAt(reg: Table, ctx: Context, items: seq<Json>, newIds: seq<string>, filler: string)
    returns (all: seq<string>)
    requires |newIds| < |items| && ParseSource(ctx.peer, items[|newIds|]).Crash? && |filler| >= MIN_ID_LENGTH
    requires forall j :: 0 <= j < |newIds| ==> |newIds[j]| >= MIN_ID_LENGTH
    requires AllUnused(reg, ctx, items[..|newIds|], newIds)
    requires !RegisterAll(reg, ctx, items[..|newIds|], newIds).crashed
    ensures |all| == |items| && forall j :: 0 <= j < |all| ==> |all[j]| >= MIN_ID_LENGTH
    ensures RegisterAll(reg, ctx, items, all) == RegisterAll(reg, ctx, items[..|newIds|], newIds).(crashed := true)
    ensures AllUnused(reg, ctx, items, all) && !AllReadable(items)
  {
    hide RegisterItem, IssuesUnused, Readable, ParseSource;
    var n := |newIds|;
    CrashIff(ctx.peer, items[n]);
    all := newIds + seq(|items| - n, _ => filler);
    assert items[..n + 1][..n] == items[..n] && all[..n + 1][..n] == newIds;
    var before := RegisterAll(reg, ctx, items[..n], newIds);
    CrashIssuesNone(before.reg, ctx, items[n], filler);
    assert RegisterAll(reg, ctx, items[..n + 1], all[..n + 1]) == before.(crashed := true);
    NothingAfterEnd(reg, ctx, items, all, n + 1);
  }

  /** What follows the item that has ended the process changes nothing. */
  lemma {:induction false} NothingAfterEnd(reg: Table, ctx: Context, items: seq<Json>, newIds: seq<string>, n: nat)
    requires |items| == |newIds| && n <= |items|
    requires RegisterAll(reg, ctx, items[..n], newIds[..n]).crashed && AllUnused(reg, ctx, items[..n], newIds[..n])
    ensures RegisterAll(reg, ctx, items, newIds) == RegisterAll(reg, ctx, items[..n], newIds[..n])
    ensures AllUnused(reg, ctx, items, newIds)
    decreases |items|
  {
    hide RegisterItem, IssuesUnused, ParseSource;
    if n == |items| {
      assert items[..n] == items && newIds[..n] == newIds;
    } else {
      var m := |items| - 1;
      assert items[..m][..n] == items[..n] && newIds[..m][..n] == newIds[..n];
      NothingAfterEnd(reg, ctx, items[..m], newIds[..m], n);
    }
  }

  lemma CrashIssuesNone(reg: Table, ctx: Context, item: Json, newId: string)
    requires ParseSource(ctx.peer, item).Crash?
    ensures IssuesUnused(reg, ctx, item, newId)
  {}

  /** op_unregister_content */
  method OpUnregisterContent(node: Node, peer: Peer, params: seq<Json>) returns (response: seq<Json>)
    requires node.Valid()
    modifies node`sourcesById, node`sourcesByPeer
    ensures node.Valid() && node.sourcesById.Values <= old(node.sourcesById.Values)
    ensures Batch(node.Contents(), response, false) == UnregisterAll(old(node.Contents()), peer, params)
  {
    hide Agree, Unregister;
    response := [];
    for i := 0 to |params|
      invariant node.Valid() && node.sourcesById.Values <= old(node.sourcesById.Values)
      invariant Batch(node.Contents(), response, false) == UnregisterAll(old(node.Contents()), peer, params[..i])
    {
      assert params[..i + 1][..i] == params[..i];
      var target := ParseTarget(params[i]);
      if target.Target? {
        // the answer does not tell whether anything was unregistered
        var _ := node.UnregisterSource(peer, target.id);
        response := response + [Obj(map["result" := Bool(true)])];
      } else {
        response := response + [ErrorEntry(target.msg)];
      }
    }
    assert params[..|params|] == params;
  }

  // ----- the client's side -------------------------------------------------------------

  /** The records of the sources after the first entries have been stored, one after the other. */
  ghost function StoreAll(recs: map<Source, SourceRec>, sources: seq<Source>, entries: seq<Json>)
    : (after: map<Source, SourceRec>)
    requires |sources| == |entries| && forall i :: 0 <= i < |sources| ==> sources[i] in recs
    ensures after.Keys == recs.Keys
    decreases |sources|
  {
    if sources == [] then recs
    else
      var n := |sources| - 1;
      var before := StoreAll(recs, sources[..n], entries[..n]);
      before[sources[n] := Stored(before[sources[n]], entries[n])]
  }

  /** Entry i goes to source i: with distinct sources, each record depends on its own entry only. */
  lemma {:induction false} EntriesPair(recs: map<Source, SourceRec>, sources: seq<Source>, entries: seq<Json>,
                                       s: Source)
    requires |sources| == |entries| && forall i :: 0 <= i < |sources| ==> sources[i] in recs
    requires forall i, j :: 0 <= i < j < |sources| ==> sources[i] != sources[j]
    requires s in recs
    ensures var after := StoreAll(recs, sources, entries);
            && (s !in sources ==> after[s] == recs[s])
            && (forall i :: 0 <= i < |sources| && sources[i] == s ==> after[s] == Stored(recs[s], entries[i]))
    decreases |sources|
  {
    if sources != [] {
      var n := |sources| - 1;
      EntriesPair(recs, sources[..n], entries[..n], s);
      assert s in sources[..n] ==> s in sources;
      assert forall i :: 0 <= i < n ==> sources[..n][i] == sources[i];
    }
  }

  /**
    rpc_on_register_sources: the response is walked together with the list of sources. The
    client stops if there are no sources, or not as many as entries.
   */
  method OnRegisterSources(sources: seq<Source>, response: seq<Json>) returns (crashed: bool)
    modifies sources
    ensures crashed <==> sources == [] || |response| != |sources|
    ensures crashed ==> forall s :: s in sources ==> s.Rec() == old(s.Rec())
    ensures var recs := old(map s | s in sources :: s.Rec());
            !crashed ==> forall s :: s in sources ==> s.Rec() == StoreAll(recs, sources, response)[s]
  {
    if sources == [] || |response| != |sources| {
      return true;
    }
    crashed := false;
    ghost var recs := map s | s in sources :: s.Rec();
    for i := 0 to |response|
      invariant forall s :: s in sources ==> s.Rec() == StoreAll(recs, sources[..i], response[..i])[s]
    {
      assert sources[..i + 1][..i] == sources[..i] && response[..i + 1][..i] == response[..i];
      StoreEntry(sources[i], response[i]);
    }
    assert sources[..|sources|] == sources && response[..|response|] == response;
  }

  /** One entry of the response, for one source. */
  method StoreEntry(source: Source, entry: Json)
    modifies source
    ensures source.Rec() == Stored(old(source.Rec()), entry)
  {
    var obj := MembersOf(entry);
    if "error" !in obj || obj["error"].Null? {
      var id, signature := TextMember(obj, "id"), TextMember(obj, "signature");
      if id.Some? {
        source.SetId(id.value);
      }
      if signature.Some? {
        source.SetSignature(signature.value);
      }
    } else {
      source.TakeError(StringOf(obj["error"]));
    }
  }

  // ----- the whole exchange ------------------------------------------------------------

  ghost function RecsOf(sources: seq<Source>): (recs: seq<SourceRec>)
    reads sources
    ensures |recs| == |sources|
  {
    seq(|sources|, i requires 0 <= i < |sources| reads sources => sources[i].Rec())
  }

  /** The client's end of an exchange with a node that shares none of the client's objects. */
  method StoreResponse(node: Node, sources: seq<Source>, response: seq<Json>)
    requires node.Valid() && sources != [] && |response| == |sources|
    requires forall i, j :: 0 <= i < j < |sources| ==> sources[i] != sources[j]
    requires forall s :: s in sources ==> s !in node.sourcesById.Values
    modifies sources
    ensures node.Valid() && node.Contents() == old(node.Contents())
    ensures forall i :: 0 <= i < |sources| ==> sources[i].Rec() == Stored(old(sources[i].Rec()), response[i])
  {
    hide Agree, Stored;
    ghost var before := map s | s in sources :: s.Rec();
    var crashed := OnRegisterSources(sources, response);
    forall i | 0 <= i < |sources|
      ensures sources[i].Rec() == Stored(before[sources[i]], response[i])
    {
      EntriesPair(before, sources, response, sources[i]);
    }
    assert node.Contents() == old(node.Contents());
  }

  /**
    A client prints its sources, a node answers, and the client stores the answers: nobody
    stops, and each source ends up either with an error or signed by the node, so that it can be
    claimed back.
   */
  method RegisterSources(node: Node, peer: Peer, sources: seq<Source>) returns (ghost newIds: seq<string>)
    requires node.Valid() && sources != []
    requires forall i, j :: 0 <= i < j < |sources| ==> sources[i] != sources[j]
    requires forall s :: s in sources ==> s !in node.sourcesById.Values && Representable(s.Rec())
    modifies node`sourcesById, node`sourcesByPeer, node.sourcesById.Values, sources
    ensures node.Valid() && |newIds| == |sources|
    ensures AllUnused(old(node.Contents()), Context(node.hmac, node.key, peer), Printed(old(RecsOf(sources))), newIds)
    ensures var b := RegisterAll(old(node.Contents()), Context(node.hmac, node.key, peer),
                                 Printed(old(RecsOf(sources))), newIds);
            && node.Contents() == b.reg && !b.crashed
            && forall i :: 0 <= i < |sources| ==>
                 && sources[i].Rec() == Stored(old(sources[i].Rec()), b.entries[i])
                 && (if HasNoError(b.entries[i]) then Claimable(Context(node.hmac, node.key, peer), sources[i].Rec())
                     else sources[i].error.Some?)
  {
    hide Agree, RegisterAll, Stored, Readable, AllUnused, Claimable, HasNoError;
    ghost var reg, recs, ctx := node.Contents(), RecsOf(sources), Context(node.hmac, node.key, peer);
    var params := PrintSources(sources);
    assert params == Printed(recs);
    PrintedReadable(peer, recs);
    var response;
    response, newIds := OpRegisterContent(node, peer, params);
    StoreResponse(node, sources, response.value);
    forall i | 0 <= i < |sources|
      ensures if HasNoError(response.value[i]) then Claimable(ctx, sources[i].Rec()) else sources[i].error.Some?
    {
      EndsSignedOrRefused(reg, ctx, recs, newIds, i);
    }
  }

  lemma EndsSignedOrRefused(reg: Table, ctx: Context, recs: seq<SourceRec>, newIds: seq<string>, i: nat)
    requires AllRepresentable(recs) && |recs| == |newIds| && i < |recs| && |newIds[i]| >= MIN_ID_LENGTH
    ensures var b := RegisterAll(reg, ctx, Printed(recs), newIds);
            && !b.crashed
            && if HasNoError(b.entries[i]) then Claimable(ctx, Stored(recs[i], b.entries[i]))
               else Stored(recs[i], b.entries[i]).error.Some?
  {
    hide RegisterAll, Claimable;
    BatchMakesClaimable(reg, ctx, recs, newIds, i);
  }
}
