/**
  The messages of the protocol as values: how sources and push requests are printed and
  parsed, and what the entries of a response look like.
 */
module Wire {
  import opened Common
  import opened Words
  import opened Json
  import opened Sources
  import opened ByteRanges

  // ----- sources -----------------------------------------------------------------------

  /** What comes of an item: a source, an error, or the end of the process. */
  datatype Parse = Parsed(rec: SourceRec) | Rejected(msg: string) | Crash

  const NOT_AN_OBJECT := "Method register expects an array of objects"
  const BAD_NAME := "Source object expects a 'name' member to be a string"
  const BAD_TYPE := "Source object expects a 'type' member to be a string"
  const BAD_SIZE := "Source object expects a 'size' member to be a number"
  const NEGATIVE_SIZE := "Source size must be equal or greater than zero"
  const BAD_FLAGS := "Source object expects a 'flags' member to be a number"
  const NEGATIVE_FLAGS := "Source flags must be equal or greater than zero"
  const BAD_TAGS := "Source tags must be an array"

  /** A tag that is kept. */
  predicate ValidTag(j: Json) {
    j.Str? && j.s != ""
  }

  /** The tags that are read: a NULL-terminated vector ends at the first invalid tag. */
  function ValidTags(items: seq<Json>): seq<string> {
    if items == [] || !ValidTag(items[0]) then [] else [items[0].s] + ValidTags(items[1..])
  }

  /**
    A name or type that is looked at is not a number or a boolean: its length is taken
    without asking whether there is a string.
   */
  predicate Readable(item: Json) {
    item.Obj? ==>
      && (HasValue(item.members, "name") ==> item.members["name"].Str?)
      && (HasText(item.members, "name") && HasValue(item.members, "type") ==> item.members["type"].Str?)
  }

  /** The claimed identifier and signature, which only count together. */
  function WithClaim(r: SourceRec, m: map<string, Json>): SourceRec {
    if "id" in m && "signature" in m && m["id"].Str? && m["signature"].Str? then
      WithId(r, m["id"].s).(signature := Some(m["signature"].s))
    else r
  }

  /** Member `key` is a value without a string, whose length is taken all the same. */
  predicate NullText(m: map<string, Json>, key: string) {
    HasValue(m, key) && !m[key].Str?
  }

  /** One item of a register call. */
  function ParseSource(peer: Peer, item: Json): Parse {
    if !item.Obj? then Rejected(NOT_AN_OBJECT)
    else
      var m := item.members;
      if NullText(m, "name") then Crash
      else if !HasText(m, "name") then Rejected(BAD_NAME)
      else if NullText(m, "type") then Crash
      else if !HasText(m, "type") then Rejected(BAD_TYPE)
      else if "size" in m && !HoldsValue(m["size"]) then Rejected(BAD_SIZE)
      else if "size" in m && IntOf(m["size"]) < 0 then Rejected(NEGATIVE_SIZE)
      else if !HasValue(m, "flags") then Rejected(BAD_FLAGS)
      else if IntOf(m["flags"]) < 0 then Rejected(NEGATIVE_FLAGS)
      else if "tags" in m && !m["tags"].Arr? then Rejected(BAD_TAGS)
      else
        var size := if "size" in m then ToUnsigned(IntOf(m["size"])) else 0;
        var tags := if "tags" in m then Some(ValidTags(m["tags"].items)) else None;
        Parsed(WithClaim(SourceRec(None, None, Some(peer), IntOf(m["flags"]) % TWO_32,
                                   m["name"].s, m["type"].s, size, tags, None), m))
  }

  /** The process ends exactly if a name or type is looked at that is a number or a boolean. */
  lemma CrashIff(peer: Peer, item: Json)
    ensures ParseSource(peer, item).Crash? <==> !Readable(item)
  {}

  // ----- which items are taken, and what is made of them -------------------------------

  /** Member `key` is there and is a string with something in it. */
  predicate Texted(m: map<string, Json>, key: string) {
    key in m && m[key].Str? && m[key].s != ""
  }

  /** Member `key` is a value that does not read as a negative number. */
  predicate Counted(m: map<string, Json>, key: string) {
    key in m && HoldsValue(m[key]) && IntOf(m[key]) >= 0
  }

  /** Nothing is wrong with the members of an item. */
  predicate Faultless(m: map<string, Json>) {
    && Texted(m, "name") && Texted(m, "type")
    && ("size" in m ==> Counted(m, "size"))
    && Counted(m, "flags")
    && ("tags" in m ==> m["tags"].Arr?)
  }

  /** An item is taken if and only if it is an object with nothing wrong. */
  lemma ParsedIff(peer: Peer, item: Json)
    ensures ParseSource(peer, item).Parsed? <==> item.Obj? && Faultless(item.members)
  {}

  /** Every field of the source that is made of an item, from the members of the item. */
  lemma ParsedFields(peer: Peer, item: Json)
    requires item.Obj? && Faultless(item.members)
    ensures var m, r := item.members, ParseSource(peer, item).rec;
            && r.name == m["name"].s && r.ctype == m["type"].s
            && r.peer == Some(peer) && r.error == None
            && r.flags == IntOf(m["flags"]) % 0x1_0000_0000
            && r.size == (if "size" in m then IntOf(m["size"]) % 0x1_0000_0000_0000_0000 else 0)
            && (r.tags.Some? <==> "tags" in m)
            && if "id" in m && m["id"].Str? && "signature" in m && m["signature"].Str? then
                 && r.signature == Some(m["signature"].s)
                 && r.id == (if |m["id"].s| > 6 then Some(m["id"].s) else None)
               else r.id == None && r.signature == None
  {}

  /** The tags are those before the first item that is not a string with something in it. */
  lemma ParsedTags(peer: Peer, item: Json)
    requires item.Obj? && Faultless(item.members) && "tags" in item.members
    ensures var items, tags := item.members["tags"].items, ParseSource(peer, item).rec.tags.value;
            && |tags| <= |items|
            && (forall i :: 0 <= i < |tags| ==> items[i] == Str(tags[i]) && tags[i] != "")
            && (|tags| < |items| ==> !items[|tags|].Str? || items[|tags|].s == "")
  {
    TagsBeforeFirstInvalid(item.members["tags"].items);
  }

  lemma {:induction false} TagsBeforeFirstInvalid(items: seq<Json>)
    ensures var tags := ValidTags(items);
            && |tags| <= |items|
            && (forall i :: 0 <= i < |tags| ==> items[i] == Str(tags[i]) && tags[i] != "")
            && (|tags| < |items| ==> !items[|tags|].Str? || items[|tags|].s == "")
  {
    if items != [] && ValidTag(items[0]) {
      TagsBeforeFirstInvalid(items[1..]);
      var tags := ValidTags(items);
      assert forall i :: 1 <= i < |tags| ==> tags[i] == ValidTags(items[1..])[i - 1] && items[i] == items[1..][i - 1];
    }
  }

  /** The message that goes with the first fault of an item that does not end the process. */
  lemma FirstFault(peer: Peer, item: Json)
    requires Readable(item) && !(item.Obj? && Faultless(item.members))
    ensures ParseSource(peer, item).Rejected?
    ensures ParseSource(peer, item).msg ==
            if !item.Obj? then "Method register expects an array of objects"
            else
              var m := item.members;
              if !Texted(m, "name") then "Source object expects a 'name' member to be a string"
              else if !Texted(m, "type") then "Source object expects a 'type' member to be a string"
              else if "size" in m && !HoldsValue(m["size"]) then
                "Source object expects a 'size' member to be a number"
              else if "size" in m && !Counted(m, "size") then "Source size must be equal or greater than zero"
              else if "flags" !in m || !HoldsValue(m["flags"]) then
                "Source object expects a 'flags' member to be a number"
              else if !Counted(m, "flags") then "Source flags must be equal or greater than zero"
              else "Source tags must be an array"
  {}

  /** Whatever the item looks like, a source that is made from it is well-formed and owned by the peer. */
  lemma ParsedIsWellFormed(peer: Peer, item: Json)
    requires ParseSource(peer, item).Parsed?
    ensures var r := ParseSource(peer, item).rec;
            && Representable(r) && r.peer == Some(peer) && r.error.None?
            && r.name != "" && r.ctype != ""
            && (r.id.Some? ==> |r.id.value| >= MIN_ID_LENGTH && r.signature.Some?)
            && TagsComplete(r)
  {
    if "tags" in item.members {
      ValidTagsNotEmpty(item.members["tags"].items);
    }
  }

  lemma {:induction false} ValidTagsNotEmpty(items: seq<Json>)
    ensures forall i :: 0 <= i < |ValidTags(items)| ==> ValidTags(items)[i] != ""
  {
    if items != [] && ValidTag(items[0]) {
      ValidTagsNotEmpty(items[1..]);
    }
  }

  function TagList(tags: seq<string>): seq<Json> {
    seq(|tags|, i requires 0 <= i < |tags| => Str(tags[i]))
  }

  /** A source as it is printed; the size is written as a signed number. */
  function SourceMembers(r: SourceRec): map<string, Json> {
    var m := map["name" := Str(r.name), "type" := Str(r.ctype),
                 "size" := Int(ToSigned(r.size)), "flags" := Int(r.flags)];
    var m1 := if r.id.Some? then m["id" := Str(r.id.value)] else m;
    var m2 := if r.signature.Some? then m1["signature" := Str(r.signature.value)] else m1;
    if r.tags.Some? then m2["tags" := Arr(TagList(r.tags.value))] else m2
  }

  function SourceJson(r: SourceRec): Json {
    Obj(SourceMembers(r))
  }

  lemma {:induction false} TagsSurvive(tags: seq<string>)
    ensures ValidTags(TagList(tags)) == tags <==> forall i :: 0 <= i < |tags| ==> tags[i] != ""
  {
    if tags != [] {
      assert TagList(tags)[1..] == TagList(tags[1..]);
      TagsSurvive(tags[1..]);
      if tags[0] != "" {
        assert ValidTags(TagList(tags)) == [tags[0]] + ValidTags(TagList(tags[1..]));
        assert [tags[0]] + tags[1..] == tags;
        assert forall i :: 1 <= i < |tags| ==> tags[i] == tags[1..][i - 1];
      }
    }
  }

  /** What a server needs to accept the description of a source. */
  predicate Sendable(r: SourceRec) {
    r.name != "" && r.ctype != "" && r.size < TWO_63
  }

  /** An identifier that can be claimed comes with a signature, and a signature with an identifier. */
  predicate ClaimComplete(r: SourceRec) {
    && (r.id.Some? <==> r.signature.Some?)
    && (r.id.Some? ==> |r.id.value| >= MIN_ID_LENGTH)
  }

  predicate TagsComplete(r: SourceRec) {
    r.tags.Some? ==> forall i :: 0 <= i < |r.tags.value| ==> r.tags.value[i] != ""
  }

  /** The members of a printed source, one by one. */
  lemma PrintedMembers(r: SourceRec)
    ensures var m := SourceMembers(r);
            && "name" in m && m["name"] == Str(r.name) && "type" in m && m["type"] == Str(r.ctype)
            && "size" in m && m["size"] == Int(ToSigned(r.size)) && "flags" in m && m["flags"] == Int(r.flags)
            && ("id" in m <==> r.id.Some?) && (r.id.Some? ==> m["id"] == Str(r.id.value))
            && ("signature" in m <==> r.signature.Some?)
            && (r.signature.Some? ==> m["signature"] == Str(r.signature.value))
            && ("tags" in m <==> r.tags.Some?) && (r.tags.Some? ==> m["tags"] == Arr(TagList(r.tags.value)))
            && m.Keys <= {"name", "type", "size", "flags", "id", "signature", "tags"}
  {}

  /** What the server makes of a printed source. */
  lemma ParsePrinted(peer: Peer, r: SourceRec)
    requires Representable(r)
    ensures !Sendable(r) ==> ParseSource(peer, SourceJson(r)).Rejected?
    ensures Readable(SourceJson(r))
    ensures Sendable(r) ==>
              var tags := if r.tags.Some? then Some(ValidTags(TagList(r.tags.value))) else None;
              var plain := SourceRec(None, None, Some(peer), r.flags, r.name, r.ctype, r.size, tags, None);
              ParseSource(peer, SourceJson(r)) ==
                Parsed(if r.id.Some? && r.signature.Some?
                       then WithId(plain, r.id.value).(signature := r.signature) else plain)
  {
    hide SourceMembers, TagList, ValidTags;
    PrintedMembers(r);
  }

  /**
    Round trip: parsing the printed source restores it, owned by the peer that sent it, if and
    only if it has a name and a type, its size is below 2^63, no tag is empty, and it has both
    an acceptable identifier and a signature, or neither.
   */
  lemma SourceRoundTrip(peer: Peer, r: SourceRec)
    requires Representable(r)
    ensures ParseSource(peer, SourceJson(r)) == Parsed(r.(peer := Some(peer), error := None))
            <==> Sendable(r) && ClaimComplete(r) && TagsComplete(r)
  {
    ParsePrinted(peer, r);
    if r.tags.Some? {
      TagsSurvive(r.tags.value);
    }
  }

  // ----- entries of a response ---------------------------------------------------------

  function RegisteredEntry(id: string, signature: string): Json {
    Obj(map["error" := Null, "id" := Str(id), "signature" := Str(signature)])
  }

  function ErrorEntry(msg: string): Json {
    Obj(map["error" := Str(msg)])
  }

  predicate IsEntry(j: Json) {
    j.Obj? && "error" in j.members &&
    if j.members["error"].Null? then HasValue(j.members, "id") && j.members["id"].Str?
                                     && HasValue(j.members, "signature") && j.members["signature"].Str?
    else j.members["error"].Str?
  }

  /** The members of an object; anything else reads as having none. */
  function MembersOf(j: Json): map<string, Json> {
    if j.Obj? then j.members else map[]
  }

  /** The string that is member `key`, or NULL. */
  function TextMember(m: map<string, Json>, key: string): Option<string> {
    if key in m then StringOf(m[key]) else None
  }

  /**
    What the client does with the entry for one of its sources, whatever it looks like: a missing
    error counts as none, and an identifier or signature that is not a string is not stored.
   */
  function Stored(r: SourceRec, entry: Json): SourceRec {
    var m := MembersOf(entry);
    if "error" !in m || m["error"].Null? then
      var id, signature := TextMember(m, "id"), TextMember(m, "signature");
      var r1 := if id.Some? then WithId(r, id.value) else r;
      if signature.Some? then r1.(signature := signature) else r1
    else
      r.(error := TextMember(m, "error"))
  }

  /** An entry as a server sends it: the error, or the identifier and the signature, are taken over. */
  lemma StoredEntry(r: SourceRec, entry: Json)
    requires IsEntry(entry)
    ensures Stored(r, entry) ==
            if entry.members["error"].Null? then
              WithId(r, entry.members["id"].s).(signature := Some(entry.members["signature"].s))
            else
              r.(error := Some(entry.members["error"].s))
  {}

  /** Any entry: without an error, each string that is there is taken over; with one, only the error is. */
  lemma StoredAny(r: SourceRec, entry: Json)
    ensures var m, q := if entry.Obj? then entry.members else map[], Stored(r, entry);
            && q.(id := r.id, signature := r.signature, error := r.error) == r
            && if "error" !in m || m["error"] == Null then
                 && q.error == r.error
                 && q.id == (if "id" in m && m["id"].Str? && |m["id"].s| > 6 then Some(m["id"].s) else r.id)
                 && q.signature == (if "signature" in m && m["signature"].Str? then Some(m["signature"].s)
                                    else r.signature)
               else
                 && q.id == r.id && q.signature == r.signature
                 && q.error == (if m["error"].Str? then Some(m["error"].s) else None)
  {}

  // ----- unregistering -----------------------------------------------------------------

  const UNREGISTER_NOT_AN_OBJECT := "Method unregister expects an array of objects"
  const UNREGISTER_NO_ID := "Unregister expects an array of source id strings"
  const UNREGISTER_BAD_ID := "Source id must be a valid string"
  const UNREGISTER_BAD_FORCE := "Argument 'force' must be boolean"

  datatype Target = Target(id: string, gracefully: bool) | BadTarget(msg: string)

  function ParseTarget(item: Json): Target {
    if !item.Obj? then BadTarget(UNREGISTER_NOT_AN_OBJECT)
    else
      var m := item.members;
      if !HasValue(m, "id") then BadTarget(UNREGISTER_NO_ID)
      else if !HasText(m, "id") then BadTarget(UNREGISTER_BAD_ID)
      else if "force" in m && !HoldsValue(m["force"]) then BadTarget(UNREGISTER_BAD_FORCE)
      else Target(m["id"].s, "force" in m && !BoolOf(m["force"]))
  }

  function UnregisteredEntry(t: Target): Json {
    if t.Target? then Obj(map["result" := Bool(true)]) else ErrorEntry(t.msg)
  }

  /** Nothing is wrong with an item of an unregister call. */
  predicate NamesSource(item: Json) {
    item.Obj? && Texted(item.members, "id") && ("force" in item.members ==> HoldsValue(item.members["force"]))
  }

  /**
    What is made of an item of an unregister call: the identifier that it names, to be given up
    gracefully if `force` is there and false, or the message of its first fault.
   */
  lemma TargetIs(item: Json)
    ensures ParseTarget(item).Target? <==> NamesSource(item)
    ensures NamesSource(item) ==>
              && ParseTarget(item).id == item.members["id"].s
              && (ParseTarget(item).gracefully <==> "force" in item.members && !BoolOf(item.members["force"]))
    ensures !NamesSource(item) ==>
              ParseTarget(item).msg ==
              if !item.Obj? then "Method unregister expects an array of objects"
              else if "id" !in item.members || !HoldsValue(item.members["id"]) then
                "Unregister expects an array of source id strings"
              else if !Texted(item.members, "id") then "Source id must be a valid string"
              else "Argument 'force' must be boolean"
  {}

  // ----- push requests -----------------------------------------------------------------

  const PUSH_NOT_AN_ARRAY := "Push Request operation expects an array argument"
  const PUSH_TOO_SHORT := "Push Request operation expects an array of at least 2 elements"
  const PUSH_BAD_ID := "First argument of Push Request operation must be a source id string"

  /** The range is there if the transfer is chunked. */
  datatype PushRequest = PushRequest(sourceId: string, transferId: string, range: Option<ByteRange>)

  datatype PushParse = Push(request: PushRequest) | PushError(msg: string)

  function PushJson(p: PushRequest): Json {
    Arr([Str(p.sourceId), Str(p.transferId)] +
        if p.range.Some? then [Int(p.range.value.start), Int(p.range.value.end)] else [])
  }

  function ParsePush(params: Json): PushParse {
    if !params.Arr? then PushError(PUSH_NOT_AN_ARRAY)
    else
      var args := params.items;
      if |args| < 2 then PushError(PUSH_TOO_SHORT)
      else if !args[0].Str? || !args[1].Str? then PushError(PUSH_BAD_ID)
      else
        var range :=
          if |args| > 2 then Some(ByteRange(IntOf(args[2]), if |args| > 3 then IntOf(args[3]) else -1)) else None;
        Push(PushRequest(args[0].s, args[1].s, range))
  }

  /** A push request arrives as it was sent. */
  lemma PushRoundTrip(p: PushRequest)
    ensures ParsePush(PushJson(p)) == Push(p)
  {}

  /** Push requests that parse to the same request and were printed by a node are the same message. */
  lemma PushParseUnique(params: Json, p: PushRequest)
    requires ParsePush(params) == Push(p)
    requires |params.items| in {2, 4} && (|params.items| == 4 ==> params.items[2].Int? && params.items[3].Int?)
    ensures params == PushJson(p)
  {
    assert params.items == PushJson(p).items;
  }

  /** What is made of the parameters of a push request, or which message goes with their first fault. */
  lemma PushParsedAs(params: Json)
    ensures ParsePush(params).Push? <==>
            params.Arr? && |params.items| >= 2 && params.items[0].Str? && params.items[1].Str?
    ensures ParsePush(params).Push? ==>
              var args, p := params.items, ParsePush(params).request;
              && p.sourceId == args[0].s && p.transferId == args[1].s
              && (p.range.Some? <==> |args| >= 3)
              && (|args| >= 3 ==> p.range.value.start == IntOf(args[2]))
              && (|args| == 3 ==> p.range.value.end == -1)
              && (|args| >= 4 ==> p.range.value.end == IntOf(args[3]))
    ensures ParsePush(params).PushError? ==>
              ParsePush(params).msg ==
              if !params.Arr? then "Push Request operation expects an array argument"
              else if |params.items| < 2 then "Push Request operation expects an array of at least 2 elements"
              else "First argument of Push Request operation must be a source id string"
  {}

  /** What a push request looks like when it is sent. */
  lemma PushPrintedAs(p: PushRequest)
    ensures PushJson(p).Arr?
    ensures var args := PushJson(p).items;
            && |args| == (if p.range.Some? then 4 else 2)
            && args[0] == Str(p.sourceId) && args[1] == Str(p.transferId)
            && (p.range.Some? ==> args[2] == Int(p.range.value.start) && args[3] == Int(p.range.value.end))
  {}
}
