/**
  The seeder's side of a push as a state machine: a second block loop, with its own block
  size and its own count of what is left. `Step` specifies class Seeders.PushRequest.
 */
module SeederSpec {
  import opened Common
  import opened Words

  const BLOCK_SIZE: nat := 4096

  datatype State = State(
    // the file as it is, and the size its source was registered with
    file: seq<Byte>,
    size: nat,
    // fields of the push request
    totalSent: nat,
    keepAlive: bool,
    connOpen: bool,
    // the callbacks that are due, how often the request was freed, and a failed assertion
    readsDue: nat,
    hooksDue: nat,
    answersDue: nat,
    frees: nat,
    crashed: bool,
    // what was written to the connection, and whether the last block was marked as such
    sent: seq<Byte>,
    closed: bool
  )

  datatype BlockResult =
    | BlockError
    | Block(n: nat, writeOk: bool, writable: bool)

  datatype Event =
    | ConnWritable(writable: bool)
    | BlockRead(outcome: BlockResult)
    | Response(ok: bool)
    | ConnClose

  /** The file is open and the first block is asked for. */
  function Initial(file: seq<Byte>, size: nat, writable: bool): State {
    ReadBlock(State(file, size, 0, false, true, 0, 0, 0, 0, false, [], false), writable)
  }

  function ReadBlock(s: State, writable: bool): State {
    if writable then s.(readsDue := s.readsDue + 1) else s.(hooksDue := s.hooksDue + 1)
  }

  function Free(s: State): State {
    s.(frees := s.frees + 1, connOpen := s.connOpen && s.keepAlive)
  }

  function BytesLeft(s: State): nat {
    ToUnsigned(s.size - s.totalSent)
  }

  function WritableStep(s: State, writable: bool): State {
    if s.hooksDue == 0 then s else ReadBlock(s.(hooksDue := s.hooksDue - 1), writable)
  }

  /** A read returns between one and BLOCK_SIZE octets of the file, and none only at its end. */
  predicate BlockAllowed(s: State, outcome: BlockResult) {
    && s.readsDue > 0
    && s.totalSent <= |s.file|
    && (outcome.Block? ==>
          && outcome.n <= BLOCK_SIZE && s.totalSent + outcome.n <= |s.file|
          && (outcome.n == 0 ==> s.totalSent == |s.file|))
  }

  /** A block has been read and counted. */
  function Counted(s: State, n: nat): State
    requires s.readsDue > 0
  {
    s.(readsDue := s.readsDue - 1, totalSent := s.totalSent + n)
  }

  function BlockStep(s: State, outcome: BlockResult): State {
    if !BlockAllowed(s, outcome) then s
    else if !s.connOpen || outcome.BlockError? then Free(s.(readsDue := s.readsDue - 1))
    else if outcome.n == 0 then s.(readsDue := s.readsDue - 1, crashed := true)
    else
      var t := Counted(s, outcome.n);
      if !outcome.writeOk then Free(t)
      else
        var u := t.(sent := t.sent + s.file[s.totalSent..t.totalSent], closed := BytesLeft(t) == 0);
        if BytesLeft(t) > 0 then ReadBlock(u, outcome.writable) else u.(answersDue := u.answersDue + 1)
  }

  function ResponseStep(s: State, ok: bool): State {
    if s.answersDue == 0 then s
    else Free(s.(answersDue := s.answersDue - 1, keepAlive := s.keepAlive || ok))
  }

  function Step(s: State, e: Event): State {
    if s.crashed then s
    else
      match e
      case ConnWritable(writable) => WritableStep(s, writable)
      case BlockRead(outcome) => BlockStep(s, outcome)
      case Response(ok) => ResponseStep(s, ok)
      case ConnClose => s.(connOpen := false)
  }

  function Run(s: State, es: seq<Event>): State
    decreases |es|
  {
    if es == [] then s else Run(Step(s, es[0]), es[1..])
  }
}
