/**
  The life of one transfer as a state machine: its own fields, what the main loop and the
  connections hold on its behalf, and the octets that have gone through it. `Step` is the
  specification of the callbacks of class Transfers.Transfer.
 */
module TransferSpec {
  import opened Common
  import opened Words
  import opened ByteRanges

  const BLOCK_SIZE: nat := 0x4000

  /** Identity of an HTTP connection of a seeder. */
  type Conn = nat

  datatype Status =
    NotStarted | Active | Paused | Completed | SourceAborted | TargetAborted | Error

  datatype Failure = Dropped | ReadFailed | WriteFailed | TimedOut | Cancelled

  /** What the asynchronous result says when it is finished. */
  datatype Outcome = Success | Failed(why: Failure)

  /** What the creator of a transfer fixes. */
  datatype Config = Config(size: nat, chunked: bool, range: ByteRange)

  datatype State = State(
    // fields of the transfer
    cfg: Config,
    status: Status,
    sourceConn: Option<Conn>,
    range: ByteRange,
    transferLen: nat,
    transferred: nat,
    result: Option<Outcome>,
    timeoutArmed: bool,
    refs: int,
    // handlers, pending operations and scheduled completions
    targetCloseHook: bool,
    sourceCloseHooks: set<Conn>,
    writeHook: bool,
    pendingReads: map<Conn, nat>,
    pendingFlushes: nat,
    scheduled: seq<Outcome>,
    inTable: bool,
    delivered: seq<Outcome>,
    targetClosed: bool,
    closedConns: set<Conn>,
    crashed: bool,
    // the octets: everything read from the source, everything written to the target
    consumed: seq<Byte>,
    body: seq<Byte>,
    // how many non-empty blocks were written, flushes begun and pushes accepted
    blocks: nat,
    flushes: nat,
    pushes: nat
  )

  datatype ReadResult =
    | ReadError
    | Data(bytes: seq<Byte>, writeOk: bool, respondOk: bool, writable: bool)

  datatype Event =
    | Push(conn: Conn, headersOk: bool, writable: bool)
    | TargetWritable(writable: bool)
    | ReadDone(conn: Conn, outcome: ReadResult)
    | FlushDone
    | TargetClose
    | SourceClose(conn: Conn)
    | StartTimeout
    | Cancel
    | Idle

  /** A transfer as filetea_transfer_new leaves it, once stored in the table of transfers. */
  function Initial(cfg: Config): State {
    State(cfg, NotStarted, None, if cfg.chunked then Clamped(cfg.range) else ByteRange(0, 0),
          0, 0, Some(Success), true, 2,
          true, {}, false, map[], 0, [], true, [], false, {}, false,
          [], [], 0, 0, 0)
  }

  function Conns(s: State): set<Conn> {
    if s.sourceConn.Some? then {s.sourceConn.value} else {}
  }

  /** The object exists and the process has not been aborted. */
  predicate Alive(s: State) {
    s.refs > 0 && !s.crashed
  }

  /** The length a started transfer announces. */
  function AnnouncedLength(cfg: Config): nat {
    if cfg.chunked then Length(Normalised(Clamped(cfg.range), cfg.size)) else cfg.size
  }

  // ----- building blocks ---------------------------------------------------------------

  /** The pushes that have been accepted, and what the last one has measured, are the same. */
  predicate SameMeasure(s: State, t: State) {
    t.pushes == s.pushes && t.transferLen == s.transferLen && t.range == s.range
  }

  /** Nothing but counters, handlers and the result differs: the octets are the same. */
  predicate SameOctets(s: State, t: State) {
    && t.cfg == s.cfg && t.delivered == s.delivered && t.inTable == s.inTable
    && t.consumed == s.consumed && t.body == s.body
    && t.transferred == s.transferred && t.blocks == s.blocks
    && t.sourceConn == s.sourceConn && SameMeasure(s, t)
    && t.crashed == s.crashed
  }

  /** The outcome and the state of the target are the same. */
  predicate SameEnd(s: State, t: State) {
    && t.result == s.result && t.scheduled == s.scheduled
    && t.writeHook == s.writeHook && t.targetClosed == s.targetClosed
  }

  /** Reads are made, and chances to write awaited, only once there is a seeder's connection. */
  predicate Sourced(s: State) {
    s.writeHook || s.pendingReads != map[] ==> s.sourceConn.Some?
  }

  /** Histories only grow, and only the delivery of a completion empties a place in the table. */
  predicate Grows(s: State, t: State) {
    && (Sourced(s) ==> Sourced(t))
    && t.cfg == s.cfg
    && s.delivered <= t.delivered
    && s.consumed <= t.consumed
    && s.body <= t.body
    && s.pushes <= t.pushes
    && (t.inTable ==> s.inTable)
    && (s.inTable && !t.inTable ==> |t.delivered| > |s.delivered|)
  }

  /** Dropping the last reference disposes of the handlers and the timer. */
  function Unref(s: State): (t: State)
    ensures SameOctets(s, t)
    ensures t.pendingReads == s.pendingReads && SameEnd(s, t)
  {
    var t := s.(refs := s.refs - 1);
    if t.refs > 0 then t
    else t.(timeoutArmed := false, targetCloseHook := false,
            sourceCloseHooks := t.sourceCloseHooks - Conns(t))
  }

  /** Setting an error is ignored once the result has been handed over. */
  function SetError(s: State, why: Failure): (t: State)
    ensures SameOctets(s, t)
    ensures t.pendingReads == s.pendingReads
  {
    if s.result.Some? then s.(result := Some(Failed(why))) else s
  }

  /** Disconnect the handlers, close what an abort leaves open, and schedule the completion. */
  function Complete(s: State): (t: State)
    ensures SameOctets(s, t)
    ensures t.pendingReads == s.pendingReads
  {
    var abort := s.status != Completed;
    s.(targetCloseHook := false,
       sourceCloseHooks := s.sourceCloseHooks - Conns(s),
       closedConns := if abort then s.closedConns + Conns(s) else s.closedConns,
       targetClosed := s.targetClosed || abort,
       scheduled := if s.result.Some? then s.scheduled + [s.result.value] else s.scheduled,
       result := None)
  }

  /** Complete with an error. */
  function Fail(s: State, why: Failure, status: Status): (t: State)
    ensures SameOctets(s, t)
    ensures t.pendingReads == s.pendingReads
  {
    Complete(SetError(s, why).(status := status))
  }

  function FlushTarget(s: State): (t: State)
    ensures SameOctets(s, t)
    ensures t.pendingReads == s.pendingReads && SameEnd(s, t)
  {
    s.(targetCloseHook := false, refs := s.refs + 1,
       pendingFlushes := s.pendingFlushes + 1, flushes := s.flushes + 1)
  }

  /** How much the next read may ask for: the subtraction is made on unsigned values. */
  function ReadSize(s: State): nat {
    Min(BLOCK_SIZE, ToUnsigned(s.cfg.size - s.transferred))
  }

  function Read(s: State, writable: bool): (t: State)
    ensures SameOctets(s, t)
    ensures SameEnd(s, t) && (!writable ==> t == s)
  {
    if s.sourceConn.None? || s.sourceConn.value in s.pendingReads || !writable || ReadSize(s) == 0 then s
    else s.(pendingReads := s.pendingReads[s.sourceConn.value := ReadSize(s)], refs := s.refs + 1)
  }

  /** The seeder's connection becomes the source of the transfer. */
  function Connected(s: State, conn: Conn): State {
    s.(sourceConn := Some(conn), sourceCloseHooks := s.sourceCloseHooks + {conn}, pushes := s.pushes + 1)
  }

  /** The start timer is stopped and the length to announce is known. */
  function Measured(s: State): State {
    var range := if s.cfg.chunked then Normalised(s.range, s.cfg.size) else s.range;
    s.(timeoutArmed := false, range := range,
       transferLen := if s.cfg.chunked then Length(range) else s.cfg.size)
  }

  function Start(s: State, headersOk: bool, writable: bool): (t: State)
    ensures Grows(s, t) && t.consumed == s.consumed
  {
    if s.sourceConn.None? then s
    else if headersOk then Read(Measured(s).(writeHook := true, status := Active), writable)
    else Measured(s)
  }

  // ----- callbacks ---------------------------------------------------------------------

  function PushStep(s: State, conn: Conn, headersOk: bool, writable: bool): (t: State)
    ensures Grows(s, t) && t.consumed == s.consumed
  {
    if s.inTable then Start(Connected(s, conn), headersOk, writable) else s
  }

  function WritableStep(s: State, writable: bool): (t: State)
    ensures Grows(s, t) && t.consumed == s.consumed
  {
    if s.writeHook then Read(s, writable) else s
  }

  /** The pending read on `conn` has returned `bytes`. */
  function Received(s: State, conn: Conn, bytes: seq<Byte>): State {
    s.(pendingReads := s.pendingReads - {conn}, consumed := s.consumed + bytes)
  }

  /** A block has been written to the target. */
  function Written(s: State, bytes: seq<Byte>): State {
    s.(body := s.body + bytes, transferred := s.transferred + |bytes|,
       blocks := if bytes == [] then s.blocks else s.blocks + 1)
  }

  /** The last octet has been written: answer the seeder and flush. */
  function Finishing(s: State, respondOk: bool): (t: State)
    ensures SameOctets(s, t)
    ensures t.pendingReads == s.pendingReads && SameEnd(s, t)
  {
    FlushTarget(s.(sourceCloseHooks := s.sourceCloseHooks - Conns(s),
                   status := if respondOk then s.status else Error))
  }

  /** After a block: fail the assertion, finish, or read on. */
  function Forward(s: State, respondOk: bool, writable: bool): (t: State)
    ensures Grows(s, t) && t.consumed == s.consumed
    ensures SameEnd(s, t) && t.delivered == s.delivered && SameMeasure(s, t)
    ensures !writable ==> t.pendingReads == s.pendingReads
  {
    if s.transferred > s.transferLen then s.(crashed := true)
    else if s.transferred == s.transferLen then Unref(Finishing(s, respondOk))
    else Unref(Read(s, writable))
  }

  /** The callback of a read gives up. */
  function GiveUp(s: State, why: Failure): (t: State)
    ensures SameOctets(s, t) && (Sourced(s) ==> Sourced(t))
    ensures t.pendingReads == s.pendingReads
  {
    Unref(Fail(s, why, Error))
  }

  /** A read can only return what was asked for. */
  predicate ReadAllowed(s: State, conn: Conn, outcome: ReadResult) {
    conn in s.pendingReads && (outcome.Data? ==> |outcome.bytes| <= s.pendingReads[conn])
  }

  /** A block has been read; a closed connection takes no more octets. */
  function BlockStep(s: State, bytes: seq<Byte>, writeOk: bool, respondOk: bool, writable: bool): (t: State)
    ensures Grows(s, t) && t.consumed == s.consumed
  {
    if writeOk && !s.targetClosed then Forward(Written(s, bytes), respondOk, writable)
    else GiveUp(s, WriteFailed)
  }

  function ReadStep(s: State, conn: Conn, outcome: ReadResult): (t: State)
    ensures Grows(s, t)
    ensures t.consumed == s.consumed || (outcome.Data? && t.consumed == s.consumed + outcome.bytes)
  {
    if !ReadAllowed(s, conn, outcome) then s
    else
      match outcome
      case ReadError => GiveUp(Received(s, conn, []), ReadFailed)
      case Data(bytes, writeOk, respondOk, writable) =>
        BlockStep(Received(s, conn, bytes), bytes, writeOk, respondOk, writable)
  }

  /** The flush is over, whether it succeeded or not. */
  function Flushed(s: State): State
    requires s.pendingFlushes > 0
  {
    s.(pendingFlushes := s.pendingFlushes - 1, status := Completed, writeHook := false)
  }

  function FlushStep(s: State): (t: State)
    ensures Grows(s, t) && t.consumed == s.consumed
  {
    if s.pendingFlushes == 0 then s else Unref(Complete(Flushed(s)))
  }

  function TargetCloseStep(s: State): (t: State)
    ensures Grows(s, t) && t.consumed == s.consumed
  {
    var t := s.(targetClosed := true);
    if s.targetCloseHook then Fail(t, Dropped, TargetAborted) else t
  }

  function SourceCloseStep(s: State, conn: Conn): (t: State)
    ensures Grows(s, t) && t.consumed == s.consumed
  {
    var t := s.(closedConns := s.closedConns + {conn});
    if conn in s.sourceCloseHooks then Fail(t, Dropped, SourceAborted) else t
  }

  function TimeoutStep(s: State): (t: State)
    ensures Grows(s, t) && t.consumed == s.consumed
  {
    if !s.timeoutArmed then s
    else
      var t := s.(timeoutArmed := false);
      if t.result.Some? then FlushTarget(SetError(t, TimedOut)) else t
  }

  function CancelStep(s: State): (t: State)
    ensures Grows(s, t) && t.consumed == s.consumed
  {
    if s.result.None? then s else Fail(s, Cancelled, SourceAborted)
  }

  /** The first scheduled completion is delivered and the table drops the transfer. */
  function Delivered(s: State): State
    requires s.scheduled != []
  {
    s.(scheduled := s.scheduled[1..], delivered := s.delivered + [s.scheduled[0]], inTable := false)
  }

  function IdleStep(s: State): (t: State)
    ensures Grows(s, t) && t.consumed == s.consumed
  {
    if s.scheduled == [] then s
    else Unref(if s.inTable then Unref(Delivered(s)) else Delivered(s))
  }

  /** One event of the main loop; what is gone or not pending cannot call back. */
  function Step(s: State, e: Event): (t: State)
    ensures Grows(s, t)
    ensures t.consumed == s.consumed || (e.ReadDone? && e.outcome.Data? && t.consumed == s.consumed + e.outcome.bytes)
  {
    if !Alive(s) then s
    else
      match e
      case Push(conn, headersOk, writable) => PushStep(s, conn, headersOk, writable)
      case TargetWritable(writable) => WritableStep(s, writable)
      case ReadDone(conn, outcome) => ReadStep(s, conn, outcome)
      case FlushDone => FlushStep(s)
      case TargetClose => TargetCloseStep(s)
      case SourceClose(conn) => SourceCloseStep(s, conn)
      case StartTimeout => TimeoutStep(s)
      case Cancel => CancelStep(s)
      case Idle => IdleStep(s)
  }

  function Run(s: State, es: seq<Event>): (t: State)
    ensures Grows(s, t)
    decreases |es|
  {
    if es == [] then s else Run(Step(s, es[0]), es[1..])
  }

  /** Some sequence of events leads from a new transfer to this state. */
  ghost predicate Reachable(s: State) {
    exists es: seq<Event> :: s == Run(Initial(s.cfg), es)
  }

  // ----- runs without a certain kind of event -------------------------------------------

  /** No event of the run is bad in the state in which it happens. */
  predicate Avoids(s: State, es: seq<Event>, bad: (State, Event) -> bool)
    decreases |es|
  {
    es == [] || (!bad(s, es[0]) && Avoids(Step(s, es[0]), es[1..], bad))
  }

  lemma {:induction false} AvoidsConcat(s: State, a: seq<Event>, b: seq<Event>, bad: (State, Event) -> bool)
    ensures Avoids(s, a + b, bad) <==> Avoids(s, a, bad) && Avoids(Run(s, a), b, bad)
    decreases |a|
  {
    hide Step;
    if a == [] {
      assert a + b == b;
    } else {
      assert (a + b)[0] == a[0] && (a + b)[1..] == a[1..] + b;
      AvoidsConcat(Step(s, a[0]), a[1..], b, bad);
    }
  }

  /** A push is accepted after the start has timed out or the result is gone. */
  predicate Late(s: State, e: Event) {
    Alive(s) && e.Push? && s.inTable && s.result != Some(Success)
  }

  /** A late push gets the relay going to a target that is still open. */
  predicate LateStart(s: State, e: Event) {
    Late(s, e) && e.headersOk && !s.targetClosed
  }

  lemma {:induction false} RunConcat(s: State, a: seq<Event>, b: seq<Event>)
    ensures Run(s, a + b) == Run(Run(s, a), b)
    decreases |a|
  {
    if a == [] {
      assert a + b == b;
    } else {
      assert (a + b)[0] == a[0] && (a + b)[1..] == a[1..] + b;
      RunConcat(Step(s, a[0]), a[1..], b);
    }
  }

  lemma RunFour(s: State, a: Event, b: Event, c: Event, d: Event)
    ensures Run(s, [a, b, c, d]) == Step(Step(Step(Step(s, a), b), c), d)
  {
    hide Step;
    var t := Step(Step(s, a), b);
    assert [a, b, c, d][1..] == [b, c, d] && [b, c, d][1..] == [c, d] && [c, d][1..] == [d];
    assert Run(s, [a, b, c, d]) == Run(t, [c, d]);
    assert Run(t, [c, d]) == Run(Step(t, c), [d]) == Run(Step(Step(t, c), d), []);
  }
}
