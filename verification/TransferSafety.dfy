/**
  What a transfer hands to its target, in every run in which one seeder pushes: the body is
  always the beginning of the source stream, and success means all of it.
 */
module TransferSafety {
  import opened Common
  import opened Words
  import opened ByteRanges
  import opened TransferSpec

  /** Success has been handed over, or is about to be. */
  predicate Succeeded(s: State) {
    Success in s.scheduled || Success in s.delivered
  }

  ghost predicate BeforePush(s: State) {
    && s.pushes == 0
    && s.sourceConn.None? && s.sourceCloseHooks == {} && s.pendingReads == map[]
    && !s.writeHook && !s.crashed
    && s.range == Initial(s.cfg).range
    && s.transferred == 0 && s.transferLen == 0
  }

  /** One connection has been pushed; what is pending was asked of it and exists. */
  ghost predicate AfterPush(s: State) {
    && s.pushes == 1
    && s.sourceConn.Some? && !s.timeoutArmed
    && s.sourceCloseHooks <= Conns(s)
    && s.transferLen == AnnouncedLength(s.cfg)
    && (forall c :: c in s.pendingReads ==>
          && c == s.sourceConn.value
          && 1 <= s.pendingReads[c] <= BLOCK_SIZE
          && s.transferred + s.pendingReads[c] <= s.cfg.size)
    && (s.crashed <==> s.transferred > s.transferLen)
  }

  /** The body is the beginning of what was read, all of it while the target is open. */
  ghost predicate Relayed(s: State) {
    && |s.body| == s.transferred <= s.cfg.size < TWO_64
    && s.body <= s.consumed
    && (!s.targetClosed ==> s.body == s.consumed)
    && s.blocks <= s.transferred <= BLOCK_SIZE * s.blocks
  }

  /** A source with something in it was pushed, and the announced length has been written. */
  ghost predicate AllWritten(s: State) {
    s.pushes == 1 && s.transferred >= s.transferLen && s.cfg.size > 0
  }

  /** A result can only turn out a success when everything has been written. */
  ghost predicate HonestResult(s: State) {
    && (s.result == Some(Success) && s.pendingFlushes > 0 ==> AllWritten(s))
    && (Succeeded(s) ==> AllWritten(s))
  }

  ghost predicate Safe(s: State) {
    && (BeforePush(s) || AfterPush(s))
    && Relayed(s)
    && HonestResult(s)
  }

  // ----- building blocks ---------------------------------------------------------------

  lemma UnrefSafe(s: State)
    requires Safe(s)
    ensures Safe(Unref(s))
  {}

  lemma CompleteSafe(s: State)
    requires Safe(s)
    requires s.result == Some(Success) ==> s.pendingFlushes > 0 || AllWritten(s)
    ensures Safe(Complete(s))
  {}

  lemma SetErrorSafe(s: State, why: Failure)
    requires Safe(s)
    ensures Safe(SetError(s, why)) && SetError(s, why).result != Some(Success)
  {
    if s.result.Some? {
      assert AllWritten(s) ==> AllWritten(s.(result := Some(Failed(why))));
    }
  }

  lemma StatusSafe(s: State, status: Status)
    requires Safe(s)
    ensures Safe(s.(status := status))
  {}

  lemma FlushTargetSafe(s: State)
    requires Safe(s) && s.result != Some(Success)
    ensures Safe(FlushTarget(s))
  {}

  lemma FailSafe(s: State, why: Failure, status: Status)
    requires Safe(s)
    ensures Safe(Fail(s, why, status))
  {
    hide Safe;
    SetErrorSafe(s, why);
    StatusSafe(SetError(s, why), status);
    CompleteSafe(SetError(s, why).(status := status));
  }

  lemma ReadSafe(s: State, writable: bool)
    requires Safe(s) && s.pushes == 1
    ensures Safe(Read(s, writable))
  {
    assert ReadSize(s) == Min(BLOCK_SIZE, s.cfg.size - s.transferred);
  }

  lemma ReceivedSafe(s: State, conn: Conn, bytes: seq<Byte>)
    requires Safe(s) && conn in s.pendingReads && |bytes| <= s.pendingReads[conn]
    ensures s.targetClosed || bytes == [] ==> Safe(Received(s, conn, bytes))
    ensures s.transferred + |bytes| <= s.cfg.size
  {}

  lemma ForwardSafe(s: State, conn: Conn, bytes: seq<Byte>, respondOk: bool, writable: bool)
    requires Safe(s) && conn in s.pendingReads && |bytes| <= s.pendingReads[conn]
    requires !s.targetClosed && !s.crashed
    ensures Safe(Forward(Written(Received(s, conn, bytes), bytes), respondOk, writable))
  {
    var t := Written(Received(s, conn, bytes), bytes);
    assert Relayed(t);
    if t.transferred > t.transferLen {
    } else if t.transferred == t.transferLen {
      UnrefSafe(Finishing(t, respondOk));
    } else {
      assert AfterPush(t);
      ReadSafe(t, writable);
      UnrefSafe(Read(t, writable));
    }
  }

  // ----- callbacks ---------------------------------------------------------------------

  lemma PushSafe(s: State, conn: Conn, headersOk: bool, writable: bool)
    requires Safe(s) && PushStep(s, conn, headersOk, writable).pushes <= 1
    ensures Safe(PushStep(s, conn, headersOk, writable))
  {
    if s.inTable {
      var t := Measured(Connected(s, conn));
      assert Safe(t);
      ReadSafe(t.(writeHook := true, status := Active), writable);
    }
  }

  lemma ReadDoneSafe(s: State, conn: Conn, outcome: ReadResult)
    requires Safe(s) && !s.crashed
    ensures Safe(ReadStep(s, conn, outcome))
  {
    hide Safe, Forward, Fail, Unref;
    if ReadAllowed(s, conn, outcome) {
      match outcome
      case ReadError =>
        ReceivedSafe(s, conn, []);
        FailSafe(Received(s, conn, []), ReadFailed, Error);
        UnrefSafe(Fail(Received(s, conn, []), ReadFailed, Error));
      case Data(bytes, writeOk, respondOk, writable) =>
        if writeOk && !s.targetClosed {
          ForwardSafe(s, conn, bytes, respondOk, writable);
        } else {
          RefusedSafe(s, conn, bytes);
        }
    }
  }

  /** A refused write closes the target, so no later block can leave a gap in the body. */
  lemma RefusedSafe(s: State, conn: Conn, bytes: seq<Byte>)
    requires Safe(s) && conn in s.pendingReads && |bytes| <= s.pendingReads[conn]
    ensures Safe(Unref(Fail(Received(s, conn, bytes), WriteFailed, Error)))
  {
    var c := s.(targetClosed := true);
    var t := Received(c, conn, bytes);
    assert Safe(t) by { ReceivedSafe(c, conn, bytes); }
    hide Safe;
    FailSafe(t, WriteFailed, Error);
    UnrefSafe(Fail(t, WriteFailed, Error));
    assert Fail(t, WriteFailed, Error) == Fail(Received(s, conn, bytes), WriteFailed, Error);
  }

  lemma FlushSafe(s: State)
    requires Safe(s)
    ensures Safe(FlushStep(s))
  {
    if s.pendingFlushes > 0 {
      CompleteSafe(Flushed(s));
      UnrefSafe(Complete(Flushed(s)));
    }
  }

  lemma CloseSafe(s: State, conn: Conn)
    requires Safe(s)
    ensures Safe(TargetCloseStep(s)) && Safe(SourceCloseStep(s, conn))
  {
    var t, u := s.(targetClosed := true), s.(closedConns := s.closedConns + {conn});
    assert Safe(t) && Safe(u);
    hide Safe;
    FailSafe(t, Dropped, TargetAborted);
    FailSafe(u, Dropped, SourceAborted);
  }

  lemma TimeoutSafe(s: State)
    requires Safe(s)
    ensures Safe(TimeoutStep(s))
  {
    if s.timeoutArmed {
      var t := s.(timeoutArmed := false);
      assert Safe(t);
      SetErrorSafe(t, TimedOut);
      FlushTargetSafe(SetError(t, TimedOut));
    }
  }

  lemma IdleSafe(s: State)
    requires Safe(s)
    ensures Safe(IdleStep(s))
  {
    if s.scheduled != [] {
      var t := Delivered(s);
      assert Succeeded(t) ==> Succeeded(s);
      UnrefSafe(t);
      UnrefSafe(Unref(t));
    }
  }

  lemma StepSafe(s: State, e: Event)
    requires Safe(s) && Step(s, e).pushes <= 1
    ensures Safe(Step(s, e))
  {
    if Alive(s) {
      match e
      case Push(conn, headersOk, writable) => PushSafe(s, conn, headersOk, writable);
      case TargetWritable(writable) =>
        if s.writeHook { ReadSafe(s, writable); }
      case ReadDone(conn, outcome) => ReadDoneSafe(s, conn, outcome);
      case FlushDone => FlushSafe(s);
      case TargetClose => CloseSafe(s, 0);
      case SourceClose(conn) => CloseSafe(s, conn);
      case StartTimeout => TimeoutSafe(s);
      case Cancel => FailSafe(s, Cancelled, SourceAborted);
      case Idle => IdleSafe(s);
    }
  }

  lemma {:induction false} RunSafe(s: State, es: seq<Event>)
    requires Safe(s) && Run(s, es).pushes <= 1
    ensures Safe(Run(s, es))
    decreases |es|
  {
    if es != [] {
      StepSafe(s, es[0]);
      RunSafe(Step(s, es[0]), es[1..]);
    }
  }

  /** A state of a run in which at most one push has been accepted. */
  ghost predicate OnePush(s: State) {
    Reachable(s) && s.pushes <= 1 && s.cfg.size < TWO_64
  }

  lemma OnePushSafe(s: State)
    requires OnePush(s)
    ensures Safe(s)
  {
    var es: seq<Event> :| s == Run(Initial(s.cfg), es);
    RunSafe(Initial(s.cfg), es);
  }

  // ----- results -----------------------------------------------------------------------

  /**
    Relay safety: the target has received exactly the first `transferred` octets of the stream
    read from the source, and a success says that the announced number was handed over.
   */
  lemma RelaySafety(s: State)
    requires OnePush(s)
    ensures |s.body| == s.transferred
    ensures s.body <= s.consumed
    ensures Succeeded(s) && !s.crashed ==> |s.body| == AnnouncedLength(s.cfg)
  {
    OnePushSafe(s);
  }

  /**
    Read discipline: at most one read is outstanding, on the seeder's connection, and it asks
    for 1 to 0x4000 octets that exist.
   */
  lemma ReadDiscipline(s: State)
    requires OnePush(s)
    ensures |s.pendingReads| <= 1
    ensures forall c :: c in s.pendingReads ==>
              && s.sourceConn == Some(c)
              && 1 <= s.pendingReads[c] <= 0x4000
              && s.transferred + s.pendingReads[c] <= s.cfg.size
  {
    OnePushSafe(s);
    if s.pendingReads != map[] {
      assert s.pendingReads.Keys == {s.sourceConn.value};
    }
  }

  /**
    Until a read has come back, no event reads into its buffer again: the octets of a block are
    written out before anything else can take their place.
   */
  lemma BufferUndisturbed(s: State, e: Event)
    requires OnePush(s) && s.pendingReads != map[] && Step(s, e).pushes <= 1
    ensures Step(s, e).pendingReads == s.pendingReads || (e.ReadDone? && ReadAllowed(s, e.conn, e.outcome))
  {
    OnePushSafe(s);
    var c :| c in s.pendingReads;
    assert s.pushes == 1 && s.sourceConn == Some(c);
    assert Read(s, true) == s;
  }

  /** An accepted push stops the start timer for good and fixes the announced length. */
  lemma PushSettles(s: State)
    requires OnePush(s) && s.pushes == 1
    ensures !s.timeoutArmed && s.transferLen == AnnouncedLength(s.cfg)
  {
    OnePushSafe(s);
  }

  /** The blocks written number at least transferred/0x4000, rounded up, and at most transferred. */
  lemma BlockCount(s: State)
    requires OnePush(s)
    ensures (s.transferred + 0x3fff) / 0x4000 <= s.blocks <= s.transferred
  {
    OnePushSafe(s);
  }
}
