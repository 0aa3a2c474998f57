/**
  Why each part of a transfer changes: for every event, the new value of each part in terms of
  the old state and of what has happened, without naming the functions that compute it.
 */
module TransferLaws {
  import opened Common
  import opened Words
  import opened ByteRanges
  import opened TransferSpec

  // ----- what an event means for the transfer ------------------------------------------

  /** The object exists, and its process has not been aborted. */
  predicate Running(s: State) {
    s.refs > 0 && !s.crashed
  }

  /** The connection that octets come from, if there is one. */
  function Current(s: State): set<Conn> {
    if s.sourceConn == None then {} else {s.sourceConn.value}
  }

  /** A push is accepted. */
  predicate Accepts(s: State, e: Event) {
    Running(s) && e.Push? && s.inTable
  }

  /** A pending read has come back. */
  predicate Returns(s: State, e: Event) {
    && Running(s) && e.ReadDone? && e.conn in s.pendingReads
    && (e.outcome.Data? ==> |e.outcome.bytes| <= s.pendingReads[e.conn])
  }

  /** A block has been read, and the target has taken it. */
  predicate Writes(s: State, e: Event) {
    Returns(s, e) && e.outcome.Data? && e.outcome.writeOk && !s.targetClosed
  }

  /** How much has been written once the event is over. */
  function Total(s: State, e: Event): nat {
    if Writes(s, e) then s.transferred + |e.outcome.bytes| else s.transferred
  }

  /** The block that was written is the last one. */
  predicate LastBlock(s: State, e: Event) {
    Writes(s, e) && Total(s, e) == s.transferLen
  }

  /** The read has failed, or its block was refused. */
  predicate GivesUp(s: State, e: Event) {
    Returns(s, e) && !Writes(s, e)
  }

  predicate FlushEnds(s: State, e: Event) {
    Running(s) && e.FlushDone? && s.pendingFlushes > 0
  }

  /** The timer fires. */
  predicate Fires(s: State, e: Event) {
    Running(s) && e.StartTimeout? && s.timeoutArmed
  }

  predicate TargetDrops(s: State, e: Event) {
    Running(s) && e.TargetClose? && s.targetCloseHook
  }

  predicate SourceDrops(s: State, e: Event) {
    Running(s) && e.SourceClose? && e.conn in s.sourceCloseHooks
  }

  predicate Cancels(s: State, e: Event) {
    Running(s) && e.Cancel? && s.result.Some?
  }

  /** The transfer is ended by something other than a flush. */
  predicate Aborts(s: State, e: Event) {
    GivesUp(s, e) || TargetDrops(s, e) || SourceDrops(s, e) || Cancels(s, e)
  }

  function Reason(s: State, e: Event): Failure {
    if e.Cancel? then Cancelled
    else if e.ReadDone? then if e.outcome.ReadError? then ReadFailed else WriteFailed
    else Dropped
  }

  predicate Delivers(s: State, e: Event) {
    Running(s) && e.Idle? && s.scheduled != []
  }

  /** The connection that octets come from once the event is over. */
  function Source(s: State, e: Event): Option<Conn> {
    if Accepts(s, e) then Some(e.conn) else s.sourceConn
  }

  /** The relay tries to read on, and there is room at the target. */
  predicate WantsMore(s: State, e: Event) {
    || (Accepts(s, e) && e.headersOk && e.writable)
    || (Running(s) && e.TargetWritable? && s.writeHook && e.writable)
    || (Writes(s, e) && Total(s, e) < s.transferLen && e.outcome.writable)
  }

  /** The reads that were pending and have not come back. */
  function StillPending(s: State, e: Event): map<Conn, nat> {
    if Returns(s, e) then s.pendingReads - {e.conn} else s.pendingReads
  }

  /** What is left of the source, as the unsigned difference that the code takes. */
  function Left(s: State, e: Event): nat {
    (s.cfg.size - Total(s, e)) % 0x1_0000_0000_0000_0000
  }

  /** A read is issued: there is room, something is left, and no read is pending on the connection. */
  predicate Issues(s: State, e: Event) {
    WantsMore(s, e) && Source(s, e).Some? && Source(s, e).value !in StillPending(s, e) && Left(s, e) > 0
  }

  function Num(b: bool): nat {
    if b then 1 else 0
  }

  // ----- what the building blocks do ---------------------------------------------------

  lemma UnrefIs(s: State)
    ensures Unref(s) == if s.refs > 1 then s.(refs := s.refs - 1)
                        else s.(refs := s.refs - 1, timeoutArmed := false, targetCloseHook := false,
                                sourceCloseHooks := s.sourceCloseHooks - Conns(s))
  {}

  lemma FailIs(s: State, why: Failure, status: Status)
    requires status != Completed
    ensures Fail(s, why, status)
            == s.(status := status, targetCloseHook := false,
                  sourceCloseHooks := s.sourceCloseHooks - Conns(s),
                  closedConns := s.closedConns + Conns(s), targetClosed := true,
                  scheduled := if s.result.Some? then s.scheduled + [Failed(why)] else s.scheduled,
                  result := None)
  {}

  lemma FlushedIs(s: State)
    requires s.pendingFlushes > 0
    ensures Complete(Flushed(s))
            == s.(pendingFlushes := s.pendingFlushes - 1, status := Completed, writeHook := false,
                  targetCloseHook := false, sourceCloseHooks := s.sourceCloseHooks - Conns(s),
                  scheduled := if s.result.Some? then s.scheduled + [s.result.value] else s.scheduled,
                  result := None)
  {}

  lemma FinishingIs(s: State, respondOk: bool)
    ensures Finishing(s, respondOk)
            == s.(sourceCloseHooks := s.sourceCloseHooks - Conns(s), targetCloseHook := false,
                  status := if respondOk then s.status else Error,
                  refs := s.refs + 1, pendingFlushes := s.pendingFlushes + 1, flushes := s.flushes + 1)
  {}

  lemma ReadIs(s: State, writable: bool)
    ensures var left := (s.cfg.size - s.transferred) % 0x1_0000_0000_0000_0000;
            Read(s, writable)
            == if writable && s.sourceConn.Some? && s.sourceConn.value !in s.pendingReads && left > 0 then
                 s.(refs := s.refs + 1,
                    pendingReads := s.pendingReads[s.sourceConn.value := if left < 0x4000 then left else 0x4000])
               else s
  {}

  // ----- the laws, as one predicate each -----------------------------------------------

  /** What becomes of the status. */
  predicate StatusLaw(s: State, e: Event, t: State) {
    t.status == if Accepts(s, e) && e.headersOk then Active
                else if GivesUp(s, e) || (LastBlock(s, e) && !e.outcome.respondOk) then Error
                else if FlushEnds(s, e) then Completed
                else if TargetDrops(s, e) then TargetAborted
                else if SourceDrops(s, e) || Cancels(s, e) then SourceAborted
                else s.status
  }

  /** What becomes of the result: who hands it over, and with which verdict. */
  predicate ResultLaw(s: State, e: Event, t: State) {
    && t.result == (if Aborts(s, e) || FlushEnds(s, e) then None
                    else if Fires(s, e) && s.result.Some? then Some(Failed(TimedOut))
                    else s.result)
    && t.scheduled == (if s.result.Some? && Aborts(s, e) then s.scheduled + [Failed(Reason(s, e))]
                       else if s.result.Some? && FlushEnds(s, e) then s.scheduled + [s.result.value]
                       else if Delivers(s, e) then s.scheduled[1..]
                       else s.scheduled)
    && t.delivered == (if Delivers(s, e) then s.delivered + [s.scheduled[0]] else s.delivered)
    && t.inTable == (s.inTable && !Delivers(s, e))
  }

  /** Which reads are pending, and for how many octets. */
  predicate ReadLaw(s: State, e: Event, t: State) {
    t.pendingReads ==
    if Issues(s, e) then
      StillPending(s, e)[Source(s, e).value := if Left(s, e) < 0x4000 then Left(s, e) else 0x4000]
    else StillPending(s, e)
  }

  /** Which octets have been read and written, and whether the assertion has failed. */
  predicate OctetLaw(s: State, e: Event, t: State) {
    && t.consumed == (if Returns(s, e) && e.outcome.Data? then s.consumed + e.outcome.bytes else s.consumed)
    && t.body == (if Writes(s, e) then s.body + e.outcome.bytes else s.body)
    && t.transferred == Total(s, e)
    && t.blocks == s.blocks + Num(Writes(s, e) && e.outcome.bytes != [])
    && t.crashed == (s.crashed || (Writes(s, e) && Total(s, e) > s.transferLen))
  }

  /** Which connections have been closed. */
  predicate CloseLaw(s: State, e: Event, t: State) {
    && t.targetClosed == (s.targetClosed || Aborts(s, e) || (Running(s) && e.TargetClose?))
    && t.closedConns == s.closedConns + (if Aborts(s, e) then Current(s) else {})
                        + (if Running(s) && e.SourceClose? then {e.conn} else {})
  }

  /** The target is flushed: its last octet was written, or it was told of the timeout. */
  predicate BeginsFlush(s: State, e: Event) {
    (Fires(s, e) && s.result.Some?) || LastBlock(s, e)
  }

  /** How many flushes are pending, and whether chances to write are awaited. */
  predicate FlushLaw(s: State, e: Event, t: State) {
    && t.pendingFlushes == s.pendingFlushes + Num(BeginsFlush(s, e)) - Num(FlushEnds(s, e))
    && t.flushes == s.flushes + Num(BeginsFlush(s, e))
    && t.writeHook == ((s.writeHook || (Accepts(s, e) && e.headersOk)) && !FlushEnds(s, e))
  }

  /** Which close handlers and timers are left, as long as the object is there. */
  predicate HandlerLaw(s: State, e: Event, t: State) {
    && t.timeoutArmed == (s.timeoutArmed && !Accepts(s, e) && !Fires(s, e))
    && t.targetCloseHook == (s.targetCloseHook && !Aborts(s, e) && !FlushEnds(s, e) && !BeginsFlush(s, e))
    && t.sourceCloseHooks == (if Accepts(s, e) then s.sourceCloseHooks + {e.conn}
                              else if Aborts(s, e) || FlushEnds(s, e) || LastBlock(s, e) then
                                s.sourceCloseHooks - Current(s)
                              else s.sourceCloseHooks)
  }

  /** When the object goes, its timer goes, and the handlers of the target and of the current source. */
  predicate DisposalLaw(s: State, e: Event, t: State) {
    Running(s) && t.refs <= 0 ==>
      && !t.timeoutArmed && !t.targetCloseHook
      && t.sourceCloseHooks == s.sourceCloseHooks - Current(s)
  }

  /** Where octets come from. */
  predicate SourceLaw(s: State, e: Event, t: State) {
    && t.sourceConn == Source(s, e)
    && t.cfg == s.cfg
    && t.pushes == s.pushes + Num(Accepts(s, e))
    && (!Accepts(s, e) ==> t.range == s.range && t.transferLen == s.transferLen)
  }

  /** Who holds a reference: pending reads and flushes, the table and the result that is delivered. */
  predicate ReferenceLaw(s: State, e: Event, t: State) {
    t.refs == s.refs + Num(Issues(s, e)) + Num(BeginsFlush(s, e))
              - Num(Returns(s, e) && !t.crashed) - Num(FlushEnds(s, e))
              - (if Delivers(s, e) then 1 + Num(s.inTable) else 0)
  }

  predicate OutcomeLaws(s: State, e: Event, t: State) {
    StatusLaw(s, e, t) && ResultLaw(s, e, t) && ReadLaw(s, e, t) && OctetLaw(s, e, t)
  }

  predicate HoldingLaws(s: State, e: Event, t: State) {
    && CloseLaw(s, e, t) && FlushLaw(s, e, t) && SourceLaw(s, e, t) && ReferenceLaw(s, e, t)
    && (Running(s) && t.refs > 0 ==> HandlerLaw(s, e, t)) && DisposalLaw(s, e, t)
    && (!Running(s) ==> t == s)
  }

  predicate Laws(s: State, e: Event, t: State) {
    OutcomeLaws(s, e, t) && HoldingLaws(s, e, t)
  }

  // ----- they hold of every event ------------------------------------------------------

  lemma PushLaws(s: State, e: Event)
    requires Alive(s) && e.Push?
    ensures Laws(s, e, Step(s, e))
  {
    hide OutcomeLaws, HoldingLaws;
    PushOutcome(s, e);
    PushHolding(s, e);
  }

  lemma PushOutcome(s: State, e: Event)
    requires Alive(s) && e.Push?
    ensures OutcomeLaws(s, e, Step(s, e))
  {
    hide Normalised, Length, Read;
    ReadIs(Measured(Connected(s, e.conn)).(writeHook := true, status := Active), e.writable);
    assert Step(s, e) == PushStep(s, e.conn, e.headersOk, e.writable);
  }

  lemma PushHolding(s: State, e: Event)
    requires Alive(s) && e.Push?
    ensures HoldingLaws(s, e, Step(s, e))
  {
    hide Normalised, Length, Read;
    ReadIs(Measured(Connected(s, e.conn)).(writeHook := true, status := Active), e.writable);
    assert Step(s, e) == PushStep(s, e.conn, e.headersOk, e.writable);
  }

  lemma WritableLaws(s: State, e: Event)
    requires Alive(s) && e.TargetWritable?
    ensures Laws(s, e, Step(s, e))
  {
    hide OutcomeLaws, HoldingLaws;
    WritableOutcome(s, e);
    WritableHolding(s, e);
  }

  lemma WritableOutcome(s: State, e: Event)
    requires Alive(s) && e.TargetWritable?
    ensures OutcomeLaws(s, e, Step(s, e))
  {
    hide Read;
    ReadIs(s, e.writable);
  }

  lemma WritableHolding(s: State, e: Event)
    requires Alive(s) && e.TargetWritable?
    ensures HoldingLaws(s, e, Step(s, e))
  {
    hide Read;
    ReadIs(s, e.writable);
  }

  /** The state after a read that has failed or whose block was refused, and after the callback's reference. */
  function Given(s: State, e: Event): State
    requires GivesUp(s, e)
  {
    s.(pendingReads := s.pendingReads - {e.conn},
       consumed := if e.outcome.Data? then s.consumed + e.outcome.bytes else s.consumed,
       status := Error, targetCloseHook := false, sourceCloseHooks := s.sourceCloseHooks - Conns(s),
       closedConns := s.closedConns + Conns(s), targetClosed := true,
       scheduled := if s.result.Some? then s.scheduled + [Failed(Reason(s, e))] else s.scheduled,
       result := None)
  }

  lemma GivenIs(s: State, e: Event)
    requires GivesUp(s, e)
    ensures Step(s, e) == Unref(Given(s, e))
  {
    hide Fail, Unref, Given;
    var t := Received(s, e.conn, if e.outcome.Data? then e.outcome.bytes else []);
    assert Step(s, e) == Unref(Fail(t, Reason(s, e), Error));
    FailedIsGiven(s, e);
  }

  lemma FailedIsGiven(s: State, e: Event)
    requires GivesUp(s, e)
    ensures Fail(Received(s, e.conn, if e.outcome.Data? then e.outcome.bytes else []), Reason(s, e), Error)
            == Given(s, e)
  {
    hide Fail;
    FailIs(Received(s, e.conn, if e.outcome.Data? then e.outcome.bytes else []), Reason(s, e), Error);
    assert s.consumed + [] == s.consumed;
  }

  lemma GiveUpLaws(s: State, e: Event)
    requires GivesUp(s, e)
    ensures Laws(s, e, Step(s, e))
  {
    GivenIs(s, e);
    hide Step, Unref, Given, OutcomeLaws, HoldingLaws;
    UnrefIs(Given(s, e));
    GivenOutcome(s, e, Unref(Given(s, e)));
    GivenHolding(s, e, Unref(Given(s, e)));
  }

  lemma GivenOutcome(s: State, e: Event, t: State)
    requires GivesUp(s, e)
    requires t == Given(s, e).(refs := t.refs, timeoutArmed := t.timeoutArmed, targetCloseHook := t.targetCloseHook,
                               sourceCloseHooks := t.sourceCloseHooks)
    ensures OutcomeLaws(s, e, t)
  {}

  lemma GivenHolding(s: State, e: Event, t: State)
    requires GivesUp(s, e) && t == Unref(Given(s, e))
    ensures HoldingLaws(s, e, t)
  {
    hide Unref;
    UnrefIs(Given(s, e));
  }

  /** The state when the target has taken a block, before anything else is done. */
  function Taken(s: State, e: Event): State
    requires Writes(s, e)
  {
    s.(pendingReads := s.pendingReads - {e.conn}, consumed := s.consumed + e.outcome.bytes,
       body := s.body + e.outcome.bytes, transferred := Total(s, e),
       blocks := if e.outcome.bytes == [] then s.blocks else s.blocks + 1)
  }

  lemma TakenIs(s: State, e: Event)
    requires Writes(s, e)
    ensures Step(s, e) == Forward(Taken(s, e), e.outcome.respondOk, e.outcome.writable)
  {
    hide Forward;
    assert Written(Received(s, e.conn, e.outcome.bytes), e.outcome.bytes) == Taken(s, e);
  }

  lemma WriteLaws(s: State, e: Event)
    requires Writes(s, e)
    ensures Laws(s, e, Step(s, e))
  {
    TakenIs(s, e);
    hide Step, Finishing, Read, Unref, Laws;
    var t := Taken(s, e);
    if t.transferred > t.transferLen {
      OverrunLaws(s, e);
    } else if t.transferred == t.transferLen {
      LastLaws(s, e);
    } else {
      MoreLaws(s, e);
    }
  }

  lemma OverrunLaws(s: State, e: Event)
    requires Writes(s, e) && Total(s, e) > s.transferLen
    ensures Laws(s, e, Taken(s, e).(crashed := true))
  {}

  lemma LastLaws(s: State, e: Event)
    requires LastBlock(s, e)
    ensures Laws(s, e, Unref(Finishing(Taken(s, e), e.outcome.respondOk)))
  {
    hide Finishing, Unref;
    FinishingIs(Taken(s, e), e.outcome.respondOk);
    UnrefIs(Finishing(Taken(s, e), e.outcome.respondOk));
  }

  lemma MoreLaws(s: State, e: Event)
    requires Writes(s, e) && Total(s, e) < s.transferLen
    ensures Laws(s, e, Unref(Read(Taken(s, e), e.outcome.writable)))
  {
    hide OutcomeLaws, HoldingLaws;
    MoreOutcome(s, e);
    MoreHolding(s, e);
  }

  lemma MoreOutcome(s: State, e: Event)
    requires Writes(s, e) && Total(s, e) < s.transferLen
    ensures OutcomeLaws(s, e, Unref(Read(Taken(s, e), e.outcome.writable)))
  {
    hide Read, Unref;
    ReadIs(Taken(s, e), e.outcome.writable);
    UnrefIs(Read(Taken(s, e), e.outcome.writable));
  }

  lemma MoreHolding(s: State, e: Event)
    requires Writes(s, e) && Total(s, e) < s.transferLen
    ensures HoldingLaws(s, e, Unref(Read(Taken(s, e), e.outcome.writable)))
  {
    hide Read, Unref;
    ReadIs(Taken(s, e), e.outcome.writable);
    UnrefIs(Read(Taken(s, e), e.outcome.writable));
  }

  lemma FlushLaws(s: State, e: Event)
    requires FlushEnds(s, e)
    ensures Laws(s, e, Step(s, e))
  {
    hide Complete, Flushed, Unref;
    FlushedIs(s);
    UnrefIs(Complete(Flushed(s)));
    assert Step(s, e) == Unref(Complete(Flushed(s)));
  }

  lemma TargetCloseLaws(s: State, e: Event)
    requires Alive(s) && e.TargetClose?
    ensures Laws(s, e, Step(s, e))
  {
    hide Fail;
    FailIs(s.(targetClosed := true), Dropped, TargetAborted);
  }

  lemma SourceCloseLaws(s: State, e: Event)
    requires Alive(s) && e.SourceClose?
    ensures Laws(s, e, Step(s, e))
  {
    hide Fail;
    FailIs(s.(closedConns := s.closedConns + {e.conn}), Dropped, SourceAborted);
  }

  lemma CancelLaws(s: State, e: Event)
    requires Alive(s) && e.Cancel?
    ensures Laws(s, e, Step(s, e))
  {
    hide Fail;
    FailIs(s, Cancelled, SourceAborted);
  }

  lemma TimedOutIs(s: State)
    requires s.timeoutArmed
    ensures TimeoutStep(s)
            == if s.result.None? then s.(timeoutArmed := false)
               else s.(timeoutArmed := false, result := Some(Failed(TimedOut)), targetCloseHook := false,
                       refs := s.refs + 1, pendingFlushes := s.pendingFlushes + 1, flushes := s.flushes + 1)
  {}

  lemma TimeoutLaws(s: State, e: Event)
    requires Alive(s) && e.StartTimeout?
    ensures Laws(s, e, Step(s, e))
  {
    if s.timeoutArmed {
      TimedOutIs(s);
      hide TimeoutStep;
      assert Step(s, e) == TimeoutStep(s);
    }
  }

  lemma IdleLaws(s: State, e: Event)
    requires Alive(s) && e.Idle?
    ensures Laws(s, e, Step(s, e))
  {
    hide OutcomeLaws, HoldingLaws;
    IdleOutcome(s, e);
    IdleHolding(s, e);
  }

  lemma IdleOutcome(s: State, e: Event)
    requires Alive(s) && e.Idle?
    ensures OutcomeLaws(s, e, Step(s, e))
  {
    hide Unref;
    if s.scheduled != [] {
      UnrefIs(Delivered(s));
      UnrefIs(Unref(Delivered(s)));
    }
  }

  lemma IdleHolding(s: State, e: Event)
    requires Alive(s) && e.Idle?
    ensures HoldingLaws(s, e, Step(s, e))
  {
    hide Unref;
    if s.scheduled != [] {
      UnrefIs(Delivered(s));
      UnrefIs(Unref(Delivered(s)));
    }
  }

  lemma GoneLaws(s: State, e: Event)
    requires !Alive(s)
    ensures Laws(s, e, s)
  {}

  lemma NothingLaws(s: State, e: Event)
    requires Alive(s) && ((e.ReadDone? && !Returns(s, e)) || (e.FlushDone? && !FlushEnds(s, e)))
    ensures Laws(s, e, s)
  {}

  lemma GoneStays(s: State, e: Event)
    requires !Alive(s)
    ensures Step(s, e) == s
  {}

  lemma NothingStays(s: State, e: Event)
    requires (e.ReadDone? && !Returns(s, e)) || (e.FlushDone? && !FlushEnds(s, e))
    ensures Step(s, e) == s
  {}

  /**
    Every event changes every part of the transfer as the laws say: the status, the result, the
    reads, the octets, the connections, the flushes, the handlers, the source and the references
    each change for the causes given, and for no others.
   */
  lemma StepLaws(s: State, e: Event)
    ensures Laws(s, e, Step(s, e))
  {
    hide Step, Laws;
    if !Alive(s) {
      GoneLaws(s, e);
      GoneStays(s, e);
    } else if (e.ReadDone? && !Returns(s, e)) || (e.FlushDone? && !FlushEnds(s, e)) {
      NothingLaws(s, e);
      NothingStays(s, e);
    } else {
      match e
      case Push(_, _, _) => PushLaws(s, e);
      case TargetWritable(_) => WritableLaws(s, e);
      case ReadDone(_, _) => if Writes(s, e) { WriteLaws(s, e); } else { GiveUpLaws(s, e); }
      case FlushDone => FlushLaws(s, e);
      case TargetClose => TargetCloseLaws(s, e);
      case SourceClose(_) => SourceCloseLaws(s, e);
      case StartTimeout => TimeoutLaws(s, e);
      case Cancel => CancelLaws(s, e);
      case Idle => IdleLaws(s, e);
    }
  }

  /**
    A new transfer: nothing is started, read or written; its success is to be decided, its timer
    runs, its target is watched, and the table and the result hold it. What is asked for before
    the beginning of the source is dropped.
   */
  lemma InitialLaw(cfg: Config)
    ensures var s := Initial(cfg);
            && s.cfg == cfg && s.status == NotStarted && s.result == Some(Success)
            && s.timeoutArmed && s.targetCloseHook && s.inTable && s.refs == 2
            && s.sourceConn.None? && s.sourceCloseHooks == {} && !s.writeHook
            && s.pendingReads == map[] && s.pendingFlushes == 0 && s.scheduled == s.delivered == []
            && !s.targetClosed && s.closedConns == {} && !s.crashed
            && s.consumed == s.body == [] && s.transferred == 0
            && (cfg.chunked ==> s.range.start == (if cfg.range.start < 0 then 0 else cfg.range.start)
                                && s.range.end == cfg.range.end)
  {}
}
