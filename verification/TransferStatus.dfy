/**
  What the status of a transfer says once its result is gone: which events still change it, and
  which status a delivered outcome can go with.
 */
module TransferStatus {
  import opened Common
  import opened Words
  import opened TransferSpec
  import opened TransferAccounting
  import opened TransferSafety
  import opened TransferCompletion
  import opened TransferProgress

  // ----- what still changes the status -------------------------------------------------

  /** Once the result is gone, the target's close handler is, too, and nothing brings it back. */
  predicate Unwatched(s: State) {
    s.result.None? ==> !s.targetCloseHook
  }

  lemma StepUnwatched(s: State, e: Event)
    requires Unwatched(s)
    ensures Unwatched(Step(s, e))
  {
    hide ReadSize, Received;
    if Alive(s) && e.ReadDone? {
      ReadDoneUnwatched(s, e.conn, e.outcome);
    }
  }

  lemma ReadDoneUnwatched(s: State, conn: Conn, outcome: ReadResult)
    requires Unwatched(s)
    ensures Unwatched(ReadStep(s, conn, outcome))
  {
    hide GiveUp, Forward;
    if ReadAllowed(s, conn, outcome) {
      match outcome
      case ReadError => GiveUpUnwatched(Received(s, conn, []), ReadFailed);
      case Data(bytes, writeOk, respondOk, writable) =>
        GiveUpUnwatched(Received(s, conn, bytes), WriteFailed);
        ForwardUnwatched(Written(Received(s, conn, bytes), bytes), respondOk, writable);
    }
  }

  lemma GiveUpUnwatched(s: State, why: Failure)
    ensures Unwatched(GiveUp(s, why)) && GiveUp(s, why).status == Error
  {}

  lemma ForwardUnwatched(s: State, respondOk: bool, writable: bool)
    ensures Unwatched(s) ==> Unwatched(Forward(s, respondOk, writable))
    ensures Forward(s, respondOk, writable).status in {s.status, Error}
  {
    hide Unref, Finishing, Read;
    UnrefTame(Finishing(s, respondOk));
    UnrefTame(Read(s, writable));
    FinishingTame(s, respondOk);
    ReadTame(s, writable);
  }

  lemma UnrefTame(s: State)
    ensures Unref(s).status == s.status && (Unref(s).targetCloseHook ==> s.targetCloseHook)
  {}

  lemma FinishingTame(s: State, respondOk: bool)
    ensures Finishing(s, respondOk).status in {s.status, Error} && !Finishing(s, respondOk).targetCloseHook
  {}

  lemma ReadTame(s: State, writable: bool)
    ensures Read(s, writable).status == s.status && Read(s, writable).targetCloseHook == s.targetCloseHook
  {
    hide ReadSize;
  }

  lemma {:induction false} RunUnwatched(s: State, es: seq<Event>)
    requires Unwatched(s)
    ensures Unwatched(Run(s, es))
    decreases |es|
  {
    hide Step, Unwatched;
    if es != [] {
      StepUnwatched(s, es[0]);
      RunUnwatched(Step(s, es[0]), es[1..]);
    }
  }

  /**
    In every run, whatever the source and however many pushes: once the result is gone, the
    status is changed only by a read that comes back, the end of a flush, a late push that gets
    the headers out, or the close of a connection that such a push has brought.
   */
  lemma StatusChanges(s: State, e: Event)
    requires Reachable(s) && s.result.None? && Step(s, e).status != s.status
    ensures match e
            case ReadDone(conn, outcome) => ReadAllowed(s, conn, outcome) && Step(s, e).status == Error
            case FlushDone => s.pendingFlushes > 0 && Step(s, e).status == Completed
            case Push(_, headersOk, _) => Late(s, e) && headersOk && Step(s, e).status == Active
            case SourceClose(conn) => conn in s.sourceCloseHooks && Step(s, e).status == SourceAborted
            case _ => false
  {
    var es: seq<Event> :| s == Run(Initial(s.cfg), es);
    RunUnwatched(Initial(s.cfg), es);
    StatusCauses(s, e);
  }

  lemma StatusCauses(s: State, e: Event)
    requires Unwatched(s) && s.result.None? && Step(s, e).status != s.status
    ensures match e
            case ReadDone(conn, outcome) => ReadAllowed(s, conn, outcome) && Step(s, e).status == Error
            case FlushDone => s.pendingFlushes > 0 && Step(s, e).status == Completed
            case Push(_, headersOk, _) => Late(s, e) && headersOk && Step(s, e).status == Active
            case SourceClose(conn) => conn in s.sourceCloseHooks && Step(s, e).status == SourceAborted
            case _ => false
  {
    hide ReadStep, ReadSize;
    if e.ReadDone? {
      ReadDoneStatus(s, e.conn, e.outcome);
    }
  }

  lemma ReadDoneStatus(s: State, conn: Conn, outcome: ReadResult)
    ensures ReadStep(s, conn, outcome).status in {s.status, Error}
    ensures !ReadAllowed(s, conn, outcome) ==> ReadStep(s, conn, outcome) == s
  {
    hide GiveUp, Forward;
    if ReadAllowed(s, conn, outcome) {
      match outcome
      case ReadError => GiveUpUnwatched(Received(s, conn, []), ReadFailed);
      case Data(bytes, writeOk, respondOk, writable) =>
        GiveUpUnwatched(Received(s, conn, bytes), WriteFailed);
        ForwardUnwatched(Written(Received(s, conn, bytes), bytes), respondOk, writable);
    }
  }

  // ----- completed means flushed -------------------------------------------------------

  /** As many flushes have ended, and the transfer has not become completed. */
  predicate Balanced(s: State, t: State) {
    && t.flushes - t.pendingFlushes == s.flushes - s.pendingFlushes
    && (t.status == Completed ==> s.status == Completed)
  }

  lemma UnrefBalanced(s: State)
    ensures Balanced(s, Unref(s))
  {}

  lemma FinishingBalanced(s: State, respondOk: bool)
    ensures Balanced(s, Finishing(s, respondOk))
  {}

  lemma ReadBalanced(s: State, writable: bool)
    ensures Balanced(s, Read(s, writable))
  {
    hide ReadSize;
  }

  lemma FailBalanced(s: State, why: Failure, status: Status)
    requires status != Completed
    ensures Balanced(s, Fail(s, why, status))
  {}

  lemma GiveUpBalanced(s: State, why: Failure)
    ensures Balanced(s, GiveUp(s, why))
  {
    hide Fail, Unref;
    FailBalanced(s, why, Error);
    UnrefBalanced(Fail(s, why, Error));
  }

  lemma ForwardBalanced(s: State, respondOk: bool, writable: bool)
    ensures Balanced(s, Forward(s, respondOk, writable))
  {
    hide Unref, Finishing, Read;
    FinishingBalanced(s, respondOk);
    UnrefBalanced(Finishing(s, respondOk));
    ReadBalanced(s, writable);
    UnrefBalanced(Read(s, writable));
  }

  lemma ReceivedBalanced(s: State, conn: Conn, bytes: seq<Byte>)
    ensures Balanced(s, Received(s, conn, bytes)) && Balanced(s, Written(Received(s, conn, bytes), bytes))
    ensures Received(s, conn, bytes).targetClosed == s.targetClosed
  {}

  lemma ReadDoneBalanced(s: State, conn: Conn, outcome: ReadResult)
    ensures Balanced(s, ReadStep(s, conn, outcome))
  {
    hide GiveUp, Forward, Received, Written, ReadAllowed;
    if ReadAllowed(s, conn, outcome) {
      ReceivedBalanced(s, conn, if outcome.Data? then outcome.bytes else []);
      match outcome
      case ReadError => GiveUpBalanced(Received(s, conn, []), ReadFailed);
      case Data(bytes, writeOk, respondOk, writable) =>
        if writeOk && !s.targetClosed {
          ForwardBalanced(Written(Received(s, conn, bytes), bytes), respondOk, writable);
        } else {
          GiveUpBalanced(Received(s, conn, bytes), WriteFailed);
        }
    }
  }

  predicate FlushedIfCompleted(s: State) {
    s.pendingFlushes <= s.flushes && (s.status == Completed ==> s.pendingFlushes < s.flushes)
  }

  lemma StepFlushed(s: State, e: Event)
    requires FlushedIfCompleted(s)
    ensures FlushedIfCompleted(Step(s, e))
  {
    hide ReadStep, Read, Fail, Complete, FlushStep, TimeoutStep, PushStep, IdleStep;
    match e
    case Push(_, _, _) => PushFlushed(s, e);
    case TargetWritable(writable) => ReadBalanced(s, writable);
    case ReadDone(conn, outcome) => ReadDoneBalanced(s, conn, outcome);
    case FlushDone => FlushFlushed(s);
    case TargetClose => FailBalanced(s.(targetClosed := true), Dropped, TargetAborted);
    case SourceClose(conn) => FailBalanced(s.(closedConns := s.closedConns + {conn}), Dropped, SourceAborted);
    case StartTimeout => TimeoutBalanced(s);
    case Cancel => FailBalanced(s, Cancelled, SourceAborted);
    case Idle => IdleBalanced(s);
  }

  lemma PushFlushed(s: State, e: Event)
    requires FlushedIfCompleted(s) && e.Push?
    ensures FlushedIfCompleted(PushStep(s, e.conn, e.headersOk, e.writable))
  {
    hide Read;
    ReadBalanced(Measured(Connected(s, e.conn)).(writeHook := true, status := Active), e.writable);
    ReadKeepsFlushes(Measured(Connected(s, e.conn)).(writeHook := true, status := Active), e.writable);
  }

  lemma FlushFlushed(s: State)
    requires FlushedIfCompleted(s)
    ensures FlushedIfCompleted(FlushStep(s))
  {}

  lemma TimeoutBalanced(s: State)
    ensures Balanced(s, TimeoutStep(s))
  {}

  lemma IdleBalanced(s: State)
    ensures Balanced(s, IdleStep(s))
  {}

  lemma {:induction false} RunFlushed(s: State, es: seq<Event>)
    requires FlushedIfCompleted(s)
    ensures FlushedIfCompleted(Run(s, es))
    decreases |es|
  {
    hide Step, FlushedIfCompleted;
    if es != [] {
      StepFlushed(s, es[0]);
      RunFlushed(Step(s, es[0]), es[1..]);
    }
  }

  /** In every run, whatever the source and the pushes, a completed transfer has seen a flush end. */
  lemma CompletedMeansFlushed(s: State)
    requires Reachable(s) && s.status == Completed
    ensures s.flushes > s.pendingFlushes
  {
    var es: seq<Event> :| s == Run(Initial(s.cfg), es);
    RunFlushed(Initial(s.cfg), es);
  }

  // ----- status and outcome ------------------------------------------------------------

  /** The status that a transfer with this outcome can have. */
  predicate Fitting(o: Outcome, status: Status) {
    match o
    case Success => status == Completed
    case Failed(TimedOut) => status == Completed
    case Failed(ReadFailed) => status == Error
    case Failed(WriteFailed) => status == Error
    case Failed(Dropped) => status in {SourceAborted, TargetAborted, Error}
    case Failed(Cancelled) => status in {SourceAborted, Error, Completed}
  }

  /** While the result is open, only a timed-out transfer has a flush and no close handlers. */
  ghost predicate OpenResult(s: State) {
    s.result == Some(Failed(TimedOut)) ==>
      s.pushes == 0 && !s.timeoutArmed && !s.targetCloseHook && s.flushes == s.pendingFlushes
  }

  /** Once the result is gone, nothing but reads bound to fail and one flush can be pending. */
  ghost predicate GoneResult(s: State) {
    s.result.None? ==>
      && s.sourceCloseHooks == {} && !s.targetCloseHook
      && (s.pendingReads != map[] || s.writeHook ==> s.targetClosed)
      && forall o :: Ended(s, o) ==> Fitting(o, s.status) && (Cut(o) ==> s.flushes == 0)
  }

  /** There is at most one flush, with no read beside it, and its end is what makes a transfer completed. */
  ghost predicate OneFlush(s: State) {
    && s.pendingFlushes <= s.flushes <= 1
    && (s.flushes > 0 ==> s.pendingReads == map[] && (s.pushes == 0 || s.transferred == s.cfg.size))
    && (s.status == Completed <==> s.flushes > s.pendingFlushes)
    && (s.flushes > s.pendingFlushes ==> s.result.None?)
  }

  ghost predicate Settled(s: State) {
    OpenResult(s) && GoneResult(s) && OneFlush(s)
  }

  // ----- callbacks ---------------------------------------------------------------------

  lemma UnrefSettled(s: State)
    requires Settled(s)
    ensures Settled(Unref(s))
  {
    assert forall o :: Ended(Unref(s), o) <==> Ended(s, o);
  }

  /** A transfer without a flush fails. */
  lemma FailSettled(s: State, why: Failure, status: Status)
    requires Accounted(s) || AccountedBut(s)
    requires Settled(s) && s.sourceCloseHooks <= Conns(s) && status in {SourceAborted, TargetAborted, Error}
    requires s.flushes == 0 || (why == Cancelled && status == SourceAborted && s.result.Some?)
    requires s.result.None? ==> status == Error
    requires s.result.Some? ==> Fitting(Failed(why), status)
    ensures Settled(Fail(s, why, status))
  {
    var t := Fail(s, why, status);
    assert s.result.Some? ==> forall o :: Ended(t, o) <==> o == Failed(why);
    assert s.result.None? ==> forall o :: Ended(t, o) <==> Ended(s, o);
  }

  /** Everything that is known of a whole source that was pushed in time, if at all. */
  ghost predicate Orderly(s: State) {
    Invariant(s) && Settled(s)
  }

  lemma PushSettled(s: State, e: Event)
    requires Orderly(s) && Alive(s) && e.Push? && !Late(s, e) && Step(s, e).pushes <= 1
    ensures Settled(Step(s, e))
  {
    if s.inTable {
      PushesOnce(s, e);
      var t := Measured(Connected(s, e.conn));
      assert Settled(t) && t.flushes == 0 && t.result == Some(Success);
      hide Orderly, Settled;
      ReadSettled(t.(writeHook := true, status := Active), e.writable);
    }
  }

  lemma PushesOnce(s: State, e: Event)
    requires Alive(s) && e.Push? && s.inTable && Step(s, e).pushes <= 1
    ensures s.pushes == 0
  {}

  lemma ReadSettled(s: State, writable: bool)
    ensures s.result == Some(Success) && s.flushes == 0 && Settled(s) ==> Settled(Read(s, writable))
  {}

  lemma WritableSettled(s: State, writable: bool)
    requires Orderly(s) && s.pushes <= 1
    ensures Settled(WritableStep(s, writable))
  {
    if s.result == Some(Success) && s.flushes == 0 {
      ReadSettled(s, writable);
    } else if s.writeHook && Read(s, writable) != s {
      assert s.pushes == 1 && s.transferred < s.cfg.size;
      assert s.flushes == 0 && s.targetClosed;
      assert forall o :: Ended(Read(s, writable), o) <==> Ended(s, o);
    }
  }

  /** A transfer with a read pending has no flush; one whose result is gone cannot write. */
  lemma ReadPending(s: State)
    requires Orderly(s) && s.pendingReads != map[]
    ensures s.flushes == 0 && s.pushes == 1 && s.transferred < s.cfg.size && s.sourceCloseHooks <= Conns(s)
    ensures s.result == Some(Success) || (s.result.None? && s.targetClosed)
    ensures !s.crashed && s.transferLen == s.cfg.size && s.pendingReads.Keys == Conns(s)
  {
    var c :| c in s.pendingReads;
  }

  lemma ReceivedSettled(s: State, conn: Conn, bytes: seq<Byte>)
    requires Settled(s) && s.flushes == 0
    ensures Settled(Received(s, conn, bytes))
  {
    var t := Received(s, conn, bytes);
    assert forall o :: Ended(t, o) <==> Ended(s, o);
  }

  lemma GiveUpSettled(s: State, conn: Conn, bytes: seq<Byte>, why: Failure)
    requires Orderly(s) && !s.crashed && conn in s.pendingReads && why in {ReadFailed, WriteFailed}
    ensures Settled(GiveUp(Received(s, conn, bytes), why))
  {
    var t := Received(s, conn, bytes);
    ReadPending(s);
    ReceivedSettled(s, conn, bytes);
    ReceivedAccounted(s, conn, bytes);
    hide Orderly, Settled, AccountedBut, Fail, Unref;
    FailSettled(t, why, Error);
    UnrefSettled(Fail(t, why, Error));
  }

  /** The last block begins the only flush. */
  lemma FinishingSettled(s: State, respondOk: bool)
    requires Settled(s) && s.result == Some(Success) && s.flushes == 0
    requires s.pendingReads == map[] && s.transferred == s.cfg.size
    ensures Settled(Finishing(s, respondOk))
  {}

  lemma ForwardSettled(s: State, conn: Conn, bytes: seq<Byte>, respondOk: bool, writable: bool)
    requires Orderly(s) && !s.targetClosed && conn in s.pendingReads && |bytes| <= s.pendingReads[conn]
    ensures Settled(Forward(Written(Received(s, conn, bytes), bytes), respondOk, writable))
  {
    ReadPending(s);
    var r := Received(s, conn, bytes);
    var t := Written(r, bytes);
    ReceivedSettled(s, conn, bytes);
    assert Settled(t) && t.result == Some(Success) && t.flushes == 0;
    assert t.pendingReads == map[] by { assert s.pendingReads.Keys == {conn}; }
    hide Orderly, Settled;
    FinishingOrReadSettled(t, respondOk, writable);
  }

  lemma FinishingOrReadSettled(s: State, respondOk: bool, writable: bool)
    requires Settled(s) && s.result == Some(Success) && s.flushes == 0
    requires s.pendingReads == map[] && s.transferLen == s.cfg.size
    ensures Settled(Forward(s, respondOk, writable))
  {
    hide Finishing, Read, Unref;
    if s.transferred == s.transferLen {
      FinishingSettled(s, respondOk);
      UnrefSettled(Finishing(s, respondOk));
    } else {
      ReadSettled(s, writable);
      UnrefSettled(Read(s, writable));
    }
  }

  lemma ReadDoneSettled(s: State, conn: Conn, outcome: ReadResult)
    requires Orderly(s) && !s.crashed
    ensures Settled(ReadStep(s, conn, outcome))
  {
    hide Orderly, Settled, GiveUp, Forward;
    if ReadAllowed(s, conn, outcome) {
      match outcome
      case ReadError => GiveUpSettled(s, conn, [], ReadFailed);
      case Data(bytes, writeOk, respondOk, writable) =>
        if writeOk && !s.targetClosed {
          ForwardSettled(s, conn, bytes, respondOk, writable);
        } else {
          GiveUpSettled(s, conn, bytes, WriteFailed);
        }
    } else {
      OrderlySettled(s);
    }
  }

  lemma OrderlySettled(s: State)
    requires Orderly(s)
    ensures Settled(s) && Invariant(s) && !s.crashed
  {}

  lemma FlushSettled(s: State)
    requires Orderly(s)
    ensures Settled(FlushStep(s))
  {
    if s.pendingFlushes > 0 {
      CompleteSettled(s);
      hide Orderly, Settled;
      UnrefSettled(Complete(Flushed(s)));
    }
  }

  lemma CompleteSettled(s: State)
    requires Orderly(s) && s.pendingFlushes > 0
    ensures Settled(Complete(Flushed(s)))
  {
    var t := Complete(Flushed(s));
    if s.result.Some? {
      assert forall o :: Ended(t, o) <==> s.result == Some(o);
      assert s.sourceCloseHooks <= Conns(s);
    } else {
      assert forall o :: Ended(t, o) <==> Ended(s, o);
    }
  }

  lemma CloseSettled(s: State, conn: Conn)
    requires Orderly(s)
    ensures Settled(TargetCloseStep(s)) && Settled(SourceCloseStep(s, conn))
  {
    var t, u := s.(targetClosed := true), s.(closedConns := s.closedConns + {conn});
    assert forall o :: (Ended(t, o) <==> Ended(s, o)) && (Ended(u, o) <==> Ended(s, o));
    assert Accounted(t) && Accounted(u) && Settled(t) && Settled(u);
    assert s.targetCloseHook ==> s.result == Some(Success) && s.flushes == 0;
    assert s.sourceCloseHooks != {} ==> s.result == Some(Success) && s.flushes == 0;
    assert s.sourceCloseHooks <= Conns(s);
    hide Orderly, Settled, Accounted, Fail;
    if s.targetCloseHook {
      FailSettled(t, Dropped, TargetAborted);
    }
    if conn in s.sourceCloseHooks {
      FailSettled(u, Dropped, SourceAborted);
    }
  }

  lemma TimeoutSettled(s: State)
    requires Orderly(s)
    ensures Settled(TimeoutStep(s))
  {
    var t := TimeoutStep(s);
    assert s.timeoutArmed ==> BeforePush(s);
    assert forall o :: Ended(t, o) <==> Ended(s, o);
  }

  lemma CancelSettled(s: State)
    requires Orderly(s)
    ensures Settled(CancelStep(s))
  {
    if s.result.Some? {
      FailSettled(s, Cancelled, SourceAborted);
    }
  }

  lemma IdleSettled(s: State)
    requires Orderly(s)
    ensures Settled(IdleStep(s))
  {
    if s.scheduled != [] {
      var t := Delivered(s);
      assert forall o :: Ended(t, o) ==> Ended(s, o);
      assert Settled(t);
      hide Orderly, Settled;
      UnrefSettled(t);
      UnrefSettled(Unref(t));
    }
  }

  lemma StepOrderly(s: State, e: Event)
    requires Orderly(s) && !Late(s, e) && Step(s, e).pushes <= 1
    ensures Orderly(Step(s, e))
  {
    OrderlySettled(s);
    StepInvariant(s, e);
    if Alive(s) {
      hide Orderly, Invariant, Settled;
      match e
      case Push(_, _, _) => PushSettled(s, e);
      case TargetWritable(writable) => WritableSettled(s, writable);
      case ReadDone(conn, outcome) => ReadDoneSettled(s, conn, outcome);
      case FlushDone => FlushSettled(s);
      case TargetClose => CloseSettled(s, 0);
      case SourceClose(conn) => CloseSettled(s, conn);
      case StartTimeout => TimeoutSettled(s);
      case Cancel => CancelSettled(s);
      case Idle => IdleSettled(s);
    }
    assert Settled(Step(s, e));
    BothOrderly(Step(s, e));
  }

  lemma BothOrderly(s: State)
    requires Invariant(s) && Settled(s)
    ensures Orderly(s)
  {}

  lemma {:induction false} RunOrderly(s: State, es: seq<Event>)
    requires Orderly(s) && Avoids(s, es, Late) && Run(s, es).pushes <= 1
    ensures Orderly(Run(s, es))
    decreases |es|
  {
    hide Orderly, Step, Late;
    if es != [] {
      StepOrderly(s, es[0]);
      RunOrderly(Step(s, es[0]), es[1..]);
    }
  }

  // ----- results -----------------------------------------------------------------------

  /** A run of a whole source with at most one push, which is not late. */
  predicate Punctual(cfg: Config, es: seq<Event>) {
    WholeSource(cfg) && Run(Initial(cfg), es).pushes <= 1 && Avoids(Initial(cfg), es, Late)
  }

  /** A state of such a run. */
  ghost predicate PunctuallyReached(s: State) {
    exists es: seq<Event> :: Punctual(s.cfg, es) && s == Run(Initial(s.cfg), es)
  }

  lemma PunctualOrderly(s: State)
    requires PunctuallyReached(s)
    ensures WholeSource(s.cfg) && Orderly(s) && Reachable(s)
  {
    var es: seq<Event> :| Punctual(s.cfg, es) && s == Run(Initial(s.cfg), es);
    assert Orderly(Initial(s.cfg));
    hide Orderly;
    RunOrderly(Initial(s.cfg), es);
  }

  /**
    Without a late push, a transfer is marked as completed exactly when a flush has ended,
    whatever its outcome, and the status fits the outcome.
   */
  lemma StatusTells(s: State)
    requires PunctuallyReached(s)
    ensures s.status == Completed <==> s.flushes > s.pendingFlushes
    ensures s.refs == 0 ==> (s.status == Completed <==> s.flushes == 1)
    ensures forall o :: o in s.delivered ==> Fitting(o, s.status)
  {
    PunctualOrderly(s);
    assert forall o :: o in s.delivered ==> Ended(s, o);
  }

  /**
    Without a late push, exactly two things change the status after the result is gone: a read
    that comes back, with or without octets, makes it an error, and the end of a flush makes it
    completed. A late push is the only thing that can do something else.
   */
  lemma StatusAfterwards(s: State, e: Event)
    requires PunctuallyReached(s) && s.result.None?
    ensures Step(s, e).status == if e.ReadDone? && ReadAllowed(s, e.conn, e.outcome) && Alive(s) then Error
                                 else if e.FlushDone? && s.pendingFlushes > 0 && Alive(s) then Completed
                                 else if Late(s, e) && e.headersOk then Active
                                 else s.status
  {
    hide ReadStep, ReadSize;
    PunctualOrderly(s);
    if Step(s, e).status != s.status {
      StatusChanges(s, e);
    }
    if e.ReadDone? && ReadAllowed(s, e.conn, e.outcome) {
      ReadPending(s);
      RefusedIsError(s, e.conn, e.outcome);
    }
  }

  lemma RefusedIsError(s: State, conn: Conn, outcome: ReadResult)
    requires ReadAllowed(s, conn, outcome) && s.targetClosed
    ensures ReadStep(s, conn, outcome).status == Error
  {
    hide GiveUp, Forward;
    match outcome
    case ReadError => GiveUpUnwatched(Received(s, conn, []), ReadFailed);
    case Data(bytes, _, _, _) => GiveUpUnwatched(Received(s, conn, bytes), WriteFailed);
  }
}
