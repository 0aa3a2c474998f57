/**
  When the write handler of the target is still connected after a transfer object has been
  released: dispose does not see to it.
 */
module TransferHandlers {
  import opened Common
  import opened ByteRanges
  import opened TransferSpec
  import opened TransferAccounting

  /** A push connects the write handler after the result was handed over and the handler was taken away. */
  predicate Reopens(s: State, e: Event) {
    LateStart(s, e) && s.result.None?
  }

  /** The object is gone, but an open target would still call its write handler. */
  predicate Dangling(s: State) {
    s.refs == 0 && !s.crashed && s.writeHook && !s.targetClosed
  }

  /** Once the result is gone, an open target has no write handler. */
  predicate Detached(s: State) {
    s.result.None? && s.writeHook ==> s.targetClosed
  }

  lemma StepDetached(s: State, e: Event)
    requires Detached(s) && !Reopens(s, e)
    ensures Detached(Step(s, e))
  {
    hide Received, ReadSize;
    if Alive(s) {
      match e
      case Push(conn, headersOk, writable) =>
        assert s.targetClosed ==> PushStep(s, conn, headersOk, writable).targetClosed;
      case TargetWritable(_) =>
      case ReadDone(conn, outcome) => ReadDoneDetached(s, conn, outcome);
      case FlushDone =>
      case TargetClose =>
      case SourceClose(_) =>
      case StartTimeout =>
      case Cancel =>
      case Idle =>
    }
  }

  lemma ReadDoneDetached(s: State, conn: Conn, outcome: ReadResult)
    requires Detached(s)
    ensures Detached(ReadStep(s, conn, outcome))
  {
    hide Received, GiveUp, Forward;
    if ReadAllowed(s, conn, outcome) {
      match outcome
      case ReadError => GiveUpDetached(Received(s, conn, []), ReadFailed);
      case Data(bytes, writeOk, respondOk, writable) =>
        ReceivedDetached(s, conn, bytes);
        ForwardDetached(Written(Received(s, conn, bytes), bytes), respondOk, writable);
        GiveUpDetached(Received(s, conn, bytes), WriteFailed);
    }
  }

  lemma ReceivedDetached(s: State, conn: Conn, bytes: seq<Byte>)
    requires Detached(s)
    ensures Detached(Written(Received(s, conn, bytes), bytes))
  {}

  lemma GiveUpDetached(s: State, why: Failure)
    ensures Detached(GiveUp(s, why))
  {}

  lemma ForwardDetached(s: State, respondOk: bool, writable: bool)
    requires Detached(s)
    ensures Detached(Forward(s, respondOk, writable))
  {
    hide Unref, Finishing, Read;
  }

  // ----- what has been announced -------------------------------------------------------

  /** However many pushes there are, each announces the same range and length. */
  predicate Consistent(s: State) {
    && s.range == (if s.pushes > 0 then Measured(Initial(s.cfg)).range else Initial(s.cfg).range)
    && (s.pushes > 0 ==> s.transferLen == AnnouncedLength(s.cfg))
  }

  lemma MeasuredTwice(s: State)
    requires s.range == Initial(s.cfg).range || s.range == Measured(Initial(s.cfg)).range
    ensures Measured(s).range == Measured(Initial(s.cfg)).range
    ensures Measured(s).transferLen == AnnouncedLength(s.cfg)
  {
    NormalisedTwice(Clamped(s.cfg.range), s.cfg.size);
  }

  lemma ReadDoneMeasure(s: State, conn: Conn, outcome: ReadResult)
    ensures SameMeasure(s, ReadStep(s, conn, outcome))
  {
    hide GiveUp, Forward;
  }

  lemma MeasureKept(s: State, e: Event)
    requires !e.Push?
    ensures SameMeasure(s, Step(s, e))
  {
    hide ReadStep, Fail, FlushTarget, SetError, Complete, Unref, Read;
    if e.ReadDone? {
      ReadDoneMeasure(s, e.conn, e.outcome);
    }
  }

  lemma PushMeasures(s: State, e: Event)
    requires e.Push?
    ensures SameMeasure(s, Step(s, e)) || SameMeasure(Measured(Connected(s, e.conn)), Step(s, e))
  {
    hide Measured, Read;
  }

  lemma StepConsistent(s: State, e: Event)
    requires Consistent(s)
    ensures Consistent(Step(s, e))
  {
    hide Step, Measured, AnnouncedLength, Initial;
    if e.Push? {
      PushMeasures(s, e);
      ConnectedMeasures(s, e.conn);
    } else {
      MeasureKept(s, e);
    }
  }

  lemma ConnectedMeasures(s: State, conn: Conn)
    requires Consistent(s)
    ensures var t := Measured(Connected(s, conn));
            && t.cfg == s.cfg && t.pushes == s.pushes + 1
            && t.range == Measured(Initial(s.cfg)).range && t.transferLen == AnnouncedLength(s.cfg)
  {
    MeasuredTwice(s);
    hide AnnouncedLength, Normalised, Length;
    assert Measured(Connected(s, conn)).range == Measured(s).range;
    assert Measured(Connected(s, conn)).transferLen == Measured(s).transferLen;
  }

  lemma {:induction false} RunConsistent(s: State, es: seq<Event>)
    requires Consistent(s)
    ensures Consistent(Run(s, es))
    decreases |es|
  {
    hide Step, Consistent;
    if es != [] {
      StepConsistent(s, es[0]);
      RunConsistent(Step(s, es[0]), es[1..]);
    }
  }

  // ----- when the object can be released after such a push -----------------------------

  /** No read is pending, and the push will not start one. */
  predicate StartsNoRead(s: State, e: Event)
    requires e.Push?
  {
    s.pendingReads == map[] && (!e.writable || ReadSize(s) == 0)
  }

  /**
    A push that reopens after which the object can be released with its write handler: no flush
    is pending, whose end would take the handler away, and no read whose return must end the
    transfer.
   */
  predicate Lingers(s: State, e: Event) {
    && Reopens(s, e) && s.pendingFlushes == 0
    && (StartsNoRead(s, e) || s.transferred < AnnouncedLength(s.cfg))
  }

  lemma Reopened(s: State, e: Event)
    requires Consistent(s) && Accounted(s) && Reopens(s, e)
    ensures var t := Step(s, e);
            && Accounted(t) && Consistent(t) && t.pushes > 0 && !t.crashed && t.writeHook && !t.targetClosed
            && t.inTable && t.result.None? && |t.scheduled| == 1 && t.pendingFlushes == s.pendingFlushes
            && t.transferred == s.transferred && t.cfg == s.cfg
  {
    StepAccounted(s, e);
    StepConsistent(s, e);
    hide Read, Measured;
    assert Step(s, e) == PushStep(s, e.conn, e.headersOk, e.writable);
  }

  lemma ReopenedReads(s: State, e: Event)
    requires Reopens(s, e)
    ensures Step(s, e).pendingReads == map[] <==> StartsNoRead(s, e)
  {
    var t := Measured(Connected(s, e.conn)).(writeHook := true, status := Active);
    assert Step(s, e) == Read(t, e.writable);
    assert ReadSize(t) == ReadSize(s);
    if s.pendingReads != map[] {
      var c :| c in s.pendingReads;
      assert c in Step(s, e).pendingReads;
    } else if e.writable && ReadSize(s) > 0 {
      assert e.conn in Step(s, e).pendingReads;
    }
  }

  // ----- then it can -------------------------------------------------------------------

  /** Nothing is pending but the delivery of the outcome and reads that can come back empty. */
  ghost predicate Drying(s: State) {
    && Accounted(s) && !s.crashed && s.inTable && s.result.None? && |s.scheduled| == 1
    && s.pendingFlushes == 0 && s.writeHook && !s.targetClosed
    && (s.pendingReads == map[] || s.transferred < s.transferLen)
  }

  /** A read comes back with nothing while there is no room, and no other is issued. */
  lemma ReadRunsDry(s: State, conn: Conn)
    requires Drying(s) && conn in s.pendingReads
    ensures var t := Step(s, ReadDone(conn, Data([], true, true, false)));
            Drying(t) && |t.pendingReads| < |s.pendingReads|
  {
    var e := ReadDone(conn, Data([], true, true, false));
    StepAccounted(s, e);
    assert Step(s, e) == Unref(Written(Received(s, conn, []), []));
    assert s.pendingReads == (s.pendingReads - {conn})[conn := s.pendingReads[conn]];
  }

  /** The delivery of the outcome releases the object. */
  lemma DeliveryReleases(s: State)
    requires Drying(s) && s.pendingReads == map[]
    ensures Dangling(Step(s, Idle))
  {
    assert s.refs == 2;
    assert Step(s, Idle) == IdleStep(s);
  }

  lemma {:induction false} DriesUp(s: State) returns (es: seq<Event>)
    requires Drying(s)
    ensures Dangling(Run(s, es)) && Avoids(s, es, Lingers)
    decreases |s.pendingReads|
  {
    hide Step, Drying, Dangling, AnnouncedLength;
    if s.pendingReads == map[] {
      DeliveryReleases(s);
      es := [Idle];
      assert Run(s, es) == Run(Step(s, Idle), []);
      assert Avoids(s, es, Lingers);
    } else {
      var conn :| conn in s.pendingReads;
      var read := ReadDone(conn, Data([], true, true, false));
      ReadRunsDry(s, conn);
      var rest := DriesUp(Step(s, read));
      es := [read] + rest;
      assert es[1..] == rest;
    }
  }

  lemma LingeringDries(s: State, e: Event)
    requires Consistent(s) && Accounted(s) && Lingers(s, e)
    ensures Drying(Step(s, e))
  {
    Reopened(s, e);
    ReopenedReads(s, e);
  }

  // ----- otherwise it cannot -----------------------------------------------------------

  /** A flush or a read must end before the object is released, and takes the handler with it. */
  predicate Bound(s: State) {
    && s.pushes > 0 && s.result.None?
    && (s.crashed || Detached(s) || s.pendingFlushes > 0
        || (s.pendingReads != map[] && s.transferred >= AnnouncedLength(s.cfg)))
  }

  lemma StepBound(s: State, e: Event)
    requires Bound(s) && Consistent(s) && !Reopens(s, e)
    ensures Bound(Step(s, e))
  {
    hide ReadStep, ReadSize, PushStep, Fail, AnnouncedLength;
    if Alive(s) {
      match e
      case Push(_, _, _) => PushBound(s, e);
      case TargetWritable(_) =>
      case ReadDone(conn, outcome) => ReadDoneBound(s, conn, outcome);
      case FlushDone =>
      case TargetClose => FailBound(s.(targetClosed := true), Dropped, TargetAborted);
      case SourceClose(conn) => FailBound(s.(closedConns := s.closedConns + {conn}), Dropped, SourceAborted);
      case StartTimeout =>
      case Cancel =>
      case Idle =>
    }
  }

  lemma PushBound(s: State, e: Event)
    requires Bound(s) && Alive(s) && e.Push? && !Reopens(s, e)
    ensures Bound(PushStep(s, e.conn, e.headersOk, e.writable))
  {
    hide ReadSize, AnnouncedLength, Normalised, Length;
    var t := Measured(Connected(s, e.conn)).(writeHook := true, status := Active);
    assert Read(t, e.writable).pendingReads != map[] || s.pendingReads == map[] by {
      if s.pendingReads != map[] {
        var c :| c in s.pendingReads;
        assert c in Read(t, e.writable).pendingReads;
      }
    }
  }

  lemma FailBound(s: State, why: Failure, status: Status)
    requires s.pushes > 0 && s.result.None? && status != Completed
    ensures Bound(Fail(s, why, status))
  {
    hide AnnouncedLength;
  }

  lemma GiveUpBound(s: State, why: Failure)
    requires s.pushes > 0 && s.result.None?
    ensures Bound(GiveUp(s, why))
  {
    hide AnnouncedLength;
  }

  lemma ReadDoneBound(s: State, conn: Conn, outcome: ReadResult)
    requires Bound(s) && Consistent(s) && !s.crashed
    ensures Bound(ReadStep(s, conn, outcome))
  {
    hide GiveUp, Forward, AnnouncedLength, Consistent;
    if ReadAllowed(s, conn, outcome) {
      match outcome
      case ReadError => GiveUpBound(Received(s, conn, []), ReadFailed);
      case Data(bytes, writeOk, respondOk, writable) =>
        if writeOk && !s.targetClosed {
          assert s.transferLen == AnnouncedLength(s.cfg) by { ConsistentLength(s); }
          ForwardBound(Written(Received(s, conn, bytes), bytes), respondOk, writable);
        } else {
          GiveUpBound(Received(s, conn, bytes), WriteFailed);
        }
    }
  }

  lemma ConsistentLength(s: State)
    requires Consistent(s) && s.pushes > 0
    ensures s.transferLen == AnnouncedLength(s.cfg)
  {}

  lemma ForwardBound(s: State, respondOk: bool, writable: bool)
    requires s.pushes > 0 && s.result.None? && s.transferLen == AnnouncedLength(s.cfg)
    requires Detached(s) || s.pendingFlushes > 0 || s.transferred >= s.transferLen
    ensures Bound(Forward(s, respondOk, writable))
  {
    hide Unref, Finishing, Read, AnnouncedLength;
    if s.transferred == s.transferLen {
      FinishingFlushes(s, respondOk);
      UnrefKeepsFlushes(Finishing(s, respondOk));
    } else {
      ReadKeepsFlushes(s, writable);
      UnrefKeepsFlushes(Read(s, writable));
    }
  }

  /** The handler is gone, or something that takes it along has to happen before the object is released. */
  predicate Kept(s: State) {
    Detached(s) || Bound(s)
  }

  lemma StepKept(s: State, e: Event)
    requires Kept(s) && Consistent(s) && Accounted(s) && !Lingers(s, e)
    ensures Kept(Step(s, e))
  {
    if Reopens(s, e) {
      Reopened(s, e);
      ReopenedReads(s, e);
    } else {
      hide Step, Reopens, Bound, Detached, Accounted;
      if Detached(s) {
        StepDetached(s, e);
      } else {
        StepBound(s, e);
      }
    }
  }

  lemma {:induction false} RunKept(s: State, es: seq<Event>)
    requires Kept(s) && Consistent(s) && Accounted(s) && Avoids(s, es, Lingers)
    ensures Kept(Run(s, es)) && Consistent(Run(s, es)) && Accounted(Run(s, es))
    decreases |es|
  {
    hide Step, Kept, Consistent, Accounted, Lingers;
    if es != [] {
      StepKept(s, es[0]);
      StepConsistent(s, es[0]);
      StepAccounted(s, es[0]);
      RunKept(Step(s, es[0]), es[1..]);
    }
  }

  /** A state of a run without a push that lingers. */
  ghost predicate QuietlyReached(s: State) {
    exists es: seq<Event> :: Avoids(Initial(s.cfg), es, Lingers) && s == Run(Initial(s.cfg), es)
  }

  lemma QuietKept(s: State)
    requires QuietlyReached(s)
    ensures Kept(s) && Consistent(s) && Accounted(s)
  {
    var es: seq<Event> :| Avoids(Initial(s.cfg), es, Lingers) && s == Run(Initial(s.cfg), es);
    RunKept(Initial(s.cfg), es);
  }

  lemma KeptNotDangling(s: State)
    requires Kept(s) && Accounted(s)
    ensures !Dangling(s)
  {}

  /** In every run without such a push, with any number of pushes, no released object can be called back. */
  lemma WriteHandlerGone(s: State)
    requires QuietlyReached(s)
    ensures !Dangling(s)
  {
    QuietKept(s);
    KeptNotDangling(s);
  }

  // ----- the exact condition -----------------------------------------------------------

  /** The run goes on after `s`, without another such push, and leaves the write handler behind. */
  predicate LeavesHandler(s: State, more: seq<Event>) {
    Avoids(s, more, Lingers) && Dangling(Run(s, more))
  }

  ghost predicate CanDangle(s: State) {
    exists more: seq<Event> :: LeavesHandler(s, more)
  }

  /**
    The condition is exact, for any number of pushes: in a run without a push that lingers, the
    next event makes it possible that the write handler outlives the object if and only if it is
    one.
   */
  lemma DanglingIff(s: State, e: Event)
    requires QuietlyReached(s)
    ensures Lingers(s, e) <==> CanDangle(Step(s, e))
  {
    QuietKept(s);
    var t := Step(s, e);
    if Lingers(s, e) {
      LingeringDries(s, e);
      hide Step, Drying, Dangling, Lingers;
      var more := DriesUp(t);
      assert LeavesHandler(t, more);
    } else {
      StepKept(s, e);
      StepConsistent(s, e);
      StepAccounted(s, e);
      hide Step, Kept, Consistent, Accounted, Lingers, Dangling;
      forall more | Avoids(t, more, Lingers)
        ensures !Dangling(Run(t, more))
      {
        RunKept(t, more);
        KeptNotDangling(Run(t, more));
      }
    }
  }

  /** It happens: the timeout is answered, a seeder pushes at that moment, and the outcome is delivered. */
  lemma TimedOutTransferDangles(cfg: Config)
    ensures Dangling(Run(Initial(cfg), [StartTimeout, FlushDone, Push(0, true, false), Idle]))
  {
    var s := FlushStep(TimeoutStep(Initial(cfg)));
    var t := PushStep(s, 0, true, false);
    assert s.refs == 2 && t.refs == 2 && t.writeHook;
    RunFour(Initial(cfg), StartTimeout, FlushDone, Push(0, true, false), Idle);
    assert Step(t, Idle) == IdleStep(t);
  }
}
