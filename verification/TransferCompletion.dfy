/**
  How a transfer of a whole, non-empty source ends: what each outcome says about the body,
  that the internal assertion cannot fail, and that nothing is lost on the way there.
 */
module TransferCompletion {
  import opened Common
  import opened Words
  import opened TransferSpec
  import opened TransferAccounting
  import opened TransferSafety

  /** The announced length is the size of the source, and there is something to send. */
  predicate WholeSource(cfg: Config) {
    AnnouncedLength(cfg) == cfg.size && 0 < cfg.size < TWO_64
  }

  /** The failures that cut a transfer short. */
  predicate Cut(o: Outcome) {
    o == Failed(Dropped) || o == Failed(ReadFailed) || o == Failed(WriteFailed)
  }

  /** The failures that by themselves say nothing about how much was written. */
  predicate Undecided(o: Outcome) {
    o == Failed(TimedOut) || o == Failed(Cancelled)
  }

  predicate Ended(s: State, o: Outcome) {
    o in s.scheduled || o in s.delivered
  }

  /** The close handlers are there only while octets are missing. */
  ghost predicate Watching(s: State) {
    && (s.targetCloseHook ==> s.transferred < s.cfg.size)
    && (s.sourceCloseHooks != {} ==> s.transferred < s.cfg.size)
    && s.sourceCloseHooks <= Conns(s)
  }

  /** What an outcome that has been handed over says. */
  ghost predicate Verdict(s: State) {
    && (Ended(s, Success) ==> s.flushes == 1)
    && (forall o :: Ended(s, o) && Cut(o) ==> s.targetClosed && s.transferred < s.cfg.size)
  }

  /** While the result is still open, it is a success in the making or it has timed out. */
  ghost predicate Hopeful(s: State) {
    && (s.result.Some? ==> s.result.value in {Success, Failed(TimedOut)})
    && (s.result == Some(Success) ==>
          if s.transferred < s.cfg.size then
            && s.targetCloseHook && !s.targetClosed && s.flushes == s.pendingFlushes == 0
            && (s.writeHook ==> s.status == Active)
          else
            s.flushes == s.pendingFlushes == 1)
  }

  ghost predicate Whole(s: State) {
    && WholeSource(s.cfg)
    && Watching(s) && Verdict(s) && Hopeful(s)
  }

  // ----- building blocks ---------------------------------------------------------------

  lemma UnrefWhole(s: State)
    requires Whole(s) && AccountedBut(s)
    ensures Whole(Unref(s))
  {}

  lemma CompleteWhole(s: State)
    requires WholeSource(s.cfg) && Watching(s) && Verdict(s)
    requires s.result == Some(Success) ==> s.flushes == 1
    requires s.result.Some? && Cut(s.result.value) ==> s.status != Completed && s.transferred < s.cfg.size
    ensures Whole(Complete(s))
  {
    var t := Complete(s);
    forall o | Ended(t, o) && Cut(o)
      ensures t.targetClosed && t.transferred < t.cfg.size
    {
      assert Ended(s, o) || s.result == Some(o);
    }
    assert Ended(t, Success) ==> Ended(s, Success) || s.result == Some(Success);
  }

  lemma FailWhole(s: State, why: Failure, status: Status)
    requires WholeSource(s.cfg) && Watching(s) && Verdict(s)
    requires status != Completed
    requires Cut(Failed(why)) ==> s.transferred < s.cfg.size
    ensures Whole(Fail(s, why, status))
  {
    var t := SetError(s, why).(status := status);
    assert Watching(t) && Verdict(t);
    hide Watching, Verdict, Hopeful;
    CompleteWhole(t);
  }

  lemma ForwardWhole(s: State, conn: Conn, bytes: seq<Byte>, respondOk: bool, writable: bool)
    requires Safe(s) && Whole(s) && Accounted(s) && !s.crashed
    requires conn in s.pendingReads && |bytes| <= s.pendingReads[conn] && !s.targetClosed
    ensures Whole(Forward(Written(Received(s, conn, bytes), bytes), respondOk, writable))
  {
    var t := Written(Received(s, conn, bytes), bytes);
    assert AccountedBut(t) by { ReceivedAccounted(s, conn, bytes); }
    assert t.transferred <= t.cfg.size == t.transferLen;
    if t.transferred == t.transferLen {
      FinishingWhole(s, t, respondOk);
    } else {
      assert Whole(t);
      ReadWhole(t, writable);
      ReadAccounted(t, writable);
      hide Whole, Accounted, AccountedBut, Safe;
      UnrefWhole(Read(t, writable));
    }
  }

  lemma ReadWhole(s: State, writable: bool)
    requires Whole(s)
    ensures Whole(Read(s, writable))
  {}

  /** The last block turns a success in the making into one flush. */
  lemma FinishingWhole(s: State, t: State, respondOk: bool)
    requires Safe(s) && Whole(s) && !s.targetClosed && s.transferred < s.cfg.size
    requires t.transferred == t.cfg.size
    requires t == s.(pendingReads := t.pendingReads, consumed := t.consumed, body := t.body,
                     transferred := t.transferred, blocks := t.blocks)
    requires AccountedBut(t)
    ensures Whole(Unref(Finishing(t, respondOk)))
  {
    var u := Finishing(t, respondOk);
    assert Whole(u);
    assert AccountedBut(u);
    hide Whole, AccountedBut;
    UnrefWhole(u);
  }

  // ----- callbacks ---------------------------------------------------------------------

  lemma GiveUpWhole(s: State, conn: Conn, bytes: seq<Byte>, why: Failure)
    requires Safe(s) && Whole(s) && Accounted(s) && !s.crashed && conn in s.pendingReads
    ensures Whole(GiveUp(Received(s, conn, bytes), why))
  {
    var t := Received(s, conn, bytes);
    assert s.transferred < s.cfg.size && WholeSource(t.cfg) && Watching(t) && Verdict(t);
    ReceivedAccounted(s, conn, bytes);
    GivesUpWhole(t, why);
  }

  lemma GivesUpWhole(s: State, why: Failure)
    requires WholeSource(s.cfg) && Watching(s) && Verdict(s) && AccountedBut(s) && s.transferred < s.cfg.size
    ensures Whole(GiveUp(s, why))
  {
    hide WholeSource, Watching, Verdict, Whole, AccountedBut, Fail, Unref;
    FailWhole(s, why, Error);
    FailAccounted(s, why, Error);
    UnrefWhole(Fail(s, why, Error));
  }

  lemma ReadDoneWhole(s: State, conn: Conn, outcome: ReadResult)
    requires Safe(s) && Whole(s) && Accounted(s) && !s.crashed
    ensures Whole(ReadStep(s, conn, outcome))
  {
    hide Safe, Whole, Accounted, GiveUp, Forward;
    if ReadAllowed(s, conn, outcome) {
      match outcome
      case ReadError => GiveUpWhole(s, conn, [], ReadFailed);
      case Data(bytes, writeOk, respondOk, writable) =>
        if writeOk && !s.targetClosed {
          ForwardWhole(s, conn, bytes, respondOk, writable);
        } else {
          GiveUpWhole(s, conn, bytes, WriteFailed);
        }
    }
  }

  lemma FlushWhole(s: State)
    requires Safe(s) && Whole(s) && Accounted(s) && !s.crashed
    ensures Whole(FlushStep(s))
  {
    if s.pendingFlushes > 0 {
      CompleteWhole(Flushed(s));
      CompleteAccounted(Flushed(s));
      UnrefWhole(Complete(Flushed(s)));
    }
  }

  lemma CloseWhole(s: State, conn: Conn)
    requires Safe(s) && Whole(s)
    ensures Whole(TargetCloseStep(s)) && Whole(SourceCloseStep(s, conn))
  {
    if s.targetCloseHook {
      FailWhole(s.(targetClosed := true), Dropped, TargetAborted);
    }
    if conn in s.sourceCloseHooks {
      FailWhole(s.(closedConns := s.closedConns + {conn}), Dropped, SourceAborted);
    }
  }

  lemma CancelWhole(s: State)
    requires Whole(s)
    ensures Whole(CancelStep(s))
  {
    FailWhole(s, Cancelled, SourceAborted);
  }

  lemma TimeoutWhole(s: State)
    requires Whole(s) && Accounted(s)
    ensures Whole(TimeoutStep(s))
  {}

  lemma DeliveredWhole(s: State)
    requires Whole(s) && s.scheduled != []
    ensures Whole(Delivered(s)) && Whole(Delivered(s).(refs := s.refs - 1))
  {
    assert forall o :: Ended(Delivered(s), o) ==> Ended(s, o);
  }

  lemma IdleWhole(s: State)
    requires Whole(s) && Accounted(s) && !s.crashed
    ensures Whole(IdleStep(s))
  {
    if s.scheduled != [] {
      var t := Delivered(s);
      DeliveredWhole(s);
      assert AccountedBut(t.(refs := t.refs - 1)) && Unref(t) == t.(refs := t.refs - 1);
      hide Whole, AccountedBut, Accounted;
      UnrefWhole(Unref(t));
    }
  }

  lemma PushWhole(s: State, conn: Conn, headersOk: bool, writable: bool)
    requires Safe(s) && Whole(s) && Accounted(s) && PushStep(s, conn, headersOk, writable).pushes <= 1
    ensures Whole(PushStep(s, conn, headersOk, writable))
  {}

  lemma StepWhole(s: State, e: Event)
    requires Safe(s) && Whole(s) && Accounted(s) && Step(s, e).pushes <= 1
    ensures Whole(Step(s, e))
  {
    if Alive(s) {
      CancelWhole(s);
      hide Whole, Safe, Accounted;
      match e
      case Push(conn, headersOk, writable) => PushWhole(s, conn, headersOk, writable);
      case TargetWritable(writable) => ReadWhole(s, writable);
      case ReadDone(conn, outcome) => ReadDoneWhole(s, conn, outcome);
      case FlushDone => FlushWhole(s);
      case TargetClose => CloseWhole(s, 0);
      case SourceClose(conn) => CloseWhole(s, conn);
      case StartTimeout => TimeoutWhole(s);
      case Cancel =>
      case Idle => IdleWhole(s);
    }
  }

  /** Everything that is known of a run in which one seeder pushes a whole source. */
  ghost predicate Invariant(s: State) {
    Safe(s) && Accounted(s) && Whole(s)
  }

  lemma StepInvariant(s: State, e: Event)
    requires Invariant(s) && Step(s, e).pushes <= 1
    ensures Invariant(Step(s, e))
  {
    hide Safe, Accounted, Whole;
    StepSafe(s, e);
    StepAccounted(s, e);
    StepWhole(s, e);
  }

  lemma {:induction false} RunInvariant(s: State, es: seq<Event>)
    requires Invariant(s) && Run(s, es).pushes <= 1
    ensures Invariant(Run(s, es))
    decreases |es|
  {
    hide Invariant, Step;
    if es != [] {
      StepInvariant(s, es[0]);
      RunInvariant(Step(s, es[0]), es[1..]);
    }
  }

  // ----- results -----------------------------------------------------------------------

  lemma InitialInvariant(cfg: Config)
    requires WholeSource(cfg)
    ensures Invariant(Initial(cfg))
  {}

  lemma OnePushInvariant(s: State)
    requires WholeSource(s.cfg) && OnePush(s)
    ensures Invariant(s)
  {
    var es: seq<Event> :| s == Run(Initial(s.cfg), es);
    InitialInvariant(s.cfg);
    hide Invariant;
    RunInvariant(Initial(s.cfg), es);
  }

  /** The assertion that no more than the announced length is relayed never fails. */
  lemma NeverAborted(s: State)
    requires WholeSource(s.cfg) && OnePush(s)
    ensures !s.crashed
  {
    OnePushInvariant(s);
  }

  /** A started transfer that may still succeed and has octets to go is active, with its target open. */
  lemma ActiveWhileRelaying(s: State)
    requires WholeSource(s.cfg) && OnePush(s)
    requires s.result == Some(Success) && s.writeHook && s.transferred < s.cfg.size
    ensures s.status == Active && !s.targetClosed && s.targetCloseHook
  {
    OnePushInvariant(s);
  }

  lemma Kinds(o: Outcome)
    ensures o == Success || Cut(o) || Undecided(o)
  {
    if o.Failed? {
      match o.why
      case Dropped =>
      case ReadFailed =>
      case WriteFailed =>
      case TimedOut =>
      case Cancelled =>
    }
  }

  lemma EndedTells(s: State, o: Outcome)
    requires Invariant(s) && o in s.delivered
    ensures o == Success ==> |s.body| == s.cfg.size && s.flushes == 1
    ensures o == Success ==> (s.cfg.size + 0x3fff) / 0x4000 <= s.blocks <= s.cfg.size
    ensures Cut(o) ==> |s.body| < s.cfg.size
  {
    assert Ended(s, o);
  }

  /**
    What the delivered outcome says: a success means that the whole source was written, in a
    number of blocks between size/0x4000, rounded up, and size, and flushed once; a drop, a
    failed read or a failed write means that something is missing. When a timeout and a
    cancellation mean that, too, is the subject of TransferVerdicts.
   */
  lemma OutcomeTells(s: State, o: Outcome)
    requires WholeSource(s.cfg) && OnePush(s) && o in s.delivered
    ensures o == Success ==> |s.body| == s.cfg.size && s.flushes == 1
    ensures o == Success ==> (s.cfg.size + 0x3fff) / 0x4000 <= s.blocks <= s.cfg.size
    ensures Cut(o) ==> |s.body| < s.cfg.size
    ensures !Undecided(o) ==> (o == Success <==> |s.body| == s.cfg.size)
  {
    hide Invariant, OnePush;
    OnePushInvariant(s);
    EndedTells(s, o);
    Kinds(o);
  }
}
