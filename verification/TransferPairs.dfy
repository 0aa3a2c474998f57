/**
  Which outcome and which status a released transfer of a whole source can have when its push,
  if there is one, may also be late.
 */
module TransferPairs {
  import opened Common
  import opened TransferSpec
  import opened TransferAccounting
  import opened TransferSafety
  import opened TransferCompletion
  import opened TransferProgress
  import opened TransferStatus
  import opened TransferEndings

  /** The status that a transfer with this outcome can have, a late push or not. */
  predicate Loosely(o: Outcome, status: Status) {
    Fitting(o, status) ||
    match o
    case Success => false
    case Failed(TimedOut) => status in {Active, Error, SourceAborted}
    case Failed(Dropped) => status in {Active, Completed}
    case Failed(ReadFailed) => status == Completed
    case Failed(WriteFailed) => status == Completed
    case Failed(Cancelled) => status == Active
  }

  /** The outcomes that a transfer can have before any push. */
  predicate Early(o: Outcome) {
    o in {Failed(Dropped), Failed(TimedOut), Failed(Cancelled)}
  }

  // ----- in every run ------------------------------------------------------------------

  /** The target's close handler is there only for a success in the making. */
  predicate Guarded(s: State) {
    s.targetCloseHook ==> s.result == Some(Success)
  }

  /** An outcome goes with the status, and is an early one as long as a push or a close can follow. */
  ghost predicate Paired(s: State) {
    && Guarded(s)
    && forall o :: Ended(s, o) ==> Loosely(o, s.status) && (s.pushes == 0 || s.sourceCloseHooks != {} ==> Early(o))
  }

  lemma PairedKept(s: State, t: State)
    requires Paired(s) && Guarded(t) && t.status == s.status
    requires forall o :: Ended(t, o) ==> Ended(s, o)
    requires t.pushes == 0 || t.sourceCloseHooks != {} ==> s.pushes == 0 || s.sourceCloseHooks != {}
    ensures Paired(t)
  {}

  lemma UnrefPaired(s: State)
    requires Paired(s)
    ensures Paired(Unref(s))
  {
    PairedKept(s, Unref(s));
  }

  /** Failing hands the outcome over, or leaves it alone and changes the status. */
  lemma FailPaired(s: State, why: Failure, status: Status)
    requires OneCompletion(s) && Paired(s) && s.sourceCloseHooks <= Conns(s)
    requires s.result.Some? ==> Loosely(Failed(why), status) && (s.pushes == 0 ==> Early(Failed(why)))
    requires s.result.None? ==> forall o :: Ended(s, o) ==> Loosely(o, status)
    ensures Paired(Fail(s, why, status))
  {
    var t := Fail(s, why, status);
    if s.result.Some? {
      assert forall o :: Ended(t, o) <==> o == Failed(why);
    } else {
      assert forall o :: Ended(t, o) <==> Ended(s, o);
    }
  }

  lemma PushPaired(s: State, e: Event)
    requires Invariant(s) && Paired(s) && Alive(s) && e.Push? && Step(s, e).pushes <= 1
    ensures Paired(Step(s, e))
  {
    var t := Step(s, e);
    assert t == PushStep(s, e.conn, e.headersOk, e.writable);
    assert forall o :: Ended(t, o) <==> Ended(s, o);
  }

  lemma WritablePaired(s: State, writable: bool)
    requires Paired(s)
    ensures Paired(WritableStep(s, writable))
  {
    hide ReadSize, Loosely, Early;
    PairedKept(s, WritableStep(s, writable));
  }

  /** With a read pending, a success is still to come. */
  lemma PendingPaired(s: State, conn: Conn, bytes: seq<Byte>)
    requires Invariant(s) && Paired(s) && conn in s.pendingReads
    ensures Paired(Received(s, conn, bytes)) && OneCompletion(Received(s, conn, bytes))
    ensures s.pushes == 1 && s.sourceCloseHooks <= Conns(s) && !Ended(s, Success)
  {
    hide Loosely, Early;
    PairedKept(s, Received(s, conn, bytes));
  }

  lemma ErrorIsLoose(o: Outcome)
    requires o != Success
    ensures Loosely(o, Error)
  {
    match o {
      case Failed(why) =>
        match why
        case Dropped =>
        case ReadFailed =>
        case WriteFailed =>
        case TimedOut =>
        case Cancelled =>
    }
  }

  lemma CompletedIsLoose(o: Outcome)
    ensures Loosely(o, Completed)
  {
    match o
    case Success =>
    case Failed(why) =>
      match why
      case Dropped =>
      case ReadFailed =>
      case WriteFailed =>
      case TimedOut =>
      case Cancelled =>
  }

  lemma GiveUpPaired(s: State, conn: Conn, bytes: seq<Byte>, why: Failure)
    requires Invariant(s) && Paired(s) && conn in s.pendingReads && why in {ReadFailed, WriteFailed}
    ensures Paired(GiveUp(Received(s, conn, bytes), why))
  {
    var t := Received(s, conn, bytes);
    PendingPaired(s, conn, bytes);
    ErrorIsLoose(Failed(why));
    forall o | Ended(t, o)
      ensures Loosely(o, Error)
    {
      assert Ended(s, o);
      ErrorIsLoose(o);
    }
    hide Invariant, Paired, Loosely, Early, Fail, Unref;
    FailPaired(t, why, Error);
    UnrefPaired(Fail(t, why, Error));
  }

  lemma ForwardPaired(s: State, respondOk: bool, writable: bool)
    requires Paired(s) && s.pushes == 1 && !Ended(s, Success)
    ensures Paired(Forward(s, respondOk, writable))
  {
    hide Unref, Read;
    if s.transferred > s.transferLen {
      PairedKept(s, s.(crashed := true));
    } else if s.transferred == s.transferLen {
      FinishingPaired(s, respondOk);
      UnrefPaired(Finishing(s, respondOk));
    } else {
      ReadPaired(s, writable);
      UnrefPaired(Read(s, writable));
    }
  }

  lemma ReadPaired(s: State, writable: bool)
    requires Paired(s)
    ensures Paired(Read(s, writable))
  {
    hide ReadSize, Loosely, Early;
    PairedKept(s, Read(s, writable));
  }

  lemma FinishingPaired(s: State, respondOk: bool)
    requires Paired(s) && s.pushes == 1 && !Ended(s, Success)
    ensures Paired(Finishing(s, respondOk))
  {
    var t := Finishing(s, respondOk);
    forall o | Ended(t, o)
      ensures Loosely(o, t.status) && (t.pushes == 0 || t.sourceCloseHooks != {} ==> Early(o))
    {
      assert Ended(s, o);
      ErrorIsLoose(o);
    }
  }

  lemma ReadDonePaired(s: State, conn: Conn, outcome: ReadResult)
    requires Invariant(s) && Paired(s)
    ensures Paired(ReadStep(s, conn, outcome))
  {
    hide Invariant, Paired, GiveUp, Forward;
    if ReadAllowed(s, conn, outcome) {
      match outcome
      case ReadError => GiveUpPaired(s, conn, [], ReadFailed);
      case Data(bytes, writeOk, respondOk, writable) =>
        if writeOk && !s.targetClosed {
          PendingPaired(s, conn, bytes);
          WrittenPaired(Received(s, conn, bytes), bytes);
          ForwardPaired(Written(Received(s, conn, bytes), bytes), respondOk, writable);
        } else {
          GiveUpPaired(s, conn, bytes, WriteFailed);
        }
    }
  }

  lemma WrittenPaired(s: State, bytes: seq<Byte>)
    requires Paired(s) && !Ended(s, Success)
    ensures Paired(Written(s, bytes)) && !Ended(Written(s, bytes), Success)
  {
    hide Loosely, Early;
    PairedKept(s, Written(s, bytes));
  }

  lemma FlushPaired(s: State)
    requires Invariant(s) && Paired(s)
    ensures Paired(FlushStep(s))
  {
    if s.pendingFlushes > 0 {
      var t := Complete(Flushed(s));
      assert s.sourceCloseHooks <= Conns(s);
      assert s.result.Some? && s.pushes == 0 ==> s.result == Some(Failed(TimedOut));
      assert forall o :: Ended(t, o) <==> Ended(s, o) || s.result == Some(o);
      forall o | Ended(t, o)
        ensures Loosely(o, Completed)
      {
        CompletedIsLoose(o);
      }
      hide Loosely;
      UnrefPaired(t);
    }
  }

  lemma ClosePaired(s: State, conn: Conn)
    requires Invariant(s) && Paired(s)
    ensures Paired(TargetCloseStep(s)) && Paired(SourceCloseStep(s, conn))
  {
    var t, u := s.(targetClosed := true), s.(closedConns := s.closedConns + {conn});
    assert s.sourceCloseHooks <= Conns(s) && OneCompletion(s);
    PairedKept(s, t);
    PairedKept(s, u);
    hide Fail, Invariant;
    if s.targetCloseHook {
      FailPaired(t, Dropped, TargetAborted);
    }
    if conn in s.sourceCloseHooks {
      assert forall o :: Ended(u, o) ==> Early(o);
      FailPaired(u, Dropped, SourceAborted);
    }
  }

  lemma TimeoutPaired(s: State)
    requires Invariant(s) && Paired(s)
    ensures Paired(TimeoutStep(s))
  {
    hide Loosely, Early;
    PairedKept(s, TimeoutStep(s));
  }

  lemma CancelPaired(s: State)
    requires Invariant(s) && Paired(s)
    ensures Paired(CancelStep(s))
  {
    if s.result.Some? {
      FailPaired(s, Cancelled, SourceAborted);
    }
  }

  lemma IdlePaired(s: State)
    requires Paired(s)
    ensures Paired(IdleStep(s))
  {
    if s.scheduled != [] {
      PairedKept(s, Delivered(s));
      hide Paired;
      UnrefPaired(Delivered(s));
      UnrefPaired(Unref(Delivered(s)));
    }
  }

  lemma StepPaired(s: State, e: Event)
    requires Invariant(s) && Paired(s) && Step(s, e).pushes <= 1
    ensures Paired(Step(s, e))
  {
    if Alive(s) {
      hide Invariant, Paired;
      match e
      case Push(_, _, _) => PushPaired(s, e);
      case TargetWritable(writable) => WritablePaired(s, writable);
      case ReadDone(conn, outcome) => ReadDonePaired(s, conn, outcome);
      case FlushDone => FlushPaired(s);
      case TargetClose => ClosePaired(s, 0);
      case SourceClose(conn) => ClosePaired(s, conn);
      case StartTimeout => TimeoutPaired(s);
      case Cancel => CancelPaired(s);
      case Idle => IdlePaired(s);
    }
  }

  lemma {:induction false} RunPaired(s: State, es: seq<Event>)
    requires Invariant(s) && Paired(s) && Run(s, es).pushes <= 1
    ensures Paired(Run(s, es))
    decreases |es|
  {
    hide Invariant, Paired, Step;
    if es != [] {
      StepPaired(s, es[0]);
      StepInvariant(s, es[0]);
      RunPaired(Step(s, es[0]), es[1..]);
    }
  }

  lemma OnePushPaired(s: State)
    requires WholeSource(s.cfg) && OnePush(s)
    ensures Paired(s)
  {
    var es: seq<Event> :| s == Run(Initial(s.cfg), es);
    InitialInvariant(s.cfg);
    assert Paired(Initial(s.cfg));
    RunPaired(Initial(s.cfg), es);
  }

  // ----- every such pair occurs --------------------------------------------------------

  predicate OneTry(cfg: Config, es: seq<Event>) {
    WholeSource(cfg) && Run(Initial(cfg), es).pushes <= 1
  }

  lemma Appends(cfg: Config, es: seq<Event>, e: Event)
    requires OneTry(cfg, es) && (e.Push? ==> Run(Initial(cfg), es).pushes == 0)
    ensures OneTry(cfg, es + [e]) && Run(Initial(cfg), es + [e]) == Step(Run(Initial(cfg), es), e)
  {
    hide Step;
    var s := Run(Initial(cfg), es);
    RunConcat(Initial(cfg), es, [e]);
    SingleEvent(s, e, []);
    if e.Push? {
      PushesOnceMore(s, e);
    } else {
      PushesKept(s, e);
    }
  }

  lemma PushesOnceMore(s: State, e: Event)
    requires e.Push?
    ensures Step(s, e).pushes <= s.pushes + 1
  {
    hide Read;
  }

  /** A push that finds the outcome handed over, and no room, leaves the transfer active. */
  lemma LatePushActivates(cfg: Config, es: seq<Event>, o: Outcome) returns (longer: seq<Event>)
    requires OneTry(cfg, es) && Handed(Run(Initial(cfg), es), o) && Run(Initial(cfg), es).pushes == 0
    ensures OneTry(cfg, longer) && Handed(Run(Initial(cfg), longer), o)
    ensures Run(Initial(cfg), longer).status == Active
  {
    var s, push := Run(Initial(cfg), es), Push(0, true, false);
    RunAccounted(Initial(cfg), es);
    Appends(cfg, es, push);
    assert Step(s, push) == PushStep(s, 0, true, false);
    longer := es + [push];
  }

  /** The read that a late push has started fails. */
  lemma LateReadFails(cfg: Config) returns (es: seq<Event>)
    requires WholeSource(cfg)
    ensures OneTry(cfg, es) && Handed(Run(Initial(cfg), es), Failed(TimedOut))
    ensures Run(Initial(cfg), es).status == Error
  {
    var late := TimesOut(cfg);
    var s, push, read := Run(Initial(cfg), late), Push(0, true, true), ReadDone(0, ReadError);
    RunInvariant(Initial(cfg), late);
    Appends(cfg, late, push);
    LatePushReads(s);
    Appends(cfg, late + [push], read);
    ReadFailsLate(Step(s, push));
    es := late + [push] + [read];
  }

  lemma LatePushReads(s: State)
    requires Invariant(s) && s.pushes == 0 && s.delivered == [] && !s.crashed
    ensures var t := Step(s, Push(0, true, true));
            && Alive(t) && t.pendingReads.Keys == {0} && t.sourceConn == Some(0) && t.sourceCloseHooks == {0}
            && t.result == s.result && t.scheduled == s.scheduled && t.pendingFlushes == s.pendingFlushes
            && t.delivered == [] && t.inTable && t.targetClosed == s.targetClosed
  {
    UnpushedIsBlank(s);
    hide Invariant, ReadSize;
    var t := Measured(Connected(s, 0)).(writeHook := true, status := Active);
    assert ReadSize(t) == ReadSize(s) by { SameReadSize(s, t); }
    assert Step(s, Push(0, true, true)) == Read(t, true);
  }

  lemma SameReadSize(s: State, t: State)
    requires s.cfg == t.cfg && s.transferred == t.transferred
    ensures ReadSize(s) == ReadSize(t)
  {}

  lemma UnpushedIsBlank(s: State)
    requires Invariant(s) && s.pushes == 0 && s.delivered == [] && !s.crashed
    ensures s.pendingReads == map[] && s.sourceCloseHooks == {} && ReadSize(s) > 0
    ensures Alive(s) && s.inTable
  {
    assert s.transferred == 0 && s.cfg.size > 0;
  }

  lemma HandedPushDrops(s: State, o: Outcome)
    requires Handed(s, o) && Accounted(s)
    ensures var t := Step(Step(s, Push(0, false, false)), SourceClose(0));
            Handed(t, o) && t.status == SourceAborted
  {
    var t := Step(s, Push(0, false, false));
    assert t == PushStep(s, 0, false, false);
    assert Step(t, SourceClose(0)) == SourceCloseStep(t, 0);
  }

  /** The connection that a late push has brought goes away. */
  lemma LateSourceDrops(cfg: Config) returns (es: seq<Event>)
    requires WholeSource(cfg)
    ensures OneTry(cfg, es) && Handed(Run(Initial(cfg), es), Failed(TimedOut))
    ensures Run(Initial(cfg), es).status == SourceAborted
  {
    var late := TimesOut(cfg);
    var s, push := Run(Initial(cfg), late), Push(0, false, false);
    RunAccounted(Initial(cfg), late);
    Appends(cfg, late, push);
    Appends(cfg, late + [push], SourceClose(0));
    HandedPushDrops(s, Failed(TimedOut));
    es := late + [push] + [SourceClose(0)];
  }

  /** The outcome has been handed over while the answer to the timeout was being flushed. */
  lemma FlushEndsLate(s: State, o: Outcome)
    requires Alive(s) && s.result.None? && s.scheduled == [o] && s.pendingReads == map[] && s.pendingFlushes == 1
    ensures Handed(Step(s, FlushDone), o) && Step(s, FlushDone).status == Completed
  {
    assert Step(s, FlushDone) == FlushStep(s);
  }

  /** A seeder pushes while the answer to the timeout is being flushed. */
  lemma PushedInAnswer(cfg: Config) returns (es: seq<Event>)
    requires WholeSource(cfg)
    ensures OneTry(cfg, es)
    ensures var s := Run(Initial(cfg), es);
            && Alive(s) && s.refs > 2 && s.pendingReads.Keys == {0} && s.sourceConn == Some(0)
            && s.sourceCloseHooks == {0} && s.result == Some(Failed(TimedOut)) && s.scheduled == []
            && s.pendingFlushes == 1
  {
    var timeout, push := StartTimeout, Push(0, true, true);
    assert OneTry(cfg, []);
    Appends(cfg, [], timeout);
    var s := Run(Initial(cfg), [] + [timeout]);
    assert s == TimeoutStep(Initial(cfg));
    RunInvariant(Initial(cfg), [] + [timeout]);
    Appends(cfg, [] + [timeout], push);
    LatePushReads(s);
    RunAccounted(Initial(cfg), [] + [timeout] + [push]);
    es := [] + [timeout] + [push];
  }

  lemma ReadEndsInAnswer(cfg: Config, refused: bool) returns (es: seq<Event>)
    requires WholeSource(cfg)
    ensures OneTry(cfg, es)
    ensures Handed(Run(Initial(cfg), es), Failed(if refused then WriteFailed else ReadFailed))
    ensures Run(Initial(cfg), es).status == Completed
  {
    var push := PushedInAnswer(cfg);
    var s := Run(Initial(cfg), push);
    var outcome := if refused then Data([], false, true, true) else ReadError;
    Appends(cfg, push, ReadDone(0, outcome));
    Appends(cfg, push + [ReadDone(0, outcome)], FlushDone);
    PendingReadEnds(s, outcome);
    FlushEndsLate(Step(s, ReadDone(0, outcome)), Failed(if refused then WriteFailed else ReadFailed));
    es := push + [ReadDone(0, outcome)] + [FlushDone];
  }

  lemma PendingReadEnds(s: State, outcome: ReadResult)
    requires Alive(s) && s.refs > 2 && s.pendingReads.Keys == {0} && s.result.Some? && s.scheduled == []
    requires outcome == ReadError || outcome == Data([], false, true, true)
    ensures var t := Step(s, ReadDone(0, outcome));
            && Alive(t) && t.result.None? && t.pendingReads == map[] && t.pendingFlushes == s.pendingFlushes
            && t.scheduled == [Failed(if outcome.ReadError? then ReadFailed else WriteFailed)]
  {
    assert Step(s, ReadDone(0, outcome))
        == GiveUp(Received(s, 0, []), if outcome.ReadError? then ReadFailed else WriteFailed);
    assert s.pendingReads - {0} == map[];
  }

  lemma SourceDropsInAnswer(cfg: Config) returns (es: seq<Event>)
    requires WholeSource(cfg)
    ensures OneTry(cfg, es) && Handed(Run(Initial(cfg), es), Failed(Dropped))
    ensures Run(Initial(cfg), es).status == Completed
  {
    var push := PushedInAnswer(cfg);
    var s := Run(Initial(cfg), push);
    var close, read := SourceClose(0), ReadDone(0, ReadError);
    Appends(cfg, push, close);
    var t := Step(s, close);
    assert t == SourceCloseStep(s, 0);
    assert Alive(t) && t.result.None? && t.scheduled == [Failed(Dropped)] && t.pendingReads.Keys == {0};
    Appends(cfg, push + [close], read);
    ReadFailsLate(t);
    var u := Step(t, read);
    assert Alive(u) by { RunAccounted(Initial(cfg), push + [close] + [read]); }
    Appends(cfg, push + [close] + [read], FlushDone);
    FlushEndsLate(u, Failed(Dropped));
    es := push + [close] + [read] + [FlushDone];
  }

  lemma PunctualTries(cfg: Config, es: seq<Event>)
    requires Punctual(cfg, es)
    ensures OneTry(cfg, es)
  {}

  lemma EveryLoosePair(cfg: Config, o: Outcome, status: Status) returns (es: seq<Event>)
    requires WholeSource(cfg) && Loosely(o, status) && !Fitting(o, status)
    ensures OneTry(cfg, es) && Handed(Run(Initial(cfg), es), o) && Run(Initial(cfg), es).status == status
  {
    hide OneTry, Punctual, Handed, Step, Run;
    match o {
      case Failed(TimedOut) =>
        if status == Active {
          es := TimesOut(cfg);
          PunctualTries(cfg, es);
          es := LatePushActivates(cfg, es, o);
        } else if status == Error {
          es := LateReadFails(cfg);
        } else {
          es := LateSourceDrops(cfg);
        }
      case Failed(Dropped) =>
        if status == Active {
          es := DropsTarget(cfg);
          PunctualTries(cfg, es);
          es := LatePushActivates(cfg, es, o);
        } else {
          es := SourceDropsInAnswer(cfg);
        }
      case Failed(ReadFailed) => es := ReadEndsInAnswer(cfg, false);
      case Failed(WriteFailed) => es := ReadEndsInAnswer(cfg, true);
      case Failed(Cancelled) =>
        es := CancelledAtOnce(cfg);
        PunctualTries(cfg, es);
        es := LatePushActivates(cfg, es, o);
    }
  }

  lemma HandedTryEnds(cfg: Config, es: seq<Event>, o: Outcome)
    requires OneTry(cfg, es) && Handed(Run(Initial(cfg), es), o)
    ensures OneTry(cfg, es + [Idle])
    ensures EndsAs(Run(Initial(cfg), es + [Idle]), o, Run(Initial(cfg), es).status)
  {
    var s := Run(Initial(cfg), es);
    Appends(cfg, es, Idle);
    RunAccounted(Initial(cfg), es);
    assert s.refs == 2;
    assert Step(s, Idle) == IdleStep(s);
  }

  /**
    In all runs of a whole source with at most one push, late or not, a transfer can be released
    with an outcome and a status if and only if the pair is one of the ten that fit or of the
    eight that a late push adds.
   */
  lemma LooselyIff(cfg: Config, o: Outcome, status: Status)
    requires WholeSource(cfg)
    ensures (exists s :: OnePush(s) && s.cfg == cfg && EndsAs(s, o, status)) <==> Loosely(o, status)
  {
    if Fitting(o, status) {
      var es := EveryFitting(cfg, o, status);
      assert OnePush(Run(Initial(cfg), es));
    } else if Loosely(o, status) {
      var es := EveryLoosePair(cfg, o, status);
      HandedTryEnds(cfg, es, o);
      assert OnePush(Run(Initial(cfg), es + [Idle]));
    } else {
      forall s | OnePush(s) && s.cfg == cfg
        ensures !EndsAs(s, o, status)
      {
        OnePushPaired(s);
        assert o in s.delivered ==> Ended(s, o);
      }
    }
  }
}
