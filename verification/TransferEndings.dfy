/** The ways in which a transfer can end: every pair of an outcome and a status that fit occurs. */
module TransferEndings {
  import opened Common
  import opened TransferSpec
  import opened TransferAccounting
  import opened TransferSafety
  import opened TransferCompletion
  import opened TransferProgress
  import opened TransferStatus

  /** The transfer has been released with this outcome and this status. */
  predicate EndsAs(s: State, o: Outcome, status: Status) {
    s.refs == 0 && s.delivered == [o] && s.status == status
  }

  lemma PushesKept(s: State, e: Event)
    requires !e.Push?
    ensures Step(s, e).pushes == s.pushes
  {
    hide ReadStep, Fail, FlushTarget, SetError, Complete, Unref, Read;
    if e.ReadDone? {
      ReadDonePushesKept(s, e.conn, e.outcome);
    }
  }

  lemma ReadDonePushesKept(s: State, conn: Conn, outcome: ReadResult)
    ensures ReadStep(s, conn, outcome).pushes == s.pushes
  {
    hide GiveUp, Forward, ReadAllowed;
    if ReadAllowed(s, conn, outcome) {
      match outcome
      case ReadError =>
      case Data(bytes, writeOk, respondOk, writable) =>
        var t := Received(s, conn, bytes);
        assert ReadStep(s, conn, outcome) == BlockStep(t, bytes, writeOk, respondOk, writable);
    }
  }

  /** A punctual run can go on with anything but a push. */
  lemma Continues(cfg: Config, es: seq<Event>, e: Event)
    requires Punctual(cfg, es) && !e.Push?
    ensures Punctual(cfg, es + [e]) && Run(Initial(cfg), es + [e]) == Step(Run(Initial(cfg), es), e)
  {
    hide Step, Late;
    var s := Run(Initial(cfg), es);
    RunConcat(Initial(cfg), es, [e]);
    AvoidsConcat(Initial(cfg), es, [e], Late);
    SingleEvent(s, e, []);
    PushesKept(s, e);
    assert !Late(s, e) by { NoPushNotLate(s, e); }
    assert Avoids(s, [e], Late);
  }

  lemma NoPushNotLate(s: State, e: Event)
    requires !e.Push?
    ensures !Late(s, e)
  {}

  /** Nothing but the delivery of the outcome is pending. */
  predicate Handed(s: State, o: Outcome) {
    s.result.None? && s.scheduled == [o] && s.pendingReads == map[] && s.pendingFlushes == 0 && !s.crashed
  }

  lemma HandedEnds(cfg: Config, es: seq<Event>, o: Outcome)
    requires Punctual(cfg, es) && Handed(Run(Initial(cfg), es), o)
    ensures Punctual(cfg, es + [Idle])
    ensures EndsAs(Run(Initial(cfg), es + [Idle]), o, Run(Initial(cfg), es).status)
  {
    var s := Run(Initial(cfg), es);
    Continues(cfg, es, Idle);
    RunAccounted(Initial(cfg), es);
    assert s.refs == 2;
    assert Step(s, Idle) == IdleStep(s);
  }

  lemma Pushed(cfg: Config, writable: bool)
    requires WholeSource(cfg)
    ensures Punctual(cfg, [Push(0, true, writable)])
    ensures var s := Run(Initial(cfg), [Push(0, true, writable)]);
            && s == PushStep(Initial(cfg), 0, true, writable) && s.cfg == cfg
            && Alive(s) && s.sourceConn == Some(0) && s.sourceCloseHooks == {0} && s.targetCloseHook
            && s.result == Some(Success) && s.scheduled == s.delivered == [] && s.pendingFlushes == 0
            && (if writable then s.refs == 3 && s.pendingReads.Keys == {0} else s.refs == 2 && s.pendingReads == map[])
  {
    var push := Push(0, true, writable);
    assert Run(Initial(cfg), [push]) == Run(Step(Initial(cfg), push), []);
    assert !Late(Initial(cfg), push);
    assert ReadSize(Initial(cfg)) > 0;
  }

  // what a run looks like before its outcome is delivered

  lemma DropsTarget(cfg: Config) returns (es: seq<Event>)
    requires WholeSource(cfg)
    ensures Punctual(cfg, es) && Handed(Run(Initial(cfg), es), Failed(Dropped))
    ensures Run(Initial(cfg), es).status == TargetAborted && Run(Initial(cfg), es).pushes == 0
  {
    Continues(cfg, [], TargetClose);
    assert Step(Initial(cfg), TargetClose) == TargetCloseStep(Initial(cfg));
    es := [] + [TargetClose];
  }

  lemma DropsSource(cfg: Config) returns (es: seq<Event>)
    requires WholeSource(cfg)
    ensures Punctual(cfg, es) && Handed(Run(Initial(cfg), es), Failed(Dropped))
    ensures Run(Initial(cfg), es).status == SourceAborted
  {
    Pushed(cfg, false);
    var push := [Push(0, true, false)];
    var s := Run(Initial(cfg), push);
    Continues(cfg, push, SourceClose(0));
    assert Step(s, SourceClose(0)) == SourceCloseStep(s, 0);
    es := push + [SourceClose(0)];
  }

  lemma TimesOut(cfg: Config) returns (es: seq<Event>)
    requires WholeSource(cfg)
    ensures Punctual(cfg, es) && Handed(Run(Initial(cfg), es), Failed(TimedOut))
    ensures Run(Initial(cfg), es).status == Completed && Run(Initial(cfg), es).pushes == 0
  {
    var s := TimeoutStep(Initial(cfg));
    Continues(cfg, [], StartTimeout);
    Continues(cfg, [] + [StartTimeout], FlushDone);
    assert Step(s, FlushDone) == FlushStep(s);
    es := [] + [StartTimeout] + [FlushDone];
  }

  lemma CancelledAtOnce(cfg: Config) returns (es: seq<Event>)
    requires WholeSource(cfg)
    ensures Punctual(cfg, es) && Handed(Run(Initial(cfg), es), Failed(Cancelled))
    ensures Run(Initial(cfg), es).status == SourceAborted && Run(Initial(cfg), es).pushes == 0
  {
    Continues(cfg, [], Cancel);
    assert Step(Initial(cfg), Cancel) == CancelStep(Initial(cfg));
    es := [] + [Cancel];
  }

  lemma CancelledInAnswer(cfg: Config) returns (es: seq<Event>)
    requires WholeSource(cfg)
    ensures Punctual(cfg, es) && Handed(Run(Initial(cfg), es), Failed(Cancelled))
    ensures Run(Initial(cfg), es).status == Completed
  {
    var s := TimeoutStep(Initial(cfg));
    var t := CancelStep(s);
    Continues(cfg, [], StartTimeout);
    Continues(cfg, [] + [StartTimeout], Cancel);
    Continues(cfg, [] + [StartTimeout] + [Cancel], FlushDone);
    assert Step(s, Cancel) == t && Step(t, FlushDone) == FlushStep(t);
    es := [] + [StartTimeout] + [Cancel] + [FlushDone];
  }

  /** The pending read of a pushed transfer fails, or what it returns is refused. */
  lemma ReadEnds(cfg: Config, refused: bool) returns (es: seq<Event>)
    requires WholeSource(cfg)
    ensures Punctual(cfg, es)
    ensures Handed(Run(Initial(cfg), es), Failed(if refused then WriteFailed else ReadFailed))
    ensures Run(Initial(cfg), es).status == Error
  {
    Pushed(cfg, true);
    var push := [Push(0, true, true)];
    var s := Run(Initial(cfg), push);
    var outcome := if refused then Data([], false, true, true) else ReadError;
    Continues(cfg, push, ReadDone(0, outcome));
    assert Step(s, ReadDone(0, outcome)) == ReadStep(s, 0, outcome);
    assert s.pendingReads - {0} == map[];
    es := push + [ReadDone(0, outcome)];
  }

  /** The target goes away, or the transfer is cancelled, and after that the pending read fails. */
  lemma ReadEndsAfter(cfg: Config, e: Event) returns (es: seq<Event>)
    requires WholeSource(cfg) && (e == TargetClose || e == Cancel)
    ensures Punctual(cfg, es)
    ensures Handed(Run(Initial(cfg), es), Failed(if e.Cancel? then Cancelled else Dropped))
    ensures Run(Initial(cfg), es).status == Error
  {
    Pushed(cfg, true);
    var push := [Push(0, true, true)];
    var s := Run(Initial(cfg), push);
    var t := Step(s, e);
    assert t == if e.Cancel? then CancelStep(s) else TargetCloseStep(s);
    assert t.scheduled == [Failed(if e.Cancel? then Cancelled else Dropped)] && Alive(t);
    Continues(cfg, push, e);
    Continues(cfg, push + [e], ReadDone(0, ReadError));
    ReadFailsLate(t);
    es := push + [e] + [ReadDone(0, ReadError)];
  }

  lemma ReadFailsLate(s: State)
    requires Alive(s) && s.result.None? && s.pendingReads.Keys == {0}
    ensures var t := Step(s, ReadDone(0, ReadError));
            && t.status == Error && t.result.None? && t.scheduled == s.scheduled && t.pendingReads == map[]
            && t.pendingFlushes == s.pendingFlushes && !t.crashed
  {
    assert Step(s, ReadDone(0, ReadError)) == GiveUp(Received(s, 0, []), ReadFailed);
    assert s.pendingReads - {0} == map[];
  }

  lemma SucceedsPunctually(cfg: Config) returns (es: seq<Event>)
    requires WholeSource(cfg)
    ensures Punctual(cfg, es) && Handed(Run(Initial(cfg), es), Success)
    ensures Run(Initial(cfg), es).status == Completed
  {
    Pushed(cfg, true);
    var push := [Push(0, true, true)];
    var s := Run(Initial(cfg), push);
    PunctualOrderly(s);
    var data := seq(cfg.size, _ => 0 as Byte);
    assert Relaying(s) && s.transferred == 0;
    var drain := DrainOpen(s, data);
    var t := Run(s, drain);
    assert t.result == Some(Success) && t.transferred == cfg.size;
    AllContinues(cfg, push, drain);
    Continues(cfg, push + drain, FlushDone);
    es := push + drain + [FlushDone];
    PunctualOrderly(Run(Initial(cfg), es));
    WholeRuns(t);
    Flushes(t);
    FlushedRests(Run(Initial(cfg), es));
  }

  lemma {:induction false} AllContinues(cfg: Config, es: seq<Event>, more: seq<Event>)
    requires Punctual(cfg, es) && forall e :: e in more ==> !e.Push?
    ensures Punctual(cfg, es + more) && Run(Initial(cfg), es + more) == Run(Run(Initial(cfg), es), more)
    decreases |more|
  {
    hide Step, Late;
    if more == [] {
      assert es + more == es;
    } else {
      Continues(cfg, es, more[0]);
      assert es + [more[0]] + more[1..] == es + more;
      AllContinues(cfg, es + [more[0]], more[1..]);
    }
  }

  /** Once a flush has ended, nothing is pending. */
  lemma FlushedRests(s: State)
    requires Orderly(s) && s.scheduled == [Success]
    ensures Handed(s, Success) && s.status == Completed
  {
    assert Ended(s, Success);
  }

  lemma EveryFitting(cfg: Config, o: Outcome, status: Status) returns (es: seq<Event>)
    requires WholeSource(cfg) && Fitting(o, status)
    ensures Punctual(cfg, es) && EndsAs(Run(Initial(cfg), es), o, status)
  {
    hide Punctual, Handed, EndsAs, Step, Run;
    match o {
      case Success => es := SucceedsPunctually(cfg);
      case Failed(TimedOut) => es := TimesOut(cfg);
      case Failed(ReadFailed) => es := ReadEnds(cfg, false);
      case Failed(WriteFailed) => es := ReadEnds(cfg, true);
      case Failed(Dropped) =>
        if status == TargetAborted {
          es := DropsTarget(cfg);
        } else if status == SourceAborted {
          es := DropsSource(cfg);
        } else {
          es := ReadEndsAfter(cfg, TargetClose);
        }
      case Failed(Cancelled) =>
        if status == SourceAborted {
          es := CancelledAtOnce(cfg);
        } else if status == Completed {
          es := CancelledInAnswer(cfg);
        } else {
          es := ReadEndsAfter(cfg, Cancel);
        }
    }
    HandedEnds(cfg, es, o);
    es := es + [Idle];
  }

  /**
    Without a late push, a transfer can be released with an outcome and a status if and only if
    the two fit. Each of the ten fitting pairs occurs: a completed transfer may have succeeded,
    timed out or been cancelled, and one that is in error may have failed in four ways.
   */
  lemma FittingIff(cfg: Config, o: Outcome, status: Status)
    requires WholeSource(cfg)
    ensures (exists s :: PunctuallyReached(s) && s.cfg == cfg && EndsAs(s, o, status)) <==> Fitting(o, status)
  {
    if Fitting(o, status) {
      var es := EveryFitting(cfg, o, status);
      assert PunctuallyReached(Run(Initial(cfg), es));
    } else {
      forall s | PunctuallyReached(s)
        ensures !EndsAs(s, o, status)
      {
        StatusTells(s);
      }
    }
  }

  /** A late push leaves a cancelled transfer behind as active. */
  lemma LatePushLeavesActive(cfg: Config)
    requires WholeSource(cfg)
    ensures EndsAs(Run(Initial(cfg), [Cancel, Push(0, true, false), Idle]), Failed(Cancelled), Active)
  {
    var s := CancelStep(Initial(cfg));
    var t := PushStep(s, 0, true, false);
    assert t.refs == 2 && t.scheduled == [Failed(Cancelled)];
    assert [Cancel, Push(0, true, false), Idle][1..] == [Push(0, true, false), Idle];
    assert Run(Initial(cfg), [Cancel, Push(0, true, false), Idle]) == Run(t, [Idle]);
    assert Run(t, [Idle]) == Run(IdleStep(t), []);
  }
}
