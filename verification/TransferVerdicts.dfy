/**
  When the outcome of a transfer tells whether the leecher has the whole source: always, unless
  a seeder starts late or a transfer is cancelled that only has its flush to wait for.
 */
module TransferVerdicts {
  import opened Common
  import opened Words
  import opened TransferSpec
  import opened TransferAccounting
  import opened TransferSafety
  import opened TransferCompletion
  import opened TransferProgress

  /** The transfer is cancelled while the last octet has been written and the flush is pending. */
  predicate CancelledInFlush(s: State, e: Event) {
    Alive(s) && e.Cancel? && s.result.Some? && s.transferred == s.cfg.size
  }

  /** The two kinds of events that can separate the outcome from what was handed over. */
  predicate Misleads(s: State, e: Event) {
    LateStart(s, e) || CancelledInFlush(s, e)
  }

  /** The delivered outcome says the wrong thing about the body. */
  predicate Misled(s: State) {
    exists o :: o in s.delivered && !(o == Success <==> |s.body| == s.cfg.size)
  }

  /** The transfer has failed or is bound to fail. */
  ghost predicate Failing(s: State) {
    (s.result.Some? && s.result != Some(Success)) || exists o :: Ended(s, o) && o != Success
  }

  /** Nothing more can be written to the target. */
  predicate Stopped(s: State) {
    s.targetClosed || (s.pendingReads == map[] && !s.writeHook)
  }

  /** A failure means that octets are missing and will be missing. */
  ghost predicate Telling(s: State) {
    Failing(s) ==> s.transferred < s.cfg.size && Stopped(s)
  }

  // ----- callbacks ---------------------------------------------------------------------

  /** Handing over or delivering the outcome, and closing connections, take no success back. */
  lemma TellingKept(s: State, t: State)
    requires Telling(s) && SameOctets(s, t)
    requires Failing(t) ==> Failing(s)
    requires Stopped(s) ==> Stopped(t)
    ensures Telling(t)
  {}

  lemma FailTelling(s: State, why: Failure, status: Status)
    requires s.transferred < s.cfg.size && status != Completed
    ensures Telling(Fail(s, why, status))
  {}

  lemma UnrefTelling(s: State)
    requires Telling(s)
    ensures Telling(Unref(s))
  {
    assert forall o :: Ended(Unref(s), o) <==> Ended(s, o);
  }

  lemma PushTelling(s: State, e: Event)
    requires Telling(s) && Accounted(s) && Alive(s) && e.Push? && !LateStart(s, e)
    ensures Telling(Step(s, e))
  {
    var t := Step(s, e);
    assert t == PushStep(s, e.conn, e.headersOk, e.writable);
    assert forall o :: Ended(t, o) <==> Ended(s, o);
  }

  lemma WritableTelling(s: State, writable: bool)
    requires Telling(s)
    ensures Telling(WritableStep(s, writable))
  {
    var t := WritableStep(s, writable);
    assert forall o :: Ended(t, o) <==> Ended(s, o);
  }

  lemma ForwardTelling(s: State, respondOk: bool, writable: bool)
    requires !Failing(s)
    ensures Telling(Forward(s, respondOk, writable))
  {
    hide Unref, Finishing, Read;
    var t := Forward(s, respondOk, writable);
    assert forall o :: Ended(t, o) <==> Ended(s, o);
  }

  lemma ReadDoneTelling(s: State, conn: Conn, outcome: ReadResult)
    requires Telling(s) && Safe(s)
    ensures Telling(ReadStep(s, conn, outcome))
  {
    hide Fail, Unref, Forward;
    if ReadAllowed(s, conn, outcome) {
      assert s.transferred < s.cfg.size;
      match outcome
      case ReadError =>
        FailTelling(Received(s, conn, []), ReadFailed, Error);
        UnrefTelling(Fail(Received(s, conn, []), ReadFailed, Error));
      case Data(bytes, writeOk, respondOk, writable) =>
        var t := Received(s, conn, bytes);
        if writeOk && !s.targetClosed {
          assert forall o :: Ended(Written(t, bytes), o) <==> Ended(s, o);
          ForwardTelling(Written(t, bytes), respondOk, writable);
        } else {
          FailTelling(t, WriteFailed, Error);
          UnrefTelling(Fail(t, WriteFailed, Error));
        }
    }
  }

  lemma FlushTelling(s: State)
    requires Telling(s)
    ensures Telling(FlushStep(s))
  {
    if s.pendingFlushes > 0 {
      var t := Complete(Flushed(s));
      assert forall o :: Ended(t, o) ==> Ended(s, o) || s.result == Some(o);
      TellingKept(s, t);
      UnrefTelling(t);
    }
  }

  lemma CloseTelling(s: State, conn: Conn)
    requires Telling(s) && Watching(s)
    ensures Telling(TargetCloseStep(s)) && Telling(SourceCloseStep(s, conn))
  {
    var t, u := s.(targetClosed := true), s.(closedConns := s.closedConns + {conn});
    assert forall o :: (Ended(t, o) <==> Ended(s, o)) && (Ended(u, o) <==> Ended(s, o));
    if s.targetCloseHook {
      FailTelling(t, Dropped, TargetAborted);
    }
    if conn in s.sourceCloseHooks {
      FailTelling(u, Dropped, SourceAborted);
    }
  }

  lemma TimeoutTelling(s: State)
    requires Telling(s) && Safe(s) && WholeSource(s.cfg)
    ensures Telling(TimeoutStep(s))
  {
    var t := TimeoutStep(s);
    assert forall o :: Ended(t, o) <==> Ended(s, o);
    assert s.timeoutArmed ==> BeforePush(s);
  }

  lemma IdleTelling(s: State)
    requires Telling(s)
    ensures Telling(IdleStep(s))
  {
    if s.scheduled != [] {
      var t := Delivered(s);
      assert forall o :: Ended(t, o) ==> Ended(s, o);
      UnrefTelling(t);
      UnrefTelling(Unref(t));
    }
  }

  lemma StepTelling(s: State, e: Event)
    requires Invariant(s) && Telling(s) && !Misleads(s, e)
    ensures Telling(Step(s, e))
  {
    if Alive(s) {
      assert s.transferred <= s.cfg.size;
      hide Telling, Safe, Accounted;
      match e
      case Push(_, _, _) => PushTelling(s, e);
      case TargetWritable(writable) => WritableTelling(s, writable);
      case ReadDone(conn, outcome) => ReadDoneTelling(s, conn, outcome);
      case FlushDone => FlushTelling(s);
      case TargetClose => CloseTelling(s, 0);
      case SourceClose(conn) => CloseTelling(s, conn);
      case StartTimeout => TimeoutTelling(s);
      case Cancel => if s.result.Some? { FailTelling(s, Cancelled, SourceAborted); }
      case Idle => IdleTelling(s);
    }
  }

  lemma {:induction false} RunTelling(s: State, es: seq<Event>)
    requires Invariant(s) && Telling(s) && Avoids(s, es, Misleads) && Run(s, es).pushes <= 1
    ensures Invariant(Run(s, es)) && Telling(Run(s, es))
    decreases |es|
  {
    hide Invariant, Telling, Step, Misleads;
    if es != [] {
      StepInvariant(s, es[0]);
      StepTelling(s, es[0]);
      RunTelling(Step(s, es[0]), es[1..]);
    }
  }

  // ----- results -----------------------------------------------------------------------

  /** A run of a whole source with at most one push and none of the misleading events. */
  predicate Straight(cfg: Config, es: seq<Event>) {
    WholeSource(cfg) && Run(Initial(cfg), es).pushes <= 1 && Avoids(Initial(cfg), es, Misleads)
  }

  /** A state of such a run. */
  ghost predicate StraightlyReached(s: State) {
    exists es: seq<Event> :: Straight(s.cfg, es) && s == Run(Initial(s.cfg), es)
  }

  lemma StraightTelling(s: State)
    requires StraightlyReached(s)
    ensures WholeSource(s.cfg) && Invariant(s) && Telling(s)
  {
    var es: seq<Event> :| Straight(s.cfg, es) && s == Run(Initial(s.cfg), es);
    RunTelling(Initial(s.cfg), es);
  }

  lemma NotMisled(s: State)
    requires Invariant(s) && Telling(s)
    ensures !Misled(s)
  {
    forall o | o in s.delivered
      ensures o == Success <==> |s.body| == s.cfg.size
    {
      EndedTells(s, o);
      assert Ended(s, o);
    }
  }

  /**
    In every run without a late start and without a cancellation in the flush window, whatever
    else happens, the delivered outcome is a success exactly when the whole source was handed over.
   */
  lemma SuccessMeansWhole(s: State, o: Outcome)
    requires StraightlyReached(s) && o in s.delivered
    ensures o == Success <==> |s.body| == s.cfg.size
  {
    hide Invariant, Telling;
    StraightTelling(s);
    NotMisled(s);
  }

  // ----- the excluded events are exactly the ones that can mislead ---------------------

  lemma {:induction false} UndisturbedAvoids(s: State, es: seq<Event>)
    requires Undisturbed(es)
    ensures Avoids(s, es, Misleads)
    decreases |es|
  {
    hide Step;
    if es != [] {
      UndisturbedAvoids(Step(s, es[0]), es[1..]);
    }
  }

  /** A cancellation in the flush window reports a failure of a transfer that is complete. */
  lemma CancelMisleads(s: State)
    requires Invariant(s) && s.pushes == 1 && CancelledInFlush(s, Cancel)
    ensures var t := Run(Step(s, Cancel), [Idle]);
            t.delivered == [Failed(Cancelled)] && t.body == s.body && |t.body| == t.cfg.size && t.pushes == 1
  {
    var u := Step(s, Cancel);
    assert u == Fail(s, Cancelled, SourceAborted);
    assert u.scheduled == [Failed(Cancelled)] && u.delivered == [] && Alive(u);
    hide Step, Invariant, Fail;
    Delivers(u);
    SingleEvent(u, Idle, []);
  }

  lemma LateStartRelays(s: State, e: Event)
    requires Invariant(s) && s.pushes == 0 && LateStart(s, e)
    ensures var t := Step(s, e);
            && Invariant(t) && Relaying(t) && t.transferred == 0 && t.body == t.consumed == [] && t.cfg == s.cfg
            && Impending(t) != Success
  {
    var t := Step(s, e);
    assert t == PushStep(s, e.conn, e.headersOk, e.writable);
    assert Invariant(t) by { StepInvariant(s, e); }
    assert t.result == s.result && t.scheduled == s.scheduled && t.delivered == s.delivered;
    assert s.scheduled != [] ==> Ended(s, s.scheduled[0]);
  }

  /** After a late start the leecher can get everything, and still the transfer is reported as failed. */
  lemma LateStartMisleads(s: State, e: Event, data: seq<Byte>) returns (more: seq<Event>)
    requires Invariant(s) && s.pushes == 0 && LateStart(s, e) && |data| == s.cfg.size
    ensures var t := Run(Step(s, e), more);
            && t.body == data && t.pushes == 1 && t.cfg == s.cfg
            && t.delivered == [Impending(Step(s, e))] && t.delivered[0] != Success
    ensures Undisturbed(more) && Fits(Step(s, e), more, data)
  {
    LateStartRelays(s, e);
    assert s.cfg.size > 0;
    hide Step, Invariant;
    more := DrainAndClose(Step(s, e), data);
    assert [] + data == data;
  }

  /** The run goes on after `s` without misleading events, and its outcome says the wrong thing. */
  predicate LeadsAstray(s: State, more: seq<Event>) {
    Run(s, more).pushes <= 1 && Avoids(s, more, Misleads) && Misled(Run(s, more))
  }

  /** Some continuation without misleading events ends in an outcome that says the wrong thing. */
  ghost predicate CanBeMisled(s: State) {
    exists more: seq<Event> :: LeadsAstray(s, more)
  }

  lemma MisleadsCan(s: State, e: Event)
    requires Invariant(s) && Misleads(s, e) && Step(s, e).pushes <= 1
    ensures CanBeMisled(Step(s, e))
  {
    if LateStart(s, e) {
      assert Step(s, e).pushes == s.pushes + 1;
      var more := LateStartMisleads(s, e, seq(s.cfg.size, _ => 0 as Byte));
      UndisturbedAvoids(Step(s, e), more);
      var t := Run(Step(s, e), more);
      assert t.delivered[0] in t.delivered;
      assert LeadsAstray(Step(s, e), more);
    } else {
      assert s.pushes == 1 by { assert s.transferred > 0; }
      CancelMisleads(s);
      UndisturbedAvoids(Step(s, e), [Idle]);
      assert Failed(Cancelled) in Run(Step(s, e), [Idle]).delivered;
      assert LeadsAstray(Step(s, e), [Idle]);
    }
  }

  /**
    The condition is exact: after any run without misleading events, the next event makes it
    possible that the outcome says the wrong thing if and only if it is one of them.
   */
  lemma MisledIff(s: State, e: Event)
    requires StraightlyReached(s) && Step(s, e).pushes <= 1
    ensures Misleads(s, e) <==> CanBeMisled(Step(s, e))
  {
    hide Invariant, Telling, Misleads, Misled, Step;
    StraightTelling(s);
    if Misleads(s, e) {
      MisleadsCan(s, e);
    } else {
      StepInvariant(s, e);
      StepTelling(s, e);
      forall more | Run(Step(s, e), more).pushes <= 1 && Avoids(Step(s, e), more, Misleads)
        ensures !Misled(Run(Step(s, e), more))
      {
        RunTelling(Step(s, e), more);
        NotMisled(Run(Step(s, e), more));
      }
    }
  }

  // ----- both kinds happen -------------------------------------------------------------

  lemma PushedRelays(cfg: Config)
    requires WholeSource(cfg)
    ensures var s := Step(Initial(cfg), Push(0, true, true));
            && Invariant(s) && Relaying(s) && s.transferred == 0 && s.body == [] && s.cfg == cfg && s.result.Some?
  {
    InitialInvariant(cfg);
    StepInvariant(Initial(cfg), Push(0, true, true));
    assert Step(Initial(cfg), Push(0, true, true)) == PushStep(Initial(cfg), 0, true, true);
  }

  /** Any whole source can be handed over completely and still be reported as cancelled. */
  lemma CancelledThoughComplete(cfg: Config, data: seq<Byte>) returns (es: seq<Event>)
    requires WholeSource(cfg) && |data| == cfg.size
    ensures var s := Run(Initial(cfg), es);
            s.delivered == [Failed(Cancelled)] && s.body == data && s.pushes == 1
  {
    hide Step, Invariant;
    PushedRelays(cfg);
    var push := Push(0, true, true);
    var s := Step(Initial(cfg), push);
    var drain := DrainOpen(s, data);
    var t := Run(s, drain);
    assert t.body == data;
    assert Alive(t) by { WholeRuns(t); }
    CancelMisleads(t);
    RunConcat(s, drain, [Cancel] + [Idle]);
    assert ([Cancel] + [Idle])[1..] == [Idle];
    es := [push] + (drain + ([Cancel] + [Idle]));
    assert es[1..] == drain + ([Cancel] + [Idle]);
  }

  lemma TimedOutWaits(cfg: Config)
    requires WholeSource(cfg)
    ensures var s := Step(Initial(cfg), StartTimeout);
            && Invariant(s) && s.pushes == 0 && s.cfg == cfg && s.result == Some(Failed(TimedOut))
            && LateStart(s, Push(0, true, true))
  {
    InitialInvariant(cfg);
    StepInvariant(Initial(cfg), StartTimeout);
    assert Step(Initial(cfg), StartTimeout) == TimeoutStep(Initial(cfg));
  }

  lemma LatePushKeepsResult(s: State, conn: Conn, headersOk: bool, writable: bool)
    ensures Step(s, Push(conn, headersOk, writable)).result == s.result
  {}

  /** A seeder that starts after the timeout can hand over all of any source, and yet it has timed out. */
  lemma TimedOutThoughComplete(cfg: Config, data: seq<Byte>) returns (es: seq<Event>)
    requires WholeSource(cfg) && |data| == cfg.size
    ensures var s := Run(Initial(cfg), es);
            s.delivered == [Failed(TimedOut)] && s.body == data && s.pushes == 1
  {
    hide Step, Invariant;
    var s, push := Step(Initial(cfg), StartTimeout), Push(0, true, true);
    TimedOutWaits(cfg);
    LatePushKeepsResult(s, 0, true, true);
    var more := LateStartMisleads(s, push, data);
    es := [StartTimeout, push] + more;
    assert es[1..] == [push] + more && ([push] + more)[1..] == more;
  }
}
