/**
  When a transfer is brought to its outcome without help: by the main loop, the end of what is
  pending and chances to write, with no peer going away and nothing cancelled.
 */
module TransferLiveness {
  import opened Common
  import opened Words
  import opened TransferSpec
  import opened TransferAccounting
  import opened TransferSafety
  import opened TransferCompletion
  import opened TransferProgress

  /** Only what the transfer has asked for itself: its timer, its operations, its write handler. */
  predicate Unaided(es: seq<Event>) {
    forall e :: e in es ==> e.TargetWritable? || e.ReadDone? || e.FlushDone? || e.StartTimeout? || e.Idle?
  }

  /** A success in the making that waits for something is waiting for the timer, a chance to write or a read. */
  ghost predicate Waiting(s: State) {
    && (s.result == Some(Success) && s.pushes == 0 ==> s.timeoutArmed)
    && (s.result.Some? && s.result != Some(Success) ==> s.pendingFlushes > 0)
    && (s.result == Some(Success) && s.pushes == 1 && !s.writeHook ==> s.pendingReads == map[])
  }

  /** The seeder has pushed, but the headers did not go out: nothing is pending, and the timer is off. */
  predicate Abandoned(s: State) {
    Alive(s) && s.pushes == 1 && s.result == Some(Success) && !s.writeHook && s.transferred < s.cfg.size
  }

  // ----- an invariant ------------------------------------------------------------------

  lemma ReadDoneWaiting(s: State, conn: Conn, outcome: ReadResult)
    requires Invariant(s) && Waiting(s)
    ensures Waiting(ReadStep(s, conn, outcome))
  {
    hide Invariant, GiveUp, Forward;
    if ReadAllowed(s, conn, outcome) {
      ReadNeedsPush(s, conn);
      match outcome
      case ReadError => GiveUpEnds(Received(s, conn, []), ReadFailed);
      case Data(bytes, writeOk, respondOk, writable) =>
        GiveUpEnds(Received(s, conn, bytes), WriteFailed);
        ForwardKeepsFlushes(Written(Received(s, conn, bytes), bytes), respondOk, writable);
    }
  }

  lemma ReadNeedsPush(s: State, conn: Conn)
    requires Invariant(s) && conn in s.pendingReads
    ensures s.pushes == 1
  {}

  lemma GiveUpEnds(s: State, why: Failure)
    ensures GiveUp(s, why).result.None?
  {}

  lemma FailEnds(s: State, why: Failure, status: Status)
    ensures Fail(s, why, status).result.None?
  {}

  lemma StepWaiting(s: State, e: Event)
    requires Invariant(s) && Waiting(s) && Step(s, e).pushes <= 1
    ensures Waiting(Step(s, e))
  {
    hide ReadStep, ReadSize, Fail, Invariant;
    if Alive(s) {
      match e
      case Push(_, _, _) => PushWaiting(s, e);
      case TargetWritable(_) =>
      case ReadDone(conn, outcome) => ReadDoneWaiting(s, conn, outcome);
      case FlushDone =>
      case TargetClose => FailEnds(s.(targetClosed := true), Dropped, TargetAborted);
      case SourceClose(conn) => FailEnds(s.(closedConns := s.closedConns + {conn}), Dropped, SourceAborted);
      case StartTimeout =>
      case Cancel => FailEnds(s, Cancelled, SourceAborted);
      case Idle => IdleWaiting(s);
    }
  }

  lemma IdleWaiting(s: State)
    requires Invariant(s) && Waiting(s)
    ensures Waiting(IdleStep(s))
  {
    assert s.scheduled != [] ==> s.result.None?;
  }

  lemma PushWaiting(s: State, e: Event)
    requires Invariant(s) && Waiting(s) && Alive(s) && e.Push? && Step(s, e).pushes <= 1
    ensures Waiting(Step(s, e))
  {
    assert Step(s, e) == PushStep(s, e.conn, e.headersOk, e.writable);
    assert s.inTable ==> s.pendingReads == map[];
  }

  lemma {:induction false} RunWaiting(s: State, es: seq<Event>)
    requires Invariant(s) && Waiting(s) && Run(s, es).pushes <= 1
    ensures Invariant(Run(s, es)) && Waiting(Run(s, es))
    decreases |es|
  {
    hide Step, Invariant, Waiting;
    if es != [] {
      StepInvariant(s, es[0]);
      StepWaiting(s, es[0]);
      RunWaiting(Step(s, es[0]), es[1..]);
    }
  }

  lemma OnePushWaiting(s: State)
    requires WholeSource(s.cfg) && OnePush(s)
    ensures Invariant(s) && Waiting(s)
  {
    var es: seq<Event> :| s == Run(Initial(s.cfg), es);
    InitialInvariant(s.cfg);
    assert Waiting(Initial(s.cfg));
    hide Invariant, Waiting;
    RunWaiting(Initial(s.cfg), es);
  }

  // ----- an abandoned transfer stays as it is ------------------------------------------

  lemma AbandonedStays(s: State, e: Event)
    requires Invariant(s) && Waiting(s) && Abandoned(s) && Unaided([e])
    ensures Step(s, e) == s
  {
    assert e in [e];
    assert !s.timeoutArmed && s.pendingReads == map[] && s.pendingFlushes == 0 && s.scheduled == [];
  }

  lemma {:induction false} AbandonedForGood(s: State, es: seq<Event>)
    requires Invariant(s) && Waiting(s) && Abandoned(s) && Unaided(es)
    ensures Run(s, es) == s
    decreases |es|
  {
    hide Step, Invariant, Waiting, Abandoned;
    if es != [] {
      assert es[0] in es;
      AbandonedStays(s, es[0]);
      AbandonedForGood(s, es[1..]);
    }
  }

  // ----- any other goes on -------------------------------------------------------------

  lemma RunTwo(s: State, a: Event, b: Event)
    ensures Run(s, [a, b]) == Step(Step(s, a), b)
  {
    hide Step;
    assert [a, b][1..] == [b];
    SingleEvent(Step(s, a), b, []);
  }

  lemma ReadFailsAndEnds(s: State) returns (es: seq<Event>)
    requires Invariant(s) && Relaying(s) && s.result == Some(Success) && s.pendingReads != map[]
    ensures Unaided(es) && Run(s, es).delivered != [] && Fits(s, es, s.consumed)
  {
    var conn :| conn in s.pendingReads;
    var read := ReadDone(conn, ReadError);
    es := [read, Idle];
    var t := Step(s, read);
    WholeRuns(s);
    FailedReadHandsOver(s, conn);
    hide Step, Invariant;
    Delivers(t);
    RunTwo(s, read, Idle);
    assert es[1..] == [Idle];
    SingleEvent(t, Idle, s.consumed);
  }

  lemma FailedReadHandsOver(s: State, conn: Conn)
    requires Accounted(s) && !s.crashed && s.result.Some? && conn in s.pendingReads && s.delivered == []
    ensures var t := Step(s, ReadDone(conn, ReadError));
            Alive(t) && t.scheduled != [] && t.delivered == []
  {
    StepAccounted(s, ReadDone(conn, ReadError));
    assert Step(s, ReadDone(conn, ReadError)) == GiveUp(Received(s, conn, []), ReadFailed);
  }

  lemma TimeoutStarts(s: State)
    requires Accounted(s) && !s.crashed && s.result == Some(Success) && s.timeoutArmed
    ensures var t := Step(s, StartTimeout);
            Accounted(t) && !t.crashed && t.delivered == [] && t.pendingFlushes > 0
  {
    StepAccounted(s, StartTimeout);
    assert Step(s, StartTimeout) == TimeoutStep(s);
  }

  lemma LeadsOn(s: State) returns (es: seq<Event>)
    requires Invariant(s) && Waiting(s) && s.delivered == [] && !Abandoned(s)
    ensures Unaided(es) && Run(s, es).delivered != [] && Fits(s, es, s.consumed)
  {
    WholeRuns(s);
    if s.result.None? {
      NothingButDelivery(s);
      Delivers(s);
      SingleEvent(s, Idle, s.consumed);
      es := [Idle];
    } else if s.pendingFlushes > 0 {
      Closes(s);
      ClosingFits(s, s.consumed);
      es := [FlushDone, Idle];
    } else {
      InTheMaking(s);
      hide Step, Invariant, Waiting;
      if s.pushes == 0 {
        TimeoutStarts(s);
        var t := Step(s, StartTimeout);
        Closes(t);
        ClosingFits(t, s.consumed);
        es := [StartTimeout] + [FlushDone, Idle];
        assert es[1..] == [FlushDone, Idle];
      } else if s.pendingReads != map[] {
        es := ReadFailsAndEnds(s);
      } else {
        WakesUp(s);
        var t := Step(s, TargetWritable(true));
        var rest := ReadFailsAndEnds(t);
        assert t.consumed == s.consumed;
        es := [TargetWritable(true)] + rest;
        assert es[1..] == rest;
      }
    }
  }

  lemma NothingButDelivery(s: State)
    requires Invariant(s) && s.delivered == [] && s.result.None?
    ensures Alive(s) && s.scheduled != []
  {}

  /** With no flush pending, a transfer that is not abandoned waits for its start, a read or room. */
  lemma InTheMaking(s: State)
    requires Invariant(s) && Waiting(s) && s.result.Some? && s.pendingFlushes == 0 && !Abandoned(s)
    ensures s.result == Some(Success) && s.transferred < s.cfg.size
    ensures if s.pushes == 0 then s.timeoutArmed else Relaying(s)
    ensures s.pendingReads != map[] || s.pushes == 0 || Conns(s) != {}
  {}

  // ----- results -----------------------------------------------------------------------

  /**
    A transfer of a whole source whose outcome has not been delivered can be brought to it
    without help if and only if it has not been abandoned.
   */
  lemma AbandonedIff(s: State)
    requires WholeSource(s.cfg) && OnePush(s) && s.delivered == []
    ensures (exists es :: Unaided(es) && Run(s, es).delivered != []) <==> !Abandoned(s)
  {
    OnePushWaiting(s);
    hide Invariant, Waiting;
    if Abandoned(s) {
      forall es | Unaided(es)
        ensures Run(s, es).delivered == []
      {
        AbandonedForGood(s, es);
      }
    } else {
      var es := LeadsOn(s);
    }
  }

  /** It becomes abandoned exactly by an accepted push in time whose headers do not go out. */
  lemma AbandonsIff(s: State, e: Event)
    requires WholeSource(s.cfg) && OnePush(s) && !Abandoned(s) && Step(s, e).pushes <= 1
    ensures Abandoned(Step(s, e)) <==>
            Alive(s) && e.Push? && s.inTable && !e.headersOk && s.result == Some(Success)
  {
    OnePushWaiting(s);
    hide Step, Invariant, Waiting, Abandoned;
    if Alive(s) {
      if e.Push? {
        PushAbandons(s, e);
      } else {
        OthersAbandonNone(s, e);
      }
    } else {
      GoneStays(s, e);
    }
  }

  lemma GoneStays(s: State, e: Event)
    requires !Alive(s)
    ensures Step(s, e) == s
  {}

  lemma OthersAbandonNone(s: State, e: Event)
    requires Invariant(s) && Waiting(s) && Alive(s) && !e.Push? && !Abandoned(s)
    ensures !Abandoned(Step(s, e))
  {
    hide ReadStep, ReadSize, Fail, Invariant;
    match e
    case TargetWritable(_) =>
    case ReadDone(conn, outcome) => ReadDoneAbandonsNone(s, conn, outcome);
    case FlushDone =>
    case TargetClose => FailEnds(s.(targetClosed := true), Dropped, TargetAborted);
    case SourceClose(conn) => FailEnds(s.(closedConns := s.closedConns + {conn}), Dropped, SourceAborted);
    case StartTimeout =>
    case Cancel => FailEnds(s, Cancelled, SourceAborted);
    case Idle =>
  }

  lemma PushAbandons(s: State, e: Event)
    requires Invariant(s) && Waiting(s) && Alive(s) && e.Push? && Step(s, e).pushes <= 1 && !Abandoned(s)
    ensures Abandoned(Step(s, e)) <==>
            s.inTable && !e.headersOk && s.result == Some(Success)
  {
    assert Step(s, e) == PushStep(s, e.conn, e.headersOk, e.writable);
    assert s.inTable ==> s.pushes == 0 && s.transferred == 0 && s.cfg.size > 0;
  }

  lemma ReadDoneAbandonsNone(s: State, conn: Conn, outcome: ReadResult)
    requires Invariant(s) && Waiting(s) && !Abandoned(s) && Alive(s)
    ensures !Abandoned(ReadStep(s, conn, outcome))
  {
    hide Invariant, GiveUp, Forward;
    if ReadAllowed(s, conn, outcome) {
      ReadNeedsPush(s, conn);
      match outcome
      case ReadError => GiveUpEnds(Received(s, conn, []), ReadFailed);
      case Data(bytes, writeOk, respondOk, writable) => GiveUpEnds(Received(s, conn, bytes), WriteFailed);
    }
  }

  /** A cancellation or the close of the target still ends it. */
  lemma HelpEnds(s: State, e: Event)
    requires WholeSource(s.cfg) && OnePush(s) && Abandoned(s) && (e.Cancel? || e.TargetClose?)
    ensures Run(s, [e, Idle]).delivered == [Failed(if e.Cancel? then Cancelled else Dropped)]
  {
    OnePushWaiting(s);
    var t := Step(s, e);
    assert s.targetCloseHook && s.scheduled == s.delivered == [];
    assert t == if e.Cancel? then CancelStep(s) else TargetCloseStep(s);
    hide Step, Invariant, Waiting;
    Delivers(t);
    RunTwo(s, e, Idle);
  }
}
