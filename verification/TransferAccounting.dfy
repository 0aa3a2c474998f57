/**
  What holds in every run of a transfer, whatever the peers, the sockets and the main loop
  do: the result is completed once, and the reference count is exact.
 */
module TransferAccounting {
  import opened Common
  import Words
  import opened TransferSpec

  function Count(b: bool): nat {
    if b then 1 else 0
  }

  /** One completion exists, in exactly one of its three places. */
  ghost predicate OneCompletion(s: State) {
    && Count(s.result.Some?) + |s.scheduled| + |s.delivered| == 1
    && (s.inTable <==> s.delivered == [])
  }

  /** What the owners of the references add up to. */
  function RefsOwed(s: State): nat {
    Count(s.inTable) + |s.pendingReads| + s.pendingFlushes + Count(s.result.Some?) + |s.scheduled|
  }

  /** The timer, the target's close handler and that of the current source connection are gone. */
  predicate Silent(s: State) {
    !s.timeoutArmed && !s.targetCloseHook && s.sourceCloseHooks !! Conns(s)
  }

  ghost predicate Accounted(s: State) {
    && OneCompletion(s)
    && (!s.crashed ==> s.refs == RefsOwed(s) && (s.refs == 0 ==> Silent(s)))
  }

  /** All is accounted for but one reference, held by the callback that is running. */
  ghost predicate AccountedBut(s: State) {
    && OneCompletion(s)
    && s.refs == RefsOwed(s) + 1
  }

  // ----- building blocks ---------------------------------------------------------------

  lemma UnrefAccounted(s: State)
    requires AccountedBut(s)
    ensures Accounted(Unref(s))
  {}

  lemma CompleteAccounted(s: State)
    ensures Accounted(s) ==> Accounted(Complete(s))
    ensures AccountedBut(s) ==> AccountedBut(Complete(s))
  {}

  lemma SetErrorAccounted(s: State, why: Failure, status: Status)
    ensures Accounted(s) ==> Accounted(SetError(s, why).(status := status))
    ensures AccountedBut(s) ==> AccountedBut(SetError(s, why).(status := status))
  {}

  lemma FailAccounted(s: State, why: Failure, status: Status)
    ensures Accounted(s) ==> Accounted(Fail(s, why, status))
    ensures AccountedBut(s) ==> AccountedBut(Fail(s, why, status))
  {
    hide Accounted, AccountedBut, SetError, Complete;
    SetErrorAccounted(s, why, status);
    CompleteAccounted(SetError(s, why).(status := status));
  }

  lemma ReadAccounted(s: State, writable: bool)
    ensures Accounted(s) ==> Accounted(Read(s, writable))
    ensures AccountedBut(s) ==> AccountedBut(Read(s, writable))
  {
    if Read(s, writable) != s {
      assert |s.pendingReads[s.sourceConn.value := ReadSize(s)]| == |s.pendingReads| + 1;
    }
  }

  lemma ReceivedAccounted(s: State, conn: Conn, bytes: seq<Byte>)
    requires Accounted(s) && !s.crashed && conn in s.pendingReads
    ensures AccountedBut(Received(s, conn, bytes))
  {
    assert s.pendingReads == (s.pendingReads - {conn})[conn := s.pendingReads[conn]];
  }

  lemma ForwardAccounted(s: State, respondOk: bool, writable: bool)
    requires AccountedBut(s)
    ensures Accounted(Forward(s, respondOk, writable))
  {
    if s.transferred < s.transferLen {
      ReadAccounted(s, writable);
      UnrefAccounted(Read(s, writable));
    } else if s.transferred == s.transferLen {
      UnrefAccounted(Finishing(s, respondOk));
    }
  }

  // flushes that are pending stay pending until they end

  lemma UnrefKeepsFlushes(s: State)
    ensures Unref(s).pendingFlushes == s.pendingFlushes
  {}

  lemma FinishingFlushes(s: State, respondOk: bool)
    ensures Finishing(s, respondOk).pendingFlushes == s.pendingFlushes + 1
  {}

  lemma ReadKeepsFlushes(s: State, writable: bool)
    ensures Read(s, writable).pendingFlushes == s.pendingFlushes
  {
    hide ReadSize;
  }

  lemma ForwardKeepsFlushes(s: State, respondOk: bool, writable: bool)
    ensures Forward(s, respondOk, writable).pendingFlushes >= s.pendingFlushes
  {
    hide Unref, Finishing, Read;
    UnrefKeepsFlushes(Finishing(s, respondOk));
    UnrefKeepsFlushes(Read(s, writable));
    FinishingFlushes(s, respondOk);
    ReadKeepsFlushes(s, writable);
  }

  // ----- callbacks ---------------------------------------------------------------------

  lemma PushAccounted(s: State, conn: Conn, headersOk: bool, writable: bool)
    requires Accounted(s)
    ensures Accounted(PushStep(s, conn, headersOk, writable))
  {
    var t := Measured(Connected(s, conn));
    ReadAccounted(t.(writeHook := true, status := Active), writable);
  }

  lemma ReadDoneAccounted(s: State, conn: Conn, outcome: ReadResult)
    requires Accounted(s) && !s.crashed
    ensures Accounted(ReadStep(s, conn, outcome))
  {
    if ReadAllowed(s, conn, outcome) {
      match outcome
      case ReadError =>
        ReceivedAccounted(s, conn, []);
        FailAccounted(Received(s, conn, []), ReadFailed, Error);
        UnrefAccounted(Fail(Received(s, conn, []), ReadFailed, Error));
      case Data(bytes, writeOk, respondOk, writable) =>
        var t := Received(s, conn, bytes);
        ReceivedAccounted(s, conn, bytes);
        if writeOk && !s.targetClosed {
          ForwardAccounted(Written(t, bytes), respondOk, writable);
        } else {
          FailAccounted(t, WriteFailed, Error);
          UnrefAccounted(Fail(t, WriteFailed, Error));
        }
    }
  }

  lemma FlushAccounted(s: State)
    requires Accounted(s) && !s.crashed
    ensures Accounted(FlushStep(s))
  {
    if s.pendingFlushes > 0 {
      UnrefAccounted(Complete(Flushed(s)));
    }
  }

  lemma CloseAccounted(s: State, conn: Conn)
    requires Accounted(s)
    ensures Accounted(TargetCloseStep(s)) && Accounted(SourceCloseStep(s, conn))
  {
    var t, u := s.(targetClosed := true), s.(closedConns := s.closedConns + {conn});
    assert Accounted(t) && Accounted(u);
    hide Accounted;
    FailAccounted(t, Dropped, TargetAborted);
    FailAccounted(u, Dropped, SourceAborted);
  }

  lemma TimeoutAccounted(s: State)
    requires Accounted(s)
    ensures Accounted(TimeoutStep(s))
  {}

  lemma IdleAccounted(s: State)
    requires Accounted(s) && !s.crashed
    ensures Accounted(IdleStep(s))
  {
    if s.scheduled != [] {
      assert s.inTable;
      UnrefAccounted(Unref(Delivered(s)));
    }
  }

  lemma StepAccounted(s: State, e: Event)
    requires Accounted(s)
    ensures Accounted(Step(s, e))
  {
    if Alive(s) {
      match e
      case Push(conn, headersOk, writable) => PushAccounted(s, conn, headersOk, writable);
      case TargetWritable(writable) => ReadAccounted(s, writable);
      case ReadDone(conn, outcome) => ReadDoneAccounted(s, conn, outcome);
      case FlushDone => FlushAccounted(s);
      case TargetClose => CloseAccounted(s, 0);
      case SourceClose(conn) => CloseAccounted(s, conn);
      case StartTimeout => TimeoutAccounted(s);
      case Cancel => FailAccounted(s, Cancelled, SourceAborted);
      case Idle => IdleAccounted(s);
    }
  }

  lemma {:induction false} RunAccounted(s: State, es: seq<Event>)
    requires Accounted(s)
    ensures Accounted(Run(s, es))
    decreases |es|
  {
    if es != [] {
      StepAccounted(s, es[0]);
      RunAccounted(Step(s, es[0]), es[1..]);
    }
  }

  // ----- results -----------------------------------------------------------------------

  lemma ReachableAccounted(s: State)
    requires Reachable(s)
    ensures Accounted(s)
  {
    var es: seq<Event> :| s == Run(Initial(s.cfg), es);
    RunAccounted(Initial(s.cfg), es);
  }

  /** The completion callback runs at most once, and until it runs the transfer is in the table. */
  lemma CompletedOnce(s: State)
    requires Reachable(s)
    ensures |s.delivered| <= 1 && (s.inTable <==> s.delivered == [])
  {
    ReachableAccounted(s);
  }

  /**
    The reference count is exact in every run, so the object is released exactly when no read
    and no flush is pending and the completion has been delivered; then its timer, the target's
    close handler and that of the current source connection are gone too.
   */
  lemma ReleasedOnlyWhenIdle(s: State)
    requires Reachable(s) && !s.crashed
    ensures s.refs == RefsOwed(s)
    ensures s.refs == 0 <==> s.pendingReads == map[] && s.pendingFlushes == 0 && |s.delivered| == 1
    ensures s.refs == 0 ==> Silent(s)
  {
    ReachableAccounted(s);
  }

  /** A delivered outcome is final: no later event changes it or adds another. */
  lemma OutcomeIsFinal(s: State, more: seq<Event>)
    requires Reachable(s) && s.delivered != []
    ensures Run(s, more).delivered == s.delivered
  {
    ReachableAccounted(s);
    RunAccounted(s, more);
  }

  /**
    How the connections are left when the result is handed over: a transfer that ends with a
    flush closes nothing, is marked as completed and waits for no more chances to write; one
    that ends in any other way closes both.
   */
  lemma CompletionCloses(s: State, e: Event)
    requires s.result.Some? && Step(s, e).result.None?
    ensures var t := Step(s, e);
            if e.FlushDone? then
              && t.status == Completed && !t.writeHook
              && t.targetClosed == s.targetClosed && t.closedConns == s.closedConns
            else
              t.status in {SourceAborted, TargetAborted, Error} && t.targetClosed && Conns(t) <= t.closedConns
  {
    match e
    case Push(_, _, _) =>
    case TargetWritable(_) =>
    case ReadDone(conn, outcome) => ReadCloses(s, conn, outcome);
    case FlushDone => FlushCloses(s);
    case TargetClose =>
    case SourceClose(_) =>
    case StartTimeout =>
    case Cancel =>
    case Idle =>
  }

  lemma FlushCloses(s: State)
    requires s.result.Some? && FlushStep(s).result.None?
    ensures FlushStep(s).status == Completed && !FlushStep(s).writeHook
    ensures FlushStep(s).targetClosed == s.targetClosed && FlushStep(s).closedConns == s.closedConns
  {}

  lemma ReadCloses(s: State, conn: Conn, outcome: ReadResult)
    requires s.result.Some? && ReadStep(s, conn, outcome).result.None?
    ensures var t := ReadStep(s, conn, outcome);
            t.status == Error && t.targetClosed && Conns(t) <= t.closedConns
  {
    hide GiveUp, Forward;
    match outcome
    case ReadError => GiveUpCloses(Received(s, conn, []), ReadFailed);
    case Data(bytes, writeOk, respondOk, writable) =>
      GiveUpCloses(Received(s, conn, bytes), WriteFailed);
  }

  lemma GiveUpCloses(s: State, why: Failure)
    ensures var t := GiveUp(s, why);
            t.status == Error && t.targetClosed && Conns(t) <= t.closedConns
  {}

  /** The event reports that the target can take more octets. */
  predicate HasRoom(e: Event) {
    match e
    case Push(_, _, writable) => writable
    case TargetWritable(writable) => writable
    case ReadDone(_, outcome) => outcome.Data? && outcome.writable
    case _ => false
  }

  /** Backpressure: without room at the target no read is issued, whatever happens. */
  lemma ReadsWaitForRoom(s: State, e: Event)
    requires !HasRoom(e)
    ensures Step(s, e).pendingReads.Keys <= s.pendingReads.Keys
    ensures Alive(s) && e.ReadDone? && ReadAllowed(s, e.conn, e.outcome) ==>
              Step(s, e).pendingReads == s.pendingReads - {e.conn}
  {
    hide Unref, SetError, Complete, Fail, FlushTarget;
    match e
    case Push(_, _, _) =>
    case TargetWritable(_) =>
    case ReadDone(conn, outcome) => ReadDoneIssuesNone(s, conn, outcome);
    case FlushDone =>
    case TargetClose =>
    case SourceClose(_) =>
    case StartTimeout =>
    case Cancel =>
    case Idle =>
  }

  lemma ReadDoneIssuesNone(s: State, conn: Conn, outcome: ReadResult)
    requires outcome.Data? ==> !outcome.writable
    ensures ReadStep(s, conn, outcome).pendingReads
            == if ReadAllowed(s, conn, outcome) then s.pendingReads - {conn} else s.pendingReads
  {
    hide GiveUp, Forward;
  }

  /** The status is no verdict: a failed read overwrites that of a transfer whose target went away. */
  lemma LateReadOverwritesStatus(cfg: Config)
    requires 0 < cfg.size < Words.TWO_64
    ensures var s := Step(Step(Initial(cfg), Push(0, true, true)), TargetClose);
            s.status == TargetAborted && Step(s, ReadDone(0, ReadError)).status == Error
  {
    var s := Step(Initial(cfg), Push(0, true, true));
    assert s == PushStep(Initial(cfg), 0, true, true);
    assert 0 in s.pendingReads && s.refs == 3;
    assert Step(s, TargetClose) == TargetCloseStep(s);
  }

  /** A transfer whose start timed out ends up as completed, with the timeout as its outcome. */
  lemma TimeoutEndsAsCompleted(cfg: Config)
    ensures var s := Step(Step(Step(Initial(cfg), StartTimeout), FlushDone), Idle);
            s.status == Completed && s.delivered == [Failed(TimedOut)]
  {
    var s := Step(Initial(cfg), StartTimeout);
    assert s == TimeoutStep(Initial(cfg));
    assert Step(s, FlushDone) == FlushStep(s);
  }
}
