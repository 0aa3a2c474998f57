/**
  When the close handler of a seeder's connection is still connected after a transfer object has
  been released: dispose sees to the target's and to that of the current source connection only.
 */
module TransferCloseHandlers {
  import opened Common
  import opened TransferSpec
  import opened TransferAccounting
  import opened TransferSafety

  /** With at most one push, a released transfer has no close handler left on any connection. */
  lemma CloseHandlersGone(s: State)
    requires OnePush(s) && !s.crashed && s.refs == 0
    ensures !s.targetCloseHook && s.sourceCloseHooks == {} && !s.timeoutArmed
  {
    OnePushSafe(s);
    ReachableAccounted(s);
    assert s.sourceCloseHooks <= Conns(s);
  }

  lemma PushConnects(s: State, e: Event)
    requires Alive(s) && e.Push? && !e.writable && s.inTable
    ensures var t := Step(s, e);
            && t.sourceConn == Some(e.conn) && t.sourceCloseHooks == s.sourceCloseHooks + {e.conn}
            && t.refs == s.refs && t.result == s.result && t.scheduled == s.scheduled && t.inTable && Alive(t)
  {}

  lemma CancelledAndReleased(s: State)
    requires Alive(s) && s.refs == 2 && s.result.Some? && s.scheduled == [] && s.inTable
    ensures var t := Step(Step(s, Cancel), Idle);
            t.refs == 0 && t.sourceCloseHooks == s.sourceCloseHooks - Conns(s)
  {
    assert Step(s, Cancel) == CancelStep(s);
  }

  /** The connection of a first seeder keeps its handler when a second seeder takes its place. */
  lemma ReplacedConnectionKeepsHandler(cfg: Config)
    ensures var s := Run(Initial(cfg), [Push(0, true, false), Push(1, true, false), Cancel, Idle]);
            s.refs == 0 && 0 in s.sourceCloseHooks
  {
    var first, second := Push(0, true, false), Push(1, true, false);
    PushConnects(Initial(cfg), first);
    PushConnects(Step(Initial(cfg), first), second);
    var s := Step(Step(Initial(cfg), first), second);
    RunFour(Initial(cfg), first, second, Cancel, Idle);
    CancelledAndReleased(s);
  }

  // ----- any number of pushes ----------------------------------------------------------

  /** A push takes the place of another connection that is still watched. */
  predicate Replaces(s: State, e: Event) {
    && Alive(s) && e.Push? && s.inTable
    && s.sourceConn.Some? && s.sourceConn != Some(e.conn) && s.sourceConn.value in s.sourceCloseHooks
  }

  /** No connection but the current one is watched. */
  predicate OnlyCurrent(s: State) {
    s.sourceCloseHooks <= Conns(s)
  }

  /** No handler is added, and the source connection is the same. */
  predicate Fewer(s: State, t: State) {
    t.sourceConn == s.sourceConn && t.sourceCloseHooks <= s.sourceCloseHooks
  }

  lemma ForwardFewer(s: State, respondOk: bool, writable: bool)
    ensures Fewer(s, Forward(s, respondOk, writable))
  {
    hide Unref, Finishing, Read;
    UnrefFewer(Finishing(s, respondOk));
    UnrefFewer(Read(s, writable));
    FinishingFewer(s, respondOk);
    ReadFewer(s, writable);
  }

  lemma UnrefFewer(s: State)
    ensures Fewer(s, Unref(s))
  {}

  lemma FinishingFewer(s: State, respondOk: bool)
    ensures Fewer(s, Finishing(s, respondOk))
  {}

  lemma ReadFewer(s: State, writable: bool)
    ensures Fewer(s, Read(s, writable))
  {
    hide ReadSize;
  }

  lemma FailFewer(s: State, why: Failure, status: Status)
    ensures Fewer(s, Fail(s, why, status))
  {}

  lemma GiveUpFewer(s: State, why: Failure)
    ensures Fewer(s, GiveUp(s, why))
  {}

  lemma ReadDoneFewer(s: State, conn: Conn, outcome: ReadResult)
    ensures Fewer(s, ReadStep(s, conn, outcome))
  {
    hide GiveUp, Forward;
    if ReadAllowed(s, conn, outcome) {
      match outcome
      case ReadError => GiveUpFewer(Received(s, conn, []), ReadFailed);
      case Data(bytes, writeOk, respondOk, writable) =>
        GiveUpFewer(Received(s, conn, bytes), WriteFailed);
        ForwardFewer(Written(Received(s, conn, bytes), bytes), respondOk, writable);
    }
  }

  lemma StepOnlyCurrent(s: State, e: Event)
    requires OnlyCurrent(s) && !Replaces(s, e)
    ensures OnlyCurrent(Step(s, e))
  {
    hide ReadStep, ReadSize, Fail;
    match e
    case Push(_, _, _) =>
    case TargetWritable(writable) => ReadFewer(s, writable);
    case ReadDone(conn, outcome) => ReadDoneFewer(s, conn, outcome);
    case FlushDone =>
    case TargetClose => FailFewer(s.(targetClosed := true), Dropped, TargetAborted);
    case SourceClose(conn) => FailFewer(s.(closedConns := s.closedConns + {conn}), Dropped, SourceAborted);
    case StartTimeout =>
    case Cancel => FailFewer(s, Cancelled, SourceAborted);
    case Idle =>
  }

  lemma {:induction false} RunOnlyCurrent(s: State, es: seq<Event>)
    requires OnlyCurrent(s) && Avoids(s, es, Replaces)
    ensures OnlyCurrent(Run(s, es))
    decreases |es|
  {
    hide Step, Replaces, OnlyCurrent;
    if es != [] {
      StepOnlyCurrent(s, es[0]);
      RunOnlyCurrent(Step(s, es[0]), es[1..]);
    }
  }

  /** A state of a run in which no watched connection is replaced. */
  ghost predicate SteadilyReached(s: State) {
    exists es: seq<Event> :: Avoids(Initial(s.cfg), es, Replaces) && s == Run(Initial(s.cfg), es)
  }

  /** The object is gone, but a connection that closes would still call its handler. */
  predicate Haunted(s: State) {
    s.refs == 0 && !s.crashed && s.sourceCloseHooks != {}
  }

  lemma SteadyOnlyCurrent(s: State)
    requires SteadilyReached(s)
    ensures OnlyCurrent(s) && Accounted(s)
  {
    var es: seq<Event> :| Avoids(Initial(s.cfg), es, Replaces) && s == Run(Initial(s.cfg), es);
    RunOnlyCurrent(Initial(s.cfg), es);
    RunAccounted(Initial(s.cfg), es);
  }

  lemma NotHaunted(s: State)
    requires OnlyCurrent(s) && Accounted(s)
    ensures !Haunted(s)
  {}

  /** Whatever the number of pushes, if none replaces a watched connection, no handler is left. */
  lemma NoHandlerLeft(s: State)
    requires SteadilyReached(s)
    ensures !Haunted(s)
  {
    SteadyOnlyCurrent(s);
    NotHaunted(s);
  }

  // ----- such a push can always be followed by a release -------------------------------

  /** The handler of a connection that has been replaced is still there. */
  ghost predicate Keeps(s: State, c: Conn) {
    c in s.sourceCloseHooks && s.sourceConn.Some? && s.sourceConn.value != c && Accounted(s) && !s.crashed
  }

  /** What has to happen before the object is released. */
  function Outstanding(s: State): nat {
    |s.pendingReads| + s.pendingFlushes + |s.scheduled| + Count(s.result.Some?)
  }

  /** An event that settles one thing that is outstanding. */
  ghost function Settling(s: State): Event
    requires s.pendingReads != map[] || s.pendingFlushes > 0 || s.scheduled != [] || s.result.Some?
  {
    if s.result.Some? then Cancel
    else if s.pendingReads != map[] then
      var c :| c in s.pendingReads;
      ReadDone(c, ReadError)
    else if s.pendingFlushes > 0 then FlushDone
    else Idle
  }

  lemma ReadFails(s: State, c: Conn, conn: Conn)
    requires Keeps(s, c) && Alive(s) && s.result.None? && conn in s.pendingReads
    ensures var t := Step(s, ReadDone(conn, ReadError));
            Keeps(t, c) && Outstanding(t) < Outstanding(s) && t.result.None?
  {
    StepAccounted(s, ReadDone(conn, ReadError));
    assert Step(s, ReadDone(conn, ReadError)) == GiveUp(Received(s, conn, []), ReadFailed);
    assert s.pendingReads == (s.pendingReads - {conn})[conn := s.pendingReads[conn]];
  }

  lemma CancelSettles(s: State, c: Conn)
    requires Keeps(s, c) && s.refs > 0 && s.result.Some?
    ensures var t := Step(s, Cancel);
            Keeps(t, c) && t.result.None?
  {
    StepAccounted(s, Cancel);
    assert Step(s, Cancel) == CancelStep(s);
  }

  lemma FlushSettles(s: State, c: Conn)
    requires Keeps(s, c) && s.refs > 0 && s.result.None? && s.pendingFlushes > 0
    ensures var t := Step(s, FlushDone);
            Keeps(t, c) && Outstanding(t) < Outstanding(s) && t.result.None?
  {
    StepAccounted(s, FlushDone);
    assert Step(s, FlushDone) == FlushStep(s);
  }

  lemma IdleSettles(s: State, c: Conn)
    requires Keeps(s, c) && s.refs > 0 && s.result.None? && s.scheduled != []
    ensures var t := Step(s, Idle);
            Keeps(t, c) && Outstanding(t) < Outstanding(s) && t.result.None?
  {
    StepAccounted(s, Idle);
    assert Step(s, Idle) == IdleStep(s);
  }

  lemma KeepsAlive(s: State, c: Conn)
    requires Keeps(s, c) && s.refs > 0
    ensures Alive(s)
  {}

  lemma SomethingOutstanding(s: State)
    requires Accounted(s) && !s.crashed && s.refs > 0
    ensures s.pendingReads != map[] || s.pendingFlushes > 0 || s.scheduled != [] || s.result.Some?
  {}

  lemma Settles(s: State, c: Conn)
    requires Keeps(s, c) && s.refs > 0
    ensures s.pendingReads != map[] || s.pendingFlushes > 0 || s.scheduled != [] || s.result.Some?
    ensures var t := Step(s, Settling(s));
            && Keeps(t, c) && t.result.None?
            && (s.result.None? ==> Outstanding(t) < Outstanding(s))
  {
    SomethingOutstanding(s);
    hide Step, Keeps, Outstanding;
    if s.result.Some? {
      CancelSettles(s, c);
    } else if s.pendingReads != map[] {
      KeepsAlive(s, c);
      ReadFails(s, c, Settling(s).conn);
    } else if s.pendingFlushes > 0 {
      FlushSettles(s, c);
    } else {
      IdleSettles(s, c);
    }
  }

  /** Cancelled, and with every operation that is pending over, the object goes and the handler stays. */
  lemma {:induction false} WindDown(s: State, c: Conn) returns (es: seq<Event>)
    requires Keeps(s, c)
    ensures Haunted(Run(s, es)) && forall e :: e in es ==> !e.Push?
    decreases Count(s.result.Some?), Outstanding(s)
  {
    hide Step, Keeps, Outstanding, Haunted;
    if s.refs <= 0 {
      es := [];
      KeptAtRelease(s, c);
    } else {
      Settles(s, c);
      var e := Settling(s);
      var rest := WindDown(Step(s, e), c);
      es := [e] + rest;
      assert es[1..] == rest;
    }
  }

  lemma KeptAtRelease(s: State, c: Conn)
    requires Keeps(s, c) && s.refs <= 0
    ensures Haunted(s)
  {}

  lemma {:induction false} NoPushAvoids(s: State, es: seq<Event>)
    requires forall e :: e in es ==> !e.Push?
    ensures Avoids(s, es, Replaces)
    decreases |es|
  {
    hide Step;
    if es != [] {
      NoPushAvoids(Step(s, es[0]), es[1..]);
    }
  }

  /** The run goes on after `s`, replaces no watched connection, and leaves a close handler behind. */
  predicate LeavesCloseHandler(s: State, more: seq<Event>) {
    Avoids(s, more, Replaces) && Haunted(Run(s, more))
  }

  ghost predicate CanBeHaunted(s: State) {
    exists more: seq<Event> :: LeavesCloseHandler(s, more)
  }

  /**
    The condition is exact, for any number of pushes: as long as no watched connection has been
    replaced, the next event makes it possible that a close handler outlives the object if and
    only if it is a push that replaces one.
   */
  lemma HauntedIff(s: State, e: Event)
    requires SteadilyReached(s)
    ensures Replaces(s, e) <==> CanBeHaunted(Step(s, e))
  {
    SteadyOnlyCurrent(s);
    StepAccounted(s, e);
    var t := Step(s, e);
    if Replaces(s, e) {
      var c := s.sourceConn.value;
      assert t == PushStep(s, e.conn, e.headersOk, e.writable);
      assert Keeps(t, c);
      hide Step, Keeps;
      var more := WindDown(t, c);
      NoPushAvoids(t, more);
      assert LeavesCloseHandler(t, more);
    } else {
      StepOnlyCurrent(s, e);
      hide Step, Accounted, OnlyCurrent, Haunted, Replaces;
      forall more | Avoids(t, more, Replaces)
        ensures !Haunted(Run(t, more))
      {
        RunOnlyCurrent(t, more);
        RunAccounted(t, more);
        NotHaunted(Run(t, more));
      }
    }
  }
}
