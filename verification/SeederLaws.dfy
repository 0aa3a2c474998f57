/**
  Why each part of a push request changes: for every event, the new value of each part in terms
  of the old state and of what has happened; and what that means for the connection at the end.
 */
module SeederLaws {
  import opened Common
  import opened Words
  import opened SeederSpec
  import SeederTheorems

  // ----- what an event means for the request -------------------------------------------

  /** A read of the file has come back, with no more than was asked for and than the file has left. */
  predicate Returns(s: State, e: Event) {
    && !s.crashed && e.BlockRead? && s.readsDue > 0 && s.totalSent <= |s.file|
    && (e.outcome.Block? ==>
          && e.outcome.n <= 4096 && s.totalSent + e.outcome.n <= |s.file|
          && (e.outcome.n == 0 ==> s.totalSent == |s.file|))
  }

  /** Octets have been read for a connection that is still open. */
  predicate Reads(s: State, e: Event) {
    Returns(s, e) && s.connOpen && e.outcome.Block? && e.outcome.n > 0
  }

  /** They have been written. */
  predicate Writes(s: State, e: Event) {
    Reads(s, e) && e.outcome.writeOk
  }

  /** They were the last ones: the unsigned difference to the registered size is zero. */
  predicate Last(s: State, e: Event) {
    Writes(s, e) && (s.size - s.totalSent - e.outcome.n) % 0x1_0000_0000_0000_0000 == 0
  }

  /** The end of the file comes as a surprise. */
  predicate Surprised(s: State, e: Event) {
    Returns(s, e) && s.connOpen && e.outcome.Block? && e.outcome.n == 0
  }

  /** The request is given up: the connection is gone, or the file or the connection fails. */
  predicate GivesUp(s: State, e: Event) {
    Returns(s, e) && !Writes(s, e) && !Surprised(s, e)
  }

  /** An answer, or the failure to read one, has come. */
  predicate Answered(s: State, e: Event) {
    !s.crashed && e.Response? && s.answersDue > 0
  }

  /** The next block is to be read, and this says whether there is room. */
  predicate Continues(s: State, e: Event, room: bool) {
    || (!s.crashed && e.ConnWritable? && s.hooksDue > 0 && e.writable == room)
    || (Writes(s, e) && !Last(s, e) && e.outcome.writable == room)
  }

  predicate Frees(s: State, e: Event) {
    GivesUp(s, e) || Answered(s, e)
  }

  function Num(b: bool): nat {
    if b then 1 else 0
  }

  // ----- the laws ----------------------------------------------------------------------

  /** What has been read and written, and whether the last block was marked. */
  predicate OctetLaw(s: State, e: Event, t: State) {
    && t.file == s.file && t.size == s.size
    && t.totalSent == (if Reads(s, e) then s.totalSent + e.outcome.n else s.totalSent)
    && t.sent == (if Writes(s, e) then s.sent + s.file[s.totalSent..s.totalSent + e.outcome.n] else s.sent)
    && t.closed == (if Writes(s, e) then Last(s, e) else s.closed)
    && t.crashed == (s.crashed || Surprised(s, e))
  }

  /** Which callbacks are due. */
  predicate DueLaw(s: State, e: Event, t: State) {
    && t.readsDue == s.readsDue - Num(Returns(s, e)) + Num(Continues(s, e, true))
    && t.hooksDue == s.hooksDue - Num(!s.crashed && e.ConnWritable? && s.hooksDue > 0) + Num(Continues(s, e, false))
    && t.answersDue == s.answersDue - Num(Answered(s, e)) + Num(Last(s, e))
    && t.frees == s.frees + Num(Frees(s, e))
  }

  /** What becomes of the connection: it is closed with the request, unless an answer was read. */
  predicate ConnectionLaw(s: State, e: Event, t: State) {
    && t.keepAlive == (s.keepAlive || (Answered(s, e) && e.ok))
    && t.connOpen == (s.connOpen && !(e.ConnClose? && !s.crashed) && (Frees(s, e) ==> t.keepAlive))
  }

  predicate Laws(s: State, e: Event, t: State) {
    OctetLaw(s, e, t) && DueLaw(s, e, t) && ConnectionLaw(s, e, t)
  }

  lemma WriteLaws(s: State, e: Event)
    requires Writes(s, e)
    ensures Laws(s, e, Step(s, e))
  {
    assert BlockAllowed(s, e.outcome);
    assert Step(s, e) == BlockStep(s, e.outcome);
    assert BytesLeft(Counted(s, e.outcome.n)) == 0 <==> Last(s, e);
  }

  lemma GiveUpLaws(s: State, e: Event)
    requires Returns(s, e) && !Writes(s, e)
    ensures Laws(s, e, Step(s, e))
  {
    assert BlockAllowed(s, e.outcome);
    assert Step(s, e) == BlockStep(s, e.outcome);
  }

  lemma WritableLaws(s: State, e: Event)
    requires e.ConnWritable?
    ensures Laws(s, e, Step(s, e))
  {}

  lemma ResponseLaws(s: State, e: Event)
    requires e.Response?
    ensures Laws(s, e, Step(s, e))
  {}

  lemma CloseLaws(s: State, e: Event)
    requires e.ConnClose?
    ensures Laws(s, e, Step(s, e))
  {}

  lemma NothingLaws(s: State, e: Event)
    requires e.BlockRead? && !Returns(s, e)
    ensures Laws(s, e, Step(s, e))
  {
    if !s.crashed {
      assert !BlockAllowed(s, e.outcome);
    }
    assert Step(s, e) == s;
  }

  /**
    Every event changes the octets, the callbacks that are due and the connection as the laws
    say, for the causes given and for no others.
   */
  lemma StepLaws(s: State, e: Event)
    ensures OctetLaw(s, e, Step(s, e)) && DueLaw(s, e, Step(s, e)) && ConnectionLaw(s, e, Step(s, e))
  {
    hide Step, OctetLaw, DueLaw, ConnectionLaw;
    if Writes(s, e) {
      WriteLaws(s, e);
    } else if Returns(s, e) {
      GiveUpLaws(s, e);
    } else {
      match e
      case ConnWritable(_) => WritableLaws(s, e);
      case BlockRead(_) => NothingLaws(s, e);
      case Response(_) => ResponseLaws(s, e);
      case ConnClose => CloseLaws(s, e);
    }
  }

  /** A new request: nothing is written yet, and the first block is read as soon as there is room. */
  lemma InitialLaw(file: seq<Byte>, size: nat, writable: bool)
    ensures var s := Initial(file, size, writable);
            && s.file == file && s.size == size && s.totalSent == 0 && s.sent == [] && !s.closed
            && s.readsDue == Num(writable) && s.hooksDue == Num(!writable) && s.answersDue == s.frees == 0
            && s.connOpen && !s.keepAlive && !s.crashed
  {}

  // ----- the connection at the end -----------------------------------------------------

  /** An answer that was due has been read. */
  predicate AnswerRead(s: State, es: seq<Event>) {
    exists i :: 0 <= i < |es| && es[i] == Response(true) && Run(s, es[..i]).answersDue == 1
                && !Run(s, es[..i]).crashed
  }

  /** The connection was reported closed. */
  predicate Reported(es: seq<Event>) {
    ConnClose in es
  }

  lemma {:induction false} RunSnoc(s: State, es: seq<Event>, e: Event)
    ensures Run(s, es + [e]) == Step(Run(s, es), e)
    decreases |es|
  {
    hide Step;
    if es == [] {
      assert es + [e] == [e];
      assert Run(s, [e]) == Run(Step(s, e), []);
    } else {
      assert (es + [e])[1..] == es[1..] + [e];
      RunSnoc(Step(s, es[0]), es[1..], e);
    }
  }

  /** How the connection stands after a run that has not crashed. */
  ghost predicate Stands(s: State, start: State, es: seq<Event>) {
    && SeederTheorems.Invariant(s)
    && (!s.crashed ==>
          && (s.keepAlive <==> AnswerRead(start, es))
          && (s.connOpen <==> !Reported(es) && (s.frees == 0 || s.keepAlive)))
  }

  lemma AnswerReadSnoc(start: State, es: seq<Event>, e: Event)
    ensures AnswerRead(start, es + [e]) <==>
            AnswerRead(start, es)
            || (e == Response(true) && Run(start, es).answersDue == 1 && !Run(start, es).crashed)
  {
    hide Run;
    var longer := es + [e];
    assert longer[..|es|] == es;
    forall i | 0 <= i < |es|
      ensures longer[..i] == es[..i] && longer[i] == es[i]
    {}
    if AnswerRead(start, es) {
      var i :| 0 <= i < |es| && es[i] == Response(true) && Run(start, es[..i]).answersDue == 1
               && !Run(start, es[..i]).crashed;
      assert longer[i] == Response(true);
    }
    if e == Response(true) && Run(start, es).answersDue == 1 && !Run(start, es).crashed {
      assert longer[|es|] == Response(true);
    }
  }

  lemma StepStands(s: State, start: State, es: seq<Event>, e: Event)
    requires Stands(s, start, es) && s == Run(start, es)
    ensures Stands(Step(s, e), start, es + [e])
  {
    AnswerReadSnoc(start, es, e);
    SeederTheorems.StepInvariant(s, e);
    StepLaws(s, e);
    hide Step, Run, AnswerRead;
    assert Reported(es + [e]) <==> Reported(es) || e == ConnClose;
  }

  lemma {:induction false} RunStands(start: State, es: seq<Event>)
    requires Stands(start, start, [])
    ensures Stands(Run(start, es), start, es)
    decreases |es|
  {
    hide Stands, Step;
    if es != [] {
      var n := |es| - 1;
      RunStands(start, es[..n]);
      assert es[..n] + [es[n]] == es;
      RunSnoc(start, es[..n], es[n]);
      StepStands(Run(start, es[..n]), start, es[..n], es[n]);
    }
  }

  /**
    Whatever happens, a request that has been freed leaves its connection open if and only if an
    answer was read and the connection was not reported closed; before that it is open unless it
    was reported closed.
   */
  lemma OpenIff(file: seq<Byte>, size: nat, writable: bool, es: seq<Event>)
    requires SeederTheorems.Sized(file, size)
    ensures var start := Initial(file, size, writable);
            var s := Run(start, es);
            !s.crashed ==> (s.connOpen <==> ConnClose !in es && (s.frees == 0 || AnswerRead(start, es)))
  {
    RunStands(Initial(file, size, writable), es);
  }
}
