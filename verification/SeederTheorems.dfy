/** What the seeder's block loop keeps, and when it copies the file. */
module SeederTheorems {
  import opened Common
  import opened Words
  import opened SeederSpec

  function Count(b: bool): nat {
    if b then 1 else 0
  }

  /** Exactly one thing is due: a callback, or nothing more because the request is gone. */
  ghost predicate OneContinuation(s: State) {
    s.readsDue + s.hooksDue + s.answersDue + s.frees + Count(s.crashed) == 1
  }

  /** What has been written is the beginning of the file, up to the last write. */
  ghost predicate Copying(s: State) {
    && s.totalSent <= |s.file| < TWO_64 && s.size < TWO_64
    && s.sent <= s.file && |s.sent| <= s.totalSent
    && (s.frees == 0 ==> |s.sent| == s.totalSent)
    && (s.closed <==> 0 < |s.sent| == s.size)
    && (s.answersDue > 0 || s.keepAlive ==> s.closed)
    && (s.readsDue + s.hooksDue > 0 ==> !s.closed && !s.keepAlive)
    && (s.frees > 0 && s.connOpen ==> s.keepAlive)
  }

  /** For a non-empty file of the registered size, a block that is due has something to read. */
  ghost predicate Faithful(s: State) {
    && s.size == |s.file| > 0
    && (s.readsDue + s.hooksDue > 0 ==> s.totalSent < s.size)
    && !s.crashed
  }

  ghost predicate Invariant(s: State) {
    OneContinuation(s) && Copying(s)
  }

  lemma BlockInvariant(s: State, outcome: BlockResult)
    requires Invariant(s) && !s.crashed
    ensures Invariant(BlockStep(s, outcome)) && s.sent <= BlockStep(s, outcome).sent
    ensures Faithful(s) ==> Faithful(BlockStep(s, outcome))
  {
    if BlockAllowed(s, outcome) && outcome.Block? && s.connOpen && outcome.n > 0 {
      var more := s.file[s.totalSent..s.totalSent + outcome.n];
      assert s.sent + more <= s.file;
    }
  }

  lemma StepInvariant(s: State, e: Event)
    requires Invariant(s)
    ensures Invariant(Step(s, e)) && s.sent <= Step(s, e).sent
    ensures Step(s, e).file == s.file && Step(s, e).size == s.size
    ensures Faithful(s) ==> Faithful(Step(s, e))
  {
    if !s.crashed && e.BlockRead? {
      BlockInvariant(s, e.outcome);
    }
  }

  lemma {:induction false} RunInvariant(s: State, es: seq<Event>)
    requires Invariant(s)
    ensures Invariant(Run(s, es)) && s.sent <= Run(s, es).sent
    ensures Run(s, es).file == s.file && Run(s, es).size == s.size
    ensures Faithful(s) ==> Faithful(Run(s, es))
    decreases |es|
  {
    if es != [] {
      StepInvariant(s, es[0]);
      RunInvariant(Step(s, es[0]), es[1..]);
    }
  }

  predicate Sized(file: seq<Byte>, size: nat) {
    |file| < TWO_64 && size < TWO_64
  }

  // ----- results -----------------------------------------------------------------------

  /**
    The request is freed at most once and is never used again after that; it leaves its
    connection open only if everything was sent and an answer arrived.
   */
  lemma FreedOnce(file: seq<Byte>, size: nat, writable: bool, es: seq<Event>)
    requires Sized(file, size)
    ensures var s := Run(Initial(file, size, writable), es);
            && s.frees <= 1
            && (s.frees == 1 ==> s.readsDue + s.hooksDue + s.answersDue == 0)
            && (s.frees == 1 && s.connOpen ==> s.keepAlive && |s.sent| == size)
  {
    RunInvariant(Initial(file, size, writable), es);
  }

  /**
    The connection always carries the beginning of the file; the last block is marked as such
    exactly when the registered number of octets has been written, and only then is an answer
    awaited or accepted.
   */
  lemma SeederCopies(file: seq<Byte>, size: nat, writable: bool, es: seq<Event>)
    requires Sized(file, size)
    ensures var s := Run(Initial(file, size, writable), es);
            && s.sent <= file
            && (s.closed <==> 0 < size <= |file| && s.sent == file[..size])
            && (s.answersDue > 0 || s.keepAlive ==> s.closed)
  {
    RunInvariant(Initial(file, size, writable), es);
  }

  /**
    One event at a time: at most 4096 octets are written, and only by a block that was read; a
    block is asked for only when there is room; the connection is kept only for an answer.
   */
  lemma SeederStep(s: State, e: Event)
    requires Invariant(s)
    ensures |Step(s, e).sent| <= |s.sent| + 4096
    ensures Step(s, e).sent != s.sent ==> s.connOpen && s.readsDue == 1 && e.BlockRead?
    ensures Step(s, e).readsDue > 0 && s.readsDue == 0 ==> e == ConnWritable(true)
    ensures e.BlockRead? && e.outcome.Block? && !e.outcome.writable && BlockAllowed(s, e.outcome) && !s.crashed ==>
              Step(s, e).readsDue == 0
    ensures Step(s, e).keepAlive && !s.keepAlive ==> e == Response(true) && s.answersDue == 1
  {}

  /** Once the connection has closed, nothing more is written to it. */
  lemma {:induction false} ClosedForGood(s: State, es: seq<Event>)
    requires !s.connOpen
    ensures !Run(s, es).connOpen && Run(s, es).sent == s.sent
    decreases |es|
  {
    if es != [] {
      assert !Step(s, es[0]).connOpen && Step(s, es[0]).sent == s.sent;
      ClosedForGood(Step(s, es[0]), es[1..]);
    }
  }

  /** Nothing is written after the connection was reported closed. */
  lemma NothingSentAfterClose(s: State, es: seq<Event>)
    requires !s.crashed
    ensures Run(s, [ConnClose] + es).sent == s.sent
  {
    assert ([ConnClose] + es)[1..] == es;
    ClosedForGood(Step(s, ConnClose), es);
  }

  /** The request reads or waits to read a block. */
  predicate Reading(s: State) {
    s.readsDue == 1 && s.connOpen && !s.crashed && s.totalSent <= |s.file|
  }

  /** Against a registered size that is not the size of the file, the count runs past zero. */
  lemma {:induction false} MissesTheEnd(s: State) returns (es: seq<Event>)
    requires Reading(s) && Sized(s.file, s.size)
    requires s.size != |s.file| || s.size == 0
    ensures Run(s, es).crashed
    decreases |s.file| - s.totalSent
  {
    if s.totalSent == |s.file| {
      es := [BlockRead(Block(0, true, true))];
      assert Run(s, es) == Run(Step(s, es[0]), []);
    } else {
      var n := if s.totalSent + 1 == s.size then 2 else 1;
      var e := BlockRead(Block(n, true, true));
      assert BytesLeft(Counted(s, n)) > 0;
      var rest := MissesTheEnd(Step(s, e));
      es := [e] + rest;
    }
  }

  /**
    The assertion that a read returns something can fail if and only if the file is empty or
    its registered size is not its size.
   */
  lemma SeederCrashIff(file: seq<Byte>, size: nat)
    requires Sized(file, size)
    ensures (exists w, es :: Run(Initial(file, size, w), es).crashed) <==> !(size == |file| && size > 0)
  {
    if size == |file| && size > 0 {
      forall w, es
        ensures !Run(Initial(file, size, w), es).crashed
      {
        RunInvariant(Initial(file, size, w), es);
      }
    } else {
      var es := MissesTheEnd(Initial(file, size, true));
      assert Run(Initial(file, size, true), es).crashed;
    }
  }

  /** A request on an open connection, of a faithful file, whose answer has not come yet. */
  predicate Healthy(s: State) {
    s.connOpen && s.frees == 0 && !s.crashed
  }

  /** A healthy request can always send the rest of the file. */
  lemma {:induction false} SendRest(s: State) returns (es: seq<Event>)
    requires Invariant(s) && Faithful(s) && Healthy(s)
    ensures Run(s, es).sent == s.file
    decreases s.size - s.totalSent, s.hooksDue
  {
    if s.answersDue > 0 {
      es := [];
      assert s.sent == s.file;
    } else {
      var e := if s.hooksDue > 0 then ConnWritable(true) else BlockRead(Block(1, true, true));
      StepInvariant(s, e);
      var rest := SendRest(Step(s, e));
      es := [e] + rest;
    }
  }

  /** A request that is not healthy stays so and writes nothing more. */
  lemma UnhealthyStays(s: State, e: Event)
    requires Invariant(s) && !Healthy(s)
    ensures !Healthy(Step(s, e)) && Step(s, e).sent == s.sent
  {}
}
