/**
  What a transfer can reach: a transfer in flight can always be brought to its end, and the
  two situations in which the code falls short are reached exactly under a stated condition.
 */
module TransferProgress {
  import opened Common
  import opened Words
  import opened TransferSpec
  import opened TransferAccounting
  import opened TransferSafety
  import opened TransferCompletion

  /** The events read the source stream in order. */
  predicate EventFits(s: State, e: Event, stream: seq<Byte>) {
    e.ReadDone? && e.outcome.Data? ==> s.consumed + e.outcome.bytes <= stream
  }

  predicate Fits(s: State, es: seq<Event>, stream: seq<Byte>)
    decreases |es|
  {
    es == [] || (EventFits(s, es[0], stream) && Fits(Step(s, es[0]), es[1..], stream))
  }

  lemma {:induction false} FitsConcat(s: State, a: seq<Event>, b: seq<Event>, stream: seq<Byte>)
    requires Fits(s, a, stream) && Fits(Run(s, a), b, stream)
    ensures Fits(s, a + b, stream)
    decreases |a|
  {
    if a == [] {
      assert a + b == b;
    } else {
      assert (a + b)[0] == a[0] && (a + b)[1..] == a[1..] + b;
      FitsConcat(Step(s, a[0]), a[1..], b, stream);
    }
  }

  /** Started, and neither failed nor finished. */
  predicate InFlight(s: State) {
    s.pushes == 1 && s.writeHook && s.result == Some(Success)
  }

  /** The relay to the open target is on, whatever the outcome is going to be. */
  predicate Relaying(s: State) {
    s.pushes == 1 && s.writeHook && !s.targetClosed && s.delivered == []
  }

  /** The outcome that the transfer has or, as things stand, will have. */
  function Impending(s: State): Outcome
    requires OneCompletion(s)
  {
    if s.result.Some? then s.result.value else if s.scheduled != [] then s.scheduled[0] else s.delivered[0]
  }

  /** From `s` to `t`, exactly `bytes` went through, and nothing happened to the outcome. */
  ghost predicate Relayed(s: State, t: State, bytes: seq<Byte>) {
    && Invariant(t) && Relaying(t)
    && t.body == s.body + bytes && t.consumed == s.consumed + bytes
    && t.transferred == s.transferred + |bytes|
    && t.cfg == s.cfg && t.sourceConn == s.sourceConn
    && t.result == s.result && t.scheduled == s.scheduled
  }

  /** No push and no cancellation. */
  predicate Undisturbed(es: seq<Event>) {
    forall e :: e in es ==> !e.Push? && !e.Cancel?
  }

  // ----- nothing is lost ---------------------------------------------------------------

  /** If no read is pending, the next chance to write issues one. */
  lemma WakesUp(s: State)
    requires Invariant(s) && Relaying(s) && s.transferred < s.cfg.size && s.pendingReads == map[]
    ensures var t := Step(s, TargetWritable(true));
            t.pendingReads.Keys == Conns(s) && Relayed(s, t, [])
  {
    RunInvariant(s, [TargetWritable(true)]);
    assert Run(s, [TargetWritable(true)]) == Run(Step(s, TargetWritable(true)), []);
    assert ReadSize(s) > 0;
  }

  /** A pending read that returns octets brings the transfer forward by as many. */
  lemma Advances(s: State, bytes: seq<Byte>)
    requires Invariant(s) && Relaying(s) && s.transferred < s.cfg.size
    requires s.sourceConn.value in s.pendingReads
    requires 1 <= |bytes| <= s.pendingReads[s.sourceConn.value]
    ensures var t := Step(s, ReadDone(s.sourceConn.value, Data(bytes, true, true, true)));
            Relayed(s, t, bytes) && (t.transferred == t.cfg.size ==> t.pendingFlushes > 0)
  {
    var e := ReadDone(s.sourceConn.value, Data(bytes, true, true, true));
    RunInvariant(s, [e]);
    assert Run(s, [e]) == Run(Step(s, e), []);
    var v := Written(Received(s, s.sourceConn.value, bytes), bytes);
    assert Step(s, e) == Forward(v, true, true);
    if v.transferred == v.transferLen {
      assert Finishing(v, true).refs > 1;
    } else {
      assert Read(v, true).refs > 1;
    }
  }

  /** A flush hands the outcome over, if that has not happened before. */
  lemma Flushes(s: State)
    requires Accounted(s) && !s.crashed && s.delivered == [] && s.pendingFlushes > 0
    ensures var t := Step(s, FlushDone);
            && t.scheduled == [Impending(s)] && t.delivered == [] && Alive(t)
            && t.body == s.body && t.consumed == s.consumed && t.pushes == s.pushes && t.cfg == s.cfg
  {
    var t := Complete(Flushed(s));
    assert Step(s, FlushDone) == Unref(t);
    assert t.scheduled == [Impending(s)] && t.refs > 1;
  }

  lemma Delivers(s: State)
    requires Alive(s) && s.scheduled != [] && s.delivered == []
    ensures var t := Step(s, Idle);
            && t.delivered == [s.scheduled[0]]
            && t.body == s.body && t.consumed == s.consumed && t.pushes == s.pushes && t.cfg == s.cfg
  {
    assert Step(s, Idle) == IdleStep(s);
  }

  /** Once all is written, the flush and the main loop deliver the outcome. */
  lemma Closes(s: State)
    requires Accounted(s) && !s.crashed && s.delivered == [] && s.pendingFlushes > 0
    ensures var t := Run(s, [FlushDone, Idle]);
            && t.delivered == [Impending(s)]
            && t.body == s.body && t.consumed == s.consumed && t.pushes == s.pushes && t.cfg == s.cfg
  {
    hide Step, Accounted;
    Flushes(s);
    Delivers(Step(s, FlushDone));
    assert [FlushDone, Idle][1..] == [Idle];
    SingleEvent(Step(s, FlushDone), Idle, []);
  }

  lemma SingleEvent(s: State, e: Event, stream: seq<Byte>)
    ensures Run(s, [e]) == Step(s, e)
    ensures Fits(s, [e], stream) <==> EventFits(s, e, stream)
  {
    hide Step;
    assert Run(s, [e]) == Run(Step(s, e), []);
  }

  /** From a relay that is on and has octets to go, a few events bring it forward. */
  lemma NextBlock(s: State, data: seq<Byte>) returns (es: seq<Event>, n: nat)
    requires Invariant(s) && Relaying(s) && 0 < |data| == s.cfg.size - s.transferred
    ensures 1 <= n <= |data| && Undisturbed(es)
    ensures var t := Run(s, es);
            Relayed(s, t, data[..n]) && (n == |data| ==> t.pendingFlushes > 0)
    ensures Fits(s, es, s.consumed + data)
  {
    var t := s;
    es := [];
    if s.pendingReads == map[] {
      WakesUp(s);
      SingleEvent(s, TargetWritable(true), s.consumed + data);
      es := [TargetWritable(true)];
      t := Step(s, es[0]);
    }
    PendingIsSource(t);
    n := t.pendingReads[t.sourceConn.value];
    assert 1 <= n <= |data| && t.transferred < t.cfg.size;
    hide Step, Invariant;
    Advances(t, data[..n]);
    var e := ReadDone(t.sourceConn.value, Data(data[..n], true, true, true));
    SingleEvent(t, e, s.consumed + data);
    RunConcat(s, es, [e]);
    FitsConcat(s, es, [e], s.consumed + data);
    es := es + [e];
  }

  /**
    A relay that is on can always be made to hand over the rest of the source, whatever has
    happened before and whatever its outcome is going to be: there is no lost wake-up.
   */
  lemma {:induction false} DrainOpen(s: State, data: seq<Byte>) returns (es: seq<Event>)
    requires Invariant(s) && Relaying(s) && 0 < |data| == s.cfg.size - s.transferred
    ensures Relayed(s, Run(s, es), data) && Run(s, es).pendingFlushes > 0
    ensures Fits(s, es, s.consumed + data) && Undisturbed(es)
    decreases |data|
  {
    hide Step, Invariant;
    var n;
    es, n := NextBlock(s, data);
    assert data[..n] + data[n..] == data;
    if n < |data| {
      var t := Run(s, es);
      var rest := DrainOpen(t, data[n..]);
      assert t.consumed + data[n..] == s.consumed + data && t.body + data[n..] == s.body + data;
      RunConcat(s, es, rest);
      FitsConcat(s, es, rest, s.consumed + data);
      es := es + rest;
    }
  }

  /** From a relay that is on, some events deliver the impending outcome with the whole source handed over. */
  lemma DrainAndClose(s: State, data: seq<Byte>) returns (es: seq<Event>)
    requires Invariant(s) && Relaying(s) && 0 < |data| == s.cfg.size - s.transferred
    ensures var t := Run(s, es);
            t.delivered == [Impending(s)] && t.body == s.body + data && t.pushes == 1 && t.cfg == s.cfg
    ensures Fits(s, es, s.consumed + data) && Undisturbed(es)
  {
    es := DrainOpen(s, data);
    hide Step, Invariant, Accounted;
    assert Accounted(Run(s, es)) && !Run(s, es).crashed by { WholeRuns(Run(s, es)); }
    Closes(Run(s, es));
    RunConcat(s, es, [FlushDone, Idle]);
    ClosingFits(Run(s, es), s.consumed + data);
    FitsConcat(s, es, [FlushDone, Idle], s.consumed + data);
    es := es + [FlushDone, Idle];
  }

  lemma WholeRuns(s: State)
    requires Invariant(s)
    ensures Accounted(s) && !s.crashed
  {}

  lemma ClosingFits(s: State, stream: seq<Byte>)
    ensures Fits(s, [FlushDone, Idle], stream)
  {
    hide Step;
    assert [FlushDone, Idle][1..] == [Idle];
    SingleEvent(Step(s, FlushDone), Idle, stream);
  }

  /**
    A transfer in flight can always be brought to a success that hands over the rest of the
    source.
   */
  lemma Drain(s: State, data: seq<Byte>) returns (es: seq<Event>)
    requires Invariant(s) && InFlight(s) && |data| == s.cfg.size - s.transferred
    ensures Run(s, es).delivered == [Success]
    ensures Run(s, es).body == s.body + data && Run(s, es).pushes == 1
    ensures Fits(s, es, s.consumed + data)
  {
    if data == [] {
      WholeRuns(s);
      Closes(s);
      ClosingFits(s, s.consumed + data);
      es := [FlushDone, Idle];
      assert s.body + data == s.body;
    } else {
      es := DrainAndClose(s, data);
    }
  }

  lemma PendingIsSource(s: State)
    requires Safe(s) && s.pushes == 1 && s.pendingReads != map[]
    ensures s.sourceConn.value in s.pendingReads
  {
    var c :| c in s.pendingReads;
  }

  // ----- when a success can be reached -------------------------------------------------

  /** A read is pending, and no more octets than are announced have been written. */
  predicate Serving(s: State) {
    && Alive(s) && s.refs > 1 && s.pushes == 1 && s.sourceConn.Some? && !s.targetClosed
    && s.result == Some(Success) && s.scheduled == []
    && s.pendingReads == map[s.sourceConn.value := ReadSize(s)]
    && s.transferred < s.cfg.size < TWO_64
    && (s.transferred < s.transferLen <= s.cfg.size || s.transferred == s.transferLen == 0)
  }

  /** One more octet, or none if none is announced, brings the transfer forward. */
  lemma ServesOn(s: State) returns (e: Event)
    requires Serving(s)
    ensures var t := Step(s, e);
            && t.pushes == 1
            && ((Serving(t) && t.transferLen - t.transferred < s.transferLen - s.transferred)
                || (Alive(t) && t.result == Some(Success) && t.scheduled == [] && t.pendingFlushes > 0))
  {
    var c, bytes := s.sourceConn.value, seq(if s.transferLen == 0 then 0 else 1, _ => 0 as Byte);
    e := ReadDone(c, Data(bytes, true, true, true));
    var v := Written(Received(s, c, bytes), bytes);
    assert |bytes| <= ReadSize(s);
    assert Step(s, e) == Forward(v, true, true);
    assert v.pendingReads == map[];
    hide Step;
    if v.transferred < v.transferLen {
      ReadsOn(v);
    } else {
      BeginsFlush(v);
    }
  }

  lemma ReadsOn(s: State)
    requires Alive(s) && s.refs > 1 && s.pushes == 1 && s.sourceConn.Some? && !s.targetClosed
    requires s.result == Some(Success) && s.scheduled == [] && s.pendingReads == map[]
    requires s.transferred < s.transferLen <= s.cfg.size < TWO_64
    ensures Serving(Forward(s, true, true))
    ensures Forward(s, true, true).transferred == s.transferred && Forward(s, true, true).transferLen == s.transferLen
  {
    assert ReadSize(s) > 0;
    assert Read(s, true).refs > 1;
  }

  lemma BeginsFlush(s: State)
    requires Alive(s) && s.refs > 1 && s.result == Some(Success) && s.scheduled == []
    requires s.transferred == s.transferLen
    ensures var t := Forward(s, true, true);
            Alive(t) && t.result == Some(Success) && t.scheduled == [] && t.pendingFlushes > 0
  {
    assert Finishing(s, true).refs > 1;
  }

  lemma FlushHandsOver(s: State)
    requires Alive(s) && s.result == Some(Success) && s.scheduled == [] && s.pendingFlushes > 0
    ensures Succeeded(Step(s, FlushDone)) && Step(s, FlushDone).pushes == s.pushes
  {
    assert Step(s, FlushDone) == FlushStep(s);
    assert Complete(Flushed(s)).scheduled == [Success];
  }

  lemma {:induction false} Serves(s: State) returns (es: seq<Event>)
    requires Serving(s)
    ensures Succeeded(Run(s, es)) && Run(s, es).pushes == 1
    decreases s.transferLen - s.transferred
  {
    hide Step, Succeeded;
    var e := ServesOn(s);
    var rest;
    if Serving(Step(s, e)) && Step(s, e).transferLen - Step(s, e).transferred < s.transferLen - s.transferred {
      rest := Serves(Step(s, e));
    } else {
      FlushHandsOver(Step(s, e));
      rest := [FlushDone];
      SingleEvent(Step(s, e), FlushDone, []);
    }
    es := [e] + rest;
    assert es[1..] == rest;
  }

  /**
    A transfer can end in success if and only if the source is not empty and no more is announced
    than it has: an empty one is started but never reaches the finishing branch.
   */
  lemma SuccessReachableIff(cfg: Config)
    requires cfg.size < TWO_64
    ensures (exists s :: OnePush(s) && s.cfg == cfg && Succeeded(s))
            <==> cfg.size > 0 && AnnouncedLength(cfg) <= cfg.size
  {
    if cfg.size > 0 && AnnouncedLength(cfg) <= cfg.size {
      var push := Push(0, true, true);
      var s := Step(Initial(cfg), push);
      FirstPush(cfg);
      var es := Serves(s);
      assert Run(Initial(cfg), [push] + es) == Run(s, es);
      assert OnePush(Run(Initial(cfg), [push] + es));
    } else {
      forall s | OnePush(s) && s.cfg == cfg
        ensures !Succeeded(s)
      {
        OnePushSafe(s);
      }
    }
  }

  lemma FirstPush(cfg: Config)
    requires 0 < cfg.size < TWO_64 && AnnouncedLength(cfg) <= cfg.size
    ensures Serving(Step(Initial(cfg), Push(0, true, true)))
  {
    assert Step(Initial(cfg), Push(0, true, true)) == PushStep(Initial(cfg), 0, true, true);
    assert ReadSize(Initial(cfg)) > 0;
  }

  // ----- partial ranges ----------------------------------------------------------------

  /** A read of everything that is left is pending, and more is left than has been announced. */
  predicate Overrunning(s: State) {
    && Alive(s) && s.pushes == 1 && s.sourceConn.Some? && !s.targetClosed
    && s.pendingReads == map[s.sourceConn.value := ReadSize(s)]
    && s.transferred <= s.transferLen < s.cfg.size < TWO_64
    && s.refs > 1
  }

  /** One more block: either the assertion fails, or the next read of all that is left is pending. */
  lemma OverrunBlock(s: State, bytes: seq<Byte>)
    requires Overrunning(s) && 1 <= |bytes| <= ReadSize(s) && s.transferred + |bytes| != s.transferLen
    ensures var t := Step(s, ReadDone(s.sourceConn.value, Data(bytes, true, true, true)));
            && t.pushes == 1
            && if s.transferred + |bytes| > s.transferLen then t.crashed
               else Overrunning(t) && t.transferred == s.transferred + |bytes| && t.transferLen == s.transferLen
  {
    var c := s.sourceConn.value;
    var v := Written(Received(s, c, bytes), bytes);
    assert Step(s, ReadDone(c, Data(bytes, true, true, true))) == Forward(v, true, true);
    if v.transferred < v.transferLen {
      assert v.pendingReads == map[];
      assert ReadSize(v) > 0;
      assert Read(v, true).refs > 1;
    }
  }

  lemma {:induction false} Overrun(s: State) returns (es: seq<Event>)
    requires Overrunning(s)
    requires s.transferred == s.transferLen ==> s.transferred == 0
    ensures Run(s, es).crashed && Run(s, es).pushes == 1
    decreases s.transferLen - s.transferred
  {
    var bytes := seq(if s.transferred + 1 == s.transferLen then 2 else 1, _ => 0 as Byte);
    assert ReadSize(s) == Min(BLOCK_SIZE, s.cfg.size - s.transferred);
    OverrunBlock(s, bytes);
    hide Step;
    var e := ReadDone(s.sourceConn.value, Data(bytes, true, true, true));
    if s.transferred + |bytes| > s.transferLen {
      es := [e];
      assert Run(s, es) == Run(Step(s, e), []);
    } else {
      var rest := Overrun(Step(s, e));
      es := [e] + rest;
      assert es[1..] == rest;
    }
  }

  /**
    The assertion can fail if and only if the announced length is smaller than the source:
    reads are bounded by the size of the source, not by the announced length.
   */
  lemma OverrunIff(cfg: Config)
    requires cfg.size < TWO_64
    ensures (exists s :: OnePush(s) && s.cfg == cfg && s.crashed) <==> AnnouncedLength(cfg) < cfg.size
  {
    if AnnouncedLength(cfg) < cfg.size {
      var push := Push(0, true, true);
      var s := Step(Initial(cfg), push);
      assert Overrunning(s);
      var es := Overrun(s);
      assert Run(Initial(cfg), [push] + es) == Run(s, es);
      assert OnePush(Run(Initial(cfg), [push] + es));
    } else {
      forall s | OnePush(s) && s.cfg == cfg
        ensures !s.crashed
      {
        OnePushSafe(s);
      }
    }
  }
}
