/**
  Seeder and relay together: what the seeder writes to its connection is what the relay reads
  from it, in order, with any delay and any split into blocks on either side.
 */
module EndToEnd {
  import opened Common
  import opened Words
  import Seeder = SeederSpec
  import SeederTheorems
  import Transfer = TransferSpec
  import opened TransferSafety
  import opened TransferCompletion
  import opened TransferProgress
  import opened TransferAccounting
  import opened TransferVerdicts
  import TransferLiveness
  import ByteRanges

  datatype State = State(seeder: Seeder.State, relay: Transfer.State)

  datatype Event = SeederDoes(s: Seeder.Event) | RelayDoes(r: Transfer.Event)

  /** A seeder pushes `file` for a transfer that was set up with `cfg`. */
  function Initial(file: seq<Byte>, cfg: Transfer.Config, writable: bool): State {
    State(Seeder.Initial(file, |file|, writable), Transfer.Initial(cfg))
  }

  function Unchunked(size: nat): Transfer.Config {
    Transfer.Config(size, false, ByteRanges.ByteRange(0, -1))
  }

  /** A run in which at most one push is accepted. */
  predicate OneRun(file: seq<Byte>, cfg: Transfer.Config, writable: bool, es: seq<Event>) {
    |file| < TWO_64 && cfg.size < TWO_64 && Run(Initial(file, cfg, writable), es).relay.pushes <= 1
  }

  /** The relay can only read what the seeder has written and it has not read yet. */
  function Step(s: State, e: Event): State {
    match e
    case SeederDoes(se) => s.(seeder := Seeder.Step(s.seeder, se))
    case RelayDoes(re) =>
      if EventFits(s.relay, re, s.seeder.sent) then s.(relay := Transfer.Step(s.relay, re)) else s
  }

  function Run(s: State, es: seq<Event>): State
    decreases |es|
  {
    if es == [] then s else Run(Step(s, es[0]), es[1..])
  }

  /** The relay's view of a run: the events that concerned it and could happen. */
  function RelayView(s: State, es: seq<Event>): seq<Transfer.Event>
    decreases |es|
  {
    if es == [] then []
    else if es[0].RelayDoes? && EventFits(s.relay, es[0].r, s.seeder.sent) then
      [es[0].r] + RelayView(Step(s, es[0]), es[1..])
    else RelayView(Step(s, es[0]), es[1..])
  }

  /** Octets in transit are never lost, repeated or reordered. */
  ghost predicate Channel(s: State) {
    && SeederTheorems.Invariant(s.seeder)
    && (s.seeder.file != [] ==> SeederTheorems.Faithful(s.seeder))
    && s.relay.consumed <= s.seeder.sent
  }

  lemma ReadFits(s: Transfer.State, e: Transfer.Event, stream: seq<Byte>)
    requires EventFits(s, e, stream) && s.consumed <= stream
    ensures Transfer.Step(s, e).consumed <= stream
  {
    hide Transfer.Step;
  }

  lemma StepChannel(s: State, e: Event)
    requires Channel(s)
    ensures Channel(Step(s, e)) && Step(s, e).seeder.file == s.seeder.file
  {
    match e
    case SeederDoes(se) => SeederTheorems.StepInvariant(s.seeder, se);
    case RelayDoes(re) =>
      if EventFits(s.relay, re, s.seeder.sent) {
        ReadFits(s.relay, re, s.seeder.sent);
      }
  }

  lemma {:induction false} RunChannel(s: State, es: seq<Event>)
    requires Channel(s)
    ensures Channel(Run(s, es)) && Run(s, es).seeder.file == s.seeder.file
    ensures Run(s, es).relay == Transfer.Run(s.relay, RelayView(s, es))
    decreases |es|
  {
    if es != [] {
      StepChannel(s, es[0]);
      RunChannel(Step(s, es[0]), es[1..]);
    }
  }

  /**
    At any moment of any run, for any size the source was registered with and any range, the
    leecher has the beginning of the file; a success means that it has as much of it as was
    announced, which is the file if and only if the file's length was announced.
   */
  lemma BeginningOfFile(file: seq<Byte>, cfg: Transfer.Config, writable: bool, es: seq<Event>)
    requires OneRun(file, cfg, writable, es)
    ensures var r := Run(Initial(file, cfg, writable), es).relay;
            && r.body <= file
            && (Succeeded(r) && !r.crashed ==>
                  && Transfer.AnnouncedLength(cfg) <= |file|
                  && r.body == file[..Transfer.AnnouncedLength(cfg)]
                  && (r.body == file <==> Transfer.AnnouncedLength(cfg) == |file|))
  {
    hide Transfer.Run, Transfer.Step, Transfer.AnnouncedLength;
    var s := Initial(file, cfg, writable);
    RunChannel(s, es);
    var view := RelayView(s, es);
    var r := Transfer.Run(Transfer.Initial(cfg), view);
    assert OnePush(r);
    RelaySafety(r);
    assert r.body <= r.consumed <= Run(s, es).seeder.sent <= file;
    assert r.body == file[..|r.body|];
  }

  // ----- nothing is stuck --------------------------------------------------------------

  function ForSeeder(es: seq<Seeder.Event>): seq<Event> {
    seq(|es|, i requires 0 <= i < |es| => SeederDoes(es[i]))
  }

  function ForRelay(es: seq<Transfer.Event>): seq<Event> {
    seq(|es|, i requires 0 <= i < |es| => RelayDoes(es[i]))
  }

  lemma {:induction false} RunConcat(s: State, a: seq<Event>, b: seq<Event>)
    ensures Run(s, a + b) == Run(Run(s, a), b)
    decreases |a|
  {
    if a == [] {
      assert a + b == b;
    } else {
      assert (a + b)[0] == a[0] && (a + b)[1..] == a[1..] + b;
      RunConcat(Step(s, a[0]), a[1..], b);
    }
  }

  lemma {:induction false} SeederAlone(s: State, es: seq<Seeder.Event>)
    ensures Run(s, ForSeeder(es)) == s.(seeder := Seeder.Run(s.seeder, es))
    decreases |es|
  {
    hide Seeder.Step;
    if es != [] {
      assert ForSeeder(es)[1..] == ForSeeder(es[1..]);
      SeederAlone(Step(s, SeederDoes(es[0])), es[1..]);
    }
  }

  lemma {:induction false} RelayAlone(s: State, es: seq<Transfer.Event>)
    requires Fits(s.relay, es, s.seeder.sent)
    ensures Run(s, ForRelay(es)) == s.(relay := Transfer.Run(s.relay, es))
    decreases |es|
  {
    hide Transfer.Step;
    if es != [] {
      assert ForRelay(es)[1..] == ForRelay(es[1..]);
      RelayAlone(Step(s, RelayDoes(es[0])), es[1..]);
    }
  }

  /**
    From any state of any run in which the relay is in flight and the seeder is healthy, some
    continuation ends in a success that leaves the whole source with the leecher, provided that
    the file is not shorter than its source was registered.
   */
  lemma NeverStuck(file: seq<Byte>, cfg: Transfer.Config, writable: bool, es: seq<Event>) returns (more: seq<Event>)
    requires OneRun(file, cfg, writable, es) && WholeSource(cfg) && cfg.size <= |file|
    requires InFlight(Run(Initial(file, cfg, writable), es).relay)
    requires SeederTheorems.Healthy(Run(Initial(file, cfg, writable), es).seeder)
    ensures var r := Run(Initial(file, cfg, writable), es + more).relay;
            r.delivered == [Transfer.Success] && r.body == file[..cfg.size]
  {
    hide Transfer.Run, Transfer.Step, Seeder.Run, Seeder.Step, WholeSource;
    var start := Initial(file, cfg, writable);
    var s := Run(start, es);
    RunChannel(start, es);
    InitialInvariant(cfg);
    RunInvariant(start.relay, RelayView(start, es));
    var a := SeederTheorems.SendRest(s.seeder);
    SeederAlone(s, a);
    var t := s.(seeder := Seeder.Run(s.seeder, a));
    assert t.seeder.sent == file;
    var data := Remaining(s);
    var b := Drain(t.relay, data);
    FitsLonger(t.relay, b, s.relay.consumed + data, file);
    RelayAlone(t, b);
    more := ForSeeder(a) + ForRelay(b);
    RunConcat(s, ForSeeder(a), ForRelay(b));
    RunConcat(start, es, more);
  }

  /**
    Whatever has become of the seeder, and whatever it still sends: a transfer of a whole source
    that has not been abandoned can be brought to its outcome by the relay alone.
   */
  lemma AlwaysEnds(file: seq<Byte>, cfg: Transfer.Config, writable: bool, es: seq<Event>) returns (more: seq<Event>)
    requires OneRun(file, cfg, writable, es) && WholeSource(cfg)
    requires Run(Initial(file, cfg, writable), es).relay.delivered == []
    requires !TransferLiveness.Abandoned(Run(Initial(file, cfg, writable), es).relay)
    ensures Run(Initial(file, cfg, writable), es + more).relay.delivered != []
    ensures forall e :: e in more ==> e.RelayDoes? && TransferLiveness.Unaided([e.r])
  {
    hide Transfer.Run, Transfer.Step, WholeSource, TransferLiveness.Abandoned;
    var start := Initial(file, cfg, writable);
    var s := Run(start, es);
    RunChannel(start, es);
    assert OnePush(s.relay);
    TransferLiveness.OnePushWaiting(s.relay);
    hide Invariant, TransferLiveness.Waiting, OnePush;
    var b := TransferLiveness.LeadsOn(s.relay);
    FitsLonger(s.relay, b, s.relay.consumed, s.seeder.sent);
    RelayAlone(s, b);
    more := ForRelay(b);
    RunConcat(start, es, more);
    forall e | e in more
      ensures e.RelayDoes? && TransferLiveness.Unaided([e.r])
    {
      var i :| 0 <= i < |b| && more[i] == e;
      assert b[i] in b;
    }
  }

  lemma {:induction false} FitsLonger(s: Transfer.State, es: seq<Transfer.Event>, stream: seq<Byte>, longer: seq<Byte>)
    requires Fits(s, es, stream) && stream <= longer
    ensures Fits(s, es, longer)
    decreases |es|
  {
    hide Transfer.Step;
    if es != [] {
      FitsLonger(Transfer.Step(s, es[0]), es[1..], stream, longer);
    }
  }

  /** What the relay has not written yet is the next part of what it will read. */
  lemma Remaining(s: State) returns (data: seq<Byte>)
    requires Channel(s) && Invariant(s.relay) && InFlight(s.relay) && s.relay.cfg.size <= |s.seeder.file|
    ensures |data| == s.relay.cfg.size - s.relay.transferred
    ensures s.relay.body + data == s.seeder.file[..s.relay.cfg.size]
    ensures s.relay.consumed + data <= s.seeder.file
  {
    var r := s.relay;
    assert r.body <= r.consumed <= s.seeder.sent <= s.seeder.file;
    if r.transferred < r.cfg.size {
      assert !r.targetClosed;
    }
    data := s.seeder.file[r.transferred..r.cfg.size];
    assert data == [] ==> r.consumed + data == r.consumed;
  }

  // ----- the copy and its verdict ------------------------------------------------------

  /**
    The events that can separate the outcome from the body: a cancellation in the flush window,
    and a late start of a seeder that has written, or can still write, the whole file.
   */
  predicate Misguides(s: State, e: Event) {
    && e.RelayDoes?
    && (CancelledInFlush(s.relay, e.r)
        || (Transfer.LateStart(s.relay, e.r)
            && (SeederTheorems.Healthy(s.seeder) || s.seeder.sent == s.seeder.file)))
  }

  predicate NeverMisguided(s: State, es: seq<Event>)
    decreases |es|
  {
    es == [] || (!Misguides(s, es[0]) && NeverMisguided(Step(s, es[0]), es[1..]))
  }

  /** The seeder will write nothing more, and has not written everything. */
  predicate Doomed(s: State) {
    !SeederTheorems.Healthy(s.seeder) && s.seeder.sent != s.seeder.file
  }

  /** A file that is not empty goes through a transfer of its size, and a failure tells that octets are missing. */
  ghost predicate Telltale(s: State) {
    && Channel(s) && Invariant(s.relay)
    && s.relay.cfg.size == |s.seeder.file| > 0
    && (Telling(s.relay) || Doomed(s))
  }

  lemma SeederTelltale(s: State, e: Seeder.Event)
    requires Telltale(s)
    ensures Telltale(s.(seeder := Seeder.Step(s.seeder, e)))
  {
    hide Invariant, Telling, Seeder.Step;
    StepChannel(s, SeederDoes(e));
    if Doomed(s) {
      SeederTheorems.UnhealthyStays(s.seeder, e);
    }
  }

  lemma StepTelltale(s: State, e: Event)
    requires Telltale(s) && !Misguides(s, e) && Step(s, e).relay.pushes <= 1
    ensures Telltale(Step(s, e)) && Step(s, e).seeder.file == s.seeder.file
  {
    hide Invariant, Telling, Seeder.Step, Transfer.Step, Channel, SeederTheorems.Healthy;
    StepChannel(s, e);
    match e
    case SeederDoes(se) => SeederTelltale(s, se);
    case RelayDoes(re) =>
      if EventFits(s.relay, re, s.seeder.sent) {
        StepInvariant(s.relay, re);
        if !Doomed(s) {
          StepTelling(s.relay, re);
        }
      }
  }

  lemma {:induction false} RunTelltale(s: State, es: seq<Event>)
    requires Telltale(s) && NeverMisguided(s, es) && Run(s, es).relay.pushes <= 1
    ensures Telltale(Run(s, es)) && Run(s, es).seeder.file == s.seeder.file
    decreases |es|
  {
    hide Telltale, Step, Misguides;
    if es != [] {
      PushesGrow(Step(s, es[0]), es[1..]);
      StepTelltale(s, es[0]);
      RunTelltale(Step(s, es[0]), es[1..]);
    }
  }

  lemma {:induction false} PushesGrow(s: State, es: seq<Event>)
    ensures s.relay.pushes <= Run(s, es).relay.pushes
    decreases |es|
  {
    hide Transfer.Step, Seeder.Step;
    if es != [] {
      PushesGrow(Step(s, es[0]), es[1..]);
    }
  }

  /** The delivered outcome says the wrong thing about what the leecher has. */
  predicate Wrong(s: State) {
    exists o :: o in s.relay.delivered && !(o == Transfer.Success <==> s.relay.body == s.seeder.file)
  }

  lemma BodyIsPrefix(s: State)
    requires Channel(s) && Invariant(s.relay)
    ensures s.relay.body <= s.seeder.file && |s.relay.body| <= |s.seeder.sent| <= |s.seeder.file|
    ensures |s.seeder.sent| == |s.seeder.file| ==> s.seeder.sent == s.seeder.file
  {
    assert s.relay.body <= s.relay.consumed <= s.seeder.sent <= s.seeder.file;
  }

  lemma TelltaleIsRight(s: State)
    requires Telltale(s)
    ensures !Wrong(s)
  {
    BodyIsPrefix(s);
    hide Channel, Invariant, SeederTheorems.Healthy;
    forall o | o in s.relay.delivered
      ensures o == Transfer.Success <==> s.relay.body == s.seeder.file
    {
      EndedTells(s.relay, o);
      if !Doomed(s) {
        NotMisled(s.relay);
      }
    }
  }

  lemma InitialTelltale(file: seq<Byte>, writable: bool)
    requires 0 < |file| < TWO_64
    ensures Telltale(Initial(file, Unchunked(|file|), writable))
  {
    InitialInvariant(Unchunked(|file|));
  }

  /**
    End-to-end copy: when the file has the size it was registered with and is sent unchunked,
    a success means the whole file, and a drop, failed read or failed write means that some of it
    is missing. If nothing is cancelled in the flush window and no seeder starts late that has
    written or can write the whole file, a transfer succeeds exactly when the leecher ends up
    with the file.
   */
  lemma EndToEndCopy(file: seq<Byte>, writable: bool, es: seq<Event>)
    requires file != [] && OneRun(file, Unchunked(|file|), writable, es)
    ensures var r := Run(Initial(file, Unchunked(|file|), writable), es).relay;
            && (Succeeded(r) ==> r.body == file)
            && (forall o :: o in r.delivered && Cut(o) ==> r.body != file)
            && (NeverMisguided(Initial(file, Unchunked(|file|), writable), es) ==>
                  forall o :: o in r.delivered ==> (o == Transfer.Success <==> r.body == file))
  {
    hide Transfer.Run, Transfer.Step, Misguides, Cut;
    var cfg := Unchunked(|file|);
    var s := Initial(file, cfg, writable);
    BeginningOfFile(file, cfg, writable, es);
    RunChannel(s, es);
    var r := Transfer.Run(Transfer.Initial(cfg), RelayView(s, es));
    assert OnePush(r);
    NeverAborted(r);
    assert |r.body| == |file| <==> r.body == file;
    forall o | o in r.delivered
      ensures Cut(o) ==> r.body != file
    {
      OutcomeTells(r, o);
    }
    if NeverMisguided(s, es) {
      hide Telltale;
      InitialTelltale(file, writable);
      RunTelltale(s, es);
      TelltaleIsRight(Run(s, es));
    }
  }

  // ----- the condition is exact --------------------------------------------------------

  /** A state of a run of a file of its registered size, unchunked, with none of these events. */
  ghost predicate CleanlyReached(s: State) {
    exists writable, es: seq<Event> :: CleanRun(s.seeder.file, writable, es)
                                       && s == Run(Initial(s.seeder.file, Unchunked(|s.seeder.file|), writable), es)
  }

  predicate CleanRun(file: seq<Byte>, writable: bool, es: seq<Event>) {
    && file != [] && OneRun(file, Unchunked(|file|), writable, es)
    && NeverMisguided(Initial(file, Unchunked(|file|), writable), es)
  }

  lemma CleanIsTelltale(s: State)
    requires CleanlyReached(s)
    ensures Telltale(s)
  {
    hide Transfer.Step, Seeder.Step, Telltale, NeverMisguided;
    var writable, es: seq<Event> :| CleanRun(s.seeder.file, writable, es)
                                    && s == Run(Initial(s.seeder.file, Unchunked(|s.seeder.file|), writable), es);
    InitialTelltale(s.seeder.file, writable);
    RunTelltale(Initial(s.seeder.file, Unchunked(|s.seeder.file|), writable), es);
  }

  predicate LeadsWrong(s: State, more: seq<Event>) {
    Run(s, more).relay.pushes <= 1 && NeverMisguided(s, more) && Wrong(Run(s, more))
  }

  /** Some continuation without such events ends in an outcome that says the wrong thing. */
  ghost predicate CanGoWrong(s: State) {
    exists more: seq<Event> :: LeadsWrong(s, more)
  }

  /** No push and no cancellation. */
  predicate Peaceful(es: seq<Event>) {
    forall e :: e in es && e.RelayDoes? ==> !e.r.Push? && !e.r.Cancel?
  }

  lemma {:induction false} PeacefulNeverMisguided(s: State, es: seq<Event>)
    requires Peaceful(es)
    ensures NeverMisguided(s, es)
    decreases |es|
  {
    hide Step;
    if es != [] {
      PeacefulNeverMisguided(Step(s, es[0]), es[1..]);
    }
  }

  lemma CancellationGoesWrong(s: State)
    requires Telltale(s) && CancelledInFlush(s.relay, Transfer.Cancel)
    ensures CanGoWrong(Step(s, RelayDoes(Transfer.Cancel)))
  {
    BodyIsPrefix(s);
    assert s.relay.pushes == 1 && |s.relay.body| == s.relay.transferred;
    CancelMisleads(s.relay);
    hide Transfer.Step, Transfer.Run, Telltale;
    var t := Step(s, RelayDoes(Transfer.Cancel));
    SingleEvent(t.relay, Transfer.Idle, t.seeder.sent);
    RelayAlone(t, [Transfer.Idle]);
    var more := ForRelay([Transfer.Idle]);
    PeacefulNeverMisguided(t, more);
    assert Transfer.Failed(Transfer.Cancelled) in Run(t, more).relay.delivered;
    assert LeadsWrong(t, more);
  }

  /** The rest of the file gets written, if it has not been. */
  lemma WritesAll(s: State) returns (es: seq<Seeder.Event>)
    requires Channel(s) && s.seeder.file != []
    requires SeederTheorems.Healthy(s.seeder) || s.seeder.sent == s.seeder.file
    ensures Seeder.Run(s.seeder, es).sent == s.seeder.file
  {
    if s.seeder.sent == s.seeder.file {
      es := [];
    } else {
      es := SeederTheorems.SendRest(s.seeder);
    }
  }

  lemma LateStartGoesWrong(s: State, e: Transfer.Event)
    requires Telltale(s) && Transfer.LateStart(s.relay, e) && Transfer.Step(s.relay, e).pushes <= 1
    requires SeederTheorems.Healthy(s.seeder) || s.seeder.sent == s.seeder.file
    ensures CanGoWrong(Step(s, RelayDoes(e)))
  {
    LateIsFirst(s.relay, e);
    var a := WritesAll(s);
    var b := LateStartMisleads(s.relay, e, s.seeder.file);
    hide Transfer.Step, Transfer.Run, Seeder.Step, Seeder.Run, Telltale;
    var t := Step(s, RelayDoes(e));
    SeederAlone(t, a);
    var u := t.(seeder := Seeder.Run(t.seeder, a));
    RelayAlone(u, b);
    var more := ForSeeder(a) + ForRelay(b);
    RunConcat(t, ForSeeder(a), ForRelay(b));
    PeacefulNeverMisguided(t, more);
    var v := Run(t, more);
    SameFile(t.seeder, a);
    assert v.relay.delivered[0] in v.relay.delivered;
    assert LeadsWrong(t, more);
  }

  lemma {:induction false} SameFile(s: Seeder.State, es: seq<Seeder.Event>)
    ensures Seeder.Run(s, es).file == s.file
    decreases |es|
  {
    if es != [] {
      SameFile(Seeder.Step(s, es[0]), es[1..]);
    }
  }

  lemma LateIsFirst(s: Transfer.State, e: Transfer.Event)
    requires Transfer.LateStart(s, e) && Transfer.Step(s, e).pushes <= 1
    ensures s.pushes == 0
  {
    assert Transfer.Step(s, e) == Transfer.PushStep(s, e.conn, e.headersOk, e.writable);
  }

  /**
    The condition of the copy theorem is exact: after any run without such events, the next event
    makes it possible that the outcome says the wrong thing if and only if it is one of them.
   */
  lemma MisguidedIff(s: State, e: Event)
    requires CleanlyReached(s) && Step(s, e).relay.pushes <= 1
    ensures Misguides(s, e) <==> CanGoWrong(Step(s, e))
  {
    hide Telltale, Step, Wrong, CancelledInFlush, Transfer.LateStart, SeederTheorems.Healthy;
    CleanIsTelltale(s);
    if Misguides(s, e) {
      MisguidedFits(s, e);
      if CancelledInFlush(s.relay, e.r) {
        CancellationGoesWrong(s);
      } else {
        LateStartGoesWrong(s, e.r);
      }
    } else {
      StepTelltale(s, e);
      forall more | Run(Step(s, e), more).relay.pushes <= 1 && NeverMisguided(Step(s, e), more)
        ensures !Wrong(Run(Step(s, e), more))
      {
        RunTelltale(Step(s, e), more);
        TelltaleIsRight(Run(Step(s, e), more));
      }
    }
  }

  lemma MisguidedFits(s: State, e: Event)
    requires Misguides(s, e)
    ensures Step(s, e).relay == Transfer.Step(s.relay, e.r)
    ensures CancelledInFlush(s.relay, e.r) ==> e.r == Transfer.Cancel
  {
    hide Transfer.Step;
  }
}
