/** The queue of HTTP log entries: one writer, strictly in order. */
module AccessLog {
  import opened Common

  /** The lines that are queued, the line the pending write was given, and what has reached the file. */
  datatype Log = Log(queue: seq<string>, writing: Option<string>, file: string)

  datatype Event = Entry(text: string) | Written(n: nat)

  function Concat(lines: seq<string>): string {
    if lines == [] then "" else lines[0] + Concat(lines[1..])
  }

  /** web_dir_on_log_entry: queue the line; if no write is pending, the line itself is written. */
  function OnEntry(l: Log, text: string): Log {
    var line := text + "\n";
    l.(queue := l.queue + [line], writing := if l.writing.None? then Some(line) else l.writing)
  }

  /** The queue without its head; an empty queue has none to lose. */
  function Popped(queue: seq<string>): seq<string> {
    if queue == [] then [] else queue[1..]
  }

  /**
    web_dir_on_log_entry_written: `n` octets of what the write was given are in the file; the
    head of the queue is dropped and the next head is written.
   */
  function OnWritten(l: Log, n: nat): Log {
    if l.writing.None? || n > |l.writing.value| then l
    else
      var queue := Popped(l.queue);
      Log(queue, if queue == [] then None else Some(queue[0]), l.file + l.writing.value[..n])
  }

  function Step(l: Log, e: Event): Log {
    match e
    case Entry(text) => OnEntry(l, text)
    case Written(n) => OnWritten(l, n)
  }

  function Run(l: Log, es: seq<Event>): Log
    decreases |es|
  {
    if es == [] then l else Step(Run(l, es[..|es| - 1]), es[|es| - 1])
  }

  const EMPTY := Log([], None, "")

  /** The line that an event hands to the log, if any. */
  function Lines(e: Event): seq<string> {
    if e.Entry? then [e.text + "\n"] else []
  }

  /** The lines handed to the log in a run. */
  function Received(es: seq<Event>): seq<string>
    decreases |es|
  {
    if es == [] then [] else Received(es[..|es| - 1]) + Lines(es[|es| - 1])
  }

  /** The event ends the pending write. */
  predicate Ends(l: Log, e: Event) {
    e.Written? && l.writing.Some? && e.n <= |l.writing.value|
  }

  /** If the event ends a write, the write took all that it was given. */
  predicate Whole(l: Log, e: Event) {
    Ends(l, e) ==> e.n == |l.writing.value|
  }

  /** Every write that finished in the run wrote all that it was given. */
  predicate WholeWrites(l: Log, es: seq<Event>)
    decreases |es|
  {
    es == [] || (WholeWrites(l, es[..|es| - 1]) && Whole(Run(l, es[..|es| - 1]), es[|es| - 1]))
  }

  lemma {:induction false} ConcatAppend(lines: seq<string>, more: string)
    ensures Concat(lines + [more]) == Concat(lines) + more
  {
    if lines == [] {
      assert [more][1..] == [];
      assert lines + [more] == [more];
    } else {
      assert (lines + [more])[1..] == lines[1..] + [more];
      ConcatAppend(lines[1..], more);
    }
  }

  /** How the log stands after the lines `lines` have been received. */
  ghost predicate Standing(l: Log, lines: seq<string>) {
    && l.writing == (if l.queue == [] then None else Some(l.queue[0]))
    && |l.queue| <= |lines|
    && l.queue == lines[|lines| - |l.queue|..]
    && |l.file + Concat(l.queue)| <= |Concat(lines)|
  }

  /** Nothing that was received is missing. */
  predicate Complete(l: Log, lines: seq<string>) {
    l.file + Concat(l.queue) == Concat(lines)
  }

  lemma EntryStanding(l: Log, lines: seq<string>, text: string)
    requires Standing(l, lines)
    ensures Standing(OnEntry(l, text), lines + [text + "\n"])
    ensures Complete(OnEntry(l, text), lines + [text + "\n"]) <==> Complete(l, lines)
  {
    var line := text + "\n";
    ConcatAppend(l.queue, line);
    ConcatAppend(lines, line);
    var before, after := l.file + Concat(l.queue), l.file + Concat(l.queue + [line]);
    assert after == before + line;
    assert before == after[..|before|] && Concat(lines) == Concat(lines + [line])[..|Concat(lines)|];
  }

  lemma WrittenStanding(l: Log, lines: seq<string>, n: nat)
    requires Standing(l, lines) && Ends(l, Written(n))
    ensures Standing(OnWritten(l, n), lines)
    ensures n < |l.queue[0]| ==> !Complete(OnWritten(l, n), lines)
    ensures n == |l.queue[0]| ==> (Complete(OnWritten(l, n), lines) <==> Complete(l, lines))
  {
    assert l.file + l.queue[0] + Concat(l.queue[1..]) == l.file + Concat(l.queue);
    if n == |l.queue[0]| {
      assert l.queue[0][..n] == l.queue[0];
    }
  }

  lemma StepStanding(l: Log, lines: seq<string>, e: Event)
    requires Standing(l, lines)
    ensures Standing(Step(l, e), lines + Lines(e))
    ensures Complete(Step(l, e), lines + Lines(e)) <==> Complete(l, lines) && Whole(l, e)
  {
    match e {
      case Entry(text) => EntryStanding(l, lines, text);
      case Written(n) =>
        assert lines + [] == lines;
        if Ends(l, e) {
          WrittenStanding(l, lines, n);
        }
    }
  }

  lemma {:induction false} RunLog(es: seq<Event>)
    ensures Standing(Run(EMPTY, es), Received(es))
    ensures Complete(Run(EMPTY, es), Received(es)) <==> WholeWrites(EMPTY, es)
    decreases |es|
  {
    hide Standing, Complete, Step, Whole, Lines;
    if es == [] {
      StandingEmpty();
    } else {
      var before := es[..|es| - 1];
      RunLog(before);
      StepStanding(Run(EMPTY, before), Received(before), es[|es| - 1]);
    }
  }

  lemma StandingEmpty()
    ensures Standing(EMPTY, []) && Complete(EMPTY, [])
  {}

  /**
    In every run, the pending write was given the head of the queue, and one is pending exactly
    when lines are queued; the queue is the end of what was received; and the file and the queue
    together hold exactly what was received, in order, if and only if every write was whole: a
    short write loses the rest of its line.
   */
  lemma LogFifo(es: seq<Event>)
    ensures var l := Run(EMPTY, es);
            && (l.queue == [] ==> l.writing == None)
            && (l.queue != [] ==> l.writing == Some(l.queue[0]))
            && |l.queue| <= |Received(es)|
            && l.queue == Received(es)[|Received(es)| - |l.queue|..]
            && (l.file + Concat(l.queue) == Concat(Received(es)) <==> WholeWrites(EMPTY, es))
  {
    RunLog(es);
  }

  // ----- what is in the file, writes whole or not --------------------------------------

  /** What a write that ends with the event reports. */
  function Reported(l: Log, e: Event): seq<nat> {
    if Ends(l, e) then [e.n] else []
  }

  /** How many octets of each line were written, in the order in which the writes ended. */
  function Counts(es: seq<Event>): seq<nat>
    decreases |es|
  {
    if es == [] then []
    else
      var before, e := es[..|es| - 1], es[|es| - 1];
      Counts(before) + Reported(Run(EMPTY, before), e)
  }

  /** The beginnings of the lines, one after the other. */
  function Beginnings(lines: seq<string>, counts: seq<nat>): string
    requires |counts| <= |lines|
    decreases |counts|
  {
    if counts == [] then ""
    else
      var k := |counts| - 1;
      Beginnings(lines, counts[..k]) + if counts[k] <= |lines[k]| then lines[k][..counts[k]] else lines[k]
  }

  lemma {:induction false} BeginningsOfMore(lines: seq<string>, more: seq<string>, counts: seq<nat>)
    requires |counts| <= |lines|
    ensures Beginnings(lines + more, counts) == Beginnings(lines, counts)
    decreases |counts|
  {
    if counts != [] {
      BeginningsOfMore(lines, more, counts[..|counts| - 1]);
    }
  }

  /** The file holds the beginnings of the first lines, and the others are queued. */
  predicate Holds(l: Log, lines: seq<string>, counts: seq<nat>) {
    && |counts| + |l.queue| == |lines| && l.queue == lines[|counts|..]
    && l.file == Beginnings(lines, counts)
  }

  lemma EntryHolds(l: Log, lines: seq<string>, counts: seq<nat>, text: string)
    requires Holds(l, lines, counts)
    ensures Holds(OnEntry(l, text), lines + [text + "\n"], counts)
  {
    BeginningsOfMore(lines, [text + "\n"], counts);
  }

  lemma WrittenHolds(l: Log, lines: seq<string>, counts: seq<nat>, n: nat)
    requires Standing(l, lines) && Ends(l, Written(n)) && Holds(l, lines, counts)
    ensures Holds(OnWritten(l, n), lines, counts + [n])
  {
    assert l.queue[0] == lines[|counts|];
    assert (counts + [n])[..|counts|] == counts;
  }

  lemma StepHolds(l: Log, lines: seq<string>, counts: seq<nat>, e: Event)
    requires Standing(l, lines) && Holds(l, lines, counts)
    ensures Holds(Step(l, e), lines + Lines(e), counts + Reported(l, e))
  {
    assert counts + [] == counts && lines + [] == lines;
    match e {
      case Entry(text) => EntryHolds(l, lines, counts, text);
      case Written(n) =>
        if Ends(l, e) {
          WrittenHolds(l, lines, counts, n);
        }
    }
  }

  lemma {:induction false} RunHolds(es: seq<Event>)
    ensures Holds(Run(EMPTY, es), Received(es), Counts(es))
    decreases |es|
  {
    hide Standing, Holds, Step, Lines;
    if es == [] {
      EmptyHolds();
    } else {
      var before := es[..|es| - 1];
      RunHolds(before);
      RunLog(before);
      StepHolds(Run(EMPTY, before), Received(before), Counts(before), es[|es| - 1]);
    }
  }

  lemma EmptyHolds()
    ensures Holds(EMPTY, [], [])
  {}

  /**
    In every run each line is written once, in the order received: the file holds the beginning
    of every line whose write has ended, as much of it as that write reported, and the others are
    queued.
   */
  lemma FileIs(es: seq<Event>)
    ensures var l := Run(EMPTY, es);
            && |Counts(es)| + |l.queue| == |Received(es)|
            && l.file == Beginnings(Received(es), Counts(es))
            && l.queue == Received(es)[|Counts(es)|..]
  {
    RunHolds(es);
  }

  // ----- the web service's side --------------------------------------------------------

  class WebService {
    var logQueue: seq<string>
    // what the output stream was given to write and has not reported back yet
    var writing: Option<string>
    ghost var file: string

    ghost function Snapshot(): Log
      reads this
    {
      Log(logQueue, writing, file)
    }

    constructor ()
      ensures Snapshot() == EMPTY
    {
      logQueue, writing, file := [], None, "";
    }

    method OnLogEntry(entry: string)
      modifies this
      ensures Snapshot() == OnEntry(old(Snapshot()), entry)
    {
      var copy := entry + "\n";
      logQueue := logQueue + [copy];
      if writing.None? {
        writing := Some(copy);
      }
    }

    /** The pending write is over; `n` octets of what it was given reached the file. */
    method OnLogEntryWritten(n: nat)
      requires writing.Some? && n <= |writing.value|
      modifies this
      ensures Snapshot() == OnWritten(old(Snapshot()), n)
    {
      file := file + writing.value[..n];
      writing := None;
      if logQueue != [] {
        logQueue := logQueue[1..];
      }
      if |logQueue| > 0 {
        writing := Some(logQueue[0]);
      }
    }

    /** A run of the main loop, from a queue with nothing in it. */
    method RunEvents(es: seq<Event>)
      requires Snapshot() == EMPTY
      modifies this
      ensures Snapshot() == Run(EMPTY, es)
    {
      for i := 0 to |es|
        invariant Snapshot() == Run(EMPTY, es[..i])
      {
        assert es[..i + 1][..i] == es[..i];
        match es[i] {
          case Entry(text) => OnLogEntry(text);
          case Written(n) =>
            if writing.Some? && n <= |writing.value| {
              OnLogEntryWritten(n);
            }
        }
      }
      assert es[..|es|] == es;
    }
  }
}
