/**
  The transfer object: the callbacks of filetea-transfer.c, updating its fields one by one.
  Every method is proved to make the step that TransferSpec specifies.
 */
module Transfers {
  import opened Common
  import opened Words
  import opened ByteRanges
  import opened TransferSpec
  import opened Sources

  /** What the connections, the main loop and the table of transfers hold for one transfer. */
  datatype Held = Held(
    targetCloseHook: bool,
    sourceCloseHooks: set<Conn>,
    writeHook: bool,
    pendingReads: map<Conn, nat>,
    pendingFlushes: nat,
    scheduled: seq<Outcome>,
    inTable: bool,
    delivered: seq<Outcome>,
    targetClosed: bool,
    closedConns: set<Conn>,
    crashed: bool
  )

  /** The octets that have passed, and how. */
  datatype Flow = Flow(consumed: seq<Byte>, body: seq<Byte>, blocks: nat, flushes: nat, pushes: nat)

  class Transfer {
    const id: string
    const source: Source
    const isChunked: bool
    ghost const requested: ByteRange

    var status: Status
    var sourceConn: Option<Conn>
    var byteRange: ByteRange
    var transferLen: nat
    var transferred: nat
    var result: Option<Outcome>
    var timeoutArmed: bool

    var refs: int
    var held: Held
    ghost var flow: Flow

    ghost function Snapshot(): State
      reads this, source
    {
      State(Config(source.size, isChunked, requested),
            status, sourceConn, byteRange, transferLen, transferred, result, timeoutArmed, refs,
            held.targetCloseHook, held.sourceCloseHooks, held.writeHook, held.pendingReads, held.pendingFlushes,
            held.scheduled, held.inTable, held.delivered, held.targetClosed, held.closedConns, held.crashed,
            flow.consumed, flow.body, flow.blocks, flow.flushes, flow.pushes)
    }

    /** Create the transfer and hand it to the table of transfers. */
    constructor (id: string, source: Source, isChunked: bool, range: ByteRange)
      ensures this.id == id && this.source == source
      ensures Snapshot() == Initial(Config(source.size, isChunked, range))
    {
      this.id, this.source, this.isChunked, this.requested := id, source, isChunked, range;
      status, sourceConn := NotStarted, None;
      if isChunked {
        byteRange := ByteRange(Max(range.start, 0), range.end);
      } else {
        byteRange := ByteRange(0, 0);
      }
      transferLen, transferred := 0, 0;
      result := Some(Success);
      timeoutArmed := true;
      refs := 2;
      held := Held(true, {}, false, map[], 0, [], true, [], false, {}, false);
      flow := Flow([], [], 0, 0, 0);
    }

    method Unref()
      modifies this
      ensures Snapshot() == TransferSpec.Unref(old(Snapshot()))
    {
      refs := refs - 1;
      if refs <= 0 {
        timeoutArmed := false;
        held := held.(targetCloseHook := false);
        if sourceConn.Some? {
          held := held.(sourceCloseHooks := held.sourceCloseHooks - {sourceConn.value});
        }
      }
    }

    method SetError(why: Failure)
      modifies this
      ensures Snapshot() == TransferSpec.SetError(old(Snapshot()), why)
    {
      if result.Some? {
        result := Some(Failed(why));
      }
    }

    /** The close handlers are disconnected. */
    method Disconnect()
      modifies this
      ensures Snapshot() == old(Snapshot()).(targetCloseHook := false,
                                             sourceCloseHooks := old(held.sourceCloseHooks) - Conns(old(Snapshot())))
    {
      held := held.(targetCloseHook := false);
      if sourceConn.Some? {
        held := held.(sourceCloseHooks := held.sourceCloseHooks - {sourceConn.value});
      }
    }

    /** Both connections are closed, as far as they are still open. */
    method CloseConnections()
      modifies this
      ensures Snapshot() == old(Snapshot()).(targetClosed := true,
                                             closedConns := old(held.closedConns) + Conns(old(Snapshot())))
    {
      if sourceConn.Some? {
        held := held.(closedConns := held.closedConns + {sourceConn.value});
      }
      if !held.targetClosed {
        held := held.(targetClosed := true);
      }
    }

    /** filetea_transfer_complete */
    method Complete()
      modifies this
      ensures Snapshot() == TransferSpec.Complete(old(Snapshot()))
    {
      Disconnect();
      if status != Completed {
        CloseConnections();
      }
      if result.Some? {
        held := held.(scheduled := held.scheduled + [result.value]);
        result := None;
      }
    }

    /** filetea_transfer_flush_target */
    method FlushTarget()
      modifies this
      ensures Snapshot() == TransferSpec.FlushTarget(old(Snapshot()))
    {
      held := held.(targetCloseHook := false);
      refs := refs + 1;
      held := held.(pendingFlushes := held.pendingFlushes + 1);
      flow := flow.(flushes := flow.flushes + 1);
    }

    /** filetea_transfer_read */
    method Read(writable: bool)
      requires sourceConn.Some?
      modifies this
      ensures Snapshot() == TransferSpec.Read(old(Snapshot()), writable)
    {
      if sourceConn.value in held.pendingReads {
        return;
      }
      if writable {
        var left := ToUnsigned(source.size - transferred);
        var size := if BLOCK_SIZE < left then BLOCK_SIZE else left;
        if size <= 0 {
          return;
        }
        refs := refs + 1;
        held := held.(pendingReads := held.pendingReads[sourceConn.value := size]);
      }
    }

    /** filetea_transfer_set_source_conn */
    method SetSourceConn(conn: Conn)
      modifies this
      ensures Snapshot() == TransferSpec.Connected(old(Snapshot()), conn)
    {
      sourceConn := Some(conn);
      held := held.(sourceCloseHooks := held.sourceCloseHooks + {conn});
      flow := flow.(pushes := flow.pushes + 1);
    }

    /** filetea_transfer_start; `headersOk` says whether the response headers could be sent. */
    method Start(headersOk: bool, writable: bool)
      requires sourceConn.Some?
      modifies this
      ensures Snapshot() == TransferSpec.Start(old(Snapshot()), headersOk, writable)
    {
      Measure();
      if headersOk {
        held := held.(writeHook := true);
        status := Active;
        Read(writable);
      }
    }

    /** Stop the start timer and find out how much there is to transfer. */
    method Measure()
      modifies this
      ensures Snapshot() == Measured(old(Snapshot()))
    {
      timeoutArmed := false;
      if isChunked {
        if byteRange.end == -1 {
          byteRange := byteRange.(end := ToSigned(source.size - 1));
        } else {
          var last := ToUnsigned(source.size - 1);
          var end := ToUnsigned(byteRange.end);
          byteRange := byteRange.(end := ToSigned(if end < last then end else last));
        }
        transferLen := ToUnsigned(byteRange.end - byteRange.start + 1);
      } else {
        transferLen := source.size;
      }
    }

    /** filetea_transfer_on_target_can_write */
    method OnTargetCanWrite(writable: bool)
      requires sourceConn.Some? && held.writeHook
      modifies this
      ensures Snapshot() == WritableStep(old(Snapshot()), writable)
    {
      Read(writable);
    }

    /** The transfer fails with `why` and leaves `newStatus` behind. */
    method FailWith(why: Failure, newStatus: Status)
      modifies this
      ensures Snapshot() == Fail(old(Snapshot()), why, newStatus)
    {
      SetError(why);
      status := newStatus;
      Complete();
    }

    /** The source stream hands over `bytes`. */
    method Receive(conn: Conn, bytes: seq<Byte>)
      modifies this
      ensures Snapshot() == Received(old(Snapshot()), conn, bytes)
    {
      held := held.(pendingReads := held.pendingReads - {conn});
      flow := flow.(consumed := flow.consumed + bytes);
    }

    /** The target takes `bytes`. */
    method WriteContent(bytes: seq<Byte>)
      modifies this
      ensures Snapshot() == Written(old(Snapshot()), bytes)
    {
      flow := flow.(body := flow.body + bytes, blocks := if bytes == [] then flow.blocks else flow.blocks + 1);
      transferred := transferred + |bytes|;
    }

    /** The seeder is answered and the target is flushed. */
    method FinishReading(respondOk: bool)
      requires sourceConn.Some?
      modifies this
      ensures Snapshot() == Finishing(old(Snapshot()), respondOk)
    {
      held := held.(sourceCloseHooks := held.sourceCloseHooks - {sourceConn.value});
      if !respondOk {
        status := Error;
      }
      FlushTarget();
    }

    /** filetea_transfer_on_read */
    method OnRead(conn: Conn, outcome: ReadResult)
      requires sourceConn.Some? && ReadAllowed(Snapshot(), conn, outcome)
      modifies this
      ensures Snapshot() == ReadStep(old(Snapshot()), conn, outcome)
    {
      if outcome.ReadError? {
        Receive(conn, []);
        FailWith(ReadFailed, Error);
        Unref();
        return;
      }
      Receive(conn, outcome.bytes);
      if !outcome.writeOk || held.targetClosed {
        FailWith(WriteFailed, Error);
        Unref();
        return;
      }
      WriteContent(outcome.bytes);
      if transferred > transferLen {
        held := held.(crashed := true);
        return;
      }
      if transferred == transferLen {
        FinishReading(outcome.respondOk);
      } else {
        Read(outcome.writable);
      }
      Unref();
    }

    /** target_connection_on_close, if it is connected, when the target goes away. */
    method OnTargetGone()
      modifies this
      ensures Snapshot() == TargetCloseStep(old(Snapshot()))
    {
      held := held.(targetClosed := true);
      if held.targetCloseHook {
        FailWith(Dropped, TargetAborted);
      }
    }

    /** source_connection_on_close, if it is connected, when a seeder's connection goes away. */
    method OnSourceGone(conn: Conn)
      modifies this
      ensures Snapshot() == SourceCloseStep(old(Snapshot()), conn)
    {
      held := held.(closedConns := held.closedConns + {conn});
      if conn in held.sourceCloseHooks {
        FailWith(Dropped, SourceAborted);
      }
    }

    /** filetea_transfer_on_target_flushed */
    method OnTargetFlushed()
      requires held.pendingFlushes > 0
      modifies this
      ensures Snapshot() == FlushStep(old(Snapshot()))
    {
      hide TransferSpec.Complete, TransferSpec.Unref;
      held := held.(pendingFlushes := held.pendingFlushes - 1);
      status := Completed;
      held := held.(writeHook := false);
      assert Snapshot() == Flushed(old(Snapshot()));
      Complete();
      Unref();
    }

    /** on_transfer_start_timeout */
    method OnStartTimeout()
      requires timeoutArmed
      modifies this
      ensures Snapshot() == TimeoutStep(old(Snapshot()))
    {
      timeoutArmed := false;
      if result.Some? {
        SetError(TimedOut);
        FlushTarget();
      }
    }

    /** filetea_transfer_cancel */
    method Cancel()
      modifies this
      ensures Snapshot() == CancelStep(old(Snapshot()))
    {
      if result.None? {
        return;
      }
      FailWith(Cancelled, SourceAborted);
    }

    /** The scheduled completion runs the node's callback, which drops the table's reference. */
    method DeliverResult() returns (outcome: Outcome)
      requires held.scheduled != []
      modifies this
      ensures outcome == old(held.scheduled[0])
      ensures Snapshot() == IdleStep(old(Snapshot()))
    {
      outcome := held.scheduled[0];
      held := held.(scheduled := held.scheduled[1..]);
      held := held.(delivered := held.delivered + [outcome]);
      var owned := held.inTable;
      held := held.(inTable := false);
      if owned {
        Unref();
      }
      Unref();
    }

    /** The main loop hands one event to the callback that is connected to it, if any. */
    method Dispatch(e: Event)
      requires Sourced(Snapshot())
      modifies this
      ensures Snapshot() == Step(old(Snapshot()), e) && Sourced(Snapshot())
    {
      if refs <= 0 || held.crashed {
        return;
      }
      match e {
        case Push(conn, headersOk, writable) =>
          if held.inTable {
            SetSourceConn(conn);
            Start(headersOk, writable);
          }
        case TargetWritable(writable) =>
          if held.writeHook {
            OnTargetCanWrite(writable);
          }
        case ReadDone(conn, outcome) =>
          if conn in held.pendingReads && (outcome.Data? ==> |outcome.bytes| <= held.pendingReads[conn]) {
            OnRead(conn, outcome);
          }
        case FlushDone =>
          if held.pendingFlushes > 0 {
            OnTargetFlushed();
          }
        case TargetClose =>
          OnTargetGone();
        case SourceClose(conn) =>
          OnSourceGone(conn);
        case StartTimeout =>
          if timeoutArmed {
            OnStartTimeout();
          }
        case Cancel =>
          Cancel();
        case Idle =>
          if held.scheduled != [] {
            var _ := DeliverResult();
          }
      }
    }

    /** A run of the main loop. */
    method RunEvents(es: seq<Event>)
      requires Sourced(Snapshot())
      modifies this
      ensures Snapshot() == Run(old(Snapshot()), es)
    {
      for i := 0 to |es|
        invariant Sourced(Snapshot())
        invariant Run(Snapshot(), es[i..]) == Run(old(Snapshot()), es)
      {
        assert es[i..][0] == es[i] && es[i..][1..] == es[i + 1..];
        Dispatch(es[i]);
      }
    }
  }
}
