/**
  The push request of the seeder: the callbacks of filetea-main.c. Every method is proved to
  make the step that SeederSpec specifies.
 */
module Seeders {
  import opened Common
  import opened Words
  import opened SeederSpec
  import opened Sources

  class PushRequest {
    const source: Source
    const file: seq<Byte>

    var totalSent: nat
    var keepAlive: bool
    var connOpen: bool

    // callbacks that are due
    var readsDue: nat
    var hooksDue: nat
    var answersDue: nat
    ghost var frees: nat
    var crashed: bool

    // what the connection has been given
    ghost var sent: seq<Byte>
    ghost var closed: bool

    ghost function Snapshot(): State
      reads this, source
    {
      State(file, source.size, totalSent, keepAlive, connOpen,
            readsDue, hooksDue, answersDue, frees, crashed, sent, closed)
    }

    /** The file has been opened: allocate the buffer and ask for the first block. */
    constructor OnFileOpen(source: Source, file: seq<Byte>, writable: bool)
      ensures Snapshot() == Initial(file, source.size, writable)
    {
      this.source, this.file := source, file;
      totalSent, keepAlive, connOpen := 0, false, true;
      readsDue, hooksDue, answersDue, frees, crashed := 0, 0, 0, 0, false;
      sent, closed := [], false;
      new;
      ReadBlock(writable);
    }

    /** push_request_read_block */
    method ReadBlock(writable: bool)
      modifies this
      ensures Snapshot() == SeederSpec.ReadBlock(old(Snapshot()), writable)
    {
      if !writable {
        hooksDue := hooksDue + 1;
        return;
      }
      readsDue := readsDue + 1;
    }

    /** push_request_free; the connection is closed unless it is kept alive. */
    method Free()
      modifies this
      ensures Snapshot() == SeederSpec.Free(old(Snapshot()))
    {
      if !keepAlive {
        connOpen := false;
      }
      frees := frees + 1;
    }

    /** push_request_conn_can_write */
    method ConnCanWrite(writable: bool)
      requires hooksDue > 0
      modifies this
      ensures Snapshot() == WritableStep(old(Snapshot()), writable)
    {
      hooksDue := hooksDue - 1;
      ReadBlock(writable);
    }

    /** push_request_on_block_read */
    method OnBlockRead(outcome: BlockResult)
      requires BlockAllowed(Snapshot(), outcome)
      modifies this
      ensures Snapshot() == BlockStep(old(Snapshot()), outcome)
    {
      readsDue := readsDue - 1;
      if !connOpen {
        Free();
        return;
      }
      if outcome.BlockError? {
        Free();
      } else if outcome.n > 0 {
        ghost var from := totalSent;
        totalSent := totalSent + outcome.n;
        var bytesLeft := ToUnsigned(source.size - totalSent);
        if !outcome.writeOk {
          Free();
          return;
        }
        sent := sent + file[from..totalSent];
        closed := !(bytesLeft > 0);
        if bytesLeft > 0 {
          ReadBlock(outcome.writable);
        } else {
          answersDue := answersDue + 1;
        }
      } else {
        crashed := true;
      }
    }

    /** push_request_on_response; `ok` says whether response headers could be read. */
    method OnResponse(ok: bool)
      requires answersDue > 0
      modifies this
      ensures Snapshot() == ResponseStep(old(Snapshot()), ok)
    {
      answersDue := answersDue - 1;
      if ok {
        keepAlive := true;
      }
      Free();
    }

    /** The main loop hands one event to the callback that is due for it, if any. */
    method Dispatch(e: Event)
      modifies this
      ensures Snapshot() == Step(old(Snapshot()), e)
    {
      if crashed {
        return;
      }
      match e {
        case ConnWritable(writable) =>
          if hooksDue > 0 {
            ConnCanWrite(writable);
          }
        case BlockRead(outcome) =>
          if
            && readsDue > 0 && totalSent <= |file|
            && (outcome.Block? ==>
                  && outcome.n <= BLOCK_SIZE && totalSent + outcome.n <= |file|
                  && (outcome.n == 0 ==> totalSent == |file|))
          {
            OnBlockRead(outcome);
          }
        case Response(ok) =>
          if answersDue > 0 {
            OnResponse(ok);
          }
        case ConnClose =>
          connOpen := false;
      }
    }

    /** A run of the main loop. */
    method RunEvents(es: seq<Event>)
      modifies this
      ensures Snapshot() == Run(old(Snapshot()), es)
    {
      hide Step;
      for i := 0 to |es|
        invariant Run(Snapshot(), es[i..]) == Run(old(Snapshot()), es)
      {
        assert es[i..][0] == es[i] && es[i..][1..] == es[i + 1..];
        Dispatch(es[i]);
      }
    }
  }
}
