/**
  The node's table of transfers: who is in it, from the request for a source to the delivery
  of the result.
 */
module Relay {
  import opened Common
  import opened ByteRanges
  import opened Sources
  import opened TransferSpec
  import opened TransferAccounting
  import opened Transfers

  class TransferTable {
    var transfersById: map<string, Transfer>

    // every transfer ever made
    ghost var all: set<Transfer>

    ghost predicate Registered(t: Transfer)
      reads this
    {
      t.id in transfersById && transfersById[t.id] == t
    }

    /** A transfer is accounted for, and the table holds it as long as its callback has not run. */
    ghost predicate Tracked(t: Transfer)
      reads this, t, t.source
    {
      && Accounted(t.Snapshot()) && Sourced(t.Snapshot())
      && (Registered(t) <==> t.held.inTable)
    }

    ghost predicate Valid()
      reads this, all, set t | t in all :: t.source
    {
      && (forall i :: i in transfersById ==> transfersById[i] in all && transfersById[i].id == i)
      && (forall t :: t in all ==> Tracked(t))
    }

    constructor ()
      ensures Valid() && all == {}
    {
      transfersById, all := map[], {};
    }

    /**
      content_request: a transfer is made and enters the table under its identifier, unless a
      range is asked of a source that cannot be read in parts.
     */
    method ContentRequest(id: string, source: Source, isChunked: bool, range: ByteRange) returns (t: Transfer?)
      requires Valid() && id !in transfersById
      requires forall u :: u in all ==> u.id != id
      modifies this
      ensures Valid()
      ensures t == null <==> isChunked && !Chunkable(source.flags)
      ensures t == null ==> transfersById == old(transfersById) && all == old(all)
      ensures t != null ==> fresh(t) && transfersById == old(transfersById)[id := t] && all == old(all) + {t}
      ensures t != null ==> t.id == id && t.source == source
      ensures t != null ==> t.Snapshot() == Initial(Config(source.size, isChunked, range))
    {
      hide Sourced, Accounted, Initial;
      if isChunked && !Chunkable(source.flags) {
        return null;
      }
      t := new Transfer(id, source, isChunked, range);
      InitialTracked(Config(source.size, isChunked, range));
      transfersById := transfersById[id := t];
      all := all + {t};
      forall u | u in all
        ensures Tracked(u)
      {
        if u != t {
          assert old(Tracked(u)) && u.Snapshot() == old(u.Snapshot());
        }
      }
    }

    /** One event of the main loop for one transfer; a completion takes it out of the table. */
    method Handle(t: Transfer, e: Event)
      requires Valid() && t in all
      modifies this`transfersById, t
      ensures Valid()
      ensures t.Snapshot() == Step(old(t.Snapshot()), e)
      ensures transfersById == if old(t.held.inTable) && !t.held.inTable then old(transfersById) - {t.id}
                               else old(transfersById)
    {
      hide Step, Accounted, Sourced;
      StepAccounted(t.Snapshot(), e);
      var before := t.held.inTable;
      t.Dispatch(e);
      if before && !t.held.inTable {
        transfersById := transfersById - {t.id};
      }
      forall u | u in all
        ensures Tracked(u)
      {
        assert old(Tracked(u));
        if u != t {
          assert u.Snapshot() == old(u.Snapshot());
        }
      }
    }
  }

  lemma InitialTracked(cfg: Config)
    ensures Accounted(Initial(cfg)) && Sourced(Initial(cfg)) && Initial(cfg).inTable
  {}

  /** A transfer is in the table exactly until its completion callback has run, which it does once. */
  lemma InTableUntilCompleted(table: TransferTable, t: Transfer)
    requires table.Valid() && t in table.all
    ensures table.Registered(t) <==> t.held.delivered == []
    ensures |t.held.delivered| <= 1
  {}
}
