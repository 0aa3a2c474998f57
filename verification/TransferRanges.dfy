/** What a started transfer announces, however many pushes there have been. */
module TransferRanges {
  import opened Common
  import opened Words
  import opened ByteRanges
  import opened TransferSpec
  import opened TransferHandlers

  lemma ReachableConsistent(s: State)
    requires Reachable(s)
    ensures Consistent(s)
  {
    var es: seq<Event> :| s == Run(Initial(s.cfg), es);
    RunConsistent(Initial(s.cfg), es);
  }

  /** A 64-bit request of a range of a source whose size is a signed 64-bit number. */
  predicate Requestable(cfg: Config) {
    cfg.chunked && IsSigned64(cfg.range.start) && IsSigned64(cfg.range.end) && cfg.size < TWO_63
  }

  /**
    The stored range of a started transfer, from which Content-Range is made: it begins where it
    was asked to, but not before the source, and ends where it was asked to, but with the source.
    The announced length is its length, as an unsigned 64-bit number.
   */
  lemma StoredRange(s: State)
    requires Reachable(s) && s.pushes > 0 && Requestable(s.cfg)
    ensures s.range.start == if s.cfg.range.start < 0 then 0 else s.cfg.range.start
    ensures s.range.end == if s.cfg.size == 0 then s.cfg.range.end
                           else if 0 <= s.cfg.range.end < s.cfg.size then s.cfg.range.end
                           else s.cfg.size - 1
    ensures s.transferLen == (s.range.end - s.range.start + 1) % 0x1_0000_0000_0000_0000
  {
    IsNormalised(s);
    hide Reachable, Normalised, Clamped;
    NormalisedIs(s.cfg.range, s.cfg.size);
  }

  lemma IsNormalised(s: State)
    requires Reachable(s) && s.pushes > 0 && s.cfg.chunked
    ensures s.range == Normalised(Clamped(s.cfg.range), s.cfg.size) && s.transferLen == Length(s.range)
  {
    ReachableConsistent(s);
    hide Normalised, Length, Reachable;
  }

  lemma NormalisedIs(r: ByteRange, size: nat)
    requires IsSigned64(r.start) && IsSigned64(r.end) && size < TWO_63
    ensures var n := Normalised(Clamped(r), size);
            && n.start == (if r.start < 0 then 0 else r.start)
            && n.end == (if size == 0 then r.end else if 0 <= r.end < size then r.end else size - 1)
  {
    if size > 0 {
      NormalEndValue(r.end, size);
    }
  }

  /**
    A started transfer announces a proper range, with its length, if and only if the request
    begins inside the source and does not end before it begins; and then the announced octets are
    exactly the requested ones that the source has.
   */
  lemma AnnouncesRequest(s: State)
    requires Reachable(s) && s.pushes > 0 && Requestable(s.cfg)
    ensures (0 <= s.range.start <= s.range.end < s.cfg.size && s.transferLen == s.range.end - s.range.start + 1)
            <==> Max(s.cfg.range.start, 0) < s.cfg.size
                 && (s.cfg.range.end < 0 || Max(s.cfg.range.start, 0) <= s.cfg.range.end)
    ensures 0 <= s.range.start <= s.range.end < s.cfg.size ==>
              forall k :: Announced(s.range, k) <==> Requested(s.cfg.range, s.cfg.size, k)
  {
    StoredRange(s);
  }

  /** A transfer that is not chunked announces the size of the source. */
  lemma WholeLength(s: State)
    requires Reachable(s) && s.pushes > 0 && !s.cfg.chunked
    ensures s.transferLen == s.cfg.size
  {
    ReachableConsistent(s);
  }
}
