/**
  The range arithmetic of a partial transfer: how the requested `Range` becomes the range
  that is announced in Content-Range and the length that is announced in Content-Length.
 */
module ByteRanges {
  import opened Common
  import opened Words

  /** A requested or announced range; an `end` of -1 means "to the end of the source". */
  datatype ByteRange = ByteRange(start: int, end: int)

  /** A transfer keeps the requested start, but never below zero. */
  function Clamped(r: ByteRange): ByteRange {
    ByteRange(Max(r.start, 0), r.end)
  }

  /**
    The end of the range once the source size is known. The comparison behind MIN is made
    between a signed end and an unsigned size, hence on unsigned values.
   */
  function NormalEnd(end: int, size: nat): int {
    if end == -1 then
      ToSigned(size - 1)
    else
      var e, last := ToUnsigned(end), ToUnsigned(size - 1);
      ToSigned(if e < last then e else last)
  }

  /** end - start + 1, stored in an unsigned field. */
  function Length(r: ByteRange): nat {
    ToUnsigned(r.end - r.start + 1)
  }

  function Normalised(r: ByteRange, size: nat): ByteRange {
    ByteRange(r.start, NormalEnd(r.end, size))
  }

  /** Octet k of a source of `size` octets is one the client asked for. */
  predicate Requested(r: ByteRange, size: nat, k: int) {
    && 0 <= k < size
    && r.start <= k
    && (r.end < 0 || k <= r.end)
  }

  /** Octet k lies in an announced range. */
  predicate Announced(r: ByteRange, k: int) {
    r.start <= k <= r.end
  }

  /** The announced range and length fit together and lie inside the source. */
  predicate Serviceable(r: ByteRange, len: nat, size: nat) {
    && 0 <= r.start <= r.end < size
    && len == r.end - r.start + 1
    && 1 <= len <= size
  }

  /**
    The announced range is a proper one exactly when the requested start lies inside the
    source and the requested end, if any, does not precede it.
   */
  lemma ServiceableIff(r: ByteRange, size: nat)
    requires IsSigned64(r.start) && IsSigned64(r.end) && size < TWO_63
    ensures var n := Normalised(Clamped(r), size);
            Serviceable(n, Length(n), size) <==>
            Max(r.start, 0) < size && (r.end < 0 || Max(r.start, 0) <= r.end)
  {}

  /** On a non-empty source, the mixed comparison clips the end to the last octet. */
  lemma NormalEndValue(end: int, size: nat)
    requires IsSigned64(end) && 0 < size < TWO_63
    ensures NormalEnd(end, size) == if end < 0 then size - 1 else Min(end, size - 1)
  {}

  /** A serviceable request is answered with exactly the octets asked for that exist. */
  lemma AnnouncedIsRequested(r: ByteRange, size: nat)
    requires IsSigned64(r.start) && IsSigned64(r.end) && size < TWO_63
    requires Max(r.start, 0) < size && (r.end < 0 || Max(r.start, 0) <= r.end)
    ensures var n := Normalised(Clamped(r), size);
            forall k :: Announced(n, k) <==> Requested(r, size, k)
  {
    NormalEndValue(r.end, size);
  }

  /** Normalising twice changes nothing, so a repeated start announces the same range. */
  lemma NormalisedTwice(r: ByteRange, size: nat)
    ensures Normalised(Normalised(r, size), size) == Normalised(r, size)
  {
    if r.end != -1 {
      var e, last := ToUnsigned(r.end), ToUnsigned(size - 1);
      var m := if e < last then e else last;
      assert 0 <= m < TWO_64 && ToUnsigned(ToSigned(m)) == m;
    }
  }

  /** A normalised range is as long as the source only if it is the whole source. */
  lemma FullLengthIff(r: ByteRange, size: nat)
    requires IsSigned64(r.start) && IsSigned64(r.end) && 0 < size < TWO_63
    ensures var n := Normalised(Clamped(r), size);
            Length(n) == size <==> n == ByteRange(0, size - 1)
  {
    NormalEndValue(r.end, size);
  }
}
