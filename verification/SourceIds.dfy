/** How the node makes up the identifier of a fresh source. */
module SourceIds {
  import opened Common

  const NUL: char := '\0'

  // ----- base64, as in section 4 of RFC 4648 -------------------------------------------

  type Sextet = k: nat | k < 64 witness 0

  function Digit(k: Sextet): char {
    if k < 26 then ('A' as int + k) as char
    else if k < 52 then ('a' as int + k - 26) as char
    else if k < 62 then ('0' as int + k - 52) as char
    else if k == 62 then '+' else '/'
  }

  // the four groups of six bits in three bytes
  function Group1(a: Byte): Sextet { a as int / 4 }
  function Group2(a: Byte, b: Byte): Sextet { a as int % 4 * 16 + b as int / 16 }
  function Group3(b: Byte, c: Byte): Sextet { b as int % 16 * 4 + c as int / 64 }
  function Group4(c: Byte): Sextet { c as int % 64 }

  function Base64(bytes: seq<Byte>): string
    decreases |bytes|
  {
    if bytes == [] then ""
    else if |bytes| == 1 then
      [Digit(Group1(bytes[0])), Digit(Group2(bytes[0], 0)), '=', '=']
    else if |bytes| == 2 then
      [Digit(Group1(bytes[0])), Digit(Group2(bytes[0], bytes[1])), Digit(Group3(bytes[1], 0)), '=']
    else
      [Digit(Group1(bytes[0])), Digit(Group2(bytes[0], bytes[1])),
       Digit(Group3(bytes[1], bytes[2])), Digit(Group4(bytes[2]))] + Base64(bytes[3..])
  }

  // ----- the identifier ----------------------------------------------------------------

  /** The text up to the first padding character, with the two digits unfit for a URL replaced. */
  function Cleaned(text: string): string {
    if text == "" || text[0] == '=' then ""
    else [if text[0] == '/' || text[0] == '+' then 'x' else text[0]] + Cleaned(text[1..])
  }

  /** What a C string holds: everything before the terminator. */
  function CString(buf: seq<char>): string {
    if buf == [] || buf[0] == NUL then "" else [buf[0]] + CString(buf[1..])
  }

  /** The characters of a base64 text of n bytes, without its padding. */
  function DigitCount(n: nat): nat {
    (4 * n + 2) / 3
  }

  predicate Alphanumeric(c: char) {
    'A' <= c <= 'Z' || 'a' <= c <= 'z' || '0' <= c <= '9'
  }

  predicate AllAlphanumeric(s: string) {
    forall i :: 0 <= i < |s| ==> Alphanumeric(s[i])
  }

  /** A node id without padding characters. */
  predicate Unpadded(prefix: string) {
    '=' !in prefix && NUL !in prefix
  }

  /** An identifier is the node id, fit for a URL, and the digits of depth - |node id| random bytes. */
  predicate HasShape(id: string, prefix: string, depth: nat) {
    && |prefix| <= depth
    && |id| == |prefix| + DigitCount(depth - |prefix|)
    && id[..|prefix|] == Cleaned(prefix)
    && AllAlphanumeric(id[|prefix|..])
  }

  // ----- base64 is the positional notation of the octets -------------------------------

  /** What a digit stands for. */
  function DigitValue(c: char): int {
    if 'A' <= c <= 'Z' then c as int - 'A' as int
    else if 'a' <= c <= 'z' then c as int - 'a' as int + 26
    else if '0' <= c <= '9' then c as int - '0' as int + 52
    else if c == '+' then 62 else if c == '/' then 63 else 0
  }

  lemma DigitStandsFor(k: Sextet)
    ensures DigitValue(Digit(k)) == k
  {}

  /** The number that four digits, or digits and padding, stand for in base 64. */
  function Quad(s: string): int
    requires |s| == 4
  {
    ((DigitValue(s[0]) * 64 + DigitValue(s[1])) * 64 + DigitValue(s[2])) * 64 + DigitValue(s[3])
  }

  /** The number that three octets stand for in base 256, those that are missing being zero. */
  function Triple(b: seq<Byte>): int
    requires 1 <= |b|
  {
    (b[0] as int * 256 + (if |b| > 1 then b[1] as int else 0)) * 256 + (if |b| > 2 then b[2] as int else 0)
  }

  /**
    Each three octets become four characters that stand for the same number; one or two octets at
    the end become two or three digits, and padding.
   */
  lemma Base64Stands(bytes: seq<Byte>)
    ensures bytes == [] ==> Base64(bytes) == ""
    ensures bytes != [] ==>
              && |Base64(bytes)| >= 4
              && Quad(Base64(bytes)[..4]) == Triple(bytes)
              && Base64(bytes)[4..] == Base64(if |bytes| > 3 then bytes[3..] else [])
              && (Base64(bytes)[3] == '=' <==> |bytes| < 3)
              && (Base64(bytes)[2] == '=' <==> |bytes| < 2)
              && Base64(bytes)[0] != '=' && Base64(bytes)[1] != '='
  {
    if bytes != [] {
      var b, c := if |bytes| > 1 then bytes[1] else 0, if |bytes| > 2 then bytes[2] else 0;
      FirstFour(bytes, b, c);
      hide Base64, Digit, DigitValue, Group1, Group2, Group3, Group4;
      FourDigits(Base64(bytes)[..4], bytes[0], b, c, |bytes|);
      DigitIsNoPadding(Group1(bytes[0]));
      DigitIsNoPadding(Group2(bytes[0], b));
      DigitIsNoPadding(Group3(b, c));
      DigitIsNoPadding(Group4(c));
    }
  }

  lemma FirstFour(bytes: seq<Byte>, b: Byte, c: Byte)
    requires bytes != []
    requires b == (if |bytes| > 1 then bytes[1] else 0) && c == (if |bytes| > 2 then bytes[2] else 0)
    ensures var s := Base64(bytes);
            && |s| >= 4 && s[0] == Digit(Group1(bytes[0])) && s[1] == Digit(Group2(bytes[0], b))
            && s[2] == (if |bytes| > 1 then Digit(Group3(b, c)) else '=')
            && s[3] == (if |bytes| > 2 then Digit(Group4(c)) else '=')
            && s[4..] == Base64(if |bytes| > 3 then bytes[3..] else [])
  {
    hide Digit, Group1, Group2, Group3, Group4;
    if |bytes| == 3 {
      assert bytes[3..] == [];
    }
  }

  lemma FourDigits(s: string, a: Byte, b: Byte, c: Byte, n: nat)
    requires |s| == 4 && s[0] == Digit(Group1(a)) && s[1] == Digit(Group2(a, b))
    requires s[2] == (if n > 1 then Digit(Group3(b, c)) else '=') && s[3] == (if n > 2 then Digit(Group4(c)) else '=')
    requires (n < 2 ==> b == 0) && (n < 3 ==> c == 0)
    ensures Quad(s) == (a as int * 256 + b as int) * 256 + c as int
  {
    hide Digit, DigitValue, Group1, Group2, Group3, Group4;
    DigitStandsFor(Group1(a));
    DigitStandsFor(Group2(a, b));
    DigitStandsFor(Group3(b, c));
    DigitStandsFor(Group4(c));
    PaddingStandsForNothing();
    NothingLeft();
    Groups(a, b, c);
  }

  lemma NothingLeft()
    ensures Group3(0, 0) == 0 && Group4(0) == 0
  {}

  lemma Groups(a: Byte, b: Byte, c: Byte)
    ensures ((Group1(a) * 64 + Group2(a, b)) * 64 + Group3(b, c)) * 64 + Group4(c)
            == (a as int * 256 + b as int) * 256 + c as int
  {
    var x, y, z := a as int, b as int, c as int;
    assert Group1(a) == x / 4 && Group2(a, b) == x % 4 * 16 + y / 16;
    assert Group3(b, c) == y % 16 * 4 + z / 64 && Group4(c) == z % 64;
    hide Group1, Group2, Group3, Group4;
    Digits(x / 4, x % 4, y / 16, y % 16, z / 64, z % 64);
    assert x == 4 * (x / 4) + x % 4 && y == 16 * (y / 16) + y % 16 && z == 64 * (z / 64) + z % 64;
  }

  lemma Digits(a: int, a': int, b: int, b': int, c: int, c': int)
    ensures ((a * 64 + (a' * 16 + b)) * 64 + (b' * 4 + c)) * 64 + c'
            == ((4 * a + a') * 256 + (16 * b + b')) * 256 + (64 * c + c')
  {}

  lemma PaddingStandsForNothing()
    ensures DigitValue('=') == 0
  {}

  lemma DigitIsNoPadding(k: Sextet)
    ensures Digit(k) != '='
  {}

  /** Up to the first padding character, the two digits unfit for a URL become x and all else stays. */
  lemma {:induction false} CleanedAt(text: string)
    ensures var id := Cleaned(text);
            && |id| <= |text|
            && (forall i :: 0 <= i < |id| ==>
                  text[i] != '=' && id[i] == (if text[i] in {'/', '+'} then 'x' else text[i]))
            && (|id| < |text| ==> text[|id|] == '=')
  {
    if text != "" && text[0] != '=' {
      CleanedAt(text[1..]);
    }
  }

  /** A digit at the front of a text stays, as a character fit for a URL. */
  lemma CleanedDigit(text: string, k: Sextet)
    requires text != "" && text[0] == Digit(k)
    ensures |Cleaned(text)| == 1 + |Cleaned(text[1..])|
    ensures AllAlphanumeric(Cleaned(text[1..])) ==> AllAlphanumeric(Cleaned(text))
  {}

  lemma {:induction false} CleanedBase64(bytes: seq<Byte>)
    ensures |Cleaned(Base64(bytes))| == DigitCount(|bytes|)
    ensures AllAlphanumeric(Cleaned(Base64(bytes)))
    decreases |bytes|
  {
    hide Digit, Alphanumeric, Group1, Group2, Group3, Group4;
    if bytes != [] {
      var text := Base64(bytes);
      assert text[1..][1..] == text[2..] && text[2..][1..] == text[3..] && text[3..][1..] == text[4..];
      CleanedDigit(text, Group1(bytes[0]));
      CleanedDigit(text[1..], Group2(bytes[0], if |bytes| > 1 then bytes[1] else 0));
      if |bytes| > 1 {
        CleanedDigit(text[2..], Group3(bytes[1], if |bytes| > 2 then bytes[2] else 0));
      }
      if |bytes| > 2 {
        CleanedDigit(text[3..], Group4(bytes[2]));
        assert text[4..] == Base64(bytes[3..]);
        CleanedBase64(bytes[3..]);
      }
    }
  }

  lemma {:induction false} CleanedAfterPrefix(prefix: string, text: string)
    requires Unpadded(prefix)
    ensures Cleaned(prefix + text) == Cleaned(prefix) + Cleaned(text)
    ensures |Cleaned(prefix)| == |prefix|
  {
    if prefix == "" {
      assert prefix + text == text;
    } else {
      assert (prefix + text)[1..] == prefix[1..] + text;
      CleanedAfterPrefix(prefix[1..], text);
    }
  }

  /** Whatever the random bytes are, the identifier has the shape that its depth calls for. */
  lemma GeneratedShape(prefix: string, bytes: seq<Byte>)
    requires Unpadded(prefix)
    ensures HasShape(Cleaned(prefix + Base64(bytes)), prefix, |prefix| + |bytes|)
  {
    CleanedAfterPrefix(prefix, Base64(bytes));
    CleanedBase64(bytes);
  }

  /**
    A node id with a padding character always gives the same identifier, at every depth, so
    there is no second one to try once it is registered.
   */
  lemma {:induction false} PaddedPrefixIsStuck(prefix: string, text: string)
    requires '=' in prefix
    ensures Cleaned(prefix + text) == Cleaned(prefix)
  {
    assert (prefix + text)[1..] == prefix[1..] + text;
    if prefix[0] != '=' {
      PaddedPrefixIsStuck(prefix[1..], text);
    }
  }

  /** Two depths never give identifiers of the same length. */
  lemma DeeperIsLonger(id: string, longer: string, prefix: string, depth: nat, deeper: nat)
    requires HasShape(id, prefix, depth) && HasShape(longer, prefix, deeper) && depth < deeper
    ensures |id| < |longer|
  {}

  /** The identifiers of this depth, and of all greater ones, have at least seven characters. */
  predicate DeepEnough(prefix: string, depth: nat) {
    |prefix| <= depth && |prefix| + DigitCount(depth - |prefix|) >= 7
  }

  /**
    The identifiers made from a start depth on are long enough to be accepted if and only if the
    node id and the digits of the start depth are; a start depth of seven always suffices.
   */
  lemma LongEnough(id: string, prefix: string, startDepth: nat, depth: nat)
    requires |prefix| <= startDepth <= depth && HasShape(id, prefix, depth)
    ensures DeepEnough(prefix, startDepth) ==> |id| >= 7
    ensures depth == startDepth ==> (|id| >= 7 <==> DeepEnough(prefix, startDepth))
    ensures startDepth >= 7 ==> DeepEnough(prefix, startDepth)
  {}

  // ----- the methods -------------------------------------------------------------------

  /** How the rewriting loop leaves a character of the text. */
  function InPlace(c: char): char {
    if c == '/' || c == '+' then 'x' else if c == '=' then NUL else c
  }

  lemma {:induction false} InPlaceIsCleaned(text: string, buf: seq<char>)
    requires |buf| == |text| + 1 && buf[|text|] == NUL
    requires forall k :: 0 <= k < |text| ==> text[k] != NUL && buf[k] == InPlace(text[k])
    ensures CString(buf) == Cleaned(text)
    decreases |text|
  {
    if text != "" {
      InPlaceIsCleaned(text[1..], buf[1..]);
    }
  }

  lemma {:induction false} NoNulInBase64(bytes: seq<Byte>)
    ensures forall k :: 0 <= k < |Base64(bytes)| ==> Base64(bytes)[k] != NUL
    decreases |bytes|
  {
    if |bytes| >= 3 {
      NoNulInBase64(bytes[3..]);
    }
  }

  /**
    generate_random_source_id: `uuid` is any `len` random bytes. The text is rewritten in
    place, character by character, up to the terminator.
   */
  method GenerateRandomSourceId(prefix: string, len: nat) returns (id: string)
    requires NUL !in prefix
    ensures exists uuid: seq<Byte> :: |uuid| == len && id == Cleaned(prefix + Base64(uuid))
  {
    assert |seq(len, _ => 0 as Byte)| == len;
    var uuid: seq<Byte> :| |uuid| == len;
    var text := prefix + Base64(uuid);
    NoNulInBase64(uuid);
    var buf := new char[|text| + 1](i requires 0 <= i <= |text| => if i < |text| then text[i] else NUL);
    var i := 0;
    while buf[i] != NUL
      invariant 0 <= i <= |text|
      invariant forall k :: 0 <= k < i ==> buf[k] == InPlace(text[k])
      invariant forall k :: i <= k < |text| ==> buf[k] == text[k]
      invariant buf[|text|] == NUL
      decreases |text| - i
    {
      if buf[i] == '/' || buf[i] == '+' {
        buf[i] := 'x';
      } else if buf[i] == '=' {
        buf[i] := NUL;
      }
      i := i + 1;
    }
    id := CString(buf[..]);
    InPlaceIsCleaned(text, buf[..]);
  }

  /** Registered identifiers of pairwise different lengths are pairwise different. */
  lemma {:induction false} GrowingKeys(used: seq<string>, keys: set<string>)
    requires forall i :: 0 <= i < |used| ==> used[i] in keys
    requires forall i, j :: 0 <= i < j < |used| ==> |used[i]| < |used[j]|
    ensures |used| <= |keys|
    decreases |used|
  {
    if used != [] {
      var n := |used| - 1;
      GrowingKeys(used[..n], keys - {used[n]});
    }
  }

  /** A random identifier of the given depth. */
  method NextCandidate(prefix: string, depth: nat) returns (id: string)
    requires Unpadded(prefix) && |prefix| <= depth
    ensures HasShape(id, prefix, depth)
  {
    id := GenerateRandomSourceId(prefix, depth - |prefix|);
    ghost var uuid: seq<Byte> :| |uuid| == depth - |prefix| && id == Cleaned(prefix + Base64(uuid));
    GeneratedShape(prefix, uuid);
  }

  /**
    generate_source_id: three collisions at a depth lead to the next one. Whatever the random
    bytes are, it ends with an unregistered identifier: a depth is left only after three lookups
    at it, because some registered identifier has its length, and no two depths share one.
   */
  method GenerateSourceId(keys: set<string>, prefix: string, startDepth: nat)
    returns (id: string, lookups: nat, depth: nat)
    requires Unpadded(prefix) && |prefix| <= startDepth
    ensures id !in keys
    ensures lookups <= 3 * |keys| + 1
    ensures startDepth <= depth <= startDepth + |keys| && HasShape(id, prefix, depth)
    ensures 3 * (depth - startDepth) < lookups <= 3 * (depth - startDepth) + 3
  {
    depth := startDepth;
    var fails := 0;
    id := NextCandidate(prefix, depth);
    lookups := 1;
    // one registered identifier for every depth at which there was a collision
    ghost var used: seq<string> := [];
    while id in keys
      invariant startDepth <= depth && 0 <= fails <= 2
      invariant lookups == 3 * (depth - startDepth) + fails + 1
      invariant |used| == depth - startDepth + (if fails > 0 then 1 else 0)
      invariant forall i :: 0 <= i < |used| ==> used[i] in keys && HasShape(used[i], prefix, startDepth + i)
      invariant |used| <= |keys|
      invariant HasShape(id, prefix, depth)
      decreases 3 * |keys| + 1 - lookups
    {
      if fails == 0 {
        used := used + [id];
        forall i, j | 0 <= i < j < |used|
          ensures |used[i]| < |used[j]|
        {
          DeeperIsLonger(used[i], used[j], prefix, startDepth + i, startDepth + j);
        }
        GrowingKeys(used, keys);
      }
      fails := fails + 1;
      if fails > 2 {
        depth := depth + 1;
        fails := 0;
      }
      id := NextCandidate(prefix, depth);
      lookups := lookups + 1;
    }
  }
}
