/** The data that a node signs for a source, and what a signature therefore vouches for. */
module Signing {
  import opened Common
  import opened SourceIds
  import opened Sources

  /** `%u` */
  function Decimal(n: nat): string {
    if n < 10 then [('0' as int + n) as char]
    else Decimal(n / 10) + [('0' as int + n % 10) as char]
  }

  /** <id>:<content-type>:<flags> */
  function SigningData(id: string, ctype: string, flags: nat): string {
    id + ":" + ctype + ":" + Decimal(flags)
  }

  predicate IsDecimal(s: string) {
    |s| > 0 && forall i :: 0 <= i < |s| ==> '0' <= s[i] <= '9'
  }

  lemma {:induction false} DecimalDigits(n: nat)
    ensures IsDecimal(Decimal(n))
  {
    if n >= 10 {
      DecimalDigits(n / 10);
    }
  }

  /** The number that a text of digits stands for in base ten. */
  function Value(s: string): nat
    requires forall i :: 0 <= i < |s| ==> '0' <= s[i] <= '9'
    decreases |s|
  {
    if s == "" then 0 else 10 * Value(s[..|s| - 1]) + (s[|s| - 1] as int - '0' as int)
  }

  /** The numeral of a number stands for it in base ten, and begins with 0 only if it is zero. */
  lemma {:induction false} DecimalValue(n: nat)
    ensures IsDecimal(Decimal(n)) && Value(Decimal(n)) == n
    ensures Decimal(n)[0] == '0' <==> n == 0
    ensures n < 10 ==> |Decimal(n)| == 1
  {
    DecimalDigits(n);
    if n < 10 {
      assert Value([]) == 0 && Decimal(n)[..0] == [];
    } else {
      DecimalValue(n / 10);
      DecimalDigits(n / 10);
      assert Decimal(n)[..|Decimal(n)| - 1] == Decimal(n / 10);
    }
  }

  /** No other text of digits without a leading zero stands for the number. */
  lemma {:induction false} OnlyNumeral(s: string, n: nat)
    requires IsDecimal(s) && Value(s) == n && (s[0] == '0' ==> |s| == 1)
    ensures s == Decimal(n)
    decreases |s|
  {
    var k := |s| - 1;
    if k == 0 {
      assert Value(s[..0]) == 0;
    } else {
      assert s == s[..k] + [s[k]];
      PositiveValue(s[..k]);
      OnlyNumeral(s[..k], n / 10);
    }
  }

  lemma {:induction false} PositiveValue(s: string)
    requires IsDecimal(s) && s[0] != '0'
    ensures Value(s) > 0
    decreases |s|
  {
    if |s| == 1 {
      assert Value(s[..0]) == 0;
    } else {
      PositiveValue(s[..|s| - 1]);
    }
  }

  lemma {:induction false} DecimalInjective(m: nat, n: nat)
    requires Decimal(m) == Decimal(n)
    ensures m == n
  {
    DecimalDigits(m / 10);
    DecimalDigits(n / 10);
    var d := Decimal(m);
    assert d[|d| - 1] == ('0' as int + m % 10) as char;
    assert d[|d| - 1] == ('0' as int + n % 10) as char;
    if m >= 10 && n >= 10 {
      assert d[..|d| - 1] == Decimal(m / 10);
      assert d[..|d| - 1] == Decimal(n / 10);
      DecimalInjective(m / 10, n / 10);
    }
  }

  /** The text before the first colon is determined by the whole. */
  lemma FirstColon(a: string, b: string, x: string, y: string)
    requires ':' !in a && ':' !in x
    requires a + ":" + b == x + ":" + y
    ensures a == x && b == y
  {
    var s, t := a + ":" + b, x + ":" + y;
    assert s[|a|] == ':' && t[|x|] == ':';
    assert s[..|a|] == a && t[..|x|] == x;
    assert s[|a| + 1..] == b && t[|x| + 1..] == y;
  }

  /** The text after the last colon is determined by the whole. */
  lemma LastColon(a: string, b: string, x: string, y: string)
    requires ':' !in b && ':' !in y
    requires a + ":" + b == x + ":" + y
    ensures a == x && b == y
  {
    var s, t := a + ":" + b, x + ":" + y;
    assert s[|a|] == ':' && t[|x|] == ':';
    assert s[..|a|] == a && t[..|x|] == x;
    assert s[|a| + 1..] == b && t[|x| + 1..] == y;
  }

  /**
    The signed data determines identifier, content type and flags, whatever colons the content
    type holds, as long as identifiers hold none.
   */
  lemma SigningDataInjective(id: string, ctype: string, flags: nat, id': string, ctype': string, flags': nat)
    requires ':' !in id && ':' !in id'
    requires SigningData(id, ctype, flags) == SigningData(id', ctype', flags')
    ensures id == id' && ctype == ctype' && flags == flags'
  {
    var d, d' := Decimal(flags), Decimal(flags');
    DecimalDigits(flags);
    DecimalDigits(flags');
    assert SigningData(id, ctype, flags) == id + ":" + (ctype + ":" + d);
    assert SigningData(id', ctype', flags') == id' + ":" + (ctype' + ":" + d');
    FirstColon(id, ctype + ":" + d, id', ctype' + ":" + d');
    LastColon(ctype, d, ctype', d');
    DecimalInjective(flags, flags');
  }

  /** An identifier with a colon always shares its signed data with a shorter identifier. */
  lemma ColonsCollide(id: string, rest: string, ctype: string, flags: nat)
    ensures SigningData(id + ":" + rest, ctype, flags) == SigningData(id, rest + ":" + ctype, flags)
  {}

  lemma {:induction false} CleanedHasNoColon(text: string)
    requires ':' !in text
    ensures ':' !in Cleaned(text)
  {
    if text != "" && text[0] != '=' {
      CleanedHasNoColon(text[1..]);
    }
  }

  /** Every identifier that a node without a colon in its id generates is colon-free. */
  lemma GeneratedIdsHaveNoColon(id: string, prefix: string, depth: nat)
    requires HasShape(id, prefix, depth) && ':' !in prefix
    ensures ':' !in id
  {
    CleanedHasNoColon(prefix);
    assert id == id[..|prefix|] + id[|prefix|..];
  }

  // ----- signatures --------------------------------------------------------------------

  /** A keyed hash of a text: HMAC-SHA256 in the original, left uninterpreted here. */
  type Hmac = (string, string) -> string

  function Signature(hmac: Hmac, key: string, r: SourceRec): string
    requires r.id.Some?
  {
    hmac(key, SigningData(r.id.value, r.ctype, r.flags))
  }

  /**
    What is signed: the identifier, a colon, the content type, a colon and the decimal numeral of
    the flags, under the key of the node.
   */
  lemma SignedText(hmac: Hmac, key: string, r: SourceRec, numeral: string)
    requires r.id.Some?
    requires IsDecimal(numeral) && Value(numeral) == r.flags && (numeral[0] == '0' ==> |numeral| == 1)
    ensures Signature(hmac, key, r) == hmac(key, r.id.value + ":" + r.ctype + ":" + numeral)
  {
    OnlyNumeral(numeral, r.flags);
  }

  /** Different texts have different hashes under the key. */
  ghost predicate CollisionFree(hmac: Hmac, key: string) {
    forall a, b :: hmac(key, a) == hmac(key, b) ==> a == b
  }

  /** A signature fits exactly the sources with the identifier, type and flags it was made for. */
  lemma SignatureVouches(hmac: Hmac, key: string, r: SourceRec, q: SourceRec)
    requires CollisionFree(hmac, key)
    requires r.id.Some? && q.id.Some? && ':' !in r.id.value && ':' !in q.id.value
    ensures Signature(hmac, key, r) == Signature(hmac, key, q)
            <==> r.id == q.id && r.ctype == q.ctype && r.flags == q.flags
  {
    if Signature(hmac, key, r) == Signature(hmac, key, q) {
      SigningDataInjective(r.id.value, r.ctype, r.flags, q.id.value, q.ctype, q.flags);
    }
  }
}
