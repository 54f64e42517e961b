/**
 * The two foreign primitives the authenticator relies on, kept abstract:
 * bcrypt's salted `hash` / `compare` pair, and the lowercase hexadecimal
 * encoding of `Buffer.toString("hex")` applied to random bytes.
 */
module Bcrypt {

  type Byte = b: int | 0 <= b < 256

  /** The per-call random salt that `hash(plain, 12)` draws. */
  type Salt = nat

  /** bcrypt as the code uses it: `hash(plain, salt)` and `compare(plain, hashed)`. */
  datatype Hasher = Hasher(hash: (string, Salt) -> string, compare: (string, string) -> bool)

  /** A bcrypt hash string: 60 characters starting with the `$2x$` marker. */
  predicate IsBcryptHash(h: string)
  {
    |h| == 60 && h[0] == '$'
  }

  /**
   * What the model assumes of bcrypt: a hash verifies against the password it
   * was computed from, whatever the salt, and has bcrypt's output format.
   */
  ghost predicate Sound(h: Hasher)
  {
    forall p, s :: h.compare(p, h.hash(p, s)) && IsBcryptHash(h.hash(p, s))
  }

  predicate IsHexDigit(c: char)
  {
    '0' <= c <= '9' || 'a' <= c <= 'f'
  }

  predicate IsLowerHex(s: string)
  {
    forall i :: 0 <= i < |s| ==> IsHexDigit(s[i])
  }

  function HexDigit(n: nat): (c: char)
    requires n < 16
    ensures IsHexDigit(c)
  {
    "0123456789abcdef"[n]
  }

  function HexValue(c: char): (n: nat)
    requires IsHexDigit(c)
    ensures n < 16
  {
    if c <= '9' then c as int - '0' as int else c as int - 'a' as int + 10
  }

  lemma HexValueOfDigit(n: nat)
    requires n < 16
    ensures HexValue(HexDigit(n)) == n
  {
    var digits := "0123456789abcdef";
    assert forall k :: 0 <= k < 16 ==> digits[k] as int == if k < 10 then '0' as int + k else 'a' as int + k - 10;
  }

  /** `Buffer.from(bytes).toString("hex")`: two lowercase digits per byte, high nibble first. */
  function HexEncode(bytes: seq<Byte>): (r: string)
    ensures |r| == 2 * |bytes|
    ensures IsLowerHex(r)
  {
    if bytes == [] then ""
    else [HexDigit(bytes[0] / 16), HexDigit(bytes[0] % 16)] + HexEncode(bytes[1..])
  }

  /** The inverse of `HexEncode`: pairs of digits back to bytes. */
  function HexDecode(s: string): (bytes: seq<Byte>)
    requires |s| % 2 == 0 && IsLowerHex(s)
    ensures |bytes| == |s| / 2
  {
    if s == [] then []
    else [HexValue(s[0]) * 16 + HexValue(s[1])] + HexDecode(s[2..])
  }

  /** Decoding the hex text of some bytes gives the bytes back, so distinct random bytes give distinct keys. */
  lemma {:induction false} HexRoundTrip(bytes: seq<Byte>)
    ensures HexDecode(HexEncode(bytes)) == bytes
  {
    if bytes != [] {
      var b := bytes[0];
      HexValueOfDigit(b / 16);
      HexValueOfDigit(b % 16);
      var e := HexEncode(bytes);
      assert e[2..] == HexEncode(bytes[1..]);
      HexRoundTrip(bytes[1..]);
    }
  }

  lemma HexEncodeInjective(a: seq<Byte>, b: seq<Byte>)
    requires HexEncode(a) == HexEncode(b)
    ensures a == b
  {
    HexRoundTrip(a);
    HexRoundTrip(b);
  }
}
