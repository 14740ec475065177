/**
 * Hex text as the dashboard reads and writes it: lower-case `toString(16)`
 * digits, the "0x"-prefixed `toHex()` form of byte strings, the inverse
 * `hexToU8a` decoding, and the little-endian `hexToBn(hex, { isLe: true })`
 * numbers that storage values and bridge nonces are read as.
 */
module Hex {
  import opened Text

  type byte = b: nat | b < 256

  predicate IsHexDigit(c: char) {
    '0' <= c <= '9' || 'a' <= c <= 'f' || 'A' <= c <= 'F'
  }

  predicate IsHexDigits(d: string) {
    forall i :: 0 <= i < |d| ==> IsHexDigit(d[i])
  }

  /** The value of one hex digit, either case. */
  function DigitValue(c: char): (v: nat)
    requires IsHexDigit(c)
    ensures v < 16
  {
    if '0' <= c <= '9' then c as int - '0' as int
    else if 'a' <= c <= 'f' then c as int - 'a' as int + 10
    else c as int - 'A' as int + 10
  }

  /** The digit for `d` as `Number.prototype.toString(16)` prints it: lower case. */
  function HexDigit(d: nat): (c: char)
    requires d < 16
    ensures IsHexDigit(c) && DigitValue(c) == d
    ensures !('A' <= c <= 'F')
  {
    if d < 10 then ('0' as int + d) as char else ('a' as int + d - 10) as char
  }

  /** `n.toString(16)`. */
  function ToRadix16(n: nat): string {
    if n < 16 then [HexDigit(n)] else ToRadix16(n / 16) + [HexDigit(n % 16)]
  }

  /** `s.padStart(width, fill)`. */
  function PadStart(s: string, width: nat, fill: char): string {
    if |s| >= width then s else seq(width - |s|, _ => fill) + s
  }

  /** One byte of a hex dump, `b.toString(16).padStart(2, '0')`: high nibble, then low nibble. */
  function ByteHex(b: byte): (s: string)
    ensures s == [HexDigit(b / 16), HexDigit(b % 16)]
  {
    var digits := ToRadix16(b);
    assert b < 16 ==> digits == [HexDigit(b)] && HexDigit(0) == '0';
    assert b >= 16 ==> b / 16 < 16 && ToRadix16(b / 16) == [HexDigit(b / 16)];
    assert b >= 16 ==> digits == [HexDigit(b / 16)] + [HexDigit(b % 16)];
    PadStart(digits, 2, '0')
  }

  /** The digits of a byte string, two per byte. */
  function HexBody(bytes: seq<byte>): (s: string)
    ensures |s| == 2 * |bytes|
    ensures IsHexDigits(s)
  {
    if |bytes| == 0 then "" else ByteHex(bytes[0]) + HexBody(bytes[1..])
  }

  /** Well-formed hex text: "0x" and then whole bytes of hex digits. */
  predicate IsHex(s: string) {
    StartsWith(s, "0x") && |s| % 2 == 0 && IsHexDigits(s[2..])
  }

  /** `toHex()` of a byte string, and the wasm dump `'0x' + bytes.map(ByteHex).join('')`. */
  function ToHex(bytes: seq<byte>): (s: string)
    ensures IsHex(s) && |s| == 2 + 2 * |bytes|
    ensures s[2..] == HexBody(bytes)
  {
    "0x" + HexBody(bytes)
  }

  /** Pairs of digits back to bytes (`hexToU8a` without the prefix). */
  function DecodeBody(d: string): (bytes: seq<byte>)
    requires |d| % 2 == 0 && IsHexDigits(d)
    ensures 2 * |bytes| == |d|
  {
    if |d| == 0 then [] else [16 * DigitValue(d[0]) + DigitValue(d[1])] + DecodeBody(d[2..])
  }

  /** `hexToU8a(s)`. */
  function DecodeHex(s: string): seq<byte>
    requires IsHex(s)
  {
    DecodeBody(s[2..])
  }

  lemma {:induction false} DecodeHexBody(bytes: seq<byte>)
    ensures DecodeBody(HexBody(bytes)) == bytes
  {
    if |bytes| > 0 {
      var s := HexBody(bytes);
      assert s[..2] == ByteHex(bytes[0]);
      assert s[2..] == HexBody(bytes[1..]);
      DecodeHexBody(bytes[1..]);
    }
  }

  /** Decoding undoes the hex dump. */
  lemma DecodeToHex(bytes: seq<byte>)
    ensures DecodeHex(ToHex(bytes)) == bytes
  {
    DecodeHexBody(bytes);
  }

  /** Two byte strings with the same hex dump are equal. */
  lemma ToHexInjective(a: seq<byte>, b: seq<byte>)
    requires ToHex(a) == ToHex(b)
    ensures a == b
  {
    DecodeToHex(a);
    DecodeToHex(b);
  }

  /** A byte string read as an unsigned little-endian number. */
  function LeValue(bytes: seq<byte>): nat {
    if |bytes| == 0 then 0 else bytes[0] + 256 * LeValue(bytes[1..])
  }

  function Pow256(n: nat): (p: nat)
    ensures p >= 1
  {
    if n == 0 then 1 else 256 * Pow256(n - 1)
  }

  lemma {:induction false} LeValueBound(bytes: seq<byte>)
    ensures LeValue(bytes) < Pow256(|bytes|)
  {
    if |bytes| > 0 {
      LeValueBound(bytes[1..]);
    }
  }

  lemma {:induction false} Pow256Monotone(m: nat, n: nat)
    requires m <= n
    ensures Pow256(m) <= Pow256(n)
  {
    if m < n {
      Pow256Monotone(m, n - 1);
    }
  }

  /** `hexToBn(s, { isLe: true, isNegative: false })`. */
  function LeHex(s: string): nat
    requires IsHex(s)
  {
    LeValue(DecodeHex(s))
  }

  /** `h.startsWith('0x') ? h.slice(2) : h`. */
  function StripPrefix(h: string): string {
    if StartsWith(h, "0x") then h[2..] else h
  }

  /** `s.slice(0, n)`. */
  function Take(s: string, n: nat): (t: string)
    ensures |t| == if n <= |s| then n else |s|
  {
    if n <= |s| then s[..n] else s
  }

  /** The bridge nonce of a storage value as the change search decodes it: the first
      16 hex digits after "0x" (8 bytes), little-endian. */
  function NonceOf(h: string): nat
    requires IsHex(h)
  {
    LeHex("0x" + Take(StripPrefix(h), 16))
  }

  /** The current-nonce decode, `hexToBn(hex.slice(0, 18), { isLe: true })`. */
  function HeadNonceOf(h: string): nat
    requires IsHex(h)
  {
    LeHex(Take(h, 18))
  }

  /** Both nonce decodes read the same digits. */
  lemma HeadNonceAgrees(h: string)
    requires IsHex(h)
    ensures HeadNonceOf(h) == NonceOf(h)
  {
    assert Take(h, 18) == "0x" + Take(StripPrefix(h), 16);
  }

  /** A nonce fits in 64 bits. */
  lemma NonceBound(h: string)
    requires IsHex(h)
    ensures NonceOf(h) < 0x1_0000_0000_0000_0000
  {
    var bytes := DecodeHex("0x" + Take(StripPrefix(h), 16));
    LeValueBound(bytes);
    Pow256Monotone(|bytes|, 8);
  }

  lemma {:induction false} HexBodyPrefix(bytes: seq<byte>, k: nat)
    requires k <= |bytes|
    ensures HexBody(bytes)[..2 * k] == HexBody(bytes[..k])
  {
    if k > 0 {
      HexBodyPrefix(bytes[1..], k - 1);
      assert bytes[..k][1..] == bytes[1..][..k - 1];
    }
  }

  /** The nonce of a stored value is the little-endian number in its first eight bytes. */
  lemma NonceOfToHex(bytes: seq<byte>)
    ensures NonceOf(ToHex(bytes)) == LeValue(bytes[..if |bytes| < 8 then |bytes| else 8])
  {
    var k := if |bytes| < 8 then |bytes| else 8;
    HexBodyPrefix(bytes, k);
    assert "0x" + Take(StripPrefix(ToHex(bytes)), 16) == ToHex(bytes[..k]);
    DecodeToHex(bytes[..k]);
  }

  /** The storage-key rule `/^0x[0-9a-fA-F]+$/`: "0x" and at least one hex digit. */
  predicate IsHexKey(key: string) {
    StartsWith(key, "0x") && |key| > 2 && IsHexDigits(key[2..])
  }

  /** The hex dump of a byte string is an acceptable key exactly when it is not empty;
      in particular "0x" alone is refused. */
  lemma HexKeyOfToHex(bytes: seq<byte>)
    ensures IsHexKey(ToHex(bytes)) <==> |bytes| > 0
  {
  }
}
