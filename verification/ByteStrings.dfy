/** Byte strings, the hash function as a parameter, and hexadecimal text. */
module ByteStrings {

  newtype Byte = b: int | 0 <= b < 256

  type Bytes = seq<Byte>

  /** The 32 bytes that SHA-256 returns. */
  type Digest = d: Bytes | |d| == 32 witness seq(32, _ => 0)

  /** SHA-256 is any function to 32 bytes: nothing else is assumed about it. */
  type Hasher = Bytes -> Digest

  datatype Option<+T> = None | Some(value: T)

  /** Two different inputs with one hash. */
  predicate Collides(h: Hasher, x: Bytes, y: Bytes) {
    x != y && h(x) == h(y)
  }

  lemma {:induction false} ConcatAssociative<T>(a: seq<T>, b: seq<T>, c: seq<T>)
    ensures (a + b) + c == a + (b + c)
  {
  }

  function HexDigit(n: int): char
    requires 0 <= n < 16
  {
    if n < 10 then ('0' as int + n) as char else ('a' as int + n - 10) as char
  }

  /** Both letter cases are read; anything else is not a digit. */
  function HexValue(c: char): Option<int> {
    if '0' <= c <= '9' then Some(c as int - '0' as int)
    else if 'a' <= c <= 'f' then Some(c as int - 'a' as int + 10)
    else if 'A' <= c <= 'F' then Some(c as int - 'A' as int + 10)
    else None
  }

  function HexEncode(b: Bytes): string {
    if b == [] then ""
    else [HexDigit(b[0] as int / 16), HexDigit(b[0] as int % 16)] + HexEncode(b[1..])
  }

  function HexDecode(s: string): Option<Bytes> {
    if s == "" then Some([])
    else if |s| == 1 then None
    else
      match (HexValue(s[0]), HexValue(s[1]), HexDecode(s[2..]))
      case (Some(hi), Some(lo), Some(rest)) =>
        if 0 <= hi < 16 && 0 <= lo < 16 then Some([(16 * hi + lo) as Byte] + rest) else None
      case _ => None
  }

  lemma {:induction false} HexDigitRoundTrip(n: int)
    requires 0 <= n < 16
    ensures HexValue(HexDigit(n)) == Some(n)
  {
  }

  lemma {:induction false} HexRoundTrip(b: Bytes)
    ensures HexDecode(HexEncode(b)) == Some(b)
  {
    if b != [] {
      var s, n := HexEncode(b), b[0] as int;
      HexRoundTrip(b[1..]);
      HexDigitRoundTrip(n / 16);
      HexDigitRoundTrip(n % 16);
      assert s[0] == HexDigit(n / 16) && s[1] == HexDigit(n % 16) && s[2..] == HexEncode(b[1..]);
      assert [b[0]] + b[1..] == b;
    }
  }

  lemma {:induction false} HexInjective(a: Bytes, b: Bytes)
    requires HexEncode(a) == HexEncode(b)
    ensures a == b
  {
    HexRoundTrip(a);
    HexRoundTrip(b);
  }

  /** Two lower-case digits a byte, the high half first. */
  lemma {:induction false} HexText(b: Bytes, i: nat)
    requires i < |b|
    ensures |HexEncode(b)| == 2 * |b|
    ensures HexEncode(b)[2 * i] == "0123456789abcdef"[b[i] as int / 16]
    ensures HexEncode(b)[2 * i + 1] == "0123456789abcdef"[b[i] as int % 16]
    decreases |b|
  {
    HexLength(b);
    if i > 0 {
      HexText(b[1..], i - 1);
    }
  }

  lemma {:induction false} HexLength(b: Bytes)
    ensures |HexEncode(b)| == 2 * |b|
  {
    if b != [] {
      HexLength(b[1..]);
    }
  }
}
