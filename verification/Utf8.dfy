/** Reading characters from byte strings as Go does. A string of this model stands for a
    string of bytes: each of its characters is one byte. */
module Utf8 {

  type Rune = int

  /** What an invalid byte is read as, one byte wide. */
  const RUNE_ERROR: Rune := 0xFFFD

  /** The bytes a character takes, by its first; none for a byte that begins no character. */
  function Announced(b: int): nat {
    if 0 <= b < 0x80 then 1
    else if 0xC2 <= b <= 0xDF then 2
    else if 0xE0 <= b <= 0xEF then 3
    else if 0xF0 <= b <= 0xF4 then 4
    else 0
  }

  predicate IsSecond(first: int, b: int) {
    (if first == 0xE0 then 0xA0 else if first == 0xF0 then 0x90 else 0x80) <= b
    <= (if first == 0xED then 0x9F else if first == 0xF4 then 0x8F else 0xBF)
  }

  predicate IsLater(b: int) {
    0x80 <= b <= 0xBF
  }

  /** The bytes begin with a whole character. */
  predicate BeginsWell(s: string)
    requires s != ""
  {
    var n := Announced(s[0] as int);
    && 0 < n <= |s|
    && (n > 1 ==> IsSecond(s[0] as int, s[1] as int))
    && (n > 2 ==> IsLater(s[2] as int))
    && (n > 3 ==> IsLater(s[3] as int))
  }

  function Combined(s: string): Rune
    requires s != "" && BeginsWell(s)
  {
    var b0 := s[0] as int;
    match Announced(b0)
    case 1 => b0
    case 2 => (b0 - 0xC0) * 0x40 + (s[1] as int - 0x80)
    case 3 => (b0 - 0xE0) * 0x1000 + (s[1] as int - 0x80) * 0x40 + (s[2] as int - 0x80)
    case _ =>
      (b0 - 0xF0) * 0x40000 + (s[1] as int - 0x80) * 0x1000 + (s[2] as int - 0x80) * 0x40 + (s[3] as int - 0x80)
  }

  /** The first character and its width in bytes. */
  function Decode(s: string): (r: (Rune, nat))
    requires s != ""
    ensures 1 <= r.1 <= |s|
    ensures (s[0] as int) < 0x80 ==> r == (s[0] as int, 1)
    ensures (s[0] as int) >= 0x80 ==> r.0 >= 0x80 && forall k :: 0 <= k < r.1 ==> s[k] as int >= 0x80
  {
    if BeginsWell(s) then (Combined(s), Announced(s[0] as int)) else (RUNE_ERROR, 1)
  }

  /** A whole character is read the same whatever follows it. */
  lemma {:induction false} DecodeReadsNoFurther(a: string, b: string)
    requires a != "" && BeginsWell(a) && Decode(a).1 <= |b| && b[..Decode(a).1] == a[..Decode(a).1]
    ensures Decode(b) == Decode(a) && BeginsWell(b)
  {
    var n := Decode(a).1;
    assert forall k :: 0 <= k < n ==> b[k] == b[..n][k] == a[..n][k] == a[k];
  }

  /** A character that has an encoding: section 3 of RFC 3629. */
  predicate IsCharacter(r: Rune) {
    0 <= r < 0xD800 || 0xE000 <= r < 0x110000
  }

  /** Its encoding, six bits to each byte behind the first. */
  function Encode(r: Rune): (s: string)
    requires IsCharacter(r)
    ensures s != "" && (r < 0x80 <==> (s[0] as int) < 0x80)
  {
    if r < 0x80 then [r as char]
    else if r < 0x800 then [(0xC0 + r / 64) as char, (0x80 + r % 64) as char]
    else if r < 0x10000 then [(0xE0 + r / 4096) as char, (0x80 + r / 64 % 64) as char, (0x80 + r % 64) as char]
    else [(0xF0 + r / 262144) as char, (0x80 + r / 4096 % 64) as char, (0x80 + r / 64 % 64) as char,
          (0x80 + r % 64) as char]
  }

  /** Six bits at a time, and back. */
  lemma {:induction false} Sextets(a: int, b: int, c: int, d: int)
    requires 0 <= b < 64 && 0 <= c < 64 && 0 <= d < 64
    ensures var r := a * 262144 + b * 4096 + c * 64 + d;
            r / 262144 == a && r / 4096 % 64 == b && r / 64 % 64 == c && r % 64 == d
  {
    var r := a * 262144 + b * 4096 + c * 64 + d;
    assert r / 64 == a * 4096 + b * 64 + c;
    assert r / 4096 == a * 64 + b;
  }

  lemma {:induction false} InSextets(r: int)
    ensures r == r / 262144 * 262144 + r / 4096 % 64 * 4096 + r / 64 % 64 * 64 + r % 64
    ensures r / 4096 == r / 262144 * 64 + r / 4096 % 64 && r / 64 == r / 4096 * 64 + r / 64 % 64
  {
  }

  lemma {:induction false} TwoBytesRead(r: Rune, s: string)
    requires 0x80 <= r < 0x800 && Encode(r) <= s
    ensures BeginsWell(s) && Decode(s) == (r, 2)
  {
    assert s[0] == Encode(r)[0] && s[1] == Encode(r)[1];
  }

  lemma {:induction false} ThreeBytesRead(r: Rune, s: string)
    requires 0x800 <= r < 0x10000 && IsCharacter(r) && Encode(r) <= s
    ensures BeginsWell(s) && Decode(s) == (r, 3)
  {
    InSextets(r);
    assert s[0] == Encode(r)[0] && s[1] == Encode(r)[1] && s[2] == Encode(r)[2];
  }

  lemma {:induction false} FourBytesRead(r: Rune, s: string)
    requires 0x10000 <= r < 0x110000 && Encode(r) <= s
    ensures BeginsWell(s) && Decode(s) == (r, 4)
  {
    InSextets(r);
    assert s[0] == Encode(r)[0] && s[1] == Encode(r)[1] && s[2] == Encode(r)[2] && s[3] == Encode(r)[3];
  }

  lemma {:induction false} EncodedIsRead(r: Rune, s: string)
    requires IsCharacter(r) && Encode(r) <= s
    ensures BeginsWell(s) && Decode(s) == (r, |Encode(r)|)
  {
    if r < 0x80 {
      assert s[0] == Encode(r)[0];
    } else if r < 0x800 {
      TwoBytesRead(r, s);
    } else if r < 0x10000 {
      ThreeBytesRead(r, s);
    } else {
      FourBytesRead(r, s);
    }
  }

  lemma {:induction false} ThreeBytesEncode(s: string)
    requires |s| == 3 && BeginsWell(s) && Announced(s[0] as int) == 3
    ensures IsCharacter(Combined(s)) && Encode(Combined(s)) == s
  {
    Sextets(0, s[0] as int - 0xE0, s[1] as int - 0x80, s[2] as int - 0x80);
    InSextets(Combined(s));
  }

  lemma {:induction false} FourBytesEncode(s: string)
    requires |s| == 4 && BeginsWell(s) && Announced(s[0] as int) == 4
    ensures IsCharacter(Combined(s)) && Encode(Combined(s)) == s
  {
    Sextets(s[0] as int - 0xF0, s[1] as int - 0x80, s[2] as int - 0x80, s[3] as int - 0x80);
  }

  lemma {:induction false} ReadIsEncoded(s: string)
    requires s != "" && BeginsWell(s)
    ensures IsCharacter(Decode(s).0) && Encode(Decode(s).0) == s[..Decode(s).1]
  {
    var t := s[..Decode(s).1];
    assert forall k :: 0 <= k < |t| ==> t[k] == s[k];
    match Announced(s[0] as int)
    case 3 => ThreeBytesEncode(t);
    case 4 => FourBytesEncode(t);
    case _ =>
  }

  /** A string that begins with a character's encoding is read as that character, any other
      as one byte of the replacement character. */
  lemma {:induction false} DecodeExactly(s: string, r: Rune, n: nat)
    requires s != ""
    ensures Decode(s) == (r, n) <==>
            || (IsCharacter(r) && Encode(r) <= s && n == |Encode(r)|)
            || (r == 0xFFFD && n == 1 && forall c :: IsCharacter(c) ==> !(Encode(c) <= s))
    ensures BeginsWell(s) <==> exists c :: IsCharacter(c) && Encode(c) <= s
  {
    if BeginsWell(s) {
      ReadIsEncoded(s);
      assert Encode(Decode(s).0) <= s;
    }
    forall c | IsCharacter(c) && Encode(c) <= s ensures BeginsWell(s) && Decode(s) == (c, |Encode(c)|) {
      EncodedIsRead(c, s);
    }
  }

  predicate Ascii(s: string) {
    forall i :: 0 <= i < |s| ==> (s[i] as int) < 0x80
  }

  /** The string is one character of several bytes. */
  predicate IsMultiByte(s: string) {
    |s| > 1 && BeginsWell(s) && Decode(s).1 == |s|
  }

  /** Read from within, such a character begins with an invalid byte, whatever follows. */
  lemma {:induction false} InsideIsInvalid(s: string, i: nat, t: string)
    requires IsMultiByte(s) && 0 < i < |s| && t != "" && t[0] == s[i]
    ensures Decode(t) == (RUNE_ERROR, 1) && t[0] != '/'
  {
  }

  /** Every byte belongs to a whole character. */
  predicate ValidUtf8(s: string)
    decreases |s|
  {
    s == "" || (BeginsWell(s) && ValidUtf8(s[Decode(s).1..]))
  }

  predicate MultiByteAt(s: string, i: nat, n: nat) {
    i + n <= |s| && IsMultiByte(s[i..i + n])
  }

  lemma {:induction false} MultiByteBehind(s: string, i: nat, n: nat)
    requires s != "" && MultiByteAt(s[1..], i, n)
    ensures MultiByteAt(s, i + 1, n)
  {
    assert s[1..][i..i + n] == s[i + 1..i + 1 + n];
  }

  lemma {:induction false} MultiByteInFront(s: string)
    requires s != "" && BeginsWell(s) && Decode(s).1 > 1
    ensures MultiByteAt(s, 0, Decode(s).1)
  {
    ManyBytesFirst(s);
    assert s[0..Decode(s).1] == s[..Decode(s).1];
  }

  /** The place and the length of the first character of several bytes. */
  lemma {:induction false} FindMultiByte(s: string) returns (i: nat, n: nat)
    requires ValidUtf8(s) && !Ascii(s)
    ensures MultiByteAt(s, i, n)
    decreases |s|
  {
    n := Decode(s).1;
    if n > 1 {
      i := 0;
      MultiByteInFront(s);
    } else {
      OneByteFirst(s);
      i, n := FindMultiByte(s[1..]);
      MultiByteBehind(s, i, n);
      i := i + 1;
    }
  }

  lemma {:induction false} ManyBytesFirst(s: string)
    requires s != "" && BeginsWell(s) && Decode(s).1 > 1
    ensures IsMultiByte(s[..Decode(s).1])
  {
    DecodeReadsNoFurther(s, s[..Decode(s).1]);
  }

  lemma {:induction false} OneByteFirst(s: string)
    requires ValidUtf8(s) && s != "" && Decode(s).1 == 1
    ensures ValidUtf8(s[1..]) && s == [s[0]] + s[1..] && (Ascii(s[1..]) ==> Ascii(s))
  {
    assert forall i :: 0 < i < |s| ==> s[i] == s[1..][i - 1];
  }
}
