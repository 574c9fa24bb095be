/** Text as UTF-8 bytes (RFC 3629), as str.encode writes it and bytes.decode reads it. A
    character is a Unicode scalar value; what is read has the shortest form and is no
    surrogate. */
module Utf8 {
  import opened Basics

  function CharSize(c: char): nat {
    var n := c as int;
    if n < 0x80 then 1 else if n < 0x800 then 2 else if n < 0x10000 then 3 else 4
  }

  /** len(text.encode("utf-8")). */
  function Size(text: string): nat {
    if text == [] then 0 else CharSize(text[0]) + Size(text[1..])
  }

  function EncodeChar(c: char): (b: seq<Byte>)
    ensures |b| == CharSize(c)
  {
    var n := c as int;
    if n < 0x80 then [n]
    else if n < 0x800 then [0xC0 + n / 64, 0x80 + n % 64]
    else if n < 0x10000 then [0xE0 + n / 4096, 0x80 + n / 64 % 64, 0x80 + n % 64]
    else [0xF0 + n / 262144, 0x80 + n / 4096 % 64, 0x80 + n / 64 % 64, 0x80 + n % 64]
  }

  function Encode(text: string): seq<Byte> {
    if text == "" then [] else EncodeChar(text[0]) + Encode(text[1..])
  }

  /** How many bytes the first one announces; 0 where no character starts with it. */
  function Announced(b: Byte): (k: nat)
    ensures k <= 4
  {
    if b < 0x80 then 1 else if b < 0xC0 then 0 else if b < 0xE0 then 2 else if b < 0xF0 then 3
    else if b < 0xF8 then 4 else 0
  }

  /** The number in the first k bytes. */
  function Value(b: seq<Byte>, k: nat): int
    requires 1 <= k <= 4 && k <= |b|
  {
    var x: int := b[0];
    if k == 1 then x
    else if k == 2 then (x - 0xC0) * 64 + Low(b[1])
    else if k == 3 then (x - 0xE0) * 4096 + Low(b[1]) * 64 + Low(b[2])
    else (x - 0xF0) * 262144 + Low(b[1]) * 4096 + Low(b[2]) * 64 + Low(b[3])
  }

  /** What a continuation byte carries. */
  function Low(b: Byte): int { b as int - 0x80 }

  predicate IsScalar(n: int) {
    0 <= n < 0xD800 || 0xE000 <= n <= 0x10FFFF
  }

  /** The first character of some bytes, if they start with one. */
  function First(b: seq<Byte>): (c: Option<char>)
    requires b != []
    ensures c.Some? ==> CharSize(c.value) <= |b|
  {
    var k := Announced(b[0]);
    if k == 0 || k > |b| || (exists i | 1 <= i < k :: !(0x80 <= b[i] < 0xC0)) then None else
      var n := Value(b, k);
      if IsScalar(n) && CharSize(n as char) == k then Some(n as char) else None
  }

  function Decode(b: seq<Byte>): Option<string>
    decreases |b|
  {
    if b == [] then Some("") else
      var c := First(b);
      if c.None? then None else
        var rest := Decode(b[CharSize(c.value)..]);
        if rest.None? then None else Some([c.value] + rest.value)
  }

  lemma {:induction false} EncodeSize(text: string)
    ensures |Encode(text)| == Size(text)
  {
    if text != "" {
      EncodeSize(text[1..]);
    }
  }

  lemma PartsOf(n: nat)
    ensures n == n / 64 * 64 + n % 64
    ensures n == n / 4096 * 4096 + n / 64 % 64 * 64 + n % 64
    ensures n == n / 262144 * 262144 + n / 4096 % 64 * 4096 + n / 64 % 64 * 64 + n % 64
  {
    var m := n / 64;
    assert n == m * 64 + n % 64 && m == m / 64 * 64 + m % 64;
    assert m / 64 == n / 4096;
    var l := n / 4096;
    assert l == l / 64 * 64 + l % 64 && l / 64 == n / 262144;
  }

  lemma ValueBack(c: char, rest: seq<Byte>)
    ensures var b := EncodeChar(c) + rest; Announced(b[0]) == CharSize(c) && Value(b, CharSize(c)) == c as int
  {
    PartsOf(c as int);
  }

  /** A character is the only one with its bytes ... */
  lemma FirstBack(c: char, rest: seq<Byte>)
    ensures First(EncodeChar(c) + rest) == Some(c)
  {
    hide Value, Announced, Low;
    var b, k := EncodeChar(c) + rest, CharSize(c);
    ValueBack(c, rest);
    assert forall i | 1 <= i < k :: b[i] == EncodeChar(c)[i];
  }

  lemma TwoParts(x: int, y: int)
    requires 0 <= x && 0 <= y < 64
    ensures (x * 64 + y) / 64 == x && (x * 64 + y) % 64 == y
  {
  }

  lemma ThreeParts(x: int, y: int, z: int)
    requires 0 <= x && 0 <= y < 64 && 0 <= z < 64
    ensures var n := x * 4096 + y * 64 + z; n / 4096 == x && n / 64 == x * 64 + y && n / 64 % 64 == y && n % 64 == z
  {
    TwoParts(x * 64 + y, z);
    TwoParts(x, y);
  }

  lemma FourParts(x: int, y: int, z: int, u: int)
    requires 0 <= x && 0 <= y < 64 && 0 <= z < 64 && 0 <= u < 64
    ensures var n := x * 262144 + y * 4096 + z * 64 + u;
      n / 262144 == x && n / 4096 % 64 == y && n / 64 % 64 == z && n % 64 == u
  {
    var n := x * 262144 + y * 4096 + z * 64 + u;
    ThreeParts(x * 64 + y, z, u);
    TwoParts(x, y);
    assert n / 4096 == x * 64 + y;
    assert n / 262144 == n / 4096 / 64;
  }

  /** ... and what reads as a character is written so. */
  lemma FirstOnly(b: seq<Byte>)
    requires b != [] && First(b).Some?
    ensures b[..CharSize(First(b).value)] == EncodeChar(First(b).value)
  {
    var k := Announced(b[0]);
    assert forall i | 1 <= i < k :: 0x80 <= b[i] < 0xC0;
    FirstParts(b, k);
    assert First(b).value as int == Value(b, k) && CharSize(First(b).value) == k;
  }

  lemma FirstParts(b: seq<Byte>, k: nat)
    requires b != [] && k == Announced(b[0]) && 1 <= k <= |b| && forall i | 1 <= i < k :: 0x80 <= b[i] < 0xC0
    ensures var n := Value(b, k);
      && (k == 1 ==> b[0] == n)
      && (k == 2 ==> b[0] == 0xC0 + n / 64 && b[1] == 0x80 + n % 64)
      && (k == 3 ==> b[0] == 0xE0 + n / 4096 && b[1] == 0x80 + n / 64 % 64 && b[2] == 0x80 + n % 64)
      && (k == 4 ==>
            && b[0] == 0xF0 + n / 262144 && b[1] == 0x80 + n / 4096 % 64
            && b[2] == 0x80 + n / 64 % 64 && b[3] == 0x80 + n % 64)
  {
    var x: int := b[0];
    if k == 2 {
      TwoParts(x - 0xC0, Low(b[1]));
    } else if k == 3 {
      ThreeParts(x - 0xE0, Low(b[1]), Low(b[2]));
    } else if k == 4 {
      FourParts(x - 0xF0, Low(b[1]), Low(b[2]), Low(b[3]));
    }
  }

  lemma {:induction false} DecodeEncode(text: string)
    ensures Decode(Encode(text)) == Some(text)
  {
    hide First, EncodeChar;
    if text != "" {
      var rest := Encode(text[1..]);
      FirstBack(text[0], rest);
      DecodeEncode(text[1..]);
      assert (EncodeChar(text[0]) + rest)[CharSize(text[0])..] == rest;
      assert [text[0]] + text[1..] == text;
    }
  }

  /** Exactly the encodings are read, each as its text. */
  lemma {:induction false} EncodeDecode(b: seq<Byte>)
    ensures Decode(b).Some? ==> Encode(Decode(b).value) == b
    decreases |b|
  {
    hide First, EncodeChar;
    if b != [] && First(b).Some? {
      var k := CharSize(First(b).value);
      FirstOnly(b);
      EncodeDecode(b[k..]);
      if Decode(b[k..]).Some? {
        assert b == b[..k] + b[k..];
        assert ([First(b).value] + Decode(b[k..]).value)[1..] == Decode(b[k..]).value;
      }
    }
  }

  /** The bytes that read as a text are its encoding and no others, Size many. */
  lemma DecodeExactly(b: seq<Byte>, text: string)
    ensures Decode(b) == Some(text) <==> b == Encode(text)
    ensures |Encode(text)| == Size(text)
  {
    DecodeEncode(text);
    EncodeDecode(b);
    EncodeSize(text);
  }
}
