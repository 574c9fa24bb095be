/** Standard padded base64 (section 4 of RFC 4648) as base64.b64encode writes it and
    base64.b64decode(validate=True) of CPython 3.11 reads it. Three bytes make four
    characters; one or two bytes at the end make two or three, padded with equals
    signs. The bits a short last group leaves over are ignored when reading. */
module Base64 {
  import opened Basics

  function CharOf(d: nat): char
    requires d < 64
  {
    if d < 26 then (d + 65) as char
    else if d < 52 then (d - 26 + 97) as char
    else if d < 62 then (d - 52 + 48) as char
    else if d == 62 then '+'
    else '/'
  }

  /** -1 outside the alphabet. */
  function ValueOf(c: char): (d: int)
    ensures -1 <= d < 64
  {
    if 'A' <= c <= 'Z' then c as int - 65
    else if 'a' <= c <= 'z' then c as int - 97 + 26
    else if '0' <= c <= '9' then c as int - 48 + 52
    else if c == '+' then 62
    else if c == '/' then 63
    else -1
  }

  lemma ValueOfChar(d: nat)
    requires d < 64
    ensures ValueOf(CharOf(d)) == d && CharOf(d) != '='
  {
  }

  function Quad(b0: Byte, b1: Byte, b2: Byte): (t: string)
    ensures |t| == 4
  {
    [CharOf(b0 / 4), CharOf((b0 % 4) * 16 + b1 / 16), CharOf((b1 % 16) * 4 + b2 / 64), CharOf(b2 % 64)]
  }

  function Encode(b: seq<Byte>): string {
    if |b| == 0 then ""
    else if |b| == 1 then Quad(b[0], 0, 0)[..2] + "=="
    else if |b| == 2 then Quad(b[0], b[1], 0)[..3] + "="
    else Quad(b[0], b[1], b[2]) + Encode(b[3..])
  }

  /** How many characters of the alphabet the text starts with. */
  function Run(t: string): (n: nat)
    ensures n <= |t|
    ensures forall i | 0 <= i < n :: ValueOf(t[i]) >= 0
    ensures n < |t| ==> ValueOf(t[n]) < 0
  {
    if t == [] || ValueOf(t[0]) < 0 then 0 else 1 + Run(t[1..])
  }

  /** The first k bytes that four sextets carry. */
  function Triple(q: string, k: nat): (b: seq<Byte>)
    requires |q| == 4 && k <= 3 && IsData(q)
    ensures |b| == k
  {
    var v0, v1, v2, v3 := ValueOf(q[0]), ValueOf(q[1]), ValueOf(q[2]), ValueOf(q[3]);
    [v0 * 4 + v1 / 16, (v1 % 16) * 16 + v2 / 4, (v2 % 4) * 64 + v3][..k]
  }

  predicate IsData(t: string) {
    forall i | 0 <= i < |t| :: ValueOf(t[i]) >= 0
  }

  /** The bytes of data characters; bits left over at the end are dropped. */
  function Bytes(t: string): seq<Byte>
    requires IsData(t)
  {
    if |t| < 2 then []
    else if |t| == 2 then Triple(t + "AA", 1)
    else if |t| == 3 then Triple(t + "A", 2)
    else Triple(t[..4], 3) + Bytes(t[4..])
  }

  /** None where binascii.Error is raised. Padding after complete quads is ignored. */
  function Decode(t: string): Option<seq<Byte>> {
    var n := Run(t);
    var pads := |t| - n;
    if exists i | n <= i < |t| :: t[i] != '=' then None
    else if n == 0 then if pads == 0 then Some([]) else None
    else if n % 4 == 0 || (n % 4 == 2 && pads == 2) || (n % 4 == 3 && pads == 1) then Some(Bytes(t[..n]))
    else None
  }

  /** The number of data characters in an encoding. */
  function DataLength(k: nat): nat {
    (k / 3) * 4 + (if k % 3 == 0 then 0 else k % 3 + 1)
  }

  lemma QuadBack(b0: Byte, b1: Byte, b2: Byte)
    ensures IsData(Quad(b0, b1, b2))
    ensures Triple(Quad(b0, b1, b2), 3) == [b0, b1, b2]
  {
    hide ValueOf, CharOf;
    ValueOfChar(b0 / 4);
    ValueOfChar((b0 % 4) * 16 + b1 / 16);
    ValueOfChar((b1 % 16) * 4 + b2 / 64);
    ValueOfChar(b2 % 64);
    var q := Quad(b0, b1, b2);
    assert q[0] == CharOf(b0 / 4) && q[1] == CharOf((b0 % 4) * 16 + b1 / 16);
    assert q[2] == CharOf((b1 % 16) * 4 + b2 / 64) && q[3] == CharOf(b2 % 64);
    SextetsBack(b0, b1, b2);
  }

  /** Three bytes from the four sextets they were cut into. */
  lemma SextetsBack(b0: Byte, b1: Byte, b2: Byte)
    ensures var v0, v1, v2, v3 := b0 / 4, (b0 % 4) * 16 + b1 / 16, (b1 % 16) * 4 + b2 / 64, b2 % 64;
      v0 * 4 + v1 / 16 == b0 && (v1 % 16) * 16 + v2 / 4 == b1 && (v2 % 4) * 64 + v3 == b2
  {
  }

  ghost predicate Shape(t: string, n: nat) {
    && n <= |t|
    && IsData(t[..n])
    && (forall i | n <= i < |t| :: t[i] == '=')
    && |t| - n == PadsFor(n)
  }

  function PadsFor(n: nat): nat {
    (4 - n % 4) % 4
  }

  lemma PadsRepeat(n: nat)
    ensures PadsFor(n + 4) == PadsFor(n)
  {
  }

  lemma QuadZeros(b0: Byte, b1: Byte)
    ensures Quad(b0, 0, 0)[..2] + "AA" == Quad(b0, 0, 0)
    ensures Quad(b0, b1, 0)[..3] + "A" == Quad(b0, b1, 0)
  {
  }

  lemma TriplePrefix(q: string, k: nat)
    requires |q| == 4 && k <= 3 && IsData(q)
    ensures Triple(q, k) == Triple(q, 3)[..k]
  {
  }

  lemma OneByte(b: seq<Byte>)
    requires |b| == 1
    ensures Shape(Encode(b), 2) && Bytes(Encode(b)[..2]) == b
  {
    hide ValueOf, Quad, Triple;
    var q := Quad(b[0], 0, 0);
    QuadBack(b[0], 0, 0);
    QuadZeros(b[0], 0);
    TriplePrefix(q, 1);
    assert Encode(b) == q[..2] + "==";
    assert Encode(b)[..2] == q[..2];
    assert [b[0], 0, 0][..1] == b;
  }

  lemma TwoBytes(b: seq<Byte>)
    requires |b| == 2
    ensures Shape(Encode(b), 3) && Bytes(Encode(b)[..3]) == b
  {
    hide ValueOf, Quad, Triple;
    var q := Quad(b[0], b[1], 0);
    QuadBack(b[0], b[1], 0);
    QuadZeros(b[0], b[1]);
    TriplePrefix(q, 2);
    assert Encode(b) == q[..3] + "=";
    assert Encode(b)[..3] == q[..3];
    assert [b[0], b[1], 0][..2] == b;
  }

  lemma ThreeMore(b: seq<Byte>, n: nat)
    requires |b| >= 3 && Shape(Encode(b[3..]), n) && Bytes(Encode(b[3..])[..n]) == b[3..]
    requires n != 1
    ensures Shape(Encode(b), n + 4) && Bytes(Encode(b)[..n + 4]) == b
  {
    EncodeMore(b);
    SplitThree(b);
    hide Encode, Bytes, ValueOf, Quad, Triple, IsData;
    var q, rest := Quad(b[0], b[1], b[2]), Encode(b[3..]);
    QuadBack(b[0], b[1], b[2]);
    ShapeAfter(q, rest, n);
    BytesAfter(q, rest[..n]);
  }

  lemma EncodeMore(b: seq<Byte>)
    requires |b| >= 3
    ensures Encode(b) == Quad(b[0], b[1], b[2]) + Encode(b[3..])
  {
  }

  lemma SplitThree(b: seq<Byte>)
    requires |b| >= 3
    ensures b == [b[0], b[1], b[2]] + b[3..]
  {
  }

  lemma ShapeAfter(q: string, rest: string, n: nat)
    requires |q| == 4 && IsData(q) && Shape(rest, n)
    ensures Shape(q + rest, n + 4) && (q + rest)[..n + 4] == q + rest[..n]
  {
    hide ValueOf, PadsFor;
    PadsRepeat(n);
  }

  lemma BytesAfter(q: string, t: string)
    requires |q| == 4 && IsData(q)
    requires |t| != 1 && IsData(t)
    ensures IsData(q + t) && Bytes(q + t) == Triple(q, 3) + Bytes(t)
  {
    hide ValueOf, Triple;
    assert (q + t)[..4] == q && (q + t)[4..] == t;
    if |t| == 0 {
      assert q + t == q;
    }
  }

  lemma {:induction false} EncodeShape(b: seq<Byte>)
    ensures Shape(Encode(b), DataLength(|b|)) && Bytes(Encode(b)[..DataLength(|b|)]) == b
  {
    hide Encode, Bytes, Shape, IsData;
    if |b| == 0 {
      NoBytes(b);
    } else if |b| == 1 {
      OneByte(b);
    } else if |b| == 2 {
      TwoBytes(b);
    } else {
      EncodeShape(b[3..]);
      DataLengthMore(|b[3..]|);
      ThreeMore(b, DataLength(|b[3..]|));
    }
  }

  lemma DataLengthMore(k: nat)
    ensures DataLength(k + 3) == DataLength(k) + 4 && DataLength(k) % 4 != 1
  {
  }

  lemma NoBytes(b: seq<Byte>)
    requires |b| == 0
    ensures Shape(Encode(b), 0) && Bytes(Encode(b)[..0]) == b && Bytes("") == []
  {
  }

  lemma {:induction false} RunIs(t: string, n: nat)
    requires n <= |t| && forall i | 0 <= i < n :: ValueOf(t[i]) >= 0
    requires n < |t| ==> ValueOf(t[n]) < 0
    ensures Run(t) == n
  {
    if n > 0 {
      RunIs(t[1..], n - 1);
    }
  }

  /** A text of this shape is read as the bytes of its data characters. */
  lemma DecodeShape(t: string, n: nat)
    requires Shape(t, n) && n % 4 != 1 && (n == 0 ==> t == [])
    ensures IsData(t[..n])
    ensures Decode(t) == Some(Bytes(t[..n]))
  {
    hide Bytes, ValueOf, Run, PadsFor;
    NoDatum();
    RunIs(t, n);
    PadsAre(n);
    NoBytes([]);
    assert n == 0 ==> t[..n] == "";
  }

  lemma NoDatum()
    ensures ValueOf('=') < 0
  {
  }

  lemma PadsAre(n: nat)
    ensures PadsFor(n) == if n % 4 == 0 then 0 else if n % 4 == 2 then 2 else if n % 4 == 3 then 1 else 3
  {
  }

  /** What was encoded is read back. */
  lemma DecodeEncode(b: seq<Byte>)
    ensures Decode(Encode(b)) == Some(b)
  {
    EncodeShape(b);
    hide Bytes, Encode, ValueOf, Decode;
    DecodeShape(Encode(b), DataLength(|b|));
  }

  // ---- every text ----

  const ALPHABET := "ABCDEFGHIJKLM" + "NOPQRSTUVWXYZ" + "abcdefghijklm" + "nopqrstuvwxyz" + "0123456789+/"

  lemma AlphabetByRanges(d: nat)
    requires d < 64
    ensures |ALPHABET| == 64 && ALPHABET[d] == CharOf(d)
  {
  }

  lemma CharOfValue(c: char)
    requires ValueOf(c) >= 0
    ensures CharOf(ValueOf(c)) == c
  {
  }

  /** Data characters, then padding that fits their number. */
  predicate Padded(t: string, n: int) {
    && 0 <= n <= |t| && IsData(t[..n]) && (forall i | n <= i < |t| :: t[i] == '=')
    && (t == "" || (n > 0 && n % 4 == 0) || (n % 4 == 2 && |t| == n + 2) || (n % 4 == 3 && |t| == n + 1))
  }

  /** Bytes that these characters carry: as many as fit, and written again they give the same
      characters, up to one whose last bits are left over. */
  predicate Carries(t: string, b: seq<Byte>) {
    && |b| == |t| * 3 / 4 && |b| * 4 / 3 <= |t| && |b| * 4 / 3 <= |Encode(b)|
    && forall i | 0 <= i < |b| * 4 / 3 :: Encode(b)[i] == t[i]
  }

  /** Which texts are read, and as what. */
  lemma DecodeExactly(t: string)
    ensures Decode(t).Some? <==> exists n :: Padded(t, n)
    ensures forall n | Padded(t, n) :: Decode(t).Some? && Carries(t[..n], Decode(t).value)
  {
    hide Carries;
    if Decode(t).Some? {
      assert Padded(t, Run(t));
    }
    forall n | Padded(t, n) ensures Decode(t).Some? && Carries(t[..n], Decode(t).value) {
      assert forall i | 0 <= i < n :: t[..n][i] == t[i];
      RunIs(t, n);
      BytesCarry(t[..n]);
    }
  }

  lemma {:induction false} BytesCarry(t: string)
    requires IsData(t) && |t| % 4 != 1
    ensures Carries(t, Bytes(t))
    decreases |t|
  {
    hide ValueOf, CharOf;
    FirstChar();
    ValueOfChar(0);
    if |t| >= 4 {
      BytesCarry(t[4..]);
      TripleBack(t[..4]);
      CarriesOn(t, Triple(t[..4], 3), Bytes(t[4..]));
    } else if |t| == 2 {
      TripleBack(t + "AA");
      assert (t + "AA")[0] == t[0];
    } else if |t| == 3 {
      TripleBack(t + "A");
      assert (t + "A")[..2] == t[..2];
    }
  }

  lemma FirstChar()
    ensures CharOf(0) == 'A'
  {
  }

  lemma CarriesOn(t: string, b: seq<Byte>, rest: seq<Byte>)
    requires |t| >= 4 && |b| == 3 && Quad(b[0], b[1], b[2]) == t[..4] && Carries(t[4..], rest)
    ensures Carries(t, b + rest)
  {
    hide Quad;
    assert (b + rest)[3..] == rest;
    var q := Quad(b[0], b[1], b[2]);
    assert Encode(b + rest) == q + Encode(rest);
    forall i | 0 <= i < |b + rest| * 4 / 3 ensures Encode(b + rest)[i] == t[i] {
      if i < 4 {
        assert t[..4][i] == t[i];
      } else {
        assert t[4..][i - 4] == t[i];
      }
    }
  }

  /** Four characters from the three bytes they were read as. */
  lemma TripleBack(q: string)
    requires |q| == 4 && IsData(q)
    ensures var b := Triple(q, 3);
      && Quad(b[0], b[1], b[2]) == q && Quad(b[0], 0, 0)[0] == q[0] && Quad(b[0], b[1], 0)[..2] == q[..2]
      && Triple(q, 1) == [b[0]] && Triple(q, 2) == [b[0], b[1]]
  {
    hide ValueOf, CharOf;
    CharOfValue(q[0]);
    CharOfValue(q[1]);
    CharOfValue(q[2]);
    CharOfValue(q[3]);
    BytesToSextets(ValueOf(q[0]), ValueOf(q[1]), ValueOf(q[2]), ValueOf(q[3]));
  }

  lemma BytesToSextets(v0: int, v1: int, v2: int, v3: int)
    requires 0 <= v0 < 64 && 0 <= v1 < 64 && 0 <= v2 < 64 && 0 <= v3 < 64
    ensures var b0, b1, b2 := v0 * 4 + v1 / 16, (v1 % 16) * 16 + v2 / 4, (v2 % 4) * 64 + v3;
      b0 / 4 == v0 && (b0 % 4) * 16 + b1 / 16 == v1 && (b1 % 16) * 4 + b2 / 64 == v2 && b2 % 64 == v3
  {
  }
}
