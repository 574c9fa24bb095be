/** Tokens: URL-safe base64 (section 5 of RFC 4648) without its padding. */
module Base64Url {
  import opened Basics
  import Base64

  function UrlChar(c: char): char {
    if c == '+' then '-' else if c == '/' then '_' else c
  }

  function StandardChar(c: char): char {
    if c == '-' then '+' else if c == '_' then '/' else c
  }

  function Mapped(t: string, f: char -> char): (r: string)
    ensures |r| == |t| && forall i | 0 <= i < |t| :: r[i] == f(t[i])
  {
    seq(|t|, i requires 0 <= i < |t| => f(t[i]))
  }

  /** rstrip("="). */
  function Unpadded(t: string): string {
    if t != "" && t[|t| - 1] == '=' then Unpadded(t[..|t| - 1]) else t
  }

  /** urlsafe_b64encode(b).rstrip("="). */
  function Encode(b: seq<Byte>): string {
    Unpadded(Mapped(Base64.Encode(b), UrlChar))
  }

  function Padded(t: string): string {
    t + seq(Base64.PadsFor(|t|), _ => '=')
  }

  /** binascii.a2b_base64 of CPython 3.11 when it is not strict: characters outside the
      alphabet are passed over, and padding that completes a group ends the text. The group
      read so far is quad; None where binascii.Error is raised. */
  function Lenient(t: string, quad: string, pads: nat): Option<seq<Byte>>
    requires |quad| < 4 && Base64.IsData(quad)
    decreases |t|
  {
    if t == "" then if quad == "" then Some([]) else None
    else if t[0] == '=' then
      if |quad| >= 2 && |quad| + pads + 1 >= 4 then Some(Base64.Bytes(quad))
      else Lenient(t[1..], quad, if |quad| >= 2 then pads + 1 else pads)
    else if Base64.ValueOf(t[0]) < 0 then Lenient(t[1..], quad, pads)
    else if |quad| < 3 then Lenient(t[1..], quad + [t[0]], 0)
    else
      var rest := Lenient(t[1..], "", 0);
      if rest.None? then None else Some(Base64.Triple(quad + [t[0]], 3) + rest.value)
  }

  /** urlsafe_b64decode of a token padded to whole groups. */
  function Decode(t: string): Option<seq<Byte>> {
    if exists i | 0 <= i < |t| :: t[i] as int >= 128 then None
    else Lenient(Mapped(Padded(t), StandardChar), "", 0)
  }

  // ---- the decoder on whole groups ----

  lemma OneMore(c: char, rest: string, quad: string)
    requires |quad| < 3 && Base64.IsData(quad) && Base64.ValueOf(c) >= 0
    ensures Lenient([c] + rest, quad, 0) == Lenient(rest, quad + [c], 0)
  {
    hide Base64.Bytes, Base64.Triple;
    assert ([c] + rest)[1..] == rest && ([c] + rest)[0] == c;
    assert Base64.ValueOf('=') < 0;
  }

  lemma LastOfFour(c: char, rest: string, quad: string)
    requires |quad| == 3 && Base64.IsData(quad) && Base64.ValueOf(c) >= 0
    ensures var r := Lenient(rest, "", 0);
      Lenient([c] + rest, quad, 0) == if r.None? then None else Some(Base64.Triple(quad + [c], 3) + r.value)
  {
    hide Base64.Bytes, Base64.Triple;
    assert ([c] + rest)[1..] == rest && ([c] + rest)[0] == c;
    assert Base64.ValueOf('=') < 0;
  }

  lemma GroupRead(q: string, rest: string)
    requires |q| == 4 && Base64.IsData(q)
    ensures var r := Lenient(rest, "", 0);
      Lenient(q + rest, "", 0) == if r.None? then None else Some(Base64.Triple(q, 3) + r.value)
  {
    hide Base64.Bytes, Base64.Triple, Base64.ValueOf, Lenient;
    assert q + rest == [q[0]] + ([q[1]] + ([q[2]] + ([q[3]] + rest)));
    OneMore(q[0], [q[1]] + ([q[2]] + ([q[3]] + rest)), "");
    OneMore(q[1], [q[2]] + ([q[3]] + rest), [q[0]]);
    OneMore(q[2], [q[3]] + rest, [q[0]] + [q[1]]);
    LastOfFour(q[3], rest, [q[0]] + [q[1]] + [q[2]]);
    assert "" + [q[0]] == [q[0]];
    assert [q[0]] + [q[1]] + [q[2]] + [q[3]] == q;
  }

  lemma PadsEnd(quad: string)
    requires 2 <= |quad| < 4 && Base64.IsData(quad)
    ensures Lenient(if |quad| == 2 then "==" else "=", quad, 0) == Some(Base64.Bytes(quad))
  {
    hide Base64.Bytes, Base64.Triple;
    assert "=="[1..] == "=";
    if |quad| == 2 { assert Lenient("=", quad, 1) == Some(Base64.Bytes(quad)); }
  }

  lemma ShortRead(b: seq<Byte>)
    requires |b| < 3
    ensures Lenient(Base64.Encode(b), "", 0) == Some(b)
  {
    if |b| == 1 {
      Base64.OneByte(b);
      ShortData(Base64.Encode(b)[..2], "==");
    } else if |b| == 2 {
      Base64.TwoBytes(b);
      ShortData(Base64.Encode(b)[..3], "=");
    }
  }

  lemma ShortData(quad: string, pads: string)
    requires (|quad| == 2 && pads == "==") || (|quad| == 3 && pads == "=")
    requires Base64.IsData(quad)
    ensures Lenient(quad + pads, "", 0) == Some(Base64.Bytes(quad))
  {
    hide Base64.Bytes, Base64.Triple, Base64.ValueOf, Lenient;
    PadsEnd(quad);
    assert "" + [quad[0]] == [quad[0]];
    if |quad| == 2 {
      assert quad + pads == [quad[0]] + ([quad[1]] + pads);
      OneMore(quad[0], [quad[1]] + pads, "");
      OneMore(quad[1], pads, [quad[0]]);
      assert [quad[0]] + [quad[1]] == quad;
    } else {
      assert quad + pads == [quad[0]] + ([quad[1]] + ([quad[2]] + pads));
      OneMore(quad[0], [quad[1]] + ([quad[2]] + pads), "");
      OneMore(quad[1], [quad[2]] + pads, [quad[0]]);
      OneMore(quad[2], pads, [quad[0]] + [quad[1]]);
      assert [quad[0]] + [quad[1]] + [quad[2]] == quad;
    }
  }

  lemma {:induction false} LenientBack(b: seq<Byte>)
    ensures Lenient(Base64.Encode(b), "", 0) == Some(b)
  {
    hide Base64.Encode, Lenient, Base64.Quad, Base64.Triple;
    if |b| < 3 {
      ShortRead(b);
    } else {
      Base64.EncodeMore(b);
      Base64.QuadBack(b[0], b[1], b[2]);
      GroupRead(Base64.Quad(b[0], b[1], b[2]), Base64.Encode(b[3..]));
      LenientBack(b[3..]);
      Base64.SplitThree(b);
    }
  }

  // ---- a token is the encoding, mapped and without its padding ----

  lemma DataChars(c: char)
    ensures Base64.ValueOf(c) >= 0 ==> StandardChar(UrlChar(c)) == c && UrlChar(c) as int < 128 && UrlChar(c) != '='
    ensures StandardChar('=') == '=' && UrlChar('=') == '='
  {
  }

  lemma {:induction false} UnpaddedIs(t: string, n: nat)
    requires n <= |t| && (forall i | n <= i < |t| :: t[i] == '=') && (n > 0 ==> t[n - 1] != '=')
    ensures Unpadded(t) == t[..n]
    decreases |t|
  {
    if n < |t| {
      UnpaddedIs(t[..|t| - 1], n);
      assert t[..|t| - 1][..n] == t[..n];
    } else {
      assert t[..n] == t;
    }
  }

  lemma TokenIs(b: seq<Byte>)
    ensures var n := Base64.DataLength(|b|);
      && n <= |Base64.Encode(b)| && Encode(b) == Mapped(Base64.Encode(b), UrlChar)[..n]
      && Mapped(Padded(Encode(b)), StandardChar) == Base64.Encode(b)
      && forall i | 0 <= i < |Encode(b)| :: Encode(b)[i] as int < 128
  {
    hide Base64.Encode, Base64.Bytes, Base64.ValueOf, Base64.PadsFor, UrlChar, StandardChar, Unpadded;
    var t, n := Base64.Encode(b), Base64.DataLength(|b|);
    Base64.EncodeShape(b);
    var m := Mapped(t, UrlChar);
    forall i | 0 <= i < |t|
      ensures StandardChar(m[i]) == t[i] && (i < n ==> m[i] as int < 128 && m[i] != '=') && (i >= n ==> m[i] == '=')
    {
      DataChars(t[i]);
      if i < n { assert t[..n][i] == t[i]; }
    }
    UnpaddedIs(m, n);
    assert Padded(m[..n]) == m;
    assert Mapped(m, StandardChar) == t;
  }

  /** Every token reads back as the bytes it was made of. */
  lemma DecodeEncode(b: seq<Byte>)
    ensures Decode(Encode(b)) == Some(b)
  {
    hide Encode, Lenient, Mapped, Base64.Encode;
    TokenIs(b);
    LenientBack(b);
  }
}
