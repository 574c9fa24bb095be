/** Base58 (multibase base58btc) and did:key. */
module Base58 {
  import opened Basics
  import opened Numerals

  const ALPHABET := "123456789" + "ABCDEFGH" + "JKLMN" + "PQRSTUVWXYZ" + "abcdefghijk" + "mnopqrstuvwxyz"

  /** The alphabet by ranges: it skips 0, I, O and l. */
  function CharOf(d: nat): char
    requires d < 58
  {
    if d < 9 then (d + 49) as char
    else if d < 17 then (d - 9 + 65) as char
    else if d < 22 then (d - 17 + 74) as char
    else if d < 33 then (d - 22 + 80) as char
    else if d < 44 then (d - 33 + 97) as char
    else (d - 44 + 109) as char
  }

  lemma AlphabetByRanges(d: nat)
    requires d < 58
    ensures |ALPHABET| == 58 && ALPHABET[d] == CharOf(d)
  {
  }

  /** Where the alphabet holds c; None where find answers -1. */
  function IndexOf(c: char): (i: Option<nat>)
    ensures i.Some? ==> i.value < 58 && CharOf(i.value) == c
    ensures i.None? ==> forall d: nat | d < 58 :: CharOf(d) != c
  {
    if '1' <= c <= '9' then Some(c as int - '1' as int)
    else if 'A' <= c <= 'H' then Some(c as int - 'A' as int + 9)
    else if 'J' <= c <= 'N' then Some(c as int - 'J' as int + 17)
    else if 'P' <= c <= 'Z' then Some(c as int - 'P' as int + 22)
    else if 'a' <= c <= 'k' then Some(c as int - 'a' as int + 33)
    else if 'm' <= c <= 'z' then Some(c as int - 'm' as int + 44)
    else None
  }

  lemma IndexOfChar(d: nat)
    requires d < 58
    ensures IndexOf(CharOf(d)) == Some(d)
  {
  }

  // ---- texts and digits ----

  predicate IsText(t: string) {
    forall c | c in t :: IndexOf(c).Some?
  }

  function Text(ds: Digits): (t: string)
    requires InBase(ds, 58)
    ensures |t| == |ds| && forall i | 0 <= i < |ds| :: ds[i] < 58 && t[i] == CharOf(ds[i])
  {
    assert forall i | 0 <= i < |ds| :: ds[i] in ds;
    seq(|ds|, i requires 0 <= i < |ds| => CharOf(ds[i]))
  }

  function DigitsOf(t: string): (ds: Digits)
    requires IsText(t)
    ensures |ds| == |t| && forall i | 0 <= i < |t| :: IndexOf(t[i]) == Some(ds[i])
  {
    seq(|t|, i requires 0 <= i < |t| => IndexOf(t[i]).value)
  }

  lemma TextBack(ds: Digits)
    requires InBase(ds, 58)
    ensures IsText(Text(ds)) && DigitsOf(Text(ds)) == ds
  {
    forall i | 0 <= i < |ds| ensures IndexOf(Text(ds)[i]) == Some(ds[i]) {
      assert ds[i] in ds;
      IndexOfChar(ds[i]);
    }
  }

  lemma DigitsBack(t: string)
    requires IsText(t)
    ensures InBase(DigitsOf(t), 58) && Text(DigitsOf(t)) == t
  {
  }

  // ---- the codec ----

  /** A numeral in base from rewritten in base to; each leading zero stays one leading zero. */
  function Rebase(ds: Digits, from: nat, to: nat): Digits
    requires to >= 2
  {
    Zeros(LeadingCount(ds)) + ToDigits(FromDigits(ds, from), to)
  }

  lemma RebaseShape(ds: Digits, from: nat, to: nat)
    requires to >= 2
    ensures InBase(Rebase(ds, from, to), to)
  {
    ToDigitsShape(FromDigits(ds, from), to);
  }

  /** Rewriting there and back gives the numeral itself, leading zeros included. */
  lemma RebaseBack(ds: Digits, from: nat, to: nat)
    requires from >= 2 && to >= 2 && InBase(ds, from)
    ensures Rebase(Rebase(ds, from, to), to, from) == ds
  {
    var k := LeadingCount(ds);
    var body := ds[k..];
    var n := FromDigits(ds, from);
    SplitLeading(ds);
    LeadingZeros(k, body, from);
    assert forall d | d in body :: d in ds;
    FromDigitsBack(body, from);
    ToDigitsShape(n, to);
    LeadingZeros(k, ToDigits(n, to), to);
    LeadingOf(k, ToDigits(n, to));
  }

  function Encoded(data: seq<Byte>): string {
    RebaseShape(data, 256, 58);
    Text(Rebase(data, 256, 58))
  }

  function AsBytes(ds: Digits): (b: seq<Byte>)
    requires InBase(ds, 256)
    ensures b == ds
  {
    assert forall i | 0 <= i < |ds| :: ds[i] in ds;
    seq<Byte>(|ds|, i requires 0 <= i < |ds| => ds[i])
  }

  /** None where the source raises ValueError. */
  function Decoded(text: string): Option<seq<Byte>> {
    if !IsText(text) then None else
      RebaseShape(DigitsOf(text), 58, 256);
      Some(AsBytes(Rebase(DigitsOf(text), 58, 256)))
  }

  /** Every byte string, leading zeros included, is recovered from its text. */
  lemma DecodeEncode(data: seq<Byte>)
    ensures Decoded(Encoded(data)) == Some(data)
  {
    RebaseShape(data, 256, 58);
    TextBack(Rebase(data, 256, 58));
    RebaseBack(data, 256, 58);
  }

  /** A text is accepted exactly when it is the encoding of what it decodes to. */
  lemma EncodeDecode(text: string)
    ensures Decoded(text).Some? <==> forall c | c in text :: c in ALPHABET
    ensures Decoded(text).Some? ==> Encoded(Decoded(text).value) == text
  {
    forall c ensures IndexOf(c).Some? <==> c in ALPHABET {
      InAlphabet(c);
    }
    if IsText(text) {
      DigitsBack(text);
      RebaseShape(DigitsOf(text), 58, 256);
      RebaseBack(DigitsOf(text), 58, 256);
    }
  }

  lemma InAlphabet(c: char)
    ensures IndexOf(c).Some? <==> c in ALPHABET
  {
    if IndexOf(c).Some? {
      AlphabetByRanges(IndexOf(c).value);
    }
    forall d: nat | d < 58 ensures ALPHABET[d] == CharOf(d) {
      AlphabetByRanges(d);
    }
  }

  lemma TextSnoc(d: nat, ds: Digits)
    requires d < 58 && InBase([d] + ds, 58)
    ensures InBase(ds, 58) && Text([d] + ds) == [CharOf(d)] + Text(ds)
  {
    assert forall e | e in ds :: e in [d] + ds;
  }

  /** The digits loop of base58_encode. */
  method EncodeNumber(value: nat) returns (out: string, ghost ds: Digits)
    ensures ds == ToDigits(value, 58) && InBase(ds, 58) && out == Text(ds)
  {
    hide ToDigits, FromDigits, CharOf;
    var number := value;
    ghost var whole := ToDigits(value, 58);
    ToDigitsShape(value, 58);
    out, ds := "", [];
    assert whole == whole + ds;
    while number > 0
      invariant whole == ToDigits(number, 58) + ds
      invariant InBase(ds, 58) && out == Text(ds)
      decreases number
    {
      LastDigit(number, ds, 58);
      var remainder := number % 58;
      TextSnoc(remainder, ds);
      out, ds, number := [CharOf(remainder)] + out, [remainder] + ds, number / 58;
    }
    LastDigit(0, ds, 58);
  }

  lemma OneMore(i: nat, ds: Digits)
    requires InBase(Zeros(i) + ds, 58)
    ensures InBase(Zeros(i + 1) + ds, 58) && Text(Zeros(i + 1) + ds) == "1" + Text(Zeros(i) + ds)
  {
    AlphabetByRanges(0);
    var more := Zeros(i + 1) + ds;
    assert more == [0] + (Zeros(i) + ds);
    assert forall d | d in more :: d == 0 || d in Zeros(i) + ds;
    TextSnoc(0, Zeros(i) + ds);
  }

  /** The loop of base58_encode that writes a 1 for each leading zero byte. */
  method EncodeZeros(data: seq<Byte>, body: string, ghost ds: Digits) returns (out: string)
    requires InBase(ds, 58) && body == Text(ds)
    ensures InBase(Zeros(LeadingCount(data)) + ds, 58) && out == Text(Zeros(LeadingCount(data)) + ds)
  {
    hide CharOf, InBase, Zeros;
    out := body;
    assert Zeros(0) + ds == ds by { NoZeros(ds); }
    var i := 0;
    while i < |data| && data[i] == 0
      invariant i <= LeadingCount(data)
      invariant InBase(Zeros(i) + ds, 58) && out == Text(Zeros(i) + ds)
    {
      OneMore(i, ds);
      out := "1" + out;
      i := i + 1;
    }
  }

  /** base58_encode. */
  method Encode(data: seq<Byte>) returns (out: string)
    ensures out == Encoded(data)
  {
    hide FromDigits, ToDigits, CharOf;
    var number: nat := 0;
    EmptyNumber(256);
    for i := 0 to |data|
      invariant number == FromDigits(data[..i], 256)
    {
      assert data[..i + 1] == data[..i] + [data[i]];
      FromDigitsSnoc(data[..i], data[i], 256);
      number := number * 256 + data[i];
    }
    assert data[..|data|] == data;
    ghost var whole;
    out, whole := EncodeNumber(number);
    out := EncodeZeros(data, out, whole);
  }

  /** base58_decode; None where it raises. */
  method Decode(text: string) returns (data: Option<seq<Byte>>)
    ensures data == Decoded(text)
  {
    hide FromDigits, ToDigits, CharOf;
    var number: nat := 0;
    var leading := 0;
    EmptyNumber(58);
    for i := 0 to |text|
      invariant IsText(text[..i])
      invariant number == FromDigits(DigitsOf(text[..i]), 58)
    {
      var index := IndexOf(text[i]);
      if index.None? {
        assert text[i] in text;
        return None;
      }
      assert text[..i + 1] == text[..i] + [text[i]];
      assert DigitsOf(text[..i + 1]) == DigitsOf(text[..i]) + [index.value];
      FromDigitsSnoc(DigitsOf(text[..i]), index.value, 58);
      number := number * 58 + index.value;
    }
    assert text[..|text|] == text;
    while leading < |text| && text[leading] == '1'
      invariant leading <= LeadingCount(DigitsOf(text))
    {
      assert DigitsOf(text)[leading] == 0;
      leading := leading + 1;
    }
    assert leading < |text| ==> DigitsOf(text)[leading] != 0 by { AlphabetByRanges(0); }
    ToDigitsShape(number, 256);
    RebaseShape(DigitsOf(text), 58, 256);
    data := Some(AsBytes(Zeros(leading) + ToDigits(number, 256)));
  }

  // ---- did:key ----

  const HEAD := "did:key:z"

  function PrefixOf(curve: string): Option<seq<Byte>> {
    if curve == "Curve25519" then Some([0xed, 0x01])
    else if curve == "secp256k1" then Some([0xe7, 0x01])
    else if curve == "P256" then Some([0x80, 0x24])
    else None
  }

  /** did_key; None where it raises missingPublicKey. */
  function DidKey(curve: string, key: seq<Byte>): Option<string> {
    match PrefixOf(curve)
    case None => None
    case Some(prefix) => Some(HEAD + Encoded(prefix + key))
  }

  /** The first curve whose prefix the bytes carry, and the rest of them. */
  function CurveOf(bytes: seq<Byte>): Option<(string, seq<Byte>)> {
    if [0xed, 0x01] <= bytes then Some(("Curve25519", bytes[2..]))
    else if [0xe7, 0x01] <= bytes then Some(("secp256k1", bytes[2..]))
    else if [0x80, 0x24] <= bytes then Some(("P256", bytes[2..]))
    else None
  }

  /** public_key_from_did_key; None where it raises ValueError. */
  function FromDidKey(did: string): Option<(string, seq<Byte>)> {
    if !(HEAD <= did) then None else
      match Decoded(did[|HEAD|..])
      case None => None
      case Some(bytes) => CurveOf(bytes)
  }

  /** A did:key is the text of the curve's prefix and the key; other curves have none. */
  lemma DidKeySays(curve: string, key: seq<Byte>)
    ensures DidKey("Curve25519", key) == Some("did:key:z" + Encoded([0xed, 0x01] + key))
    ensures DidKey("secp256k1", key) == Some("did:key:z" + Encoded([0xe7, 0x01] + key))
    ensures DidKey("P256", key) == Some("did:key:z" + Encoded([0x80, 0x24] + key))
    ensures DidKey(curve, key).Some? <==> curve == "Curve25519" || curve == "secp256k1" || curve == "P256"
  {
    hide Encoded;
  }

  lemma CurveOfPrefix(curve: string, key: seq<Byte>)
    requires PrefixOf(curve).Some?
    ensures CurveOf(PrefixOf(curve).value + key) == Some((curve, key))
  {
    var bytes := PrefixOf(curve).value + key;
    assert bytes[0] == PrefixOf(curve).value[0] && bytes[2..] == key;
  }

  lemma PrefixOfCurve(bytes: seq<Byte>)
    requires CurveOf(bytes).Some?
    ensures var (curve, key) := CurveOf(bytes).value;
      PrefixOf(curve).Some? && PrefixOf(curve).value + key == bytes
  {
    assert bytes == bytes[..2] + bytes[2..];
  }

  /** A did names exactly one curve and key: reading inverts writing. */
  lemma DidKeyBack(curve: string, key: seq<Byte>)
    requires PrefixOf(curve).Some?
    ensures FromDidKey(DidKey(curve, key).value) == Some((curve, key))
  {
    hide PrefixOf, CurveOf, Encoded, Decoded;
    var bytes := PrefixOf(curve).value + key;
    DecodeEncode(bytes);
    CurveOfPrefix(curve, key);
    assert (HEAD + Encoded(bytes))[|HEAD|..] == Encoded(bytes);
  }

  /** What reading accepts is the did of what it answers. */
  lemma DidKeyOnly(did: string)
    requires FromDidKey(did).Some?
    ensures DidKey(FromDidKey(did).value.0, FromDidKey(did).value.1) == Some(did)
  {
    hide PrefixOf, CurveOf, Encoded, Decoded;
    var text := did[|HEAD|..];
    EncodeDecode(text);
    PrefixOfCurve(Decoded(text).value);
    assert did == HEAD + text;
  }
}
