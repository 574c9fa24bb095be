/** The frames of the bridge channel: bounded, canonical, and an object inside. */
module Envelopes {
  import opened Basics
  import opened Json
  import opened Canonical
  import KeyOrder
  import Utf8

  const MAX_BYTES := 16384

  const AUTH_COMMANDS := {"channelAuthHello", "channelAuthChallenge", "channelAuthProof", "channelAuthAccepted"}

  function Encode(v: Json): string {
    CanonicalJson(v, KeyOrder.Encoder, false)
  }

  /** The members of the one object a frame holds; None where the source raises. */
  function Decode(text: string): Option<seq<Member>> {
    if Utf8.Size(text) > MAX_BYTES then None else
      match Parse(text)
      case Some(Obj(ms)) => if Encode(Obj(ms)) == text then Some(ms) else None
      case _ => None
  }

  // ---- what a reader returns is a dict ----

  lemma PutDistinct(ms: seq<Member>, k: string, v: Json)
    requires IsDict(Obj(ms)) && IsDict(v)
    ensures IsDict(Obj(Put(ms, k, v)))
  {
    var r := Put(ms, k, v);
    if k in KeysOf(ms) {
      assert KeysOf(r) == KeysOf(ms);
    } else {
      assert KeysOf(r) == KeysOf(ms) + [k];
    }
  }

  lemma {:induction false} ParseValueDict(s: string)
    ensures ParseValue(s).Got? ==> IsDict(ParseValue(s).value)
    decreases |s|, 0
  {
    hide ParseItems, ParseMembers, ParseNumber, ParseString;
    var t := SkipSpace(s);
    if t != [] && t[0] == '{' {
      ParseMembersDict(t[1..], []);
    } else if t != [] && t[0] == '[' {
      ParseItemsDict(t[1..], []);
    } else {
      NumberDict(t);
    }
  }

  lemma NumberDict(t: string)
    ensures ParseNumber(t).Got? ==> IsDict(ParseNumber(t).value)
  {
  }

  lemma {:induction false} ParseItemsDict(s: string, acc: seq<Json>)
    requires forall x | x in acc :: IsDict(x)
    ensures ParseItems(s, acc).Got? ==> IsDict(ParseItems(s, acc).value)
    decreases |s|, 1
  {
    hide ParseValue;
    ParseValueDict(s);
    var v := ParseValue(s);
    if v.Got? {
      var t := SkipSpace(v.rest);
      if t != [] && t[0] == ',' {
        ParseItemsDict(t[1..], acc + [v.value]);
      }
    }
  }

  lemma {:induction false} ParseMembersDict(s: string, acc: seq<Member>)
    requires IsDict(Obj(acc))
    ensures ParseMembers(s, acc).Got? ==> IsDict(ParseMembers(s, acc).value)
    decreases |s|, 1
  {
    hide ParseValue, ParseString, IsDict, Put;
    var t := SkipSpace(s);
    if t != [] && t[0] == '"' {
      var k := ParseString(t[1..], []);
      if k.Got? {
        var u := SkipSpace(k.rest);
        if u != [] && u[0] == ':' {
          ParseValueDict(u[1..]);
          var v := ParseValue(u[1..]);
          if v.Got? {
            PutDistinct(acc, k.value, v.value);
            var w := SkipSpace(v.rest);
            if w != [] && w[0] == ',' {
              ParseMembersDict(w[1..], Put(acc, k.value, v.value));
            }
          }
        }
      }
    }
  }

  // ---- the codec accepts exactly its own bounded output ----

  lemma EncodeSorted(ms: seq<Member>)
    requires IsDict(Obj(ms))
    ensures Encode(Sorted(Obj(ms), KeyOrder.Encoder)) == Encode(Obj(ms))
  {
    SortedSame(Obj(ms), KeyOrder.Encoder);
    CanonicalInjective(Obj(ms), Sorted(Obj(ms), KeyOrder.Encoder), KeyOrder.Encoder, false);
  }

  /** What was encoded is read back, members in code-point order, if it is not too long. */
  lemma DecodeEncode(ms: seq<Member>)
    requires IsDict(Obj(ms))
    ensures var text := Encode(Obj(ms));
      Decode(text) == if Utf8.Size(text) <= MAX_BYTES then Some(Sorted(Obj(ms), KeyOrder.Encoder).members) else None
  {
    hide CanonicalJson, Parse, Utf8.Size;
    ParseCanonical(Obj(ms), KeyOrder.Encoder, false);
    EncodeSorted(ms);
  }

  /** Strictness: a frame is accepted exactly when it is the bounded encoding of an object. */
  lemma DecodeExact(text: string)
    ensures Decode(text).Some?
       <==> Utf8.Size(text) <= 16384 && exists ms :: IsDict(Obj(ms)) && Encode(Obj(ms)) == text
    ensures Decode(text).Some? ==> IsDict(Obj(Decode(text).value)) && Encode(Obj(Decode(text).value)) == text
  {
    ParseValueDict(text);
    if Decode(text).Some? {
      assert IsDict(Obj(Decode(text).value)) && Encode(Obj(Decode(text).value)) == text;
    }
    if exists ms :: IsDict(Obj(ms)) && Encode(Obj(ms)) == text {
      var ms :| IsDict(Obj(ms)) && Encode(Obj(ms)) == text;
      DecodeEncode(ms);
    }
  }

  // ---- objects with a fixed set of fields ----

  function Fields(ks: seq<string>, vs: seq<Json>): (ms: seq<Member>)
    requires |ks| == |vs|
    ensures |ms| == |ks| && forall i | 0 <= i < |ks| :: ms[i] == Member(ks[i], vs[i])
  {
    seq(|ks|, i requires 0 <= i < |ks| => Member(ks[i], vs[i]))
  }

  predicate ExactKeys(ms: seq<Member>, ks: seq<string>) {
    (forall k | k in KeysOf(ms) :: k in ks) && (forall k | k in ks :: k in KeysOf(ms))
  }

  /** _exact_keys, then the value of each key; None where the source raises malformed. */
  function ReadFields(v: Json, ks: seq<string>): (r: Option<seq<Json>>)
    ensures r.Some? ==> |r.value| == |ks|
  {
    if v.Obj? && ExactKeys(v.members, ks) then
      Some(seq(|ks|, i requires 0 <= i < |ks| => v.members[IndexOf(v.members, ks[i])].value))
    else None
  }

  lemma Scalars(vs: seq<Json>)
    ensures forall v | v in vs && !v.Arr? && !v.Obj? :: IsDict(v) && Sorted(v, KeyOrder.Encoder) == v
  {
  }

  /** Fields that were written are read back. */
  lemma FieldsBack(ks: seq<string>, vs: seq<Json>)
    requires |ks| == |vs| && Distinct(ks) && forall v | v in vs :: IsDict(v)
    ensures IsDict(Obj(Fields(ks, vs)))
    ensures var r := ReadFields(Sorted(Obj(Fields(ks, vs)), KeyOrder.Encoder), ks);
      r.Some? && forall i | 0 <= i < |ks| :: r.value[i] == Sorted(vs[i], KeyOrder.Encoder)
  {
    hide Sorted, IndexOf, KeyOrder.SortKeys, KeyOrder.Ascending;
    var ms := Fields(ks, vs);
    assert KeysOf(ms) == ks;
    forall m | m in ms ensures IsDict(m.value) {
      assert m.value in vs;
    }
    var sorted := Sorted(Obj(ms), KeyOrder.Encoder);
    SortedMembers(ms, KeyOrder.Encoder);
    SortedIsObj(ms, KeyOrder.Encoder);
    forall i | 0 <= i < |ks|
      ensures sorted.Obj? && ks[i] in KeysOf(sorted.members)
      ensures sorted.members[IndexOf(sorted.members, ks[i])].value == Sorted(vs[i], KeyOrder.Encoder)
    {
      IndexOfUnique(ms, i);
    }
  }

  // ---- the auth envelope ----

  const ENVELOPE := ["&string", "cid", "cmd"]

  lemma EnvelopeKeys()
    ensures Distinct(ENVELOPE)
  {
  }

  function EnvelopeOf(name: string, body: seq<Member>): Json {
    Obj(Fields(ENVELOPE, [Str(Encode(Obj(body))), Num(0), Str(name)]))
  }

  function Envelope(name: string, body: seq<Member>): string {
    Encode(EnvelopeOf(name, body))
  }

  /** open_envelope: the command and its body; None where it raises malformed. */
  function OpenEnvelope(text: string): Option<(string, seq<Member>)> {
    match Decode(text)
    case None => None
    case Some(ms) =>
      match ReadFields(Obj(ms), ENVELOPE)
      case None => None
      case Some(f) =>
        if f[1] != Num(0) || !f[2].Str? || f[2].s !in AUTH_COMMANDS || !f[0].Str? then None else
          match Decode(f[0].s)
          case None => None
          case Some(body) => Some((f[2].s, body))
  }

  predicate Fits(name: string, body: seq<Member>) {
    Utf8.Size(Encode(Obj(body))) <= MAX_BYTES && Utf8.Size(Envelope(name, body)) <= MAX_BYTES
  }

  /** Opening an envelope gives back its command and body, exactly when both fit. */
  lemma OpenEnvelopeBack(name: string, body: seq<Member>)
    requires name in AUTH_COMMANDS && IsDict(Obj(body))
    ensures OpenEnvelope(Envelope(name, body))
         == if Fits(name, body) then Some((name, Sorted(Obj(body), KeyOrder.Encoder).members)) else None
  {
    EnvelopeKeys();
    var vs := [Str(Encode(Obj(body))), Num(0), Str(name)];
    FieldsBack(ENVELOPE, vs);
    DecodeEncode(Fields(ENVELOPE, vs));
    DecodeEncode(body);
    hide Decode, ReadFields, Encode, IsDict, Fields, Utf8.Size;
    var r := ReadFields(Sorted(EnvelopeOf(name, body), KeyOrder.Encoder), ENVELOPE).value;
    assert r[0] == vs[0] && r[1] == vs[1] && r[2] == vs[2];
  }

  lemma EnvelopeOnly(ms: seq<Member>, text: string, name: string)
    requires IsDict(Obj(ms)) && ReadFields(Obj(ms), ENVELOPE) == Some([Str(text), Num(0), Str(name)])
    ensures SameValue(Obj(ms), Obj(Fields(ENVELOPE, [Str(text), Num(0), Str(name)])))
  {
    var vs := [Str(text), Num(0), Str(name)];
    var ns := Fields(ENVELOPE, vs);
    EnvelopeKeys();
    assert KeysOf(ns) == ENVELOPE;
    forall m | m in ms ensures m.key in KeysOf(ns) && SameValue(m.value, ns[IndexOf(ns, m.key)].value) {
      var j :| 0 <= j < |ms| && ms[j] == m;
      IndexOfUnique(ms, j);
      var i :| 0 <= i < 3 && ENVELOPE[i] == m.key;
      IndexOfUnique(ns, i);
      assert vs[i] == ms[IndexOf(ms, ENVELOPE[i])].value;
    }
  }

  /** An opened frame is the envelope of what it opened to. */
  lemma OpenEnvelopeOnly(text: string)
    requires OpenEnvelope(text).Some?
    ensures var content := OpenEnvelope(text).value;
      && content.0 in AUTH_COMMANDS && IsDict(Obj(content.1))
      && text == Envelope(content.0, content.1) && Fits(content.0, content.1)
  {
    hide CanonicalJson, Parse, Utf8.Size, Fields, ReadFields, IsDict, SameValue;
    var ms := Decode(text).value;
    var f := ReadFields(Obj(ms), ENVELOPE).value;
    DecodeExact(text);
    DecodeExact(f[0].s);
    assert f == [Str(f[0].s), Num(0), Str(f[2].s)];
    EnvelopeOnly(ms, f[0].s, f[2].s);
    var vs := [Str(f[0].s), Num(0), Str(f[2].s)];
    EnvelopeKeys();
    ScalarDicts(vs);
    FieldsBack(ENVELOPE, vs);
    CanonicalInjective(Obj(ms), Obj(Fields(ENVELOPE, vs)), KeyOrder.Encoder, false);
  }

  lemma ScalarDicts(vs: seq<Json>)
    requires forall v | v in vs :: !v.Arr? && !v.Obj?
    ensures forall v | v in vs :: IsDict(v)
  {
  }

  /** The text of a command and its body: a body as text, the cid 0 and the command, all of it and
      the body within 16384 bytes. */
  ghost predicate Frames(text: string, name: string, body: seq<Member>) {
    && (name == "channelAuthHello" || name == "channelAuthChallenge" || name == "channelAuthProof"
        || name == "channelAuthAccepted")
    && IsDict(Obj(body)) && Utf8.Size(text) <= 16384 && Utf8.Size(Encode(Obj(body))) <= 16384
    && text == Encode(Obj([
         Member("&string", Str(Encode(Obj(body)))), Member("cid", Num(0)), Member("cmd", Str(name))]))
  }

  lemma FramesExactly(text: string, name: string, body: seq<Member>)
    ensures Frames(text, name, body) <==>
      name in AUTH_COMMANDS && IsDict(Obj(body)) && Fits(name, body) && text == Envelope(name, body)
  {
    hide IsDict, Encode, Utf8.Size;
    assert Fields(ENVELOPE, [Str(Encode(Obj(body))), Num(0), Str(name)])
      == [Member("&string", Str(Encode(Obj(body)))), Member("cid", Num(0)), Member("cmd", Str(name))];
  }

  /** open_envelope accepts exactly such texts. */
  lemma OpensExactly(text: string)
    ensures OpenEnvelope(text).Some? <==> exists name, body :: Frames(text, name, body)
    ensures forall name, body | Frames(text, name, body) ::
      OpenEnvelope(text) == Some((name, Sorted(Obj(body), KeyOrder.Encoder).members))
  {
    hide OpenEnvelope, Envelope, Fits, IsDict, Frames;
    if OpenEnvelope(text).Some? {
      OpenEnvelopeOnly(text);
      FramesExactly(text, OpenEnvelope(text).value.0, OpenEnvelope(text).value.1);
    }
    forall name, body | Frames(text, name, body)
      ensures OpenEnvelope(text) == Some((name, Sorted(Obj(body), KeyOrder.Encoder).members))
    {
      FramesExactly(text, name, body);
      OpenEnvelopeBack(name, body);
    }
  }
}
