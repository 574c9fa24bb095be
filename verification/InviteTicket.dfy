/** The invitation ticket, which leaves defaults out and carries nested models. */
module InviteTicket {
  import opened Basics
  import opened Json
  import opened Canonical
  import opened Wire
  import Base64Url
  import KeyOrder
  import LinkModels
  import Utf8

  const HAVEN_PROOF := [
    Required("ty", KStr), Required("by", KStr), Required("al", KStr), Required("cv", KStr), Optional("sg", KBytes)]

  const BASIS := [Required("k", KStr), Required("v", KStr), Optional("o", KStr)]

  const TICKET_PEOPLE := [
    Defaulted("v", KInt, VInt(1), false), Required("t", KStr), Required("is", KModel(LinkModels.DESCRIPTOR)),
    Required("n", KStr), Optional("ce", KStr), Optional("er", KStr), Required("au", KStr),
    Defaulted("ak", KStr, VStr("email"), false), Required("hc", KStr), Optional("gn", KStr), Optional("no", KStr),
    Optional("id", KStr)]

  const TICKET_TERMS := [
    Defaulted("bs", KModels(BASIS), VModels([]), true), Required("ca", KInt), Required("ea", KInt),
    Defaulted("nc", KBytes, VBytes([]), true),
    Defaulted("cp", KStrs, VStrs(["create_own_entity", "send_contact_request_to_issuer"]), true),
    Optional("pf", KModel(HAVEN_PROOF))]

  const TICKET := TICKET_PEOPLE + TICKET_TERMS

  const TICKET_KEYS := [
    "v", "t", "is", "n", "ce", "er", "au", "ak", "hc", "gn", "no", "id", "bs", "ca", "ea", "nc", "cp", "pf"]

  lemma KeysApart()
    ensures |TICKET_KEYS| == 18 && Distinct(TICKET_KEYS)
  {
  }

  lemma PeopleKeys(i: nat)
    requires i < 12
    ensures |TICKET_PEOPLE| == 12 && TICKET_PEOPLE[i].key == TICKET_KEYS[i]
  {
  }

  lemma TermsKeys(i: nat)
    requires i < 6
    ensures |TICKET_TERMS| == 6 && TICKET_TERMS[i].key == TICKET_KEYS[i + 12]
  {
  }

  lemma TicketKeys()
    ensures |TICKET| == |TICKET_KEYS| && Distinct(TICKET_KEYS)
    ensures forall i | 0 <= i < |TICKET| :: TICKET[i].key == TICKET_KEYS[i]
  {
    KeysApart();
    PeopleKeys(0);
    TermsKeys(0);
    forall i | 0 <= i < |TICKET| ensures TICKET[i].key == TICKET_KEYS[i] {
      if i < 12 { PeopleKeys(i); } else { TermsKeys(i - 12); }
    }
  }

  lemma TicketDefaults()
    ensures forall i | 0 <= i < |TICKET| :: TICKET[i].omit ==> !TICKET[i].optional && TICKET[i].default.Some?
  {
    assert forall i | 0 <= i < |TICKET_PEOPLE| :: !TICKET_PEOPLE[i].omit;
  }

  lemma NestedHaveNoRaw()
    ensures NoRaw(KModel(LinkModels.DESCRIPTOR)) && NoRaw(KModel(HAVEN_PROOF)) && NoRaw(KModels(BASIS))
  {
    hide NoRaw;
    LinkModels.PartsNoRaw();
    LinkModels.PlainNoRaw();
    LinkModels.RawFreeModel(HAVEN_PROOF);
    BasisHasNoRaw();
  }

  lemma BasisHasNoRaw()
    ensures NoRaw(KModels(BASIS))
  {
    LinkModels.PlainNoRaw();
  }

  lemma PeopleHaveNoRaw(i: nat)
    requires i < |TICKET_PEOPLE|
    ensures NoRaw(TICKET_PEOPLE[i].kind)
  {
    hide NoRaw;
    NestedHaveNoRaw();
    LinkModels.PlainNoRaw();
    assert i == 2 || TICKET_PEOPLE[i].kind.KStr? || TICKET_PEOPLE[i].kind.KInt?;
  }

  lemma TermsHaveNoRaw(i: nat)
    requires i < |TICKET_TERMS|
    ensures NoRaw(TICKET_TERMS[i].kind)
  {
    hide NoRaw;
    NestedHaveNoRaw();
    LinkModels.PlainNoRaw();
    var k := TICKET_TERMS[i].kind;
    assert i == 0 || i == 5 || k.KInt? || k.KBytes? || k.KStrs?;
  }

  lemma TicketHasNoRaw()
    ensures NoRaw(KModel(TICKET))
  {
    hide NoRaw;
    forall i | 0 <= i < |TICKET| ensures NoRaw(TICKET[i].kind) {
      if i < |TICKET_PEOPLE| {
        PeopleHaveNoRaw(i);
      } else {
        TermsHaveNoRaw(i - |TICKET_PEOPLE|);
      }
    }
    LinkModels.RawFreeModel(TICKET);
  }

  /** A ticket survives its text, with defaults left out or written, proof and all. */
  lemma TicketBack(fs: seq<Option<Value>>)
    requires |fs| == |TICKET| && forall i | 0 <= i < |TICKET| :: TypedField(TICKET[i], fs[i])
    ensures ToWire(TICKET, fs).Some?
    ensures var text := CanonicalJson(Obj(ToWire(TICKET, fs).value), KeyOrder.Encoder, true);
      Parse(text).Some? && Parse(text).value.Obj? && FromWire(TICKET, Parse(text).value.members) == Some(fs)
  {
    hide Parse, CanonicalJson, ToWire, FromWire, NoRaw;
    TicketKeys();
    TicketDefaults();
    TicketHasNoRaw();
    TextBack(TICKET, fs, KeyOrder.Encoder, true);
  }

  // ---- the long link ----

  /** to_token; None where to_wire raises. */
  function ToToken(fs: seq<Option<Value>>): Option<string> {
    var ms := ToWire(TICKET, fs);
    if ms.None? then None
    else Some(Base64Url.Encode(Utf8.Encode(CanonicalJson(Obj(ms.value), KeyOrder.Encoder, true))))
  }

  /** The object in a token; None where it is malformed. */
  function TokenWire(token: string): Option<seq<Member>> {
    var bytes := Base64Url.Decode(token);
    if bytes.None? then None else
      var text := Utf8.Decode(bytes.value);
      if text.None? then None else
        match Parse(text.value)
        case Some(Obj(ms)) => Some(ms)
        case _ => None
  }

  /** from_token: a ticket, and of the one supported version. */
  function FromToken(token: string): Option<seq<Option<Value>>> {
    var ms := TokenWire(token);
    if ms.None? then None else
      var fs := FromWire(TICKET, ms.value);
      if fs.Some? && fs.value != [] && fs.value[0] == Some(VInt(1)) then fs else None
  }

  /** A typed ticket always has a token, and the token is read as that very ticket exactly if
      its version is 1, and else refused. */
  lemma TokenBack(fs: seq<Option<Value>>)
    requires |fs| == |TICKET| && forall i | 0 <= i < |TICKET| :: TypedField(TICKET[i], fs[i])
    ensures ToToken(fs).Some?
    ensures FromToken(ToToken(fs).value) == if fs[0] == Some(VInt(1)) then Some(fs) else None
  {
    hide Parse, CanonicalJson, ToWire, FromWire, Base64Url.Encode, Base64Url.Decode, Utf8.Encode, Utf8.Decode,
      TypedField;
    TicketBack(fs);
    var text := CanonicalJson(Obj(ToWire(TICKET, fs).value), KeyOrder.Encoder, true);
    Base64Url.DecodeEncode(Utf8.Encode(text));
    Utf8.DecodeEncode(text);
  }
}
