/** What an enrollment request and its approval say on the wire and in the text that is signed:
    every field below its own key, and the keys in order. */
module SignedText {
  import opened Basics
  import opened Json
  import opened Canonical
  import opened Wire
  import opened LinkModels
  import opened Enrollment
  import KeyOrder
  import Base64

  function ValueAt(ms: seq<Member>, k: string): Option<Json> {
    if k in KeysOf(ms) then Some(ms[IndexOf(ms, k)].value) else None
  }

  ghost predicate Apart(specs: seq<Spec>) {
    forall i, j | 0 <= i < j < |specs| :: specs[i].key != specs[j].key
  }

  /** A field that is written stands below its own key, and nothing does for an absent one. */
  lemma {:induction false} FieldWritten(specs: seq<Spec>, fs: seq<Option<Value>>, i: nat)
    requires ToWire(specs, fs).Some? && Apart(specs) && i < |specs|
    ensures var ms := ToWire(specs, fs).value;
      && i < |fs|
      && (Absent(specs[i], fs[i]) ==> specs[i].key !in KeysOf(ms))
      && (!Absent(specs[i], fs[i]) ==>
            Written(specs[i], fs[i]).Some? && ValueAt(ms, specs[i].key) == Some(Written(specs[i], fs[i]).value))
    decreases |fs|
  {
    hide ToWire, Written, Absent;
    WireStep(specs, fs);
    OthersKeys(specs, fs);
    var rest := ToWire(specs[1..], fs[1..]).value;
    if i > 0 { FieldWritten(specs[1..], fs[1..], i - 1); }
    if !Absent(specs[0], fs[0]) {
      ValueAtCons(Member(specs[0].key, Written(specs[0], fs[0]).value), rest, specs[i].key);
    }
  }

  lemma WireStep(specs: seq<Spec>, fs: seq<Option<Value>>)
    requires ToWire(specs, fs).Some? && specs != []
    ensures |fs| == |specs| && ToWire(specs[1..], fs[1..]).Some?
    ensures !Absent(specs[0], fs[0]) ==> Written(specs[0], fs[0]).Some?
    ensures var rest := ToWire(specs[1..], fs[1..]).value;
      ToWire(specs, fs).value ==
        if Absent(specs[0], fs[0]) then rest else [Member(specs[0].key, Written(specs[0], fs[0]).value)] + rest
  {
  }

  lemma ValueAtCons(m: Member, ms: seq<Member>, k: string)
    ensures ValueAt([m] + ms, k) == if k == m.key then Some(m.value) else ValueAt(ms, k)
    ensures k in KeysOf([m] + ms) <==> k == m.key || k in KeysOf(ms)
  {
    hide KeysOf, Distinct;
    KeysCons(m, ms);
    var all := [m] + ms;
    assert all[0] == m && all[1..] == ms;
    if k != m.key && k in KeysOf(ms) { assert IndexOf(all, k) == 1 + IndexOf(ms, k); }
  }

  lemma OthersKeys(specs: seq<Spec>, fs: seq<Option<Value>>)
    requires ToWire(specs, fs).Some? && Apart(specs) && specs != []
    ensures specs[0].key !in KeysOf(ToWire(specs[1..], fs[1..]).value) && Apart(specs[1..])
  {
    hide Written;
    var rest := ToWire(specs[1..], fs[1..]).value;
    forall j | 0 <= j < |rest| ensures rest[j].key != specs[0].key {
      MemberFrom(specs[1..], fs[1..], rest[j]);
      var i :| From(specs[1..], fs[1..], i, rest[j]);
    }
  }

  lemma KeptAt(ms: seq<Member>, excluded: set<string>, k: string)
    requires Distinct(KeysOf(ms)) && k !in excluded
    ensures ValueAt(Kept(ms, excluded), k) == ValueAt(ms, k)
  {
    KeptDistinct(ms, excluded);
    if k in KeysOf(ms) {
      var kept, m := Kept(ms, excluded), ms[IndexOf(ms, k)];
      assert m in ms && m in kept;
      var j :| 0 <= j < |kept| && kept[j] == m;
      IndexOfUnique(kept, j);
    }
  }

  /** What is signed of a typed model, field by field; the proof is left out. */
  lemma SignedField(specs: seq<Spec>, fs: Fields, i: nat)
    requires TypedFields(specs, fs) && i < |specs| && specs[i].key != PROOF_KEY
    ensures var ms := SignedMembers(specs, fs, {PROOF_KEY});
      ValueAt(ms, specs[i].key) == if Absent(specs[i], fs[i]) then None else Written(specs[i], fs[i])
    ensures IsDict(Obj(SignedMembers(specs, fs, {PROOF_KEY})))
    ensures PROOF_KEY !in KeysOf(SignedMembers(specs, fs, {PROOF_KEY}))
  {
    hide ToWire, Written, Absent;
    ModelBack(specs, fs);
    FieldWritten(specs, fs, i);
    var ms := ToWire(specs, fs).value;
    KeptAt(ms, {PROOF_KEY}, specs[i].key);
    KeptDistinct(ms, {PROOF_KEY});
  }

  function Texts(ss: seq<string>): Json {
    Arr(StrItems(ss))
  }

  function Maybe(o: Option<string>): Option<Json> {
    if o.Some? then Some(Str(o.value)) else None
  }

  // ---- one field of what is signed, by its kind ----

  lemma TextRow(specs: seq<Spec>, fs: Fields, i: nat, key: string, text: string)
    requires TypedFields(specs, fs) && i < |specs| && specs[i] == Required(key, KStr) && fs[i] == Txt(text)
    requires key != PROOF_KEY
    ensures ValueAt(SignedMembers(specs, fs, {PROOF_KEY}), key) == Some(Str(text))
  {
    hide TypedFields, SignedMembers, ValueAt;
    SignedField(specs, fs, i);
    assert Encode(VStr(text), KStr) == Some(Str(text));
  }

  lemma NumberRow(specs: seq<Spec>, fs: Fields, i: nat, key: string, n: int)
    requires TypedFields(specs, fs) && i < |specs| && specs[i] == Required(key, KInt) && fs[i] == Some(VInt(n))
    requires key != PROOF_KEY
    ensures ValueAt(SignedMembers(specs, fs, {PROOF_KEY}), key) == Some(Num(n))
  {
    hide TypedFields, SignedMembers, ValueAt;
    SignedField(specs, fs, i);
    assert Encode(VInt(n), KInt) == Some(Num(n));
  }

  lemma ListRow(specs: seq<Spec>, fs: Fields, i: nat, key: string, ss: seq<string>)
    requires TypedFields(specs, fs) && i < |specs| && specs[i] == Required(key, KStrs) && fs[i] == List(ss)
    requires key != PROOF_KEY
    ensures ValueAt(SignedMembers(specs, fs, {PROOF_KEY}), key) == Some(Texts(ss))
  {
    hide TypedFields, SignedMembers, ValueAt;
    SignedField(specs, fs, i);
    assert Encode(VStrs(ss), KStrs) == Some(Texts(ss));
  }

  lemma BytesRow(specs: seq<Spec>, fs: Fields, i: nat, key: string, b: Bytes)
    requires TypedFields(specs, fs) && i < |specs| && specs[i] == Required(key, KBytes) && fs[i] == Blob(b)
    requires key != PROOF_KEY
    ensures ValueAt(SignedMembers(specs, fs, {PROOF_KEY}), key) == Some(Str(Base64.Encode(b)))
  {
    hide TypedFields, SignedMembers, ValueAt, Base64.Encode;
    SignedField(specs, fs, i);
    assert Encode(VBytes(b), KBytes) == Some(Str(Base64.Encode(b)));
  }

  lemma MaybeRow(specs: seq<Spec>, fs: Fields, i: nat, key: string, o: Option<string>)
    requires TypedFields(specs, fs) && i < |specs| && specs[i] == Optional(key, KStr) && fs[i] == MaybeTxt(o)
    requires key != PROOF_KEY
    ensures ValueAt(SignedMembers(specs, fs, {PROOF_KEY}), key) == Maybe(o)
  {
    hide TypedFields, SignedMembers, ValueAt;
    SignedField(specs, fs, i);
    if o.Some? { assert Encode(VStr(o.value), KStr) == Some(Str(o.value)); }
  }

  // ---- the request ----

  lemma RequestHalves(r: Request, i: nat)
    ensures |REQUEST| == 16 && |RequestFields(r)| == 16
    ensures i < 8 ==> REQUEST[i] == REQUEST_WHO[i] && RequestFields(r)[i] == RequestWho(r)[i]
    ensures i < 7 ==> REQUEST[8 + i] == REQUEST_WHEN[i] && RequestFields(r)[8 + i] == RequestWhen(r)[i]
  {
  }

  lemma WhoRows(r: Request)
    ensures |REQUEST_WHO| == 8 && |RequestWho(r)| == 8
    ensures REQUEST_WHO[0] == Required("version", KInt) && RequestWho(r)[0] == Some(VInt(r.version))
    ensures REQUEST_WHO[1] == Required("requestID", KStr) && RequestWho(r)[1] == Txt(r.requestId)
    ensures REQUEST_WHO[2] == Required("purpose", KStr) && RequestWho(r)[2] == Txt(r.purpose)
    ensures REQUEST_WHO[5] == Required("requestedDomains", KStrs) && RequestWho(r)[5] == List(r.domains)
    ensures REQUEST_WHO[6] == Required("requestedIdentityContexts", KStrs) && RequestWho(r)[6] == List(r.contexts)
    ensures REQUEST_WHO[7] == Required("requestedScopes", KStrs) && RequestWho(r)[7] == List(r.scopes)
  {
  }

  lemma SaysWho(r: Request)
    requires TypedFields(REQUEST, RequestFields(r))
    ensures var ms := SignedMembers(REQUEST, RequestFields(r), {PROOF_KEY});
      && ValueAt(ms, "version") == Some(Num(r.version)) && ValueAt(ms, "requestID") == Some(Str(r.requestId))
      && ValueAt(ms, "purpose") == Some(Str(r.purpose)) && ValueAt(ms, "requestedDomains") == Some(Texts(r.domains))
      && ValueAt(ms, "requestedIdentityContexts") == Some(Texts(r.contexts))
      && ValueAt(ms, "requestedScopes") == Some(Texts(r.scopes))
  {
    hide TypedFields, SignedMembers, RequestFields, RequestWho, ValueAt, Txt, List, Blob, MaybeTxt, Required, Optional;
    WhoRows(r);
    RequestHalves(r, 0);
    RequestHalves(r, 1);
    RequestHalves(r, 2);
    RequestHalves(r, 5);
    RequestHalves(r, 6);
    RequestHalves(r, 7);
    NumberRow(REQUEST, RequestFields(r), 0, "version", r.version);
    TextRow(REQUEST, RequestFields(r), 1, "requestID", r.requestId);
    TextRow(REQUEST, RequestFields(r), 2, "purpose", r.purpose);
    ListRow(REQUEST, RequestFields(r), 5, "requestedDomains", r.domains);
    ListRow(REQUEST, RequestFields(r), 6, "requestedIdentityContexts", r.contexts);
    ListRow(REQUEST, RequestFields(r), 7, "requestedScopes", r.scopes);
  }

  lemma WhenRows(r: Request)
    ensures |REQUEST_WHEN| == 7 && |RequestWhen(r)| == 7
    ensures REQUEST_WHEN[0] == Required("audience", KStr) && RequestWhen(r)[0] == Txt(r.audience)
    ensures REQUEST_WHEN[1] == Required("origin", KStr) && RequestWhen(r)[1] == Txt(r.origin)
    ensures REQUEST_WHEN[2] == Required("createdAt", KStr) && RequestWhen(r)[2] == Txt(r.createdAt)
    ensures REQUEST_WHEN[3] == Required("expiresAt", KStr) && RequestWhen(r)[3] == Txt(r.expiresAt)
    ensures REQUEST_WHEN[4] == Required("nonce", KBytes) && RequestWhen(r)[4] == Blob(r.nonce)
    ensures REQUEST_WHEN[5] == Optional("platform", KStr) && RequestWhen(r)[5] == MaybeTxt(r.platform)
    ensures REQUEST_WHEN[6] == Optional("deviceLabel", KStr) && RequestWhen(r)[6] == MaybeTxt(r.deviceLabel)
  {
  }

  lemma SaysWhen(r: Request)
    requires TypedFields(REQUEST, RequestFields(r))
    ensures var ms := SignedMembers(REQUEST, RequestFields(r), {PROOF_KEY});
      && ValueAt(ms, "audience") == Some(Str(r.audience)) && ValueAt(ms, "origin") == Some(Str(r.origin))
      && ValueAt(ms, "createdAt") == Some(Str(r.createdAt)) && ValueAt(ms, "expiresAt") == Some(Str(r.expiresAt))
      && ValueAt(ms, "nonce") == Some(Str(Base64.Encode(r.nonce))) && ValueAt(ms, "platform") == Maybe(r.platform)
      && ValueAt(ms, "deviceLabel") == Maybe(r.deviceLabel)
  {
    hide TypedFields, SignedMembers, RequestFields, RequestWhen, ValueAt, Txt, List, Blob, MaybeTxt, Required, Optional;
    WhenRows(r);
    RequestHalves(r, 0);
    RequestHalves(r, 1);
    RequestHalves(r, 2);
    RequestHalves(r, 3);
    RequestHalves(r, 4);
    RequestHalves(r, 5);
    RequestHalves(r, 6);
    TextRow(REQUEST, RequestFields(r), 8, "audience", r.audience);
    TextRow(REQUEST, RequestFields(r), 9, "origin", r.origin);
    TextRow(REQUEST, RequestFields(r), 10, "createdAt", r.createdAt);
    TextRow(REQUEST, RequestFields(r), 11, "expiresAt", r.expiresAt);
    BytesRow(REQUEST, RequestFields(r), 12, "nonce", r.nonce);
    MaybeRow(REQUEST, RequestFields(r), 13, "platform", r.platform);
    MaybeRow(REQUEST, RequestFields(r), 14, "deviceLabel", r.deviceLabel);
  }

  /** The members of a signed request. */
  lemma RequestSays(r: Request)
    ensures var ms := SignedMembers(REQUEST, RequestFields(r), {PROOF_KEY});
      && IsDict(Obj(ms)) && "proof" !in KeysOf(ms)
      && ValueAt(ms, "version") == Some(Num(r.version)) && ValueAt(ms, "requestID") == Some(Str(r.requestId))
      && ValueAt(ms, "purpose") == Some(Str(r.purpose)) && ValueAt(ms, "requestedDomains") == Some(Texts(r.domains))
      && ValueAt(ms, "requestedIdentityContexts") == Some(Texts(r.contexts))
      && ValueAt(ms, "requestedScopes") == Some(Texts(r.scopes)) && ValueAt(ms, "audience") == Some(Str(r.audience))
      && ValueAt(ms, "origin") == Some(Str(r.origin)) && ValueAt(ms, "createdAt") == Some(Str(r.createdAt))
      && ValueAt(ms, "expiresAt") == Some(Str(r.expiresAt))
      && ValueAt(ms, "nonce") == Some(Str(Base64.Encode(r.nonce))) && ValueAt(ms, "platform") == Maybe(r.platform)
      && ValueAt(ms, "deviceLabel") == Maybe(r.deviceLabel)
  {
    hide TypedFields, SignedMembers, IsDict, RequestFields, ValueAt, Base64.Encode;
    RequestTyped(r);
    SaysWho(r);
    SaysWhen(r);
    RequestHalves(r, 0);
    WhoRows(r);
    SignedField(REQUEST, RequestFields(r), 0);
    assert "proof" == PROOF_KEY;
  }

  /** In the signed text of every request the domains asked for stand before its id, and of any
      two members the one whose key is less in Foundation's order stands first. */
  lemma RequestInTurn(r: Request, k: string, l: string)
    ensures var ms := SignedMembers(REQUEST, RequestFields(r), {PROOF_KEY});
      && (k in KeysOf(ms) && l in KeysOf(ms) && KeyOrder.Compare(KeyOrder.Foundation, k, l) < 0 ==>
            InTurn(SignedRequest(r), MemberText(ms, k, KeyOrder.Foundation, true),
              MemberText(ms, l, KeyOrder.Foundation, true)))
      && InTurn(SignedRequest(r),
           Quoted("requestedDomains", true) + ":" + CanonicalJson(Texts(r.domains), KeyOrder.Foundation, true),
           Quoted("requestID", true) + ":" + CanonicalJson(Str(r.requestId), KeyOrder.Foundation, true))
  {
    hide SignedMembers, CanonicalJson, InTurn, KeyOrder.Compare, IsDict, Quoted, RequestFields, Texts;
    RequestSays(r);
    KeyOrder.RequestIdStands();
    var ms := SignedMembers(REQUEST, RequestFields(r), {PROOF_KEY});
    MembersStand(ms, KeyOrder.Foundation, true, "requestedDomains", "requestID");
    if k in KeysOf(ms) && l in KeysOf(ms) && KeyOrder.Compare(KeyOrder.Foundation, k, l) < 0 {
      MembersStand(ms, KeyOrder.Foundation, true, k, l);
    }
  }

  // ---- the approval ----

  lemma ApprovalParts(a: Approval, i: nat)
    ensures |APPROVAL| == 21 && |ApprovalFields(a)| == 21
    ensures i < 9 ==> APPROVAL[i] == APPROVAL_WHAT[i] && ApprovalFields(a)[i] == ApprovalWhat(a)[i]
    ensures i < 7 ==> APPROVAL[9 + i] == APPROVAL_WHO[i] && ApprovalFields(a)[9 + i] == ApprovalWho(a)[i]
    ensures i < 4 ==> APPROVAL[16 + i] == APPROVAL_AUTH[i] && ApprovalFields(a)[16 + i] == ApprovalAuth(a)[i]
  {
  }

  lemma WhatRows(a: Approval)
    ensures |APPROVAL_WHAT| == 9 && |ApprovalWhat(a)| == 9
    ensures APPROVAL_WHAT[0] == Required("version", KInt) && ApprovalWhat(a)[0] == Some(VInt(a.version))
    ensures APPROVAL_WHAT[1] == Required("approvalID", KStr) && ApprovalWhat(a)[1] == Txt(a.approvalId)
    ensures APPROVAL_WHAT[2] == Required("purpose", KStr) && ApprovalWhat(a)[2] == Txt(a.purpose)
    ensures APPROVAL_WHAT[3] == Required("requestHash", KBytes) && ApprovalWhat(a)[3] == Blob(a.requestHash)
    ensures APPROVAL_WHAT[6] == Required("approvedDomains", KStrs) && ApprovalWhat(a)[6] == List(a.domains)
    ensures APPROVAL_WHAT[7] == Required("approvedIdentityContexts", KStrs) && ApprovalWhat(a)[7] == List(a.contexts)
    ensures APPROVAL_WHAT[8] == Required("approvedScopes", KStrs) && ApprovalWhat(a)[8] == List(a.scopes)
  {
  }

  lemma SaysWhat(a: Approval)
    requires TypedFields(APPROVAL, ApprovalFields(a))
    ensures var ms := SignedMembers(APPROVAL, ApprovalFields(a), {PROOF_KEY});
      && ValueAt(ms, "version") == Some(Num(a.version)) && ValueAt(ms, "approvalID") == Some(Str(a.approvalId))
      && ValueAt(ms, "purpose") == Some(Str(a.purpose))
      && ValueAt(ms, "requestHash") == Some(Str(Base64.Encode(a.requestHash)))
      && ValueAt(ms, "approvedDomains") == Some(Texts(a.domains))
      && ValueAt(ms, "approvedIdentityContexts") == Some(Texts(a.contexts))
      && ValueAt(ms, "approvedScopes") == Some(Texts(a.scopes))
  {
    hide TypedFields, SignedMembers, ApprovalFields, ApprovalWhat, ValueAt, Txt, List, Blob, MaybeTxt, Required,
      Optional;
    WhatRows(a);
    ApprovalParts(a, 0);
    ApprovalParts(a, 1);
    ApprovalParts(a, 2);
    ApprovalParts(a, 3);
    ApprovalParts(a, 6);
    ApprovalParts(a, 7);
    ApprovalParts(a, 8);
    NumberRow(APPROVAL, ApprovalFields(a), 0, "version", a.version);
    TextRow(APPROVAL, ApprovalFields(a), 1, "approvalID", a.approvalId);
    TextRow(APPROVAL, ApprovalFields(a), 2, "purpose", a.purpose);
    BytesRow(APPROVAL, ApprovalFields(a), 3, "requestHash", a.requestHash);
    ListRow(APPROVAL, ApprovalFields(a), 6, "approvedDomains", a.domains);
    ListRow(APPROVAL, ApprovalFields(a), 7, "approvedIdentityContexts", a.contexts);
    ListRow(APPROVAL, ApprovalFields(a), 8, "approvedScopes", a.scopes);
  }

  lemma IssuerRows(a: Approval)
    ensures |APPROVAL_WHO| == 7 && |ApprovalWho(a)| == 7
    ensures APPROVAL_WHO[0] == Required("issuerIdentityUUID", KStr) && ApprovalWho(a)[0] == Txt(a.issuerUuid)
    ensures APPROVAL_WHO[1] == Required("issuerType", KStr) && ApprovalWho(a)[1] == Txt(a.issuerType)
    ensures APPROVAL_WHO[2] == Required("audience", KStr) && ApprovalWho(a)[2] == Txt(a.audience)
    ensures APPROVAL_WHO[3] == Required("origin", KStr) && ApprovalWho(a)[3] == Txt(a.origin)
    ensures APPROVAL_WHO[4] == Required("createdAt", KStr) && ApprovalWho(a)[4] == Txt(a.createdAt)
    ensures APPROVAL_WHO[5] == Required("expiresAt", KStr) && ApprovalWho(a)[5] == Txt(a.expiresAt)
    ensures APPROVAL_WHO[6] == Required("jti", KStr) && ApprovalWho(a)[6] == Txt(a.jti)
  {
  }

  lemma SaysIssuer(a: Approval)
    requires TypedFields(APPROVAL, ApprovalFields(a))
    ensures var ms := SignedMembers(APPROVAL, ApprovalFields(a), {PROOF_KEY});
      && ValueAt(ms, "issuerIdentityUUID") == Some(Str(a.issuerUuid))
      && ValueAt(ms, "issuerType") == Some(Str(a.issuerType)) && ValueAt(ms, "audience") == Some(Str(a.audience))
      && ValueAt(ms, "origin") == Some(Str(a.origin)) && ValueAt(ms, "createdAt") == Some(Str(a.createdAt))
      && ValueAt(ms, "expiresAt") == Some(Str(a.expiresAt)) && ValueAt(ms, "jti") == Some(Str(a.jti))
  {
    hide TypedFields, SignedMembers, ApprovalFields, ApprovalWho, ValueAt, Txt, List, Blob, MaybeTxt, Required,
      Optional;
    IssuerRows(a);
    ApprovalParts(a, 0);
    ApprovalParts(a, 1);
    ApprovalParts(a, 2);
    ApprovalParts(a, 3);
    ApprovalParts(a, 4);
    ApprovalParts(a, 5);
    ApprovalParts(a, 6);
    TextRow(APPROVAL, ApprovalFields(a), 9, "issuerIdentityUUID", a.issuerUuid);
    TextRow(APPROVAL, ApprovalFields(a), 10, "issuerType", a.issuerType);
    TextRow(APPROVAL, ApprovalFields(a), 11, "audience", a.audience);
    TextRow(APPROVAL, ApprovalFields(a), 12, "origin", a.origin);
    TextRow(APPROVAL, ApprovalFields(a), 13, "createdAt", a.createdAt);
    TextRow(APPROVAL, ApprovalFields(a), 14, "expiresAt", a.expiresAt);
    TextRow(APPROVAL, ApprovalFields(a), 15, "jti", a.jti);
  }

  lemma AuthRows(a: Approval)
    ensures |APPROVAL_AUTH| == 4 && |ApprovalAuth(a)| == 4
    ensures APPROVAL_AUTH[1] == Optional("freshAuthMethod", KStr) && ApprovalAuth(a)[1] == MaybeTxt(a.freshMethod)
    ensures APPROVAL_AUTH[2] == Optional("freshAuthPerformedAt", KStr) && ApprovalAuth(a)[2] == MaybeTxt(a.performedAt)
  {
  }

  lemma SaysAuth(a: Approval)
    requires TypedFields(APPROVAL, ApprovalFields(a))
    ensures var ms := SignedMembers(APPROVAL, ApprovalFields(a), {PROOF_KEY});
      && ValueAt(ms, "freshAuthMethod") == Maybe(a.freshMethod)
      && ValueAt(ms, "freshAuthPerformedAt") == Maybe(a.performedAt)
  {
    hide TypedFields, SignedMembers, ApprovalFields, ApprovalAuth, ValueAt, Txt, List, Blob, MaybeTxt, Required,
      Optional;
    AuthRows(a);
    ApprovalParts(a, 1);
    ApprovalParts(a, 2);
    MaybeRow(APPROVAL, ApprovalFields(a), 17, "freshAuthMethod", a.freshMethod);
    MaybeRow(APPROVAL, ApprovalFields(a), 18, "freshAuthPerformedAt", a.performedAt);
  }

  /** The members of a signed approval. */
  lemma ApprovalSays(a: Approval)
    ensures var ms := SignedMembers(APPROVAL, ApprovalFields(a), {PROOF_KEY});
      && IsDict(Obj(ms)) && "proof" !in KeysOf(ms)
      && ValueAt(ms, "version") == Some(Num(a.version)) && ValueAt(ms, "approvalID") == Some(Str(a.approvalId))
      && ValueAt(ms, "purpose") == Some(Str(a.purpose))
      && ValueAt(ms, "requestHash") == Some(Str(Base64.Encode(a.requestHash)))
      && ValueAt(ms, "approvedDomains") == Some(Texts(a.domains))
      && ValueAt(ms, "approvedIdentityContexts") == Some(Texts(a.contexts))
      && ValueAt(ms, "approvedScopes") == Some(Texts(a.scopes))
      && ValueAt(ms, "issuerIdentityUUID") == Some(Str(a.issuerUuid))
      && ValueAt(ms, "issuerType") == Some(Str(a.issuerType)) && ValueAt(ms, "audience") == Some(Str(a.audience))
      && ValueAt(ms, "origin") == Some(Str(a.origin)) && ValueAt(ms, "createdAt") == Some(Str(a.createdAt))
      && ValueAt(ms, "expiresAt") == Some(Str(a.expiresAt)) && ValueAt(ms, "jti") == Some(Str(a.jti))
      && ValueAt(ms, "freshAuthMethod") == Maybe(a.freshMethod)
      && ValueAt(ms, "freshAuthPerformedAt") == Maybe(a.performedAt)
  {
    hide TypedFields, SignedMembers, IsDict, ApprovalFields, ValueAt, Base64.Encode;
    ApprovalTyped(a);
    SaysWhat(a);
    SaysIssuer(a);
    SaysAuth(a);
    ApprovalParts(a, 0);
    WhatRows(a);
    SignedField(APPROVAL, ApprovalFields(a), 0);
    assert "proof" == PROOF_KEY;
  }
}
