/** The wire models of an enrollment, as records and as the fields they travel as: the
    descriptor of a public key, the entity binding, the request and its proof, the fresh
    authentication evidence, the approval and its proof, the credential and its subject, the
    holder's presentation, the proof of both, the completion envelope that holds them all,
    and the record that is kept. For each: its fields are as its specifications say, a
    record is read back from its own fields, and records with alike fields differ at most in
    the order of members inside the raw values of a credential. */
module LinkModels {
  import opened Basics
  import opened Json
  import opened Wire

  type Bytes = seq<Byte>

  type Fields = seq<Option<Value>>

  datatype Descriptor = Descriptor(
    uuid: string, publicKey: Bytes, algorithm: string, curve: string, displayName: Option<string>)

  datatype Binding = Binding(
    mode: string, reference: Option<string>, bindingId: Option<string>, audience: Option<string>)

  datatype RequestProof = RequestProof(
    kind: string, signer: string, algorithm: string, curve: string, signature: Option<Bytes>)

  datatype Request = Request(
    version: int, requestId: string, purpose: string, binding: Option<Binding>, newIdentity: Descriptor,
    domains: seq<string>, contexts: seq<string>, scopes: seq<string>, audience: string, origin: string,
    createdAt: string, expiresAt: string, nonce: Bytes, platform: Option<string>, deviceLabel: Option<string>,
    proof: Option<RequestProof>)

  datatype Evidence = Evidence(
    way: string, challenge: Bytes, performedAt: string, credentialId: Option<Bytes>,
    authenticatorData: Option<Bytes>, clientData: Option<Bytes>, signature: Option<Bytes>)

  datatype ApprovalProof = ApprovalProof(
    kind: string, issuer: string, issuerType: string, algorithm: string, curve: string, signature: Option<Bytes>)

  datatype Approval = Approval(
    version: int, approvalId: string, purpose: string, requestHash: Bytes, binding: Binding, subject: Descriptor,
    domains: seq<string>, contexts: seq<string>, scopes: seq<string>, issuerUuid: string, issuerType: string,
    audience: string, origin: string, createdAt: string, expiresAt: string, jti: string, freshRequired: bool,
    freshMethod: Option<string>, performedAt: Option<string>, evidence: Option<Evidence>, proof: Option<ApprovalProof>)

  datatype VCProof = VCProof(kind: string, created: string, purpose: string, signerUuid: string, signature: Bytes)

  /** issuer and subject are raw JSON, as the credential was written. */
  datatype Claim = Claim(
    context: Option<seq<string>>, id: string, types: seq<string>, issuer: Json, issued: string, subject: Json,
    proof: VCProof)

  datatype Presentation = Presentation(
    context: Option<seq<string>>, id: string, types: seq<string>, holder: Json, challenge: Option<Bytes>,
    domain: Option<string>, binding: Option<Descriptor>, credentials: Option<seq<Claim>>, proof: VCProof)

  datatype Subject = Subject(
    id: string, linkType: string, binding: Binding, linked: Descriptor, domains: seq<string>, contexts: seq<string>,
    scopes: seq<string>, requestHash: Bytes, assuranceSource: string, assuranceLevel: string, validUntil: string,
    revocationReference: Option<string>)

  datatype Record = Record(
    linkId: string, binding: Binding, linked: Descriptor, domains: seq<string>, contexts: seq<string>,
    scopes: seq<string>, issuerUuid: string, issuerType: string, status: string, linkedAt: string,
    lastUsedAt: Option<string>, revokedAt: Option<string>, revocationReference: Option<string>)

  datatype Completion = Completion(
    request: Request, approval: Approval, claim: Claim, presentation: Presentation, issuer: Descriptor,
    audience: string, origin: string, challenge: Bytes, domain: string, requireEvidence: Option<bool>)

  // ---- how each field travels ----

  const DESCRIPTOR := [
    Required("uuid", KStr), Required("publicKey", KBytes), Required("algorithm", KStr), Required("curveType", KStr),
    Optional("displayName", KStr)]

  const BINDING := [
    Required("mode", KStr), Optional("entityAnchorReference", KStr), Optional("bindingID", KStr),
    Optional("audience", KStr)]

  const REQUEST_PROOF := [
    Required("type", KStr), Required("byIdentityUUID", KStr), Required("algorithm", KStr), Required("curveType", KStr),
    Optional("signature", KBytes)]

  const REQUEST_WHO := [
    Required("version", KInt), Required("requestID", KStr), Required("purpose", KStr),
    Optional("entityBinding", KModel(BINDING)), Required("newIdentity", KModel(DESCRIPTOR)),
    Required("requestedDomains", KStrs), Required("requestedIdentityContexts", KStrs),
    Required("requestedScopes", KStrs)]

  const REQUEST_WHEN := [
    Required("audience", KStr), Required("origin", KStr), Required("createdAt", KStr), Required("expiresAt", KStr),
    Required("nonce", KBytes), Optional("platform", KStr), Optional("deviceLabel", KStr)]

  const PROOF_KEY := "proof"

  const REQUEST := REQUEST_WHO + REQUEST_WHEN + [Optional(PROOF_KEY, KModel(REQUEST_PROOF))]

  const EVIDENCE := [
    Required("method", KStr), Required("challenge", KBytes), Required("performedAt", KStr),
    Optional("credentialID", KBytes), Optional("authenticatorData", KBytes), Optional("clientDataJSON", KBytes),
    Optional("signature", KBytes)]

  const APPROVAL_PROOF := [
    Required("type", KStr), Required("issuerIdentityUUID", KStr), Required("issuerType", KStr),
    Required("algorithm", KStr), Required("curveType", KStr), Optional("signature", KBytes)]

  const APPROVAL_WHAT := [
    Required("version", KInt), Required("approvalID", KStr), Required("purpose", KStr), Required("requestHash", KBytes),
    Required("entityBinding", KModel(BINDING)), Required("subjectIdentity", KModel(DESCRIPTOR)),
    Required("approvedDomains", KStrs), Required("approvedIdentityContexts", KStrs), Required("approvedScopes", KStrs)]

  const APPROVAL_WHO := [
    Required("issuerIdentityUUID", KStr), Required("issuerType", KStr), Required("audience", KStr),
    Required("origin", KStr), Required("createdAt", KStr), Required("expiresAt", KStr), Required("jti", KStr)]

  const APPROVAL_AUTH := [
    Required("freshAuthRequired", KBool), Optional("freshAuthMethod", KStr), Optional("freshAuthPerformedAt", KStr),
    Optional("freshAuthEvidence", KModel(EVIDENCE))]

  const APPROVAL := APPROVAL_WHAT + APPROVAL_WHO + APPROVAL_AUTH + [Optional(PROOF_KEY, KModel(APPROVAL_PROOF))]

  const VC_PROOF := [
    Required("type", KStr), Required("created", KStr), Required("proofPurpose", KStr),
    Required("verificationMethod", KStr), Required("signatureData", KBytes)]

  const CLAIM := [
    Optional("@context", KStrs), Required("id", KStr), Required("type", KStrs), Required("issuer", KRaw),
    Required("issuanceDate", KStr), Required("credentialSubject", KRaw), Required(PROOF_KEY, KModel(VC_PROOF))]

  const PRESENTATION := [
    Optional("@context", KStrs), Required("id", KStr), Required("type", KStrs), Required("holder", KRaw),
    Optional("challenge", KBytes), Optional("domain", KStr), Optional("holderBinding", KModel(DESCRIPTOR)),
    Nulled("verifiableCredential", KModels(CLAIM)), Required(PROOF_KEY, KModel(VC_PROOF))]

  const SUBJECT := [
    Required("id", KStr), Required("linkType", KStr), Required("entityBinding", KModel(BINDING)),
    Required("linkedIdentity", KModel(DESCRIPTOR)), Required("approvedDomains", KStrs),
    Required("approvedIdentityContexts", KStrs), Required("approvedScopes", KStrs),
    Required("enrollmentRequestHash", KBytes), Required("assuranceSource", KStr), Required("assuranceLevel", KStr),
    Required("validUntil", KStr), Optional("revocationReference", KStr)]

  const RECORD := [
    Required("linkID", KStr), Required("entityBinding", KModel(BINDING)),
    Required("linkedIdentity", KModel(DESCRIPTOR)), Required("approvedDomains", KStrs),
    Required("approvedIdentityContexts", KStrs), Required("approvedScopes", KStrs),
    Required("issuerIdentityUUID", KStr), Required("issuerType", KStr), Required("status", KStr),
    Required("linkedAt", KStr), Optional("lastUsedAt", KStr), Optional("revokedAt", KStr),
    Optional("revocationReference", KStr)]

  const COMPLETION := [
    Required("request", KModel(REQUEST)), Required("approval", KModel(APPROVAL)),
    Required("sameEntityCredential", KModel(CLAIM)), Required("presentation", KModel(PRESENTATION)),
    Required("issuerIdentity", KModel(DESCRIPTOR)), Required("expectedAudience", KStr),
      Required("expectedOrigin", KStr),
    Required("expectedPresentationChallenge", KBytes), Required("expectedPresentationDomain", KStr),
    Optional("requireFreshAuthEvidence", KBool)]

  // ---- records as fields ----

  function Txt(s: string): Option<Value> { Some(VStr(s)) }

  function MaybeTxt(o: Option<string>): Option<Value> { if o.Some? then Some(VStr(o.value)) else None }

  function Blob(b: Bytes): Option<Value> { Some(VBytes(b)) }

  function MaybeBlob(o: Option<Bytes>): Option<Value> { if o.Some? then Some(VBytes(o.value)) else None }

  function List(ss: seq<string>): Option<Value> { Some(VStrs(ss)) }

  function MaybeList(o: Option<seq<string>>): Option<Value> { if o.Some? then Some(VStrs(o.value)) else None }

  function Model(fs: Fields): Option<Value> { Some(VModel(fs)) }

  function DescriptorFields(d: Descriptor): Fields {
    [Txt(d.uuid), Blob(d.publicKey), Txt(d.algorithm), Txt(d.curve), MaybeTxt(d.displayName)]
  }

  function BindingFields(b: Binding): Fields {
    [Txt(b.mode), MaybeTxt(b.reference), MaybeTxt(b.bindingId), MaybeTxt(b.audience)]
  }

  function RequestProofFields(p: RequestProof): Fields {
    [Txt(p.kind), Txt(p.signer), Txt(p.algorithm), Txt(p.curve), MaybeBlob(p.signature)]
  }

  function RequestWho(r: Request): Fields {
    [Some(VInt(r.version)), Txt(r.requestId), Txt(r.purpose),
     if r.binding.Some? then Model(BindingFields(r.binding.value)) else None, Model(DescriptorFields(r.newIdentity)),
     List(r.domains), List(r.contexts), List(r.scopes)]
  }

  function RequestWhen(r: Request): Fields {
    [Txt(r.audience), Txt(r.origin), Txt(r.createdAt), Txt(r.expiresAt), Blob(r.nonce), MaybeTxt(r.platform),
     MaybeTxt(r.deviceLabel)]
  }

  function RequestFields(r: Request): Fields {
    RequestWho(r) + RequestWhen(r) + [if r.proof.Some? then Model(RequestProofFields(r.proof.value)) else None]
  }

  function EvidenceFields(e: Evidence): Fields {
    [Txt(e.way), Blob(e.challenge), Txt(e.performedAt), MaybeBlob(e.credentialId), MaybeBlob(e.authenticatorData),
     MaybeBlob(e.clientData), MaybeBlob(e.signature)]
  }

  function ApprovalProofFields(p: ApprovalProof): Fields {
    [Txt(p.kind), Txt(p.issuer), Txt(p.issuerType), Txt(p.algorithm), Txt(p.curve), MaybeBlob(p.signature)]
  }

  function ApprovalWhat(a: Approval): Fields {
    [Some(VInt(a.version)), Txt(a.approvalId), Txt(a.purpose), Blob(a.requestHash), Model(BindingFields(a.binding)),
     Model(DescriptorFields(a.subject)), List(a.domains), List(a.contexts), List(a.scopes)]
  }

  function ApprovalWho(a: Approval): Fields {
    [Txt(a.issuerUuid), Txt(a.issuerType), Txt(a.audience), Txt(a.origin), Txt(a.createdAt), Txt(a.expiresAt),
      Txt(a.jti)]
  }

  function ApprovalAuth(a: Approval): Fields {
    [Some(VBool(a.freshRequired)), MaybeTxt(a.freshMethod), MaybeTxt(a.performedAt),
     if a.evidence.Some? then Model(EvidenceFields(a.evidence.value)) else None]
  }

  function ApprovalFields(a: Approval): Fields {
    ApprovalWhat(a) + ApprovalWho(a) + ApprovalAuth(a)
    + [if a.proof.Some? then Model(ApprovalProofFields(a.proof.value)) else None]
  }

  function VCProofFields(p: VCProof): Fields {
    [Txt(p.kind), Txt(p.created), Txt(p.purpose), Txt(p.signerUuid), Blob(p.signature)]
  }

  function ClaimFields(c: Claim): Fields {
    [MaybeList(c.context), Txt(c.id), List(c.types), Some(VRaw(c.issuer)), Txt(c.issued), Some(VRaw(c.subject)),
     Model(VCProofFields(c.proof))]
  }

  function ClaimModels(cs: seq<Claim>): (vs: seq<Value>)
    ensures |vs| == |cs| && forall i | 0 <= i < |cs| :: vs[i] == VModel(ClaimFields(cs[i]))
  {
    seq(|cs|, i requires 0 <= i < |cs| => VModel(ClaimFields(cs[i])))
  }

  function PresentationFields(p: Presentation): Fields {
    [MaybeList(p.context), Txt(p.id), List(p.types), Some(VRaw(p.holder)), MaybeBlob(p.challenge), MaybeTxt(p.domain),
     if p.binding.Some? then Model(DescriptorFields(p.binding.value)) else None,
     if p.credentials.Some? then Some(VModels(ClaimModels(p.credentials.value))) else None,
     Model(VCProofFields(p.proof))]
  }

  function SubjectFields(s: Subject): Fields {
    [Txt(s.id), Txt(s.linkType), Model(BindingFields(s.binding)), Model(DescriptorFields(s.linked)), List(s.domains),
     List(s.contexts), List(s.scopes), Blob(s.requestHash), Txt(s.assuranceSource), Txt(s.assuranceLevel),
     Txt(s.validUntil), MaybeTxt(s.revocationReference)]
  }

  function RecordFields(r: Record): Fields {
    [Txt(r.linkId), Model(BindingFields(r.binding)), Model(DescriptorFields(r.linked)), List(r.domains),
     List(r.contexts), List(r.scopes), Txt(r.issuerUuid), Txt(r.issuerType), Txt(r.status), Txt(r.linkedAt),
     MaybeTxt(r.lastUsedAt), MaybeTxt(r.revokedAt), MaybeTxt(r.revocationReference)]
  }

  function CompletionFields(e: Completion): Fields {
    [Model(RequestFields(e.request)), Model(ApprovalFields(e.approval)), Model(ClaimFields(e.claim)),
     Model(PresentationFields(e.presentation)), Model(DescriptorFields(e.issuer)), Txt(e.audience), Txt(e.origin),
     Blob(e.challenge), Txt(e.domain), if e.requireEvidence.Some? then Some(VBool(e.requireEvidence.value)) else None]
  }

  // ---- the specifications are proper, and the fields typed ----

  ghost predicate Fit(specs: seq<Spec>, fs: Fields) {
    |fs| == |specs| && forall i | 0 <= i < |specs| :: TypedField(specs[i], fs[i])
  }

  /** Keys apart, and every field as its specification says. */
  lemma FitIsTyped(specs: seq<Spec>, fs: Fields)
    requires Fit(specs, fs) && ProperSpecs(specs)
    ensures TypedFields(specs, fs)
  {
    assert forall i | 0 <= i < |specs| :: ProperSpec(specs[i]);
  }

  /** No defaults, and the kinds of nested models are proper. */
  ghost predicate Simple(specs: seq<Spec>) {
    forall i | 0 <= i < |specs| :: specs[i].default.None? && !specs[i].omit && Proper(specs[i].kind)
  }

  lemma SimpleIsProper(specs: seq<Spec>, keys: seq<string>)
    requires Simple(specs) && Distinct(keys) && |keys| == |specs|
    requires forall i | 0 <= i < |keys| :: specs[i].key == keys[i]
    ensures ProperSpecs(specs) && Proper(KModel(specs)) && Proper(KModels(specs))
  {
    forall spec | spec in specs ensures Proper(spec.kind) {
      var i :| 0 <= i < |specs| && specs[i] == spec;
    }
  }

  /** Kinds without models inside are proper. */
  lemma PlainProper()
    ensures Proper(KStr) && Proper(KInt) && Proper(KBool) && Proper(KBytes) && Proper(KStrs) && Proper(KRaw)
  {
  }

  /** Fields of the plain kinds. */
  lemma PlainFits()
    ensures forall spec: Spec, s | spec.kind == KStr :: TypedField(spec, Txt(s))
    ensures forall spec: Spec, o | spec.kind == KStr && spec.optional :: TypedField(spec, MaybeTxt(o))
    ensures forall spec: Spec, b | spec.kind == KBytes :: TypedField(spec, Blob(b))
    ensures forall spec: Spec, o | spec.kind == KBytes && spec.optional :: TypedField(spec, MaybeBlob(o))
    ensures forall spec: Spec, ss | spec.kind == KStrs :: TypedField(spec, List(ss))
    ensures forall spec: Spec, o | spec.kind == KStrs && spec.optional :: TypedField(spec, MaybeList(o))
    ensures forall spec: Spec, n | spec.kind == KInt :: TypedField(spec, Some(VInt(n)))
    ensures forall spec: Spec, b | spec.kind == KBool :: TypedField(spec, Some(VBool(b)))
    ensures forall spec: Spec | spec.optional :: TypedField(spec, None)
    ensures forall spec: Spec, fs | spec.kind.KModel? && TypedFields(spec.kind.specs, fs) :: TypedField(spec, Model(fs))
  {
  }

  lemma DescriptorProper()
    ensures ProperSpecs(DESCRIPTOR) && Proper(KModel(DESCRIPTOR)) && Proper(KModels(DESCRIPTOR))
  {
    hide Proper;
    PlainProper();
    var keys := [
      "uuid", "publicKey", "algorithm", "curveType", "displayName"];
    assert Distinct(keys);
    SimpleIsProper(DESCRIPTOR, keys);
  }

  lemma DescriptorTyped(d: Descriptor)
    ensures TypedFields(DESCRIPTOR, DescriptorFields(d))
  {
    hide Txt, MaybeTxt, Blob, MaybeBlob, List, MaybeList, Model, ProperSpecs, Proper, TypedField, TypedFields;
    DescriptorProper();
    PlainFits();
    FitIsTyped(DESCRIPTOR, DescriptorFields(d));
  }

  lemma BindingProper()
    ensures ProperSpecs(BINDING) && Proper(KModel(BINDING)) && Proper(KModels(BINDING))
  {
    hide Proper;
    PlainProper();
    var keys := [
      "mode", "entityAnchorReference", "bindingID", "audience"];
    assert Distinct(keys);
    SimpleIsProper(BINDING, keys);
  }

  lemma BindingTyped(b: Binding)
    ensures TypedFields(BINDING, BindingFields(b))
  {
    hide Txt, MaybeTxt, Blob, MaybeBlob, List, MaybeList, Model, ProperSpecs, Proper, TypedField, TypedFields;
    BindingProper();
    PlainFits();
    FitIsTyped(BINDING, BindingFields(b));
  }

  lemma RequestProofProper()
    ensures ProperSpecs(REQUEST_PROOF) && Proper(KModel(REQUEST_PROOF)) && Proper(KModels(REQUEST_PROOF))
  {
    hide Proper;
    PlainProper();
    var keys := [
      "type", "byIdentityUUID", "algorithm", "curveType", "signature"];
    assert Distinct(keys);
    SimpleIsProper(REQUEST_PROOF, keys);
  }

  lemma RequestProofTyped(p: RequestProof)
    ensures TypedFields(REQUEST_PROOF, RequestProofFields(p))
  {
    hide Txt, MaybeTxt, Blob, MaybeBlob, List, MaybeList, Model, ProperSpecs, Proper, TypedField, TypedFields;
    RequestProofProper();
    PlainFits();
    FitIsTyped(REQUEST_PROOF, RequestProofFields(p));
  }

  lemma EvidenceProper()
    ensures ProperSpecs(EVIDENCE) && Proper(KModel(EVIDENCE)) && Proper(KModels(EVIDENCE))
  {
    hide Proper;
    PlainProper();
    var keys := [
      "method", "challenge", "performedAt", "credentialID", "authenticatorData", "clientDataJSON", "signature"];
    assert Distinct(keys);
    SimpleIsProper(EVIDENCE, keys);
  }

  lemma EvidenceTyped(e: Evidence)
    ensures TypedFields(EVIDENCE, EvidenceFields(e))
  {
    hide Txt, MaybeTxt, Blob, MaybeBlob, List, MaybeList, Model, ProperSpecs, Proper, TypedField, TypedFields;
    EvidenceProper();
    PlainFits();
    FitIsTyped(EVIDENCE, EvidenceFields(e));
  }

  lemma ApprovalProofProper()
    ensures ProperSpecs(APPROVAL_PROOF) && Proper(KModel(APPROVAL_PROOF)) && Proper(KModels(APPROVAL_PROOF))
  {
    hide Proper;
    PlainProper();
    var keys := [
      "type", "issuerIdentityUUID", "issuerType", "algorithm", "curveType", "signature"];
    assert Distinct(keys);
    SimpleIsProper(APPROVAL_PROOF, keys);
  }

  lemma ApprovalProofTyped(p: ApprovalProof)
    ensures TypedFields(APPROVAL_PROOF, ApprovalProofFields(p))
  {
    hide Txt, MaybeTxt, Blob, MaybeBlob, List, MaybeList, Model, ProperSpecs, Proper, TypedField, TypedFields;
    ApprovalProofProper();
    PlainFits();
    FitIsTyped(APPROVAL_PROOF, ApprovalProofFields(p));
  }

  lemma VCProofProper()
    ensures ProperSpecs(VC_PROOF) && Proper(KModel(VC_PROOF)) && Proper(KModels(VC_PROOF))
  {
    hide Proper;
    PlainProper();
    var keys := [
      "type", "created", "proofPurpose", "verificationMethod", "signatureData"];
    assert Distinct(keys);
    SimpleIsProper(VC_PROOF, keys);
  }

  lemma VCProofTyped(p: VCProof)
    ensures TypedFields(VC_PROOF, VCProofFields(p))
  {
    hide Txt, MaybeTxt, Blob, MaybeBlob, List, MaybeList, Model, ProperSpecs, Proper, TypedField, TypedFields;
    VCProofProper();
    PlainFits();
    FitIsTyped(VC_PROOF, VCProofFields(p));
  }

  lemma SubjectProper()
    ensures ProperSpecs(SUBJECT) && Proper(KModel(SUBJECT)) && Proper(KModels(SUBJECT))
  {
    hide Proper;
    BindingProper();
    DescriptorProper();
    PlainProper();
    var keys := [
      "id", "linkType", "entityBinding", "linkedIdentity", "approvedDomains", "approvedIdentityContexts",
      "approvedScopes", "enrollmentRequestHash", "assuranceSource", "assuranceLevel", "validUntil",
      "revocationReference"];
    assert Distinct(keys);
    SimpleIsProper(SUBJECT, keys);
  }

  lemma SubjectTyped(s: Subject)
    ensures TypedFields(SUBJECT, SubjectFields(s))
  {
    hide Txt, MaybeTxt, Blob, MaybeBlob, List, MaybeList, Model, ProperSpecs, Proper, TypedField, TypedFields;
    SubjectProper();
    PlainFits();
    BindingTyped(s.binding);
    DescriptorTyped(s.linked);
    FitIsTyped(SUBJECT, SubjectFields(s));
  }

  lemma ClaimProper()
    ensures ProperSpecs(CLAIM) && Proper(KModel(CLAIM)) && Proper(KModels(CLAIM))
  {
    hide Proper;
    VCProofProper();
    PlainProper();
    var keys := [
      "@context", "id", "type", "issuer", "issuanceDate", "credentialSubject", PROOF_KEY];
    assert Distinct(keys);
    SimpleIsProper(CLAIM, keys);
  }

  lemma PresentationProper()
    ensures ProperSpecs(PRESENTATION) && Proper(KModel(PRESENTATION)) && Proper(KModels(PRESENTATION))
  {
    hide Proper;
    DescriptorProper();
    ClaimProper();
    VCProofProper();
    PlainProper();
    var keys := [
      "@context", "id", "type", "holder", "challenge", "domain", "holderBinding", "verifiableCredential", PROOF_KEY];
    assert Distinct(keys);
    SimpleIsProper(PRESENTATION, keys);
  }

  lemma JoinSimple(a: seq<Spec>, b: seq<Spec>)
    requires Simple(a) && Simple(b)
    ensures Simple(a + b)
  {
  }

  lemma JoinFit(a: seq<Spec>, fs: Fields, b: seq<Spec>, gs: Fields)
    requires Fit(a, fs) && Fit(b, gs)
    ensures Fit(a + b, fs + gs)
  {
  }

  const REQUEST_KEYS := [
    "version", "requestID", "purpose", "entityBinding", "newIdentity", "requestedDomains",
    "requestedIdentityContexts", "requestedScopes", "audience", "origin", "createdAt", "expiresAt", "nonce",
    "platform", "deviceLabel", PROOF_KEY]

  lemma RequestKeysApart()
    ensures |REQUEST_KEYS| == 16 && Distinct(REQUEST_KEYS)
  {
  }

  lemma RequestKeys()
    ensures |REQUEST| == |REQUEST_KEYS| && forall i | 0 <= i < |REQUEST| :: REQUEST[i].key == REQUEST_KEYS[i]
  {
    hide Required, Optional;
    forall i | 0 <= i < |REQUEST| ensures REQUEST[i].key == REQUEST_KEYS[i] {
      if i < 8 { AskedKeys(i); } else { AskingKeys(i - 8); }
    }
  }

  lemma AskedKeys(i: nat)
    requires i < 8
    ensures |REQUEST_WHO| == 8 && REQUEST_WHO[i].key == REQUEST_KEYS[i]
  {
  }

  lemma AskingKeys(i: nat)
    requires i < 8
    ensures var asking := REQUEST_WHEN + [Optional(PROOF_KEY, KModel(REQUEST_PROOF))];
      |asking| == 8 && asking[i].key == REQUEST_KEYS[i + 8]
  {
  }

  const APPROVAL_KEYS := [
    "version", "approvalID", "purpose", "requestHash", "entityBinding", "subjectIdentity", "approvedDomains",
    "approvedIdentityContexts", "approvedScopes", "issuerIdentityUUID", "issuerType", "audience", "origin",
    "createdAt", "expiresAt", "jti", "freshAuthRequired", "freshAuthMethod", "freshAuthPerformedAt",
    "freshAuthEvidence", PROOF_KEY]

  lemma ApprovalKeysApart()
    ensures |APPROVAL_KEYS| == 21 && Distinct(APPROVAL_KEYS)
  {
  }

  lemma ApprovalKeys()
    ensures |APPROVAL| == |APPROVAL_KEYS| && forall i | 0 <= i < |APPROVAL| :: APPROVAL[i].key == APPROVAL_KEYS[i]
  {
    hide Required, Optional;
    forall i | 0 <= i < |APPROVAL| ensures APPROVAL[i].key == APPROVAL_KEYS[i] {
      if i < 9 { WhatKeys(i); } else if i < 16 { WhoKeys(i - 9); } else { AuthKeys(i - 16); }
    }
  }

  lemma WhatKeys(i: nat)
    requires i < 9
    ensures |APPROVAL_WHAT| == 9 && APPROVAL_WHAT[i].key == APPROVAL_KEYS[i]
  {
  }

  lemma WhoKeys(i: nat)
    requires i < 7
    ensures |APPROVAL_WHO| == 7 && APPROVAL_WHO[i].key == APPROVAL_KEYS[i + 9]
  {
  }

  lemma AuthKeys(i: nat)
    requires i < 5
    ensures var auth := APPROVAL_AUTH + [Optional(PROOF_KEY, KModel(APPROVAL_PROOF))];
      |auth| == 5 && auth[i].key == APPROVAL_KEYS[i + 16]
  {
  }

  lemma RequestProper()
    ensures ProperSpecs(REQUEST) && Proper(KModel(REQUEST)) && Proper(KModels(REQUEST))
  {
    hide Proper;
    PlainProper();
    BindingProper();
    DescriptorProper();
    RequestProofProper();
    assert Simple(REQUEST_WHO);
    assert Simple(REQUEST_WHEN);
    assert Simple([Optional(PROOF_KEY, KModel(REQUEST_PROOF))]);
    JoinSimple(REQUEST_WHO, REQUEST_WHEN);
    JoinSimple(REQUEST_WHO + REQUEST_WHEN, [Optional(PROOF_KEY, KModel(REQUEST_PROOF))]);
    RequestKeys();
    RequestKeysApart();
    SimpleIsProper(REQUEST, REQUEST_KEYS);
  }

  lemma ApprovalProper()
    ensures ProperSpecs(APPROVAL) && Proper(KModel(APPROVAL)) && Proper(KModels(APPROVAL))
  {
    hide Proper;
    PlainProper();
    BindingProper();
    DescriptorProper();
    EvidenceProper();
    ApprovalProofProper();
    assert Simple(APPROVAL_WHAT);
    assert Simple(APPROVAL_WHO);
    assert Simple(APPROVAL_AUTH);
    assert Simple([Optional(PROOF_KEY, KModel(APPROVAL_PROOF))]);
    JoinSimple(APPROVAL_WHAT, APPROVAL_WHO);
    JoinSimple(APPROVAL_WHAT + APPROVAL_WHO, APPROVAL_AUTH);
    JoinSimple(APPROVAL_WHAT + APPROVAL_WHO + APPROVAL_AUTH, [Optional(PROOF_KEY, KModel(APPROVAL_PROOF))]);
    ApprovalKeys();
    ApprovalKeysApart();
    SimpleIsProper(APPROVAL, APPROVAL_KEYS);
  }

  lemma RequestTyped(r: Request)
    ensures TypedFields(REQUEST, RequestFields(r))
  {
    hide Txt, MaybeTxt, Blob, MaybeBlob, List, MaybeList, Model, ProperSpecs, Proper, TypedField, TypedFields;
    PlainFits();
    if r.binding.Some? { BindingTyped(r.binding.value); }
    DescriptorTyped(r.newIdentity);
    if r.proof.Some? { RequestProofTyped(r.proof.value); }
    RequestProper();
    var last := [if r.proof.Some? then Model(RequestProofFields(r.proof.value)) else None];
    assert Fit([Optional(PROOF_KEY, KModel(REQUEST_PROOF))], last);
    JoinFit(REQUEST_WHO, RequestWho(r), REQUEST_WHEN, RequestWhen(r));
    JoinFit(REQUEST_WHO + REQUEST_WHEN, RequestWho(r) + RequestWhen(r), [Optional(PROOF_KEY, KModel(REQUEST_PROOF))],
      last);
    FitIsTyped(REQUEST, RequestFields(r));
  }

  lemma WhatFits(a: Approval)
    ensures Fit(APPROVAL_WHAT, ApprovalWhat(a))
  {
    hide Txt, List, Blob, Model, TypedField, TypedFields, BindingFields, DescriptorFields;
    PlainFits();
    BindingTyped(a.binding);
    DescriptorTyped(a.subject);
  }

  lemma WhoFits(a: Approval)
    ensures Fit(APPROVAL_WHO, ApprovalWho(a))
  {
    hide Txt, TypedField, TypedFields;
    PlainFits();
  }

  lemma AuthFits(a: Approval)
    ensures Fit(APPROVAL_AUTH, ApprovalAuth(a))
  {
    hide MaybeTxt, Model, TypedField, TypedFields, EvidenceFields;
    PlainFits();
    if a.evidence.Some? { EvidenceTyped(a.evidence.value); }
  }

  lemma ApprovalTyped(a: Approval)
    ensures TypedFields(APPROVAL, ApprovalFields(a))
  {
    hide Model, ProperSpecs, Proper, TypedField, TypedFields, ApprovalWhat, ApprovalWho, ApprovalAuth;
    PlainFits();
    WhatFits(a);
    WhoFits(a);
    AuthFits(a);
    if a.proof.Some? { ApprovalProofTyped(a.proof.value); }
    ApprovalProper();
    var last := [if a.proof.Some? then Model(ApprovalProofFields(a.proof.value)) else None];
    assert Fit([Optional(PROOF_KEY, KModel(APPROVAL_PROOF))], last);
    JoinFit(APPROVAL_WHAT, ApprovalWhat(a), APPROVAL_WHO, ApprovalWho(a));
    JoinFit(APPROVAL_WHAT + APPROVAL_WHO, ApprovalWhat(a) + ApprovalWho(a), APPROVAL_AUTH, ApprovalAuth(a));
    JoinFit(APPROVAL_WHAT + APPROVAL_WHO + APPROVAL_AUTH, ApprovalWhat(a) + ApprovalWho(a) + ApprovalAuth(a),
      [Optional(PROOF_KEY, KModel(APPROVAL_PROOF))], last);
    FitIsTyped(APPROVAL, ApprovalFields(a));
  }

  /** A raw value that a model can carry: a dict all the way down, and not null. */
  ghost predicate Carried(j: Json) {
    IsDict(j) && j != Null
  }

  ghost predicate CarriedClaim(c: Claim) {
    Carried(c.issuer) && Carried(c.subject)
  }

  ghost predicate CarriedPresentation(p: Presentation) {
    Carried(p.holder) && (p.credentials.Some? ==> forall c | c in p.credentials.value :: CarriedClaim(c))
  }

  lemma ClaimTyped(c: Claim)
    requires CarriedClaim(c)
    ensures TypedFields(CLAIM, ClaimFields(c))
  {
    assert forall spec: Spec, j | spec.kind == KRaw && Carried(j) :: TypedField(spec, Some(VRaw(j)));
    ClaimFits(c);
  }

  lemma ClaimFits(c: Claim)
    requires CarriedClaim(c)
    requires forall spec: Spec, j | spec.kind == KRaw && Carried(j) :: TypedField(spec, Some(VRaw(j)))
    ensures TypedFields(CLAIM, ClaimFields(c))
  {
    hide Txt, MaybeTxt, Blob, MaybeBlob, List, MaybeList, Model, ProperSpecs, Proper, TypedField, TypedFields, Carried;
    ClaimProper();
    PlainFits();
    VCProofTyped(c.proof);
    FitIsTyped(CLAIM, ClaimFields(c));
  }

  lemma PresentationTyped(p: Presentation)
    requires CarriedPresentation(p)
    ensures TypedFields(PRESENTATION, PresentationFields(p))
  {
    hide TypedFields, ProperSpecs, Proper, CarriedClaim, ClaimFields, ClaimModels;
    assert forall spec: Spec, j | spec.kind == KRaw && Carried(j) :: TypedField(spec, Some(VRaw(j)));
    if p.credentials.Some? {
      CredentialsTyped(p.credentials.value);
      assert PRESENTATION[7] == Nulled("verifiableCredential", KModels(CLAIM));
      assert TypedField(PRESENTATION[7], Some(VModels(ClaimModels(p.credentials.value))));
    }
    PresentationFits(p);
  }

  lemma CredentialsTyped(cs: seq<Claim>)
    requires forall c | c in cs :: CarriedClaim(c)
    ensures forall v | v in ClaimModels(cs) :: v.VModel? && TypedFields(CLAIM, v.fields)
  {
    hide TypedFields, CarriedClaim, ClaimFields;
    forall v | v in ClaimModels(cs) ensures v.VModel? && TypedFields(CLAIM, v.fields) {
      var i :| 0 <= i < |cs| && v == VModel(ClaimFields(cs[i]));
      ClaimTyped(cs[i]);
    }
  }

  lemma PresentationFits(p: Presentation)
    requires CarriedPresentation(p)
    requires forall spec: Spec, j | spec.kind == KRaw && Carried(j) :: TypedField(spec, Some(VRaw(j)))
    requires p.credentials.Some? ==> TypedField(PRESENTATION[7], Some(VModels(ClaimModels(p.credentials.value))))
    ensures TypedFields(PRESENTATION, PresentationFields(p))
  {
    hide Txt, MaybeTxt, Blob, MaybeBlob, List, MaybeList, Model, ProperSpecs, Proper, TypedField, TypedFields,
      Carried, CarriedClaim, ClaimModels;
    PresentationProper();
    PlainFits();
    VCProofTyped(p.proof);
    if p.binding.Some? { DescriptorTyped(p.binding.value); }
    FitIsTyped(PRESENTATION, PresentationFields(p));
  }

  lemma RecordProper()
    ensures ProperSpecs(RECORD) && Proper(KModel(RECORD)) && Proper(KModels(RECORD))
  {
    hide Proper;
    BindingProper();
    DescriptorProper();
    PlainProper();
    var keys := [
      "linkID", "entityBinding", "linkedIdentity", "approvedDomains", "approvedIdentityContexts", "approvedScopes",
      "issuerIdentityUUID", "issuerType", "status", "linkedAt", "lastUsedAt", "revokedAt", "revocationReference"];
    assert Distinct(keys);
    SimpleIsProper(RECORD, keys);
  }

  lemma RecordTyped(r: Record)
    ensures TypedFields(RECORD, RecordFields(r))
  {
    hide Txt, MaybeTxt, Blob, MaybeBlob, List, MaybeList, Model, ProperSpecs, Proper, TypedField, TypedFields;
    RecordProper();
    PlainFits();
    BindingTyped(r.binding);
    DescriptorTyped(r.linked);
    FitIsTyped(RECORD, RecordFields(r));
  }

  lemma CompletionProper()
    ensures ProperSpecs(COMPLETION) && Proper(KModel(COMPLETION)) && Proper(KModels(COMPLETION))
  {
    hide Proper;
    RequestProper();
    ApprovalProper();
    ClaimProper();
    PresentationProper();
    DescriptorProper();
    PlainProper();
    var keys := [
      "request", "approval", "sameEntityCredential", "presentation", "issuerIdentity", "expectedAudience",
      "expectedOrigin", "expectedPresentationChallenge", "expectedPresentationDomain", "requireFreshAuthEvidence"];
    assert Distinct(keys);
    SimpleIsProper(COMPLETION, keys);
  }

  lemma CompletionTyped(e: Completion)
    requires CarriedClaim(e.claim) && CarriedPresentation(e.presentation)
    ensures TypedFields(COMPLETION, CompletionFields(e))
  {
    hide Txt, MaybeTxt, Blob, MaybeBlob, List, MaybeList, Model, ProperSpecs, Proper, TypedField, TypedFields,
      CarriedClaim, CarriedPresentation, RequestFields, ApprovalFields, ClaimFields, PresentationFields,
      DescriptorFields;
    PlainFits();
    RequestTyped(e.request);
    ApprovalTyped(e.approval);
    ClaimTyped(e.claim);
    PresentationTyped(e.presentation);
    DescriptorTyped(e.issuer);
    CompletionProper();
    FitIsTyped(COMPLETION, CompletionFields(e));
  }

  // ---- fields as records ----

  function At(fs: Fields, i: nat): Option<Value> { if i < |fs| then fs[i] else None }

  function AsTxt(f: Option<Value>): string { if f.Some? && f.value.VStr? then f.value.s else "" }

  function AsMaybeTxt(f: Option<Value>): Option<string> { if f.Some? then Some(AsTxt(f)) else None }

  function AsBlob(f: Option<Value>): Bytes { if f.Some? && f.value.VBytes? then f.value.bytes else [] }

  function AsMaybeBlob(f: Option<Value>): Option<Bytes> { if f.Some? then Some(AsBlob(f)) else None }

  function AsList(f: Option<Value>): seq<string> { if f.Some? && f.value.VStrs? then f.value.ss else [] }

  function AsMaybeList(f: Option<Value>): Option<seq<string>> { if f.Some? then Some(AsList(f)) else None }

  function AsInt(f: Option<Value>): int { if f.Some? && f.value.VInt? then f.value.n else 0 }

  function AsBool(f: Option<Value>): bool { f.Some? && f.value.VBool? && f.value.b }

  function AsMaybeBool(f: Option<Value>): Option<bool> { if f.Some? then Some(AsBool(f)) else None }

  function AsRaw(f: Option<Value>): Json { if f.Some? && f.value.VRaw? then f.value.j else Null }

  function AsModel(f: Option<Value>): Fields { if f.Some? && f.value.VModel? then f.value.fields else [] }

  function AsModels(f: Option<Value>): seq<Value> { if f.Some? && f.value.VModels? then f.value.models else [] }

  function DescriptorOf(fs: Fields): Descriptor {
    Descriptor(
      AsTxt(At(fs, 0)), AsBlob(At(fs, 1)), AsTxt(At(fs, 2)), AsTxt(At(fs, 3)), AsMaybeTxt(At(fs, 4)))
  }

  function BindingOf(fs: Fields): Binding {
    Binding(
      AsTxt(At(fs, 0)), AsMaybeTxt(At(fs, 1)), AsMaybeTxt(At(fs, 2)), AsMaybeTxt(At(fs, 3)))
  }

  function RequestProofOf(fs: Fields): RequestProof {
    RequestProof(
      AsTxt(At(fs, 0)), AsTxt(At(fs, 1)), AsTxt(At(fs, 2)), AsTxt(At(fs, 3)), AsMaybeBlob(At(fs, 4)))
  }

  function RequestOf(fs: Fields): Request {
    Request(
      AsInt(At(fs, 0)), AsTxt(At(fs, 1)), AsTxt(At(fs, 2)),
      if At(fs, 3).Some? then Some(BindingOf(AsModel(At(fs, 3)))) else None, DescriptorOf(AsModel(At(fs, 4))),
      AsList(At(fs, 5)), AsList(At(fs, 6)), AsList(At(fs, 7)), AsTxt(At(fs, 8)), AsTxt(At(fs, 9)), AsTxt(At(fs, 10)),
      AsTxt(At(fs, 11)), AsBlob(At(fs, 12)), AsMaybeTxt(At(fs, 13)), AsMaybeTxt(At(fs, 14)),
      if At(fs, 15).Some? then Some(RequestProofOf(AsModel(At(fs, 15)))) else None)
  }

  function EvidenceOf(fs: Fields): Evidence {
    Evidence(
      AsTxt(At(fs, 0)), AsBlob(At(fs, 1)), AsTxt(At(fs, 2)), AsMaybeBlob(At(fs, 3)), AsMaybeBlob(At(fs, 4)),
      AsMaybeBlob(At(fs, 5)), AsMaybeBlob(At(fs, 6)))
  }

  function ApprovalProofOf(fs: Fields): ApprovalProof {
    ApprovalProof(
      AsTxt(At(fs, 0)), AsTxt(At(fs, 1)), AsTxt(At(fs, 2)), AsTxt(At(fs, 3)), AsTxt(At(fs, 4)), AsMaybeBlob(At(fs, 5)))
  }

  function ApprovalOf(fs: Fields): Approval {
    Approval(
      AsInt(At(fs, 0)), AsTxt(At(fs, 1)), AsTxt(At(fs, 2)), AsBlob(At(fs, 3)), BindingOf(AsModel(At(fs, 4))),
      DescriptorOf(AsModel(At(fs, 5))), AsList(At(fs, 6)), AsList(At(fs, 7)), AsList(At(fs, 8)), AsTxt(At(fs, 9)),
      AsTxt(At(fs, 10)), AsTxt(At(fs, 11)), AsTxt(At(fs, 12)), AsTxt(At(fs, 13)), AsTxt(At(fs, 14)),
      AsTxt(At(fs, 15)), AsBool(At(fs, 16)), AsMaybeTxt(At(fs, 17)), AsMaybeTxt(At(fs, 18)),
      if At(fs, 19).Some? then Some(EvidenceOf(AsModel(At(fs, 19)))) else None,
      if At(fs, 20).Some? then Some(ApprovalProofOf(AsModel(At(fs, 20)))) else None)
  }

  function VCProofOf(fs: Fields): VCProof {
    VCProof(
      AsTxt(At(fs, 0)), AsTxt(At(fs, 1)), AsTxt(At(fs, 2)), AsTxt(At(fs, 3)), AsBlob(At(fs, 4)))
  }

  function ClaimOf(fs: Fields): Claim {
    Claim(
      AsMaybeList(At(fs, 0)), AsTxt(At(fs, 1)), AsList(At(fs, 2)), AsRaw(At(fs, 3)), AsTxt(At(fs, 4)),
      AsRaw(At(fs, 5)), VCProofOf(AsModel(At(fs, 6))))
  }

  function ClaimsOf(vs: seq<Value>): (cs: seq<Claim>)
    ensures |cs| == |vs| && forall i | 0 <= i < |vs| :: cs[i] == ClaimOf(AsModel(Some(vs[i])))
  {
    seq(|vs|, i requires 0 <= i < |vs| => ClaimOf(AsModel(Some(vs[i]))))
  }

  function PresentationOf(fs: Fields): Presentation {
    Presentation(
      AsMaybeList(At(fs, 0)), AsTxt(At(fs, 1)), AsList(At(fs, 2)), AsRaw(At(fs, 3)), AsMaybeBlob(At(fs, 4)),
      AsMaybeTxt(At(fs, 5)), if At(fs, 6).Some? then Some(DescriptorOf(AsModel(At(fs, 6)))) else None,
      if At(fs, 7).Some? then Some(ClaimsOf(AsModels(At(fs, 7)))) else None, VCProofOf(AsModel(At(fs, 8))))
  }

  function RecordOf(fs: Fields): Record {
    Record(
      AsTxt(At(fs, 0)), BindingOf(AsModel(At(fs, 1))), DescriptorOf(AsModel(At(fs, 2))), AsList(At(fs, 3)),
      AsList(At(fs, 4)), AsList(At(fs, 5)), AsTxt(At(fs, 6)), AsTxt(At(fs, 7)), AsTxt(At(fs, 8)), AsTxt(At(fs, 9)),
      AsMaybeTxt(At(fs, 10)), AsMaybeTxt(At(fs, 11)), AsMaybeTxt(At(fs, 12)))
  }

  function SubjectOf(fs: Fields): Subject {
    Subject(
      AsTxt(At(fs, 0)), AsTxt(At(fs, 1)), BindingOf(AsModel(At(fs, 2))), DescriptorOf(AsModel(At(fs, 3))),
      AsList(At(fs, 4)), AsList(At(fs, 5)), AsList(At(fs, 6)), AsBlob(At(fs, 7)), AsTxt(At(fs, 8)), AsTxt(At(fs, 9)),
      AsTxt(At(fs, 10)), AsMaybeTxt(At(fs, 11)))
  }

  function CompletionOf(fs: Fields): Completion {
    Completion(
      RequestOf(AsModel(At(fs, 0))), ApprovalOf(AsModel(At(fs, 1))), ClaimOf(AsModel(At(fs, 2))),
      PresentationOf(AsModel(At(fs, 3))), DescriptorOf(AsModel(At(fs, 4))), AsTxt(At(fs, 5)), AsTxt(At(fs, 6)),
      AsBlob(At(fs, 7)), AsTxt(At(fs, 8)), AsMaybeBool(At(fs, 9)))
  }

  lemma DescriptorBack(d: Descriptor)
    ensures DescriptorOf(DescriptorFields(d)) == d
  {
  }

  lemma BindingBack(b: Binding)
    ensures BindingOf(BindingFields(b)) == b
  {
  }

  lemma RequestProofBack(p: RequestProof)
    ensures RequestProofOf(RequestProofFields(p)) == p
  {
  }

  lemma RequestBack(r: Request)
    ensures RequestOf(RequestFields(r)) == r
  {
    hide BindingOf, DescriptorOf, RequestProofOf, BindingFields, DescriptorFields, RequestProofFields;
    if r.binding.Some? { BindingBack(r.binding.value); }
    DescriptorBack(r.newIdentity);
    if r.proof.Some? { RequestProofBack(r.proof.value); }
  }

  lemma EvidenceBack(e: Evidence)
    ensures EvidenceOf(EvidenceFields(e)) == e
  {
  }

  lemma ApprovalProofBack(p: ApprovalProof)
    ensures ApprovalProofOf(ApprovalProofFields(p)) == p
  {
  }

  lemma ApprovalBack(a: Approval)
    ensures ApprovalOf(ApprovalFields(a)) == a
  {
    hide BindingOf, DescriptorOf, EvidenceOf, ApprovalProofOf, BindingFields, DescriptorFields, EvidenceFields,
      ApprovalProofFields;
    BindingBack(a.binding);
    DescriptorBack(a.subject);
    if a.evidence.Some? { EvidenceBack(a.evidence.value); }
    if a.proof.Some? { ApprovalProofBack(a.proof.value); }
  }

  lemma VCProofBack(p: VCProof)
    ensures VCProofOf(VCProofFields(p)) == p
  {
  }

  lemma ClaimBack(c: Claim)
    ensures ClaimOf(ClaimFields(c)) == c
  {
    hide VCProofOf, VCProofFields;
    VCProofBack(c.proof);
  }

  lemma RecordBack(r: Record)
    ensures RecordOf(RecordFields(r)) == r
  {
    hide BindingOf, DescriptorOf, BindingFields, DescriptorFields;
    BindingBack(r.binding);
    DescriptorBack(r.linked);
  }

  lemma SubjectBack(s: Subject)
    ensures SubjectOf(SubjectFields(s)) == s
  {
    hide BindingOf, DescriptorOf, BindingFields, DescriptorFields;
    BindingBack(s.binding);
    DescriptorBack(s.linked);
  }

  // ---- no raw fields but in credentials and presentations ----

  ghost predicate RawFree(specs: seq<Spec>) {
    forall i | 0 <= i < |specs| :: NoRaw(specs[i].kind)
  }

  lemma RawFreeModel(specs: seq<Spec>)
    requires RawFree(specs)
    ensures NoRaw(KModel(specs))
  {
  }

  lemma JoinRawFree(a: seq<Spec>, b: seq<Spec>)
    requires RawFree(a) && RawFree(b)
    ensures RawFree(a + b)
  {
  }

  lemma PlainNoRaw()
    ensures NoRaw(KStr) && NoRaw(KInt) && NoRaw(KBool) && NoRaw(KBytes) && NoRaw(KStrs)
  {
  }

  lemma SmallNoRaw()
    ensures NoRaw(KModel(DESCRIPTOR)) && NoRaw(KModel(BINDING)) && NoRaw(KModel(EVIDENCE))
    ensures NoRaw(KModel(REQUEST_PROOF)) && NoRaw(KModel(APPROVAL_PROOF)) && NoRaw(KModel(VC_PROOF))
  {
    hide NoRaw, RawFree;
    PartsNoRaw();
    ProofsNoRaw();
  }

  lemma PartsNoRaw()
    ensures NoRaw(KModel(DESCRIPTOR)) && NoRaw(KModel(BINDING)) && NoRaw(KModel(EVIDENCE))
  {
    hide NoRaw;
    PlainNoRaw();
    RawFreeModel(DESCRIPTOR);
    RawFreeModel(BINDING);
    RawFreeModel(EVIDENCE);
  }

  lemma ProofsNoRaw()
    ensures NoRaw(KModel(REQUEST_PROOF)) && NoRaw(KModel(APPROVAL_PROOF)) && NoRaw(KModel(VC_PROOF))
  {
    hide NoRaw;
    PlainNoRaw();
    RawFreeModel(REQUEST_PROOF);
    RawFreeModel(APPROVAL_PROOF);
    RawFreeModel(VC_PROOF);
  }

  lemma RequestNoRaw()
    ensures NoRaw(KModel(REQUEST))
  {
    hide NoRaw;
    PlainNoRaw();
    SmallNoRaw();
    assert RawFree(REQUEST_WHO) && RawFree(REQUEST_WHEN) && RawFree([Optional(PROOF_KEY, KModel(REQUEST_PROOF))]);
    JoinRawFree(REQUEST_WHO, REQUEST_WHEN);
    JoinRawFree(REQUEST_WHO + REQUEST_WHEN, [Optional(PROOF_KEY, KModel(REQUEST_PROOF))]);
    RawFreeModel(REQUEST);
  }

  lemma ApprovalNoRaw()
    ensures NoRaw(KModel(APPROVAL))
  {
    hide NoRaw;
    PlainNoRaw();
    SmallNoRaw();
    assert RawFree(APPROVAL_WHAT) && RawFree(APPROVAL_WHO) && RawFree(APPROVAL_AUTH);
    assert RawFree([Optional(PROOF_KEY, KModel(APPROVAL_PROOF))]);
    JoinRawFree(APPROVAL_WHAT, APPROVAL_WHO);
    JoinRawFree(APPROVAL_WHAT + APPROVAL_WHO, APPROVAL_AUTH);
    JoinRawFree(APPROVAL_WHAT + APPROVAL_WHO + APPROVAL_AUTH, [Optional(PROOF_KEY, KModel(APPROVAL_PROOF))]);
    RawFreeModel(APPROVAL);
  }

  lemma SubjectNoRaw()
    ensures NoRaw(KModel(SUBJECT))
  {
    hide NoRaw;
    PlainNoRaw();
    SmallNoRaw();
    RawFreeModel(SUBJECT);
  }

  // ---- records that differ only in the order of raw members ----

  ghost predicate SameClaim(c: Claim, d: Claim) {
    && d == c.(issuer := d.issuer, subject := d.subject)
    && SameValue(c.issuer, d.issuer) && SameValue(c.subject, d.subject)
  }

  ghost predicate SameClaims(cs: seq<Claim>, ds: seq<Claim>) {
    |ds| == |cs| && forall i | 0 <= i < |cs| :: SameClaim(cs[i], ds[i])
  }

  ghost predicate SamePresentation(p: Presentation, q: Presentation) {
    && q == p.(holder := q.holder, credentials := q.credentials)
    && SameValue(p.holder, q.holder)
    && (p.credentials.Some? <==> q.credentials.Some?)
    && (p.credentials.Some? ==> SameClaims(p.credentials.value, q.credentials.value))
  }

  ghost predicate SameCompletion(e: Completion, f: Completion) {
    && f == e.(claim := f.claim, presentation := f.presentation)
    && SameClaim(e.claim, f.claim) && SamePresentation(e.presentation, f.presentation)
  }

  /** A nested model without raw fields is read back as it was. */
  lemma ModelSame(specs: seq<Spec>, fs: Fields, g: Option<Value>)
    requires TypedFields(specs, fs) && NoRaw(KModel(specs)) && AlikeField(Model(fs), g)
    ensures g == Model(fs)
  {
    AlikeSame(VModel(fs), g.value, KModel(specs));
  }

  /** Any field but a raw one or a model. */
  lemma PlainSame(f: Option<Value>, g: Option<Value>)
    requires AlikeField(f, g) && (f.Some? ==> !f.value.VRaw? && !f.value.VModel? && !f.value.VModels?)
    ensures g == f
  {
  }

  lemma RawSame(j: Json, g: Option<Value>)
    requires AlikeField(Some(VRaw(j)), g)
    ensures g.Some? && g.value.VRaw? && SameValue(j, g.value.j)
  {
  }

  lemma AlikeAt(fs: Fields, gs: Fields, i: nat)
    requires AlikeFields(fs, gs) && i < |fs|
    ensures |gs| == |fs| && AlikeField(fs[i], gs[i])
  {
  }

  lemma PlainAt(fs: Fields, gs: Fields, i: nat)
    requires AlikeFields(fs, gs) && i < |fs|
    requires (fs[i].Some? ==> !fs[i].value.VRaw? && !fs[i].value.VModel? && !fs[i].value.VModels?)
    ensures |gs| == |fs| && gs[i] == fs[i]
  {
    AlikeAt(fs, gs, i);
    PlainSame(fs[i], gs[i]);
  }

  lemma ProofAt(p: VCProof, fs: Fields, gs: Fields, i: nat)
    requires AlikeFields(fs, gs) && i < |fs| && fs[i] == Model(VCProofFields(p))
    ensures |gs| == |fs| && gs[i] == fs[i] && VCProofOf(AsModel(gs[i])) == p
  {
    hide VCProofOf, VCProofFields, AlikeFields, AlikeField, Alike, TypedFields, SameValue, NoRaw, IsDict;
    AlikeAt(fs, gs, i);
    VCProofTyped(p);
    SmallNoRaw();
    ModelSame(VC_PROOF, VCProofFields(p), gs[i]);
    VCProofBack(p);
  }

  lemma DescriptorAt(d: Descriptor, fs: Fields, gs: Fields, i: nat)
    requires AlikeFields(fs, gs) && i < |fs| && fs[i] == Model(DescriptorFields(d))
    ensures |gs| == |fs| && gs[i] == fs[i] && DescriptorOf(AsModel(gs[i])) == d
  {
    hide DescriptorOf, DescriptorFields, AlikeFields, AlikeField, Alike, TypedFields, SameValue, NoRaw, IsDict;
    AlikeAt(fs, gs, i);
    DescriptorTyped(d);
    SmallNoRaw();
    ModelSame(DESCRIPTOR, DescriptorFields(d), gs[i]);
    DescriptorBack(d);
  }

  lemma RequestAt(r: Request, fs: Fields, gs: Fields, i: nat)
    requires AlikeFields(fs, gs) && i < |fs| && fs[i] == Model(RequestFields(r))
    ensures |gs| == |fs| && RequestOf(AsModel(gs[i])) == r
  {
    hide RequestOf, RequestFields, AlikeFields, AlikeField, Alike, TypedFields, SameValue, NoRaw, IsDict;
    AlikeAt(fs, gs, i);
    RequestTyped(r);
    RequestNoRaw();
    ModelSame(REQUEST, RequestFields(r), gs[i]);
    RequestBack(r);
  }

  lemma ApprovalAt(a: Approval, fs: Fields, gs: Fields, i: nat)
    requires AlikeFields(fs, gs) && i < |fs| && fs[i] == Model(ApprovalFields(a))
    ensures |gs| == |fs| && ApprovalOf(AsModel(gs[i])) == a
  {
    hide ApprovalOf, ApprovalFields, AlikeFields, AlikeField, Alike, TypedFields, SameValue, NoRaw, IsDict;
    AlikeAt(fs, gs, i);
    ApprovalTyped(a);
    ApprovalNoRaw();
    ModelSame(APPROVAL, ApprovalFields(a), gs[i]);
    ApprovalBack(a);
  }

  lemma ClaimRead(c: Claim, gs: Fields)
    requires AlikeFields(ClaimFields(c), gs)
    ensures SameClaim(c, ClaimOf(gs))
  {
    hide VCProofOf, VCProofFields, AlikeFields, AlikeField, Alike, TypedFields, SameValue, NoRaw, IsDict;
    var fs := ClaimFields(c);
    PlainAt(fs, gs, 0);
    PlainAt(fs, gs, 1);
    PlainAt(fs, gs, 2);
    AlikeAt(fs, gs, 3);
    RawSame(c.issuer, gs[3]);
    PlainAt(fs, gs, 4);
    AlikeAt(fs, gs, 5);
    RawSame(c.subject, gs[5]);
    ProofAt(c.proof, fs, gs, 6);
  }

  lemma PresentationPlain(p: Presentation, gs: Fields)
    requires AlikeFields(PresentationFields(p), gs)
    ensures |gs| == 9 && forall i | i in {0, 1, 2, 4, 5} :: gs[i] == PresentationFields(p)[i]
  {
    hide VCProofFields, DescriptorFields, ClaimModels, AlikeFields, AlikeField, Alike;
    var fs := PresentationFields(p);
    PlainAt(fs, gs, 0);
    PlainAt(fs, gs, 1);
    PlainAt(fs, gs, 2);
    PlainAt(fs, gs, 4);
    PlainAt(fs, gs, 5);
  }

  lemma PresentationCarried(p: Presentation, gs: Fields)
    requires AlikeFields(PresentationFields(p), gs)
    ensures |gs| == 9 && SameValue(p.holder, AsRaw(gs[3])) && (p.credentials.Some? <==> gs[7].Some?)
    ensures p.credentials.Some? ==> SameClaims(p.credentials.value, ClaimsOf(AsModels(gs[7])))
  {
    hide VCProofFields, DescriptorFields, ClaimOf, ClaimFields, SameClaims, ClaimModels, ClaimsOf, AlikeFields,
      AlikeField, Alike, TypedFields, SameValue, NoRaw, IsDict;
    var fs := PresentationFields(p);
    AlikeAt(fs, gs, 3);
    RawSame(p.holder, gs[3]);
    AlikeAt(fs, gs, 7);
    if p.credentials.Some? { ClaimsRead(p.credentials.value, gs[7]); } else { PlainSame(fs[7], gs[7]); }
  }

  lemma PresentationBound(p: Presentation, gs: Fields)
    requires AlikeFields(PresentationFields(p), gs)
    ensures |gs| == 9 && VCProofOf(AsModel(gs[8])) == p.proof
    ensures p.binding == if gs[6].Some? then Some(DescriptorOf(AsModel(gs[6]))) else None
  {
    hide VCProofOf, VCProofFields, DescriptorOf, DescriptorFields, ClaimModels, AlikeFields, AlikeField, Alike,
      TypedFields, NoRaw;
    var fs := PresentationFields(p);
    if p.binding.Some? { DescriptorAt(p.binding.value, fs, gs, 6); } else { PlainAt(fs, gs, 6); }
    ProofAt(p.proof, fs, gs, 8);
  }

  lemma PresentationRead(p: Presentation, gs: Fields)
    requires AlikeFields(PresentationFields(p), gs)
    ensures SamePresentation(p, PresentationOf(gs))
  {
    hide VCProofOf, VCProofFields, DescriptorOf, DescriptorFields, ClaimOf, ClaimFields, SameClaims, ClaimModels,
      ClaimsOf, AlikeFields, AlikeField, Alike, TypedFields, SameValue, NoRaw, IsDict;
    PresentationPlain(p, gs);
    PresentationCarried(p, gs);
    PresentationBound(p, gs);
    assert AsMaybeList(gs[0]) == p.context && AsTxt(gs[1]) == p.id && AsList(gs[2]) == p.types;
    assert AsMaybeBlob(gs[4]) == p.challenge && AsMaybeTxt(gs[5]) == p.domain;
  }

  lemma ClaimsRead(cs: seq<Claim>, g: Option<Value>)
    requires AlikeField(Some(VModels(ClaimModels(cs))), g)
    ensures g.Some? && SameClaims(cs, ClaimsOf(AsModels(g)))
  {
    hide ClaimOf, ClaimFields, SameClaim, AlikeFields;
    var vs := ClaimModels(cs);
    forall i | 0 <= i < |cs| ensures SameClaim(cs[i], ClaimsOf(AsModels(g))[i]) {
      assert Alike(vs[i], g.value.models[i]);
      ClaimRead(cs[i], g.value.models[i].fields);
    }
  }

  lemma ModelAt(fs: Fields, gs: Fields, i: nat, inner: Fields)
    requires AlikeFields(fs, gs) && i < |fs| && fs[i] == Model(inner)
    ensures |gs| == |fs| && gs[i].Some? && gs[i].value.VModel? && AlikeFields(inner, AsModel(gs[i]))
  {
    AlikeAt(fs, gs, i);
  }

  lemma CompletionPlain(e: Completion, gs: Fields)
    requires AlikeFields(CompletionFields(e), gs)
    ensures |gs| == 10 && forall i | 5 <= i < 10 :: gs[i] == CompletionFields(e)[i]
  {
    hide RequestFields, ApprovalFields, ClaimFields, PresentationFields, DescriptorFields, AlikeFields, AlikeField,
      Alike;
    var fs := CompletionFields(e);
    PlainAt(fs, gs, 5);
    PlainAt(fs, gs, 6);
    PlainAt(fs, gs, 7);
    PlainAt(fs, gs, 8);
    PlainAt(fs, gs, 9);
  }

  lemma CompletionSigned(e: Completion, gs: Fields)
    requires AlikeFields(CompletionFields(e), gs)
    ensures |gs| == 10 && RequestOf(AsModel(gs[0])) == e.request && ApprovalOf(AsModel(gs[1])) == e.approval
    ensures DescriptorOf(AsModel(gs[4])) == e.issuer
  {
    hide RequestOf, RequestFields, ApprovalOf, ApprovalFields, ClaimFields, PresentationFields, DescriptorOf,
      DescriptorFields, AlikeFields, AlikeField, Alike, TypedFields, NoRaw;
    var fs := CompletionFields(e);
    RequestAt(e.request, fs, gs, 0);
    ApprovalAt(e.approval, fs, gs, 1);
    DescriptorAt(e.issuer, fs, gs, 4);
  }

  lemma CompletionCarried(e: Completion, gs: Fields)
    requires AlikeFields(CompletionFields(e), gs)
    ensures |gs| == 10 && SameClaim(e.claim, ClaimOf(AsModel(gs[2])))
    ensures SamePresentation(e.presentation, PresentationOf(AsModel(gs[3])))
  {
    hide RequestFields, ApprovalFields, ClaimOf, ClaimFields, PresentationOf, PresentationFields, DescriptorFields,
      SameClaim, SamePresentation, AlikeFields, AlikeField, Alike, TypedFields, SameValue, NoRaw, IsDict;
    var fs := CompletionFields(e);
    ModelAt(fs, gs, 2, ClaimFields(e.claim));
    ClaimRead(e.claim, AsModel(gs[2]));
    ModelAt(fs, gs, 3, PresentationFields(e.presentation));
    PresentationRead(e.presentation, AsModel(gs[3]));
  }

  lemma CompletionRead(e: Completion, gs: Fields)
    requires AlikeFields(CompletionFields(e), gs)
    ensures SameCompletion(e, CompletionOf(gs))
  {
    hide RequestOf, RequestFields, ApprovalOf, ApprovalFields, ClaimOf, ClaimFields, PresentationOf,
      PresentationFields, DescriptorOf, DescriptorFields, SameClaim, SamePresentation, AlikeFields, AlikeField, Alike,
      TypedFields, SameValue, NoRaw, IsDict;
    CompletionPlain(e, gs);
    CompletionSigned(e, gs);
    CompletionCarried(e, gs);
    assert AsTxt(gs[5]) == e.audience && AsTxt(gs[6]) == e.origin && AsBlob(gs[7]) == e.challenge;
    assert AsTxt(gs[8]) == e.domain && AsMaybeBool(gs[9]) == e.requireEvidence;
  }

  /** The other way: such records travel as fields that are alike. */
  lemma PlainAlike(f: Option<Value>)
    requires f.Some? ==> !f.value.VRaw? && !f.value.VModel? && !f.value.VModels?
    ensures AlikeField(f, f)
  {
  }

  lemma RawAlike(j: Json, k: Json)
    requires SameValue(j, k)
    ensures AlikeField(Some(VRaw(j)), Some(VRaw(k)))
  {
  }

  lemma ModelAlike(specs: seq<Spec>, fs: Fields)
    requires TypedFields(specs, fs) && NoRaw(KModel(specs))
    ensures AlikeField(Model(fs), Model(fs))
  {
    AlikeSame(VModel(fs), VModel(fs), KModel(specs));
  }

  lemma ProofAlike(p: VCProof)
    ensures AlikeField(Model(VCProofFields(p)), Model(VCProofFields(p)))
  {
    hide VCProofFields, TypedFields, NoRaw, AlikeField;
    VCProofTyped(p);
    SmallNoRaw();
    ModelAlike(VC_PROOF, VCProofFields(p));
  }

  lemma DescriptorAlike(d: Descriptor)
    ensures AlikeField(Model(DescriptorFields(d)), Model(DescriptorFields(d)))
  {
    hide DescriptorFields, TypedFields, NoRaw, AlikeField;
    DescriptorTyped(d);
    SmallNoRaw();
    ModelAlike(DESCRIPTOR, DescriptorFields(d));
  }

  lemma ClaimWritten(c: Claim, d: Claim)
    requires SameClaim(c, d)
    ensures AlikeFields(ClaimFields(c), ClaimFields(d))
  {
    hide VCProofFields, AlikeField, SameValue;
    PlainAlike(MaybeList(c.context));
    PlainAlike(Txt(c.id));
    PlainAlike(List(c.types));
    RawAlike(c.issuer, d.issuer);
    PlainAlike(Txt(c.issued));
    RawAlike(c.subject, d.subject);
    ProofAlike(c.proof);
  }

  lemma ClaimsWritten(cs: seq<Claim>, ds: seq<Claim>)
    requires SameClaims(cs, ds)
    ensures AlikeField(Some(VModels(ClaimModels(cs))), Some(VModels(ClaimModels(ds))))
  {
    hide ClaimFields, SameClaim, AlikeFields;
    var vs, ws := ClaimModels(cs), ClaimModels(ds);
    forall i | 0 <= i < |vs| ensures Alike(vs[i], ws[i]) {
      ClaimWritten(cs[i], ds[i]);
    }
  }

  lemma PresentationWritten(p: Presentation, q: Presentation)
    requires SamePresentation(p, q)
    ensures AlikeFields(PresentationFields(p), PresentationFields(q))
  {
    hide VCProofFields, DescriptorFields, ClaimModels, AlikeField, SameClaims, SameValue;
    PlainAlike(MaybeList(p.context));
    PlainAlike(Txt(p.id));
    PlainAlike(List(p.types));
    RawAlike(p.holder, q.holder);
    PlainAlike(MaybeBlob(p.challenge));
    PlainAlike(MaybeTxt(p.domain));
    PlainAlike(None);
    if p.binding.Some? { DescriptorAlike(p.binding.value); }
    if p.credentials.Some? { ClaimsWritten(p.credentials.value, q.credentials.value); }
    ProofAlike(p.proof);
  }

  lemma PresentationBack(p: Presentation)
    ensures PresentationOf(PresentationFields(p)) == p
  {
    hide VCProofOf, VCProofFields, DescriptorOf, DescriptorFields, ClaimOf, ClaimFields;
    VCProofBack(p.proof);
    if p.binding.Some? { DescriptorBack(p.binding.value); }
    if p.credentials.Some? {
      var cs := p.credentials.value;
      forall i | 0 <= i < |cs| ensures ClaimsOf(ClaimModels(cs))[i] == cs[i] {
        ClaimBack(cs[i]);
      }
      assert ClaimsOf(ClaimModels(cs)) == cs;
    }
  }

  lemma CompletionBack(e: Completion)
    ensures CompletionOf(CompletionFields(e)) == e
  {
    hide RequestOf, RequestFields, ApprovalOf, ApprovalFields, ClaimOf, ClaimFields, PresentationOf,
      PresentationFields, DescriptorOf, DescriptorFields;
    RequestBack(e.request);
    ApprovalBack(e.approval);
    ClaimBack(e.claim);
    PresentationBack(e.presentation);
    DescriptorBack(e.issuer);
  }
}
