/** Linking a new key to an entity, on both sides of the wire. */
module Enrollment {
  import opened Basics
  import opened Json
  import opened Canonical
  import opened PyText
  import opened Wire
  import opened LinkModels
  import KeyOrder
  import Base58

  const CREDENTIAL_TYPE := "SameEntityIdentityLinkCredential"
  const PRESENTATION_TYPE := "SameEntityIdentityLinkPresentation"
  const ISSUER_TYPES := {"existingDevice", "custodian", "recoveryAuthority"}
  const VC_CONTEXT := ["https://www.w3.org/2018/credentials/v1", "https://www.w3.org/2018/credentials/examples/v1"]

  datatype Failure =
    | InvalidPurpose | MissingEntityBinding | InvalidNonce | MissingRequiredContext | InvalidExpiry | Expired
    | MissingRequestProof | IdentityMismatch | InvalidRequestSignature | RequestHashMismatch | AudienceMismatch
    | OriginMismatch | ReplayDetected | IssuerTypeNotAllowed | SameKeyOnBothSides | MissingFreshAuth
    | InvalidFreshAuthEvidence | ScopeEscalation | MissingApprovalProof | IssuerMismatch | InvalidApprovalSignature
    | InvalidCredentialType | InvalidCredentialSignature | InvalidCredentialSubject | HolderMismatch
    | InvalidPresentation | MissingPublicKey

  /** What an approver is asked. */
  datatype Wish = Wish(
    request: Request, issuerType: string, domains: Option<seq<string>>, contexts: Option<seq<string>>,
    scopes: Option<seq<string>>, expiresAt: Option<string>, jti: Option<string>, freshRequired: bool,
    performedAt: Option<string>, evidence: Option<Evidence>, revocationReference: Option<string>)

  datatype Package = Package(approval: Approval, claim: Claim, issuer: Descriptor)

  type Signer = string -> Bytes

  /** SHA-256 and Ed25519 over the text that is signed, and the calendar: whole seconds to
      text and back. */
  datatype World = World(
    hash: string -> Bytes,
    verifies: (Bytes, string, Bytes) -> bool,
    iso: int -> string,
    parse: string -> Option<int>)

  predicate EndsInZ(text: string) {
    text != "" && text[|text| - 1] == 'Z'
  }

  ghost predicate Ideal(w: World) {
    forall n :: w.parse(w.iso(n)) == Some(n) && EndsInZ(w.iso(n))
  }

  // ---- what is signed ----

  function SignedRequest(r: Request): string {
    CanonicalJson(Obj(SignedMembers(REQUEST, RequestFields(r), {PROOF_KEY})), KeyOrder.Foundation, true)
  }

  function SignedApproval(a: Approval): string {
    CanonicalJson(Obj(SignedMembers(APPROVAL, ApprovalFields(a), {PROOF_KEY})), KeyOrder.Foundation, true)
  }

  /** VCClaim.unsigned_bytes. */
  function SignedClaim(c: Claim): string {
    CanonicalJson(Obj(SignedMembers(CLAIM, ClaimFields(c), {PROOF_KEY})), KeyOrder.Encoder, false)
  }

  /** VCPresentation.unsigned_bytes. */
  function SignedPresentation(p: Presentation): string {
    CanonicalJson(Obj(SignedMembers(PRESENTATION, PresentationFields(p), {PROOF_KEY})), KeyOrder.Encoder, false)
  }

  // ---- primitives ----

  predicate Verifies(w: World, signature: Bytes, data: string, d: Descriptor) {
    && d.algorithm == "EdDSA" && d.curve == "Curve25519" && |d.publicKey| == 32 && |signature| == 64
    && w.verifies(d.publicKey, data, signature)
  }

  predicate SameKey(a: Descriptor, b: Descriptor) {
    a.uuid == b.uuid && a.publicKey == b.publicKey && a.algorithm == b.algorithm && a.curve == b.curve
  }

  function ProofType(d: Descriptor): Option<string> {
    if d.algorithm == "EdDSA" && d.curve == "Curve25519" then Some("Ed25519Signature2020")
    else if d.algorithm == "ECDSA" && d.curve == "P256" then Some("EcdsaSecp256r1Signature2019")
    else None
  }

  function Did(d: Descriptor): Option<string> {
    Base58.DidKey(d.curve, d.publicKey)
  }

  /** _ensure_not_expired. */
  function Expiry(w: World, text: string, now: real): Option<Failure> {
    match w.parse(text)
    case None => Some(InvalidExpiry)
    case Some(n) => if (n as real) < now then Some(Expired) else None
  }

  predicate Within(approved: seq<string>, requested: seq<string>) {
    forall item | item in approved :: item in requested
  }

  // ---- the checks, in the source's order ----

  function RequestProblem(w: World, r: Request, now: real): Option<Failure> {
    if r.purpose != "link_identity" then Some(InvalidPurpose)
    else if r.binding.None? then Some(MissingEntityBinding)
    else if |r.nonce| < 16 then Some(InvalidNonce)
    else if Strip(r.audience) == "" || Strip(r.origin) == "" || r.domains == [] || r.contexts == []
         || r.scopes == [] then Some(MissingRequiredContext)
    else if Expiry(w, r.expiresAt, now).Some? then Expiry(w, r.expiresAt, now)
    else if r.proof.None? || r.proof.value.signature.None? || r.proof.value.signature.value == [] then
      Some(MissingRequestProof)
    else if r.proof.value.signer != r.newIdentity.uuid || r.proof.value.algorithm != r.newIdentity.algorithm
         || r.proof.value.curve != r.newIdentity.curve then Some(IdentityMismatch)
    else if !Verifies(w, r.proof.value.signature.value, SignedRequest(r), r.newIdentity) then
      Some(InvalidRequestSignature)
    else None
  }

  function RequestHash(w: World, r: Request): Bytes {
    w.hash(SignedRequest(r))
  }

  function EvidenceProblem(e: Completion, hash: Bytes, verdict: Option<bool>): Option<Failure> {
    if e.requireEvidence != Some(true) then None
    else if e.approval.evidence.None? then Some(MissingFreshAuth)
    else if e.approval.evidence.value.challenge != hash then Some(InvalidFreshAuthEvidence)
    else if verdict != Some(true) then Some(InvalidFreshAuthEvidence)
    else None
  }

  function ApprovalMismatch(e: Completion, hash: Bytes): Option<Failure> {
    var a, r := e.approval, e.request;
    if a.purpose != "approve_link_identity" then Some(InvalidPurpose)
    else if a.requestHash != hash then Some(RequestHashMismatch)
    else if !SameKey(a.subject, r.newIdentity) then Some(IdentityMismatch)
    else if Some(a.binding) != r.binding then Some(IdentityMismatch)
    else if a.audience != r.audience || a.audience != e.audience then Some(AudienceMismatch)
    else if a.origin != r.origin || a.origin != e.origin then Some(OriginMismatch)
    else None
  }

  function ApprovalProofProblem(w: World, a: Approval, issuer: Descriptor): Option<Failure> {
    if a.proof.None? || a.proof.value.signature.None? || a.proof.value.signature.value == [] then
      Some(MissingApprovalProof)
    else if a.proof.value.issuer != issuer.uuid || a.proof.value.issuerType != a.issuerType
         || a.proof.value.algorithm != issuer.algorithm || a.proof.value.curve != issuer.curve
         || a.issuerUuid != issuer.uuid then Some(IssuerMismatch)
    else if !Verifies(w, a.proof.value.signature.value, SignedApproval(a), issuer) then Some(InvalidApprovalSignature)
    else None
  }

  function ApprovalProblem(
    w: World, e: Completion, hash: Bytes, now: real, used: set<string>, verdict: Option<bool>
  ): Option<Failure> {
    var a, r := e.approval, e.request;
    if ApprovalMismatch(e, hash).Some? then ApprovalMismatch(e, hash)
    else if Strip(a.jti) == "" then Some(MissingRequiredContext)
    else if a.jti in used then Some(ReplayDetected)
    else if a.issuerType !in ISSUER_TYPES then Some(IssuerTypeNotAllowed)
    else if a.issuerUuid == r.newIdentity.uuid || SameKey(e.issuer, r.newIdentity) then Some(SameKeyOnBothSides)
    else if !a.freshRequired || a.performedAt.None? then Some(MissingFreshAuth)
    else if EvidenceProblem(e, hash, verdict).Some? then EvidenceProblem(e, hash, verdict)
    else if Expiry(w, a.expiresAt, now).Some? then Expiry(w, a.expiresAt, now)
    else if !Within(a.domains, r.domains) || !Within(a.contexts, r.contexts) || !Within(a.scopes, r.scopes) then
      Some(ScopeEscalation)
    else ApprovalProofProblem(w, a, e.issuer)
  }

  /** VCClaim.verify. */
  predicate ClaimVerifies(w: World, c: Claim, issuer: Descriptor) {
    && Did(issuer).Some? && c.issuer == Str(Did(issuer).value)
    && c.proof.signerUuid == issuer.uuid && c.proof.purpose == "assertionMethod"
    && ProofType(issuer) == Some(c.proof.kind)
    && 0 < |c.proof.signature| <= 512
    && Verifies(w, c.proof.signature, SignedClaim(c), issuer)
  }

  /** SameEntityIdentityLinkCredentialSubject.from_wire. */
  function ReadSubject(j: Json): Option<Subject> {
    if !j.Obj? then None else
      var fs := FromWire(SUBJECT, j.members);
      if fs.None? then None else Some(SubjectOf(fs.value))
  }

  function SubjectProblem(w: World, s: Subject, e: Completion, hash: Bytes, now: real): Option<Failure> {
    var a, r := e.approval, e.request;
    if s.linkType != "same_entity" then Some(InvalidCredentialSubject)
    else if Did(r.newIdentity).None? then Some(MissingPublicKey)
    else if s.id != Did(r.newIdentity).value then Some(HolderMismatch)
    else if !SameKey(s.linked, r.newIdentity) then Some(IdentityMismatch)
    else if s.binding != a.binding || s.requestHash != hash || s.domains != a.domains || s.contexts != a.contexts
         || s.scopes != a.scopes then Some(InvalidCredentialSubject)
    else Expiry(w, s.validUntil, now)
  }

  function ClaimProblem(w: World, e: Completion, hash: Bytes, now: real): Option<Failure> {
    var c := e.claim;
    if CREDENTIAL_TYPE !in c.types then Some(InvalidCredentialType)
    else if !c.issuer.Str? then Some(IssuerMismatch)
    else if Did(e.issuer).None? then Some(MissingPublicKey)
    else if c.issuer.s != Did(e.issuer).value then Some(IssuerMismatch)
    else if !ClaimVerifies(w, c, e.issuer) then Some(InvalidCredentialSignature)
    else if ReadSubject(c.subject).None? then Some(InvalidCredentialSubject)
    else SubjectProblem(w, ReadSubject(c.subject).value, e, hash, now)
  }

  /** VCPresentation.verify_holder_proof. */
  predicate HolderProves(w: World, p: Presentation, challenge: Bytes, domain: string) {
    && p.challenge == Some(challenge) && p.domain == Some(domain) && p.binding.Some?
    && var holder := p.binding.value;
    && p.proof.purpose == "authentication" && p.proof.signerUuid == holder.uuid && p.proof.signature != []
    && Did(holder).Some? && p.holder == Str(Did(holder).value)
    && ProofType(holder) == Some(p.proof.kind)
    && Verifies(w, p.proof.signature, SignedPresentation(p), holder)
  }

  predicate Presents(p: Presentation, id: string) {
    p.credentials.Some? && exists c | c in p.credentials.value :: c.id == id
  }

  function PresentationProblem(w: World, e: Completion): Option<Failure> {
    var p, linked := e.presentation, e.request.newIdentity;
    if PRESENTATION_TYPE !in p.types || !Presents(p, e.claim.id) || p.binding.None?
       || !SameKey(p.binding.value, linked) || !p.holder.Str? then Some(HolderMismatch)
    else if Did(linked).None? then Some(MissingPublicKey)
    else if p.holder.s != Did(linked).value then Some(HolderMismatch)
    else if !HolderProves(w, p, e.challenge, e.domain) then Some(InvalidPresentation)
    else None
  }

  /** verify_completion: all four pieces. */
  function VerifyCompletion(
    w: World, e: Completion, now: real, used: set<string>, verdict: Option<bool>
  ): Result<Record, Failure> {
    var hash := RequestHash(w, e.request);
    if RequestProblem(w, e.request, now).Some? then Err(RequestProblem(w, e.request, now).value)
    else if ApprovalProblem(w, e, hash, now, used, verdict).Some? then
      Err(ApprovalProblem(w, e, hash, now, used, verdict).value)
    else if ClaimProblem(w, e, hash, now).Some? then Err(ClaimProblem(w, e, hash, now).value)
    else if PresentationProblem(w, e).Some? then Err(PresentationProblem(w, e).value)
    else
      var a := e.approval;
      Ok(Record(a.approvalId, a.binding, e.request.newIdentity, a.domains, a.contexts, a.scopes, e.issuer.uuid,
        a.issuerType, "active", w.iso(now.Floor), None, None, ReadSubject(e.claim.subject).value.revocationReference))
  }

  // ---- the builders ----

  function OrElse<T>(o: Option<T>, d: T): T {
    if o.Some? then o.value else d
  }

  function ExpiryMoment(w: World, wish: Wish, now: real): Option<real> {
    match wish.expiresAt
    case None => Some(now + 300.0)
    case Some(text) => if w.parse(text).Some? then Some(w.parse(text).value as real) else None
  }

  function Draft(w: World, wish: Wish, issuer: Descriptor, now: real, approvalId: string, jti: string): Approval
    requires wish.request.binding.Some?
  {
    var r := wish.request;
    Approval(1, approvalId, "approve_link_identity", RequestHash(w, r), r.binding.value, r.newIdentity,
      OrElse(wish.domains, r.domains), OrElse(wish.contexts, r.contexts), OrElse(wish.scopes, r.scopes),
      issuer.uuid, wish.issuerType, r.audience, r.origin, w.iso(now.Floor),
      w.iso(OrElse(ExpiryMoment(w, wish, now), now).Floor), jti, wish.freshRequired,
      if wish.freshRequired then Some("local-user-presence") else None,
      if wish.performedAt.None? && wish.freshRequired then Some(w.iso(now.Floor)) else wish.performedAt,
      wish.evidence,
      Some(ApprovalProof("signature", issuer.uuid, wish.issuerType, issuer.algorithm, issuer.curve, None)))
  }

  function Signed(a: Approval, sign: Signer): Approval
    requires a.proof.Some?
  {
    a.(proof := Some(a.proof.value.(signature := Some(sign(SignedApproval(a))))))
  }

  function SubjectFor(a: Approval, r: Request, did: string, revocationReference: Option<string>): Subject {
    Subject(did, "same_entity", a.binding, r.newIdentity, a.domains, a.contexts, a.scopes, a.requestHash,
      if a.freshRequired then "fresh_auth_and_possession" else "possession_only",
      if a.freshRequired then "high" else "medium", a.expiresAt, revocationReference)
  }

  function SubjectWire(s: Subject): seq<Member> {
    var ms := ToWire(SUBJECT, SubjectFields(s));
    if ms.Some? then ms.value else []
  }

  /** VCClaim.issue, with the subject as it goes over the wire. */
  function IssueClaim(
    w: World, issuer: Descriptor, subject: Descriptor, s: Subject, sign: Signer, claimUuid: string, now: real
  ): Claim
    requires Did(issuer).Some? && ProofType(issuer).Some? && Did(subject).Some?
  {
    var c := Claim(Some(VC_CONTEXT), "cell:///identity/" + subject.uuid + "/claims/" + claimUuid,
      ["VerifiableCredential", CREDENTIAL_TYPE], Str(Did(issuer).value), w.iso(now.Floor),
      Obj(Put(SubjectWire(s), "id", Str(Did(subject).value))),
      VCProof(ProofType(issuer).value, w.iso(now.Floor), "assertionMethod", issuer.uuid, []));
    c.(proof := c.proof.(signature := sign(SignedClaim(c))))
  }

  /** approve_enrollment. The id in use is the first non-empty of those given. */
  function Approve(
    w: World, wish: Wish, issuer: Descriptor, sign: Signer, now: real, approvalId: string, claimUuid: string,
    jti: Option<string>
  ): Result<Package, Failure> {
    var r := wish.request;
    if RequestProblem(w, r, now).Some? then Err(RequestProblem(w, r, now).value)
    else if ExpiryMoment(w, wish, now).None? then Err(InvalidExpiry)
    else if wish.performedAt.Some? && w.parse(wish.performedAt.value).None? then Err(InvalidExpiry)
    else if Did(r.newIdentity).None? || ProofType(issuer).None? || Did(issuer).None? then Err(MissingPublicKey)
    else
      var chosen :=
        if OrElse(jti, "") != "" then jti.value
        else if OrElse(wish.jti, "") != "" then wish.jti.value
        else approvalId;
      var a := Signed(Draft(w, wish, issuer, now, approvalId, chosen), sign);
      var s := SubjectFor(a, r, Did(r.newIdentity).value, wish.revocationReference);
      Ok(Package(a, IssueClaim(w, issuer, r.newIdentity, s, sign, claimUuid, now), issuer))
  }

  /** bind_and_sign. */
  function BindAndSign(
    w: World, credentials: seq<Claim>, holder: Descriptor, sign: Signer, challenge: Bytes, domain: string,
    presentationUuid: string, now: real
  ): Result<Presentation, Failure> {
    if ProofType(holder).None? || Did(holder).None? then Err(MissingPublicKey)
    else
      var p := Presentation(Some(VC_CONTEXT), "cell:///identity/" + holder.uuid + "/claims/" + presentationUuid,
        ["VerifiableCredential", PRESENTATION_TYPE], Str(Did(holder).value), Some(challenge), Some(domain),
        Some(holder), Some(credentials),
        VCProof(ProofType(holder).value, w.iso(now.Floor), "authentication", holder.uuid, []));
      Ok(p.(proof := p.proof.(signature := sign(SignedPresentation(p)))))
  }

  // ---- reading from the wire ----

  /** VCProof.from_wire asks for an RFC 3339 date. */
  predicate DatedProof(w: World, p: VCProof) {
    w.parse(p.created).Some? && (EndsInZ(p.created) || '+' in p.created)
  }

  /** VCClaim.from_wire: the shapes of the raw members, and the dates. */
  predicate ShapedClaim(w: World, c: Claim) {
    (c.issuer.Str? || c.issuer.Obj?) && c.subject.Obj? && w.parse(c.issued).Some? && DatedProof(w, c.proof)
  }

  predicate ShapedPresentation(w: World, p: Presentation) {
    DatedProof(w, p.proof) && (p.credentials.Some? ==> forall c | c in p.credentials.value :: ShapedClaim(w, c))
  }

  /** IdentityLinkCompletionEnvelope.from_wire; any check that fails raises the same error. */
  function ReadCompletion(w: World, ms: seq<Member>): Option<Completion> {
    var fs := FromWire(COMPLETION, ms);
    if fs.None? then None else
      var e := CompletionOf(fs.value);
      if ShapedClaim(w, e.claim) && ShapedPresentation(w, e.presentation) then Some(e) else None
  }

  /** The same of a text. */
  function ReadText(w: World, text: string): Option<Completion> {
    var j := Parse(text);
    if j.None? || !j.value.Obj? then None else ReadCompletion(w, j.value.members)
  }

  function CompletionWire(e: Completion): seq<Member> {
    var ms := ToWire(COMPLETION, CompletionFields(e));
    if ms.Some? then ms.value else []
  }

  /** What an envelope in memory can be: raw members are dicts, in the shapes that are read. */
  ghost predicate Readable(w: World, e: Completion) {
    && CarriedClaim(e.claim) && CarriedPresentation(e.presentation)
    && ShapedClaim(w, e.claim) && ShapedPresentation(w, e.presentation)
  }

  // ---- the verdict survives the wire ----

  lemma SameDict(j: Json, k: Json)
    requires SameValue(j, k)
    ensures (j.Obj? <==> k.Obj?) && (j.Str? ==> k == j) && (k.Str? ==> k == j)
  {
  }

  lemma SubjectSame(j: Json, k: Json)
    requires IsDict(j) && IsDict(k) && SameValue(j, k)
    ensures ReadSubject(j) == ReadSubject(k)
  {
    hide FromWire, SubjectOf;
    SameDict(j, k);
    SubjectNoRaw();
    if j.Obj? { FromWireSame(j.members, k.members, SUBJECT); }
  }

  lemma ClaimSignsSame(c: Claim, d: Claim)
    requires SameClaim(c, d) && CarriedClaim(c) && CarriedClaim(d)
    ensures SignedClaim(c) == SignedClaim(d)
  {
    hide CanonicalJson, ClaimFields, SignedMembers, TypedFields, AlikeFields, Proper;
    ClaimTyped(c);
    ClaimTyped(d);
    ClaimWritten(c, d);
    ClaimProper();
    AlikeSignsAlike(CLAIM, ClaimFields(c), ClaimFields(d), {PROOF_KEY}, KeyOrder.Encoder, false);
  }

  lemma PresentationSignsSame(p: Presentation, q: Presentation)
    requires SamePresentation(p, q) && CarriedPresentation(p) && CarriedPresentation(q)
    ensures SignedPresentation(p) == SignedPresentation(q)
  {
    hide CanonicalJson, PresentationFields, SignedMembers, TypedFields, AlikeFields, Proper;
    PresentationTyped(p);
    PresentationTyped(q);
    PresentationWritten(p, q);
    PresentationProper();
    AlikeSignsAlike(PRESENTATION, PresentationFields(p), PresentationFields(q), {PROOF_KEY}, KeyOrder.Encoder, false);
  }

  lemma ClaimProblemSame(w: World, e: Completion, f: Completion, hash: Bytes, now: real)
    requires SameCompletion(e, f) && CarriedClaim(e.claim) && CarriedClaim(f.claim)
    ensures ClaimProblem(w, e, hash, now) == ClaimProblem(w, f, hash, now)
  {
    hide SignedClaim, ReadSubject, Verifies, Base58.DidKey, SamePresentation;
    ClaimSignsSame(e.claim, f.claim);
    SubjectSame(e.claim.subject, f.claim.subject);
    SameDict(e.claim.issuer, f.claim.issuer);
  }

  lemma PresentsSame(p: Presentation, q: Presentation, id: string)
    requires SamePresentation(p, q)
    ensures Presents(p, id) <==> Presents(q, id)
  {
    if p.credentials.Some? {
      var cs, ds := p.credentials.value, q.credentials.value;
      forall i | 0 <= i < |cs| ensures ds[i].id == cs[i].id { assert SameClaim(cs[i], ds[i]); }
      if Presents(p, id) {
        var i :| 0 <= i < |cs| && cs[i].id == id;
        assert ds[i] in ds;
      }
      if Presents(q, id) {
        var i :| 0 <= i < |ds| && ds[i].id == id;
        assert cs[i] in cs;
      }
    }
  }

  lemma PresentationProblemSame(w: World, e: Completion, f: Completion)
    requires SameCompletion(e, f) && CarriedPresentation(e.presentation) && CarriedPresentation(f.presentation)
    ensures PresentationProblem(w, e) == PresentationProblem(w, f)
  {
    hide SignedPresentation, Verifies, Base58.DidKey, Presents, CarriedPresentation;
    PresentationSignsSame(e.presentation, f.presentation);
    PresentsSame(e.presentation, f.presentation, e.claim.id);
    SameDict(e.presentation.holder, f.presentation.holder);
  }

  lemma ApprovalProblemSame(
    w: World, e: Completion, f: Completion, hash: Bytes, now: real, used: set<string>, verdict: Option<bool>
  )
    requires SameCompletion(e, f)
    ensures ApprovalProblem(w, e, hash, now, used, verdict) == ApprovalProblem(w, f, hash, now, used, verdict)
  {
    hide SignedApproval, Strip, Within, Verifies;
  }

  /** The check does not see the order of raw members. */
  lemma VerdictSame(w: World, e: Completion, f: Completion, now: real, used: set<string>, verdict: Option<bool>)
    requires SameCompletion(e, f) && CarriedClaim(e.claim) && CarriedPresentation(e.presentation)
    requires CarriedClaim(f.claim) && CarriedPresentation(f.presentation)
    ensures VerifyCompletion(w, e, now, used, verdict) == VerifyCompletion(w, f, now, used, verdict)
  {
    hide RequestProblem, ApprovalProblem, ClaimProblem, PresentationProblem, RequestHash, ReadSubject;
    var hash := RequestHash(w, e.request);
    ApprovalProblemSame(w, e, f, hash, now, used, verdict);
    ClaimProblemSame(w, e, f, hash, now);
    PresentationProblemSame(w, e, f);
    SubjectSame(e.claim.subject, f.claim.subject);
  }

  // ---- raw members that were read are carried ----

  lemma {:induction false} FieldTyped(specs: seq<Spec>, fs: Fields, i: nat)
    requires TypedFields(specs, fs) && i < |specs|
    ensures |fs| == |specs| && if fs[i].None? then specs[i].optional else Typed(fs[i].value, specs[i].kind)
  {
    assert TypedField(specs[i], fs[i]);
  }

  lemma {:induction false} RawTyped(v: Value, k: Kind)
    requires Typed(v, k) && k == KRaw
    ensures v.VRaw? && Carried(v.j)
  {
  }

  lemma {:induction false} ModelTyped(v: Value, k: Kind)
    requires Typed(v, k) && k.KModel?
    ensures v.VModel? && TypedFields(k.specs, v.fields)
  {
  }

  lemma {:induction false} ModelsTyped(v: Value, k: Kind)
    requires Typed(v, k) && k.KModels?
    ensures v.VModels? && forall x | x in v.models :: x.VModel? && TypedFields(k.specs, x.fields)
  {
  }

  lemma RawParts()
    ensures |CLAIM| == 7 && CLAIM[3] == Required("issuer", KRaw) && CLAIM[5] == Required("credentialSubject", KRaw)
    ensures |PRESENTATION| == 9 && PRESENTATION[3] == Required("holder", KRaw) && PRESENTATION[7].kind == KModels(CLAIM)
    ensures |COMPLETION| == 10 && COMPLETION[2] == Required("sameEntityCredential", KModel(CLAIM))
    ensures COMPLETION[3] == Required("presentation", KModel(PRESENTATION))
  {
  }

  lemma ClaimCarried(fs: Fields)
    requires TypedFields(CLAIM, fs)
    ensures CarriedClaim(ClaimOf(fs))
  {
    hide TypedFields, Typed, Carried, VCProofOf;
    RawParts();
    FieldTyped(CLAIM, fs, 3);
    RawTyped(fs[3].value, KRaw);
    FieldTyped(CLAIM, fs, 5);
    RawTyped(fs[5].value, KRaw);
  }

  lemma PresentationCarried(fs: Fields)
    requires TypedFields(PRESENTATION, fs)
    ensures CarriedPresentation(PresentationOf(fs))
  {
    hide ClaimOf, CarriedClaim, TypedFields, Typed, Carried, VCProofOf, DescriptorOf;
    RawParts();
    FieldTyped(PRESENTATION, fs, 3);
    RawTyped(fs[3].value, KRaw);
    FieldTyped(PRESENTATION, fs, 7);
    if fs[7].Some? {
      ModelsTyped(fs[7].value, KModels(CLAIM));
      var vs := AsModels(fs[7]);
      forall c | c in ClaimsOf(vs) ensures CarriedClaim(c) {
        var i :| 0 <= i < |vs| && c == ClaimOf(AsModel(Some(vs[i])));
        assert vs[i] in vs;
        ClaimCarried(vs[i].fields);
      }
    }
  }

  lemma CompletionCarried(fs: Fields)
    requires TypedFields(COMPLETION, fs)
    ensures CarriedClaim(CompletionOf(fs).claim) && CarriedPresentation(CompletionOf(fs).presentation)
  {
    hide ClaimOf, PresentationOf, CarriedClaim, CarriedPresentation, RequestOf, ApprovalOf, DescriptorOf, TypedFields,
      Typed;
    RawParts();
    FieldTyped(COMPLETION, fs, 2);
    ModelTyped(fs[2].value, KModel(CLAIM));
    FieldTyped(COMPLETION, fs, 3);
    ModelTyped(fs[3].value, KModel(PRESENTATION));
    ClaimCarried(AsModel(fs[2]));
    PresentationCarried(AsModel(fs[3]));
  }

  lemma ShapesSame(w: World, e: Completion, f: Completion)
    requires SameCompletion(e, f) && ShapedClaim(w, e.claim) && ShapedPresentation(w, e.presentation)
    ensures ShapedClaim(w, f.claim) && ShapedPresentation(w, f.presentation)
  {
    SameDict(e.claim.issuer, f.claim.issuer);
    SameDict(e.claim.subject, f.claim.subject);
    var p, q := e.presentation, f.presentation;
    if p.credentials.Some? {
      forall d | d in q.credentials.value ensures ShapedClaim(w, d) {
        var i :| 0 <= i < |q.credentials.value| && q.credentials.value[i] == d;
        var c := p.credentials.value[i];
        assert SameClaim(c, d) && c in p.credentials.value;
        SameDict(c.issuer, d.issuer);
        SameDict(c.subject, d.subject);
      }
    }
  }

  /** from_wire(to_wire(e)) is e. */
  lemma WireBack(w: World, e: Completion)
    requires Readable(w, e)
    ensures ReadCompletion(w, CompletionWire(e)) == Some(e) && IsDict(Obj(CompletionWire(e)))
  {
    hide ToWire, FromWire, CompletionFields, CompletionOf, TypedFields, CarriedClaim, CarriedPresentation;
    CompletionTyped(e);
    ModelBack(COMPLETION, CompletionFields(e));
    CompletionBack(e);
  }

  /** Sent as text in either key order, any envelope is read back as the same but for the order
      of raw members, and gets the same verdict and the same record. */
  lemma TextKeepsVerdict(
    w: World, e: Completion, order: KeyOrder.Order, slashes: bool, now: real, used: set<string>, verdict: Option<bool>
  )
    requires Readable(w, e)
    ensures var read := ReadText(w, CanonicalJson(Obj(CompletionWire(e)), order, slashes));
      && read.Some? && SameCompletion(e, read.value)
      && VerifyCompletion(w, read.value, now, used, verdict) == VerifyCompletion(w, e, now, used, verdict)
  {
    hide ToWire, FromWire, CompletionFields, CompletionOf, TypedFields, AlikeFields, CarriedClaim,
      CarriedPresentation, ShapedClaim, ShapedPresentation, SameCompletion, VerifyCompletion, Parse, CanonicalJson,
      Proper;
    CompletionTyped(e);
    CompletionProper();
    RawTextBack(COMPLETION, CompletionFields(e), order, slashes);
    var text := CanonicalJson(Obj(CompletionWire(e)), order, slashes);
    var gs := FromWire(COMPLETION, Parse(text).value.members).value;
    CompletionRead(e, gs);
    var f := CompletionOf(gs);
    CompletionCarried(gs);
    ShapesSame(w, e, f);
    VerdictSame(w, e, f, now, used, verdict);
  }

  // ---- what was built is accepted, exactly when ----

  /** One enrollment: what the approver is asked, both signers, the moments and the ids. */
  datatype Flow = Flow(
    wish: Wish, issuer: Descriptor, sign: Signer, holderSign: Signer, issuedAt: real, createdAt: real,
    approvalId: string, claimUuid: string, presentationUuid: string, jti: Option<string>)

  /** The envelope carries what approve_enrollment and bind_and_sign built, for the audience and
      origin of the request. */
  ghost predicate Builds(w: World, f: Flow, p: Package, e: Completion) {
    && Approve(w, f.wish, f.issuer, f.sign, f.issuedAt, f.approvalId, f.claimUuid, f.jti) == Ok(p)
    && e.request == f.wish.request && e.approval == p.approval && e.claim == p.claim && e.issuer == p.issuer
    && e.audience == e.request.audience && e.origin == e.request.origin
    && BindAndSign(w, [p.claim], e.request.newIdentity, f.holderSign, e.challenge, e.domain, f.presentationUuid,
      f.createdAt)
       == Ok(e.presentation)
  }

  /** The last whole second of an approval. */
  function LastSecond(w: World, f: Flow): int {
    OrElse(ExpiryMoment(w, f.wish, f.issuedAt), f.issuedAt).Floor
  }

  /** The flow's own conditions, in terms of what the approver was asked and of the moment
      of completion. */
  ghost predicate Acceptable(w: World, f: Flow, e: Completion, now: real, used: set<string>, verdict: Option<bool>) {
    var r := f.wish.request;
    && w.parse(r.expiresAt).Some? && now <= w.parse(r.expiresAt).value as real
    && Strip(e.approval.jti) != "" && e.approval.jti !in used
    && f.wish.issuerType in ISSUER_TYPES
    && f.issuer.uuid != r.newIdentity.uuid
    && f.wish.freshRequired
    && (e.requireEvidence == Some(true) ==>
         f.wish.evidence.Some? && f.wish.evidence.value.challenge == RequestHash(w, r) && verdict == Some(true))
    && now <= LastSecond(w, f) as real
    && Within(OrElse(f.wish.domains, r.domains), r.domains)
    && Within(OrElse(f.wish.contexts, r.contexts), r.contexts)
    && Within(OrElse(f.wish.scopes, r.scopes), r.scopes)
  }

  /** All three signatures hold. */
  predicate WellSigned(w: World, f: Flow, e: Completion) {
    && e.approval.proof.Some? && e.approval.proof.value.signature.Some?
    && Verifies(w, e.approval.proof.value.signature.value, SignedApproval(e.approval), f.issuer)
    && Verifies(w, e.claim.proof.signature, SignedClaim(e.claim), f.issuer)
    && Verifies(w, e.presentation.proof.signature, SignedPresentation(e.presentation), e.request.newIdentity)
  }

  /** A request that passed once passes again until its own expiry. */
  lemma RequestPassesAgain(w: World, r: Request, before: real, now: real)
    requires RequestProblem(w, r, before).None?
    ensures RequestProblem(w, r, now).None? <==> w.parse(r.expiresAt).Some? && now <= w.parse(r.expiresAt).value as real
  {
    hide Strip, Verifies, SignedRequest;
  }

  lemma PassedIsBound(w: World, r: Request, now: real)
    requires RequestProblem(w, r, now).None?
    ensures r.binding.Some?
  {
    hide Strip, Verifies, SignedRequest;
  }

  lemma ApprovedRequest(w: World, f: Flow, p: Package, e: Completion)
    requires Builds(w, f, p, e)
    ensures RequestProblem(w, e.request, f.issuedAt).None? && e.approval.approvalId == f.approvalId
    ensures p.issuer == f.issuer
    ensures e.request.binding.Some?
  {
    hide RequestProblem, IssueClaim, SignedApproval, BindAndSign, SubjectFor, Base58.DidKey;
    PassedIsBound(w, e.request, f.issuedAt);
  }

  lemma ApprovalPasses(
    w: World, f: Flow, p: Package, e: Completion, now: real, used: set<string>, verdict: Option<bool>
  )
    requires Ideal(w) && Builds(w, f, p, e)
    ensures ApprovalProblem(w, e, RequestHash(w, e.request), now, used, verdict).None?
       <==> && Strip(e.approval.jti) != "" && e.approval.jti !in used && f.wish.issuerType in ISSUER_TYPES
            && f.issuer.uuid != e.request.newIdentity.uuid && f.wish.freshRequired
            && (e.requireEvidence == Some(true) ==>
                 f.wish.evidence.Some? && f.wish.evidence.value.challenge == RequestHash(w, e.request)
                 && verdict == Some(true))
            && now <= LastSecond(w, f) as real
            && Within(OrElse(f.wish.domains, e.request.domains), e.request.domains)
            && Within(OrElse(f.wish.contexts, e.request.contexts), e.request.contexts)
            && Within(OrElse(f.wish.scopes, e.request.scopes), e.request.scopes)
            && e.approval.proof.Some? && e.approval.proof.value.signature.Some?
            && Verifies(w, e.approval.proof.value.signature.value, SignedApproval(e.approval), f.issuer)
  {
    hide Strip, RequestProblem, RequestHash, IssueClaim, SubjectFor, Within, ExpiryMoment, SignedApproval,
      BindAndSign, Base58.DidKey;
    PassedIsBound(w, e.request, f.issuedAt);
  }

  /** The subject of a credential that was just issued decodes to what was put in. */
  lemma IssuedSubject(s: Subject, did: string)
    requires s.id == did
    ensures var j := Obj(Put(SubjectWire(s), "id", Str(did)));
      Carried(j) && ReadSubject(j) == Some(s)
  {
    hide ToWire, FromWire, SubjectFields, SubjectOf, TypedFields;
    SubjectTyped(s);
    ModelBack(SUBJECT, SubjectFields(s));
    SubjectBack(s);
    SubjectStarts(s);
    var ms := SubjectWire(s);
    assert KeysOf(ms)[0] == "id";
    assert ms[0 := Member("id", Str(did))] == ms;
  }

  lemma SubjectStarts(s: Subject)
    ensures SubjectWire(s) != [] && SubjectWire(s)[0] == Member("id", Str(s.id))
  {
    hide TypedFields, Typed, ToWire;
    SubjectTyped(s);
    ModelBack(SUBJECT, SubjectFields(s));
    assert SUBJECT[0] == Required("id", KStr) && SubjectFields(s)[0] == Txt(s.id);
    FirstWritten(SUBJECT, SubjectFields(s), s.id);
  }

  /** The credential as approve_enrollment issued it. */
  lemma IssuedClaim(w: World, f: Flow, p: Package, e: Completion)
    requires Builds(w, f, p, e)
    ensures var c, r := e.claim, e.request;
      && Did(r.newIdentity).Some? && Did(f.issuer).Some? && ProofType(f.issuer).Some?
      && c.types == ["VerifiableCredential", CREDENTIAL_TYPE] && c.issuer == Str(Did(f.issuer).value)
      && c.issued == w.iso(f.issuedAt.Floor)
      && c.proof.kind == ProofType(f.issuer).value && c.proof.created == w.iso(f.issuedAt.Floor)
      && c.proof.purpose == "assertionMethod" && c.proof.signerUuid == f.issuer.uuid
      && c.subject.Obj? && Carried(c.subject)
      && ReadSubject(c.subject) == Some(SubjectFor(e.approval, r, Did(r.newIdentity).value, f.wish.revocationReference))
  {
    hide RequestProblem, ExpiryMoment, SignedApproval, SignedClaim, ReadSubject, SubjectWire, Base58.DidKey, Put,
      Carried;
    var did := Did(e.request.newIdentity).value;
    IssuedSubject(SubjectFor(e.approval, e.request, did, f.wish.revocationReference), did);
  }

  lemma ClaimPasses(w: World, f: Flow, p: Package, e: Completion, now: real)
    requires Ideal(w) && Builds(w, f, p, e)
    ensures ClaimProblem(w, e, RequestHash(w, e.request), now).None?
       <==> && Verifies(w, e.claim.proof.signature, SignedClaim(e.claim), f.issuer)
            && now <= LastSecond(w, f) as real
  {
    hide RequestProblem, RequestHash, ExpiryMoment, SignedApproval, SignedClaim, ReadSubject, Builds, Base58.DidKey;
    IssuedClaim(w, f, p, e);
    ApprovedShape(w, f, p, e);
    assert e.claim.types[1] == CREDENTIAL_TYPE;
  }

  lemma ApprovedShape(w: World, f: Flow, p: Package, e: Completion)
    requires Builds(w, f, p, e)
    ensures e.approval.requestHash == RequestHash(w, e.request) && e.approval.expiresAt == w.iso(LastSecond(w, f))
    ensures p.issuer == f.issuer && e.issuer == f.issuer
  {
    hide RequestProblem, RequestHash, ExpiryMoment, SignedApproval, IssueClaim, SubjectFor, BindAndSign, Base58.DidKey;
  }

  /** The presentation as bind_and_sign made it. */
  lemma BoundPresentation(w: World, f: Flow, p: Package, e: Completion)
    requires Builds(w, f, p, e)
    ensures var q, d := e.presentation, e.request.newIdentity;
      && Did(d).Some? && ProofType(d).Some? && q.types == ["VerifiableCredential", PRESENTATION_TYPE]
      && q.holder == Str(Did(d).value) && q.challenge == Some(e.challenge) && q.domain == Some(e.domain)
      && q.binding == Some(d) && q.credentials == Some([e.claim])
      && q.proof.kind == ProofType(d).value && q.proof.created == w.iso(f.createdAt.Floor)
      && q.proof.purpose == "authentication" && q.proof.signerUuid == d.uuid
  {
    hide Approve, SignedPresentation, Base58.DidKey;
  }

  lemma PresentationPasses(w: World, f: Flow, p: Package, e: Completion)
    requires Builds(w, f, p, e)
    ensures PresentationProblem(w, e).None?
       <==> Verifies(w, e.presentation.proof.signature, SignedPresentation(e.presentation), e.request.newIdentity)
  {
    hide SignedPresentation, Builds, Base58.DidKey;
    BoundPresentation(w, f, p, e);
    assert e.presentation.types[1] == PRESENTATION_TYPE;
    assert e.presentation.credentials.value[0] == e.claim;
  }

  /** What becomes of a text that arrives: the record, if it is read and passes every check. */
  function CompleteText(w: World, text: string, now: real, used: set<string>, verdict: Option<bool>): Option<Record> {
    var read := ReadText(w, text);
    if read.None? then None else
      var result := VerifyCompletion(w, read.value, now, used, verdict);
      if result.Ok? then Some(result.value) else None
  }

  lemma BuiltIsReadable(w: World, f: Flow, p: Package, e: Completion)
    requires Ideal(w) && Builds(w, f, p, e)
    ensures Readable(w, e)
  {
    hide Builds, ReadSubject, Base58.DidKey;
    IssuedClaim(w, f, p, e);
    BoundPresentation(w, f, p, e);
    forall c | c in e.presentation.credentials.value ensures c == e.claim {}
  }

  lemma VerdictOnBuilt(
    w: World, f: Flow, p: Package, e: Completion, now: real, used: set<string>, verdict: Option<bool>
  )
    requires Ideal(w) && Builds(w, f, p, e)
    ensures VerifyCompletion(w, e, now, used, verdict).Ok?
        <==> Acceptable(w, f, e, now, used, verdict) && WellSigned(w, f, e)
  {
    hide RequestProblem, ApprovalProblem, ClaimProblem, PresentationProblem, Builds, Verifies, Within, Strip,
      RequestHash, LastSecond, SignedApproval, SignedClaim, SignedPresentation, ReadSubject;
    ApprovedRequest(w, f, p, e);
    ApprovedShape(w, f, p, e);
    BuiltRequest(w, f, p, e);
    RequestPassesAgain(w, e.request, f.issuedAt, now);
    ApprovalPasses(w, f, p, e, now, used, verdict);
    ClaimPasses(w, f, p, e, now);
    PresentationPasses(w, f, p, e);
  }

  lemma BuiltRequest(w: World, f: Flow, p: Package, e: Completion)
    requires Builds(w, f, p, e)
    ensures e.request == f.wish.request
  {
  }

  /** Across the wire, in either key order: what approve_enrollment and bind_and_sign build is
      read back from its text, and passes verify_completion exactly when the flow's conditions
      hold; the record is then for the requested key and link. */
  lemma BuiltCompletes(
    w: World, f: Flow, p: Package, e: Completion, order: KeyOrder.Order, slashes: bool, now: real, used: set<string>,
    verdict: Option<bool>
  )
    requires Ideal(w) && Builds(w, f, p, e)
    ensures ReadCompletion(w, CompletionWire(e)) == Some(e)
    ensures var text := CanonicalJson(Obj(CompletionWire(e)), order, slashes);
      && ReadText(w, text).Some?
      && var record := CompleteText(w, text, now, used, verdict);
      && (record.Some? <==> Acceptable(w, f, e, now, used, verdict) && WellSigned(w, f, e))
      && (record.Some? ==>
            record.value.linkId == f.approvalId && record.value.linked == e.request.newIdentity
            && record.value.issuerUuid == f.issuer.uuid)
  {
    hide Builds, VerifyCompletion, Acceptable, WellSigned, ReadText, ReadCompletion, CompletionWire, CanonicalJson,
      Readable;
    BuiltIsReadable(w, f, p, e);
    WireBack(w, e);
    TextKeepsVerdict(w, e, order, slashes, now, used, verdict);
    VerdictOnBuilt(w, f, p, e, now, used, verdict);
    ApprovedRequest(w, f, p, e);
    ApprovedShape(w, f, p, e);
    RecordOf(w, e, now, used, verdict);
  }

  lemma RecordOf(w: World, e: Completion, now: real, used: set<string>, verdict: Option<bool>)
    ensures var result := VerifyCompletion(w, e, now, used, verdict);
      result.Ok? ==>
        result.value.linkId == e.approval.approvalId && result.value.linked == e.request.newIdentity
        && result.value.issuerUuid == e.issuer.uuid
  {
    hide RequestProblem, ApprovalProblem, ClaimProblem, PresentationProblem, RequestHash, ReadSubject;
  }

  // ---- with honest signers ----

  /** A signer whose every signature verifies under this key. */
  ghost predicate Honest(w: World, sign: Signer, d: Descriptor) {
    forall text :: Verifies(w, sign(text), text, d)
  }

  /** Putting the signature in does not change what is signed. */
  lemma ApprovalSignedOnce(a: Approval, proof: Option<ApprovalProof>)
    ensures SignedApproval(a.(proof := proof)) == SignedApproval(a)
  {
    hide CanonicalJson, ToWire, TypedFields, ApprovalWhat, ApprovalWho, ApprovalAuth, Kept;
    var b := a.(proof := proof);
    ApprovalTyped(a);
    ApprovalTyped(b);
    ModelBack(APPROVAL, ApprovalFields(a));
    ModelBack(APPROVAL, ApprovalFields(b));
    SameBody(a, b);
    var body, front := ApprovalWhat(a) + ApprovalWho(a) + ApprovalAuth(a), APPROVAL_WHAT + APPROVAL_WHO + APPROVAL_AUTH;
    var last := Optional(PROOF_KEY, KModel(APPROVAL_PROOF));
    ApprovalWide(a);
    LastLeftOut(front, body, last, ApprovalLast(a), {PROOF_KEY});
    LastLeftOut(front, body, last, ApprovalLast(b), {PROOF_KEY});
  }

  function ApprovalLast(a: Approval): Option<Value> {
    if a.proof.Some? then Model(ApprovalProofFields(a.proof.value)) else None
  }

  lemma SameBody(a: Approval, b: Approval)
    requires b == a.(proof := b.proof)
    ensures ApprovalWhat(b) == ApprovalWhat(a) && ApprovalWho(b) == ApprovalWho(a) && ApprovalAuth(b) == ApprovalAuth(a)
  {
  }

  lemma ApprovalWide(a: Approval)
    ensures |APPROVAL_WHAT| == |ApprovalWhat(a)| && |APPROVAL_WHO| == |ApprovalWho(a)|
    ensures |APPROVAL_AUTH| == |ApprovalAuth(a)|
  {
  }

  lemma ClaimSignedOnce(c: Claim, proof: VCProof)
    requires CarriedClaim(c)
    ensures SignedClaim(c.(proof := proof)) == SignedClaim(c)
  {
    hide CanonicalJson, ToWire, TypedFields, Kept, VCProofFields, Carried;
    var d := c.(proof := proof);
    ClaimTyped(c);
    ClaimTyped(d);
    ModelBack(CLAIM, ClaimFields(c));
    ModelBack(CLAIM, ClaimFields(d));
    var fs, gs := ClaimFields(c), ClaimFields(d);
    assert CLAIM == CLAIM[..6] + [CLAIM[6]] && fs == fs[..6] + [fs[6]] && gs == gs[..6] + [gs[6]] && gs[..6] == fs[..6];
    assert CLAIM[6].key == PROOF_KEY;
    LastLeftOut(CLAIM[..6], fs[..6], CLAIM[6], fs[6], {PROOF_KEY});
    LastLeftOut(CLAIM[..6], gs[..6], CLAIM[6], gs[6], {PROOF_KEY});
  }

  lemma PresentationSignedOnce(p: Presentation, proof: VCProof)
    requires CarriedPresentation(p)
    ensures SignedPresentation(p.(proof := proof)) == SignedPresentation(p)
  {
    hide CanonicalJson, ToWire, TypedFields, Kept, VCProofFields, Carried, ClaimModels, DescriptorFields;
    var q := p.(proof := proof);
    PresentationTyped(p);
    PresentationTyped(q);
    ModelBack(PRESENTATION, PresentationFields(p));
    ModelBack(PRESENTATION, PresentationFields(q));
    var fs, gs := PresentationFields(p), PresentationFields(q);
    assert PRESENTATION == PRESENTATION[..8] + [PRESENTATION[8]] && fs == fs[..8] + [fs[8]] && gs == gs[..8] + [gs[8]];
    assert gs[..8] == fs[..8] && PRESENTATION[8].key == PROOF_KEY;
    LastLeftOut(PRESENTATION[..8], fs[..8], PRESENTATION[8], fs[8], {PROOF_KEY});
    LastLeftOut(PRESENTATION[..8], gs[..8], PRESENTATION[8], gs[8], {PROOF_KEY});
  }

  lemma HonestIsWellSigned(w: World, f: Flow, p: Package, e: Completion)
    requires Ideal(w) && Builds(w, f, p, e) && Honest(w, f.sign, f.issuer)
    requires Honest(w, f.holderSign, e.request.newIdentity)
    ensures WellSigned(w, f, e)
  {
    hide RequestProblem, ExpiryMoment, SignedApproval, SignedClaim, SignedPresentation, Put, SubjectWire, SubjectFor,
      Base58.DidKey, Verifies, RequestHash, Readable, Carried, CarriedPresentation;
    BuiltIsReadable(w, f, p, e);
    ReadableParts(w, e);
    var a, c, q := e.approval, e.claim, e.presentation;
    ApprovalSignedOnce(a, Some(a.proof.value.(signature := None)));
    ClaimSignedOnce(c, c.proof.(signature := []));
    PresentationSignedOnce(q, q.proof.(signature := []));
  }

  lemma ReadableParts(w: World, e: Completion)
    requires Readable(w, e)
    ensures CarriedClaim(e.claim) && CarriedPresentation(e.presentation)
  {
  }

  /** When both keys sign honestly, the enrollment completes across the wire exactly while the
      flow's conditions hold: distinct identities, lists within the request, an allowed issuer
      type, fresh authentication, an unused id that is not blank, up to the floored second of
      expiry. */
  lemma HonestCompletes(
    w: World, f: Flow, p: Package, e: Completion, order: KeyOrder.Order, slashes: bool, now: real, used: set<string>,
    verdict: Option<bool>
  )
    requires Ideal(w) && Builds(w, f, p, e) && Honest(w, f.sign, f.issuer)
    requires Honest(w, f.holderSign, e.request.newIdentity)
    ensures var text := CanonicalJson(Obj(CompletionWire(e)), order, slashes);
      && ReadText(w, text).Some?
      && (CompleteText(w, text, now, used, verdict).Some? <==> Acceptable(w, f, e, now, used, verdict))
  {
    hide Builds, VerifyCompletion, Acceptable, WellSigned, ReadText, CompletionWire, CanonicalJson, Honest;
    HonestIsWellSigned(w, f, p, e);
    BuiltCompletes(w, f, p, e, order, slashes, now, used, verdict);
  }

  // ---- whatever passes ----

  /** The record grants nothing the new key did not ask for, the approval is the issuer's
      signature over this very request, the issuer is another identity, the credential says
      the same as the approval, and the presentation is the new key's answer to this
      challenge. */
  lemma CompletionIsBounded(w: World, e: Completion, now: real, used: set<string>, verdict: Option<bool>)
    requires VerifyCompletion(w, e, now, used, verdict).Ok?
    ensures var record := VerifyCompletion(w, e, now, used, verdict).value;
      && Within(record.domains, e.request.domains) && Within(record.contexts, e.request.contexts)
      && Within(record.scopes, e.request.scopes)
      && record.linked == e.request.newIdentity && record.issuerUuid != record.linked.uuid
      && e.approval.requestHash == RequestHash(w, e.request) && e.approval.jti !in used
      && e.approval.proof.Some? && e.approval.proof.value.signature.Some?
      && Verifies(w, e.approval.proof.value.signature.value, SignedApproval(e.approval), e.issuer)
      && Verifies(w, e.claim.proof.signature, SignedClaim(e.claim), e.issuer)
      && ReadSubject(e.claim.subject).Some?
      && var s := ReadSubject(e.claim.subject).value;
      && s.scopes == record.scopes && s.requestHash == e.approval.requestHash
      && SameKey(s.linked, e.request.newIdentity)
      && e.presentation.challenge == Some(e.challenge) && e.presentation.domain == Some(e.domain)
  {
    hide Within, SignedApproval, SignedClaim, SignedPresentation, RequestHash, Strip, RequestProblem, Did, ReadSubject;
  }

  // ---- the verdict, from the parts ----

  function Parts(d: Descriptor): (string, Bytes, string, string) {
    (d.uuid, d.publicKey, d.algorithm, d.curve)
  }

  predicate InTime(w: World, text: string, now: real) {
    w.parse(text).Some? && now <= w.parse(text).value as real
  }

  /** A signature of an Ed25519 key. */
  predicate SignedBy(w: World, signature: Bytes, data: string, d: Descriptor) {
    && d.algorithm == "EdDSA" && d.curve == "Curve25519" && |d.publicKey| == 32 && |signature| == 64
    && w.verifies(d.publicKey, data, signature)
  }

  predicate RequestStands(w: World, r: Request, now: real) {
    && r.purpose == "link_identity" && r.binding.Some? && 16 <= |r.nonce|
    && Strip(r.audience) != "" && Strip(r.origin) != "" && r.domains != [] && r.contexts != [] && r.scopes != []
    && InTime(w, r.expiresAt, now)
    && r.proof.Some? && r.proof.value.signature.Some? && r.proof.value.signer == r.newIdentity.uuid
    && r.proof.value.algorithm == "EdDSA" && r.proof.value.curve == "Curve25519"
    && SignedBy(w, r.proof.value.signature.value, SignedRequest(r), r.newIdentity)
  }

  /** The approval answers this request, for this audience and origin, freshly, and only once. */
  predicate ApprovalStands(w: World, e: Completion, now: real, used: set<string>, verdict: Option<bool>) {
    var a, r := e.approval, e.request;
    && a.purpose == "approve_link_identity" && a.requestHash == w.hash(SignedRequest(r))
    && Parts(a.subject) == Parts(r.newIdentity) && r.binding == Some(a.binding)
    && a.audience == r.audience == e.audience && a.origin == r.origin == e.origin
    && Strip(a.jti) != "" && a.jti !in used
    && (a.issuerType == "existingDevice" || a.issuerType == "custodian" || a.issuerType == "recoveryAuthority")
    && a.issuerUuid == e.issuer.uuid && a.issuerUuid != r.newIdentity.uuid
    && a.freshRequired && a.performedAt.Some?
    && (e.requireEvidence == Some(true) ==>
          a.evidence.Some? && a.evidence.value.challenge == w.hash(SignedRequest(r)) && verdict == Some(true))
    && InTime(w, a.expiresAt, now)
    && (forall x | x in a.domains :: x in r.domains) && (forall x | x in a.contexts :: x in r.contexts)
    && (forall x | x in a.scopes :: x in r.scopes)
    && a.proof.Some? && a.proof.value.signature.Some?
    && a.proof.value.issuer == e.issuer.uuid && a.proof.value.issuerType == a.issuerType
    && a.proof.value.algorithm == "EdDSA" && a.proof.value.curve == "Curve25519"
    && SignedBy(w, a.proof.value.signature.value, SignedApproval(a), e.issuer)
  }

  /** The credential is the issuer's, says the same as the approval, and is still valid. */
  predicate ClaimStands(w: World, e: Completion, now: real) {
    var c, a, r := e.claim, e.approval, e.request;
    var issuer := Base58.DidKey("Curve25519", e.issuer.publicKey);
    var linked := Base58.DidKey("Curve25519", r.newIdentity.publicKey);
    && "SameEntityIdentityLinkCredential" in c.types && issuer.Some? && c.issuer == Str(issuer.value)
    && c.proof.kind == "Ed25519Signature2020" && c.proof.purpose == "assertionMethod"
    && c.proof.signerUuid == e.issuer.uuid && SignedBy(w, c.proof.signature, SignedClaim(c), e.issuer)
    && ReadSubject(c.subject).Some?
    && var s := ReadSubject(c.subject).value;
    && s.linkType == "same_entity" && linked == Some(s.id) && Parts(s.linked) == Parts(r.newIdentity)
    && s.binding == a.binding && s.requestHash == w.hash(SignedRequest(r))
    && s.domains == a.domains && s.contexts == a.contexts && s.scopes == a.scopes
    && InTime(w, s.validUntil, now)
  }

  /** The new key presents the credential for this challenge and domain. */
  predicate PresentationStands(w: World, e: Completion) {
    var p, d := e.presentation, e.request.newIdentity;
    var did := Base58.DidKey("Curve25519", d.publicKey);
    && "SameEntityIdentityLinkPresentation" in p.types
    && p.credentials.Some? && (exists i | 0 <= i < |p.credentials.value| :: p.credentials.value[i].id == e.claim.id)
    && p.binding.Some? && Parts(p.binding.value) == Parts(d) && did.Some? && p.holder == Str(did.value)
    && p.challenge == Some(e.challenge) && p.domain == Some(e.domain)
    && p.proof.kind == "Ed25519Signature2020" && p.proof.purpose == "authentication" && p.proof.signerUuid == d.uuid
    && SignedBy(w, p.proof.signature, SignedPresentation(p), d)
  }

  lemma RequestExactly(w: World, r: Request, now: real)
    ensures RequestProblem(w, r, now).None? <==> RequestStands(w, r, now)
  {
    hide Strip, SignedRequest;
  }

  lemma ApprovalExactly(w: World, e: Completion, now: real, used: set<string>, verdict: Option<bool>)
    ensures ApprovalProblem(w, e, RequestHash(w, e.request), now, used, verdict).None?
       <==> ApprovalStands(w, e, now, used, verdict)
  {
    hide Strip, SignedRequest, SignedApproval;
  }

  lemma ClaimExactly(w: World, e: Completion, now: real)
    requires e.request.newIdentity.curve == "Curve25519"
    ensures ClaimProblem(w, e, RequestHash(w, e.request), now).None? <==> ClaimStands(w, e, now)
  {
    hide SignedRequest, SignedClaim, ReadSubject, Base58.DidKey;
  }

  lemma PresentationExactly(w: World, e: Completion)
    ensures PresentationProblem(w, e).None? <==> PresentationStands(w, e)
  {
    hide SignedPresentation, Base58.DidKey;
  }

  /** Any envelope passes exactly when its four parts stand, and the record is made of them. */
  lemma VerdictExactly(w: World, e: Completion, now: real, used: set<string>, verdict: Option<bool>)
    ensures var result, a := VerifyCompletion(w, e, now, used, verdict), e.approval;
      && (result.Ok? <==>
            && RequestStands(w, e.request, now) && ApprovalStands(w, e, now, used, verdict)
            && ClaimStands(w, e, now) && PresentationStands(w, e))
      && (result.Ok? ==>
            ReadSubject(e.claim.subject).Some? &&
            result.value == Record(a.approvalId, a.binding, e.request.newIdentity, a.domains, a.contexts, a.scopes,
              e.issuer.uuid, a.issuerType, "active", w.iso(now.Floor), None, None,
              ReadSubject(e.claim.subject).value.revocationReference))
  {
    hide RequestProblem, ApprovalProblem, ClaimProblem, PresentationProblem, ReadSubject, RequestStands,
      ApprovalStands, PresentationStands, SignedRequest, SignedClaim, Base58.DidKey;
    RequestExactly(w, e.request, now);
    ApprovalExactly(w, e, now, used, verdict);
    if RequestStands(w, e.request, now) {
      assert e.request.newIdentity.curve == "Curve25519" by { RequestKey(w, e.request, now); }
      ClaimExactly(w, e, now);
    }
    PresentationExactly(w, e);
  }

  lemma RequestKey(w: World, r: Request, now: real)
    requires RequestStands(w, r, now)
    ensures r.newIdentity.curve == "Curve25519"
  {
  }

  /** What a refusal says is wrong with the envelope. */
  predicate Wrong(w: World, e: Completion, now: real, used: set<string>, verdict: Option<bool>, f: Failure) {
    var a, r, c, p := e.approval, e.request, e.claim, e.presentation;
    var hash, s, did := w.hash(SignedRequest(r)), ReadSubject(c.subject), Did(r.newIdentity);
    match f
    case InvalidPurpose => r.purpose != "link_identity" || a.purpose != "approve_link_identity"
    case MissingEntityBinding => r.binding.None?
    case InvalidNonce => |r.nonce| < 16
    case MissingRequiredContext =>
      Strip(r.audience) == "" || Strip(r.origin) == "" || r.domains == [] || r.contexts == [] || r.scopes == []
      || Strip(a.jti) == ""
    case InvalidExpiry =>
      w.parse(r.expiresAt).None? || w.parse(a.expiresAt).None? || (s.Some? && w.parse(s.value.validUntil).None?)
    case Expired =>
      Past(w, r.expiresAt, now) || Past(w, a.expiresAt, now) || (s.Some? && Past(w, s.value.validUntil, now))
    case MissingRequestProof => r.proof.None? || OrElse(r.proof.value.signature, []) == []
    case IdentityMismatch =>
      || (r.proof.Some? && (r.proof.value.signer, r.proof.value.algorithm, r.proof.value.curve)
                           != (r.newIdentity.uuid, r.newIdentity.algorithm, r.newIdentity.curve))
      || Parts(a.subject) != Parts(r.newIdentity) || Some(a.binding) != r.binding
      || (s.Some? && Parts(s.value.linked) != Parts(r.newIdentity))
    case InvalidRequestSignature =>
      r.proof.Some? && !SignedBy(w, OrElse(r.proof.value.signature, []), SignedRequest(r), r.newIdentity)
    case RequestHashMismatch => a.requestHash != hash
    case AudienceMismatch => a.audience != r.audience || a.audience != e.audience
    case OriginMismatch => a.origin != r.origin || a.origin != e.origin
    case ReplayDetected => a.jti in used
    case IssuerTypeNotAllowed =>
      a.issuerType != "existingDevice" && a.issuerType != "custodian" && a.issuerType != "recoveryAuthority"
    case SameKeyOnBothSides => a.issuerUuid == r.newIdentity.uuid || Parts(e.issuer) == Parts(r.newIdentity)
    case MissingFreshAuth =>
      !a.freshRequired || a.performedAt.None? || (e.requireEvidence == Some(true) && a.evidence.None?)
    case InvalidFreshAuthEvidence =>
      e.requireEvidence == Some(true) && a.evidence.Some?
      && (a.evidence.value.challenge != hash || verdict != Some(true))
    case ScopeEscalation =>
      (exists x | x in a.domains :: x !in r.domains) || (exists x | x in a.contexts :: x !in r.contexts)
      || (exists x | x in a.scopes :: x !in r.scopes)
    case MissingApprovalProof => a.proof.None? || OrElse(a.proof.value.signature, []) == []
    case IssuerMismatch =>
      || a.issuerUuid != e.issuer.uuid || !c.issuer.Str? || Did(e.issuer) != Some(c.issuer.s)
      || (a.proof.Some? && (a.proof.value.issuer, a.proof.value.issuerType) != (e.issuer.uuid, a.issuerType))
      || (a.proof.Some? && (a.proof.value.algorithm, a.proof.value.curve) != (e.issuer.algorithm, e.issuer.curve))
    case InvalidApprovalSignature =>
      a.proof.Some? && !SignedBy(w, OrElse(a.proof.value.signature, []), SignedApproval(a), e.issuer)
    case InvalidCredentialType => "SameEntityIdentityLinkCredential" !in c.types
    case InvalidCredentialSignature =>
      !SignedBy(w, c.proof.signature, SignedClaim(c), e.issuer) || c.proof.signerUuid != e.issuer.uuid
      || c.proof.purpose != "assertionMethod" || c.proof.kind != "Ed25519Signature2020"
    case InvalidCredentialSubject =>
      s.None? || s.value.linkType != "same_entity" || s.value.binding != a.binding || s.value.requestHash != hash
      || (s.value.domains, s.value.contexts, s.value.scopes) != (a.domains, a.contexts, a.scopes)
    case HolderMismatch =>
      || (s.Some? && Some(s.value.id) != did)
      || "SameEntityIdentityLinkPresentation" !in p.types || p.credentials.None?
      || (forall x | x in p.credentials.value :: x.id != c.id)
      || p.binding.None? || Parts(p.binding.value) != Parts(r.newIdentity) || !p.holder.Str? || did != Some(p.holder.s)
    case InvalidPresentation =>
      || p.challenge != Some(e.challenge) || p.domain != Some(e.domain) || p.proof.purpose != "authentication"
      || p.proof.signerUuid != r.newIdentity.uuid || p.proof.kind != "Ed25519Signature2020"
      || !SignedBy(w, p.proof.signature, SignedPresentation(p), r.newIdentity)
    case MissingPublicKey => Did(e.issuer).None? || did.None?
  }

  predicate Past(w: World, text: string, now: real) {
    w.parse(text).Some? && w.parse(text).value as real < now
  }

  lemma RequestRefusal(w: World, e: Completion, now: real, used: set<string>, verdict: Option<bool>)
    ensures var f := RequestProblem(w, e.request, now); f.Some? ==> Wrong(w, e, now, used, verdict, f.value)
  {
    hide Strip, SignedRequest, ReadSubject, SignedApproval, SignedClaim, SignedPresentation, Did;
  }

  lemma ApprovalRefusal(w: World, e: Completion, now: real, used: set<string>, verdict: Option<bool>)
    ensures var f := ApprovalProblem(w, e, RequestHash(w, e.request), now, used, verdict);
      f.Some? ==> Wrong(w, e, now, used, verdict, f.value)
  {
    hide Strip, SignedRequest, ReadSubject, SignedApproval, SignedClaim, SignedPresentation, Did;
  }

  lemma ClaimRefusal(w: World, e: Completion, now: real, used: set<string>, verdict: Option<bool>)
    ensures var f := ClaimProblem(w, e, RequestHash(w, e.request), now);
      f.Some? ==> Wrong(w, e, now, used, verdict, f.value)
  {
    hide Strip, SignedRequest, ReadSubject, SignedApproval, SignedClaim, SignedPresentation, Did, SubjectProblem,
      RequestHash, Within, Past;
    if ReadSubject(e.claim.subject).Some? {
      SubjectRefusal(w, ReadSubject(e.claim.subject).value, e, now, used, verdict);
    }
  }

  lemma SubjectRefusal(w: World, s: Subject, e: Completion, now: real, used: set<string>, verdict: Option<bool>)
    requires ReadSubject(e.claim.subject) == Some(s)
    ensures var f := SubjectProblem(w, s, e, RequestHash(w, e.request), now);
      f.Some? ==> Wrong(w, e, now, used, verdict, f.value)
  {
    hide Strip, SignedRequest, ReadSubject, SignedApproval, SignedClaim, SignedPresentation, Did, Verifies, SignedBy;
  }

  lemma PresentationRefusal(w: World, e: Completion, now: real, used: set<string>, verdict: Option<bool>)
    ensures var f := PresentationProblem(w, e); f.Some? ==> Wrong(w, e, now, used, verdict, f.value)
  {
    hide Strip, SignedRequest, ReadSubject, SignedApproval, SignedClaim, SignedPresentation, Base58.DidKey;
  }

  /** A refusal is for what it says. */
  lemma RefusalIsTrue(w: World, e: Completion, now: real, used: set<string>, verdict: Option<bool>)
    ensures var result := VerifyCompletion(w, e, now, used, verdict);
      result.Err? ==> Wrong(w, e, now, used, verdict, result.error)
  {
    hide RequestProblem, ApprovalProblem, ClaimProblem, PresentationProblem, Wrong, ReadSubject, RequestHash;
    RequestRefusal(w, e, now, used, verdict);
    ApprovalRefusal(w, e, now, used, verdict);
    ClaimRefusal(w, e, now, used, verdict);
    PresentationRefusal(w, e, now, used, verdict);
  }

  // ---- what the builders make, member by member ----

  predicate Reads(w: World, text: Option<string>) {
    text.Some? ==> w.parse(text.value).Some?
  }

  predicate ApprovalSays(
    w: World, wish: Wish, issuer: Descriptor, sign: Signer, now: real, approvalId: string, jti: Option<string>,
    a: Approval
  ) {
    var r := wish.request;
    && (a.version, a.approvalId, a.purpose) == (1, approvalId, "approve_link_identity")
    && a.requestHash == w.hash(SignedRequest(r)) && r.binding == Some(a.binding) && a.subject == r.newIdentity
    && a.domains == (if wish.domains.Some? then wish.domains.value else r.domains)
    && a.contexts == (if wish.contexts.Some? then wish.contexts.value else r.contexts)
    && a.scopes == (if wish.scopes.Some? then wish.scopes.value else r.scopes)
    && (a.issuerUuid, a.issuerType, a.audience, a.origin) == (issuer.uuid, wish.issuerType, r.audience, r.origin)
    && a.createdAt == w.iso(now.Floor)
    && (if wish.expiresAt.None? then a.expiresAt == w.iso((now + 300.0).Floor)
        else w.parse(wish.expiresAt.value).Some? && a.expiresAt == w.iso(w.parse(wish.expiresAt.value).value))
    && (jti.Some? && jti.value != "" ==> a.jti == jti.value)
    && (jti.None? || jti.value == "" ==>
          a.jti == if wish.jti.Some? && wish.jti.value != "" then wish.jti.value else approvalId)
    && a.freshRequired == wish.freshRequired && a.evidence == wish.evidence
    && (wish.freshRequired ==> a.freshMethod == Some("local-user-presence"))
    && (!wish.freshRequired ==> a.freshMethod.None? && a.performedAt == wish.performedAt)
    && (wish.performedAt.Some? ==> a.performedAt == wish.performedAt)
    && (wish.performedAt.None? && wish.freshRequired ==> a.performedAt == Some(w.iso(now.Floor)))
    && a.proof == Some(ApprovalProof("signature", issuer.uuid, wish.issuerType, issuer.algorithm, issuer.curve,
         Some(sign(SignedApproval(a)))))
  }

  predicate ClaimSays(
    w: World, wish: Wish, issuer: Descriptor, sign: Signer, now: real, claimUuid: string, a: Approval, c: Claim
  ) {
    var d := wish.request.newIdentity;
    var issuerDid, did := Base58.DidKey(issuer.curve, issuer.publicKey), Base58.DidKey(d.curve, d.publicKey);
    && c.context == Some(["https://www.w3.org/2018/credentials/v1", "https://www.w3.org/2018/credentials/examples/v1"])
    && c.id == "cell:///identity/" + d.uuid + "/claims/" + claimUuid
    && c.types == ["VerifiableCredential", "SameEntityIdentityLinkCredential"]
    && issuerDid.Some? && c.issuer == Str(issuerDid.value) && c.issued == w.iso(now.Floor) && did.Some?
    && ReadSubject(c.subject) == Some(Subject(did.value, "same_entity", a.binding, d, a.domains, a.contexts, a.scopes,
         a.requestHash, if wish.freshRequired then "fresh_auth_and_possession" else "possession_only",
         if wish.freshRequired then "high" else "medium", a.expiresAt, wish.revocationReference))
    && (c.proof.created, c.proof.purpose, c.proof.signerUuid) == (w.iso(now.Floor), "assertionMethod", issuer.uuid)
    && c.proof.kind == (if issuer.algorithm == "EdDSA" then "Ed25519Signature2020" else "EcdsaSecp256r1Signature2019")
    && c.proof.signature == sign(SignedClaim(c))
  }

  /** Keys that have a kind of signature. */
  predicate Signs(d: Descriptor) {
    (d.algorithm, d.curve) == ("EdDSA", "Curve25519") || (d.algorithm, d.curve) == ("ECDSA", "P256")
  }

  /** When approve_enrollment returns, and what. */
  lemma ApproveExactly(
    w: World, wish: Wish, issuer: Descriptor, sign: Signer, now: real, approvalId: string, claimUuid: string,
    jti: Option<string>
  )
    ensures var out, r := Approve(w, wish, issuer, sign, now, approvalId, claimUuid, jti), wish.request;
      && (out.Ok? <==>
            && RequestStands(w, r, now) && Reads(w, wish.expiresAt) && Reads(w, wish.performedAt)
            && Did(r.newIdentity).Some? && Did(issuer).Some? && Signs(issuer))
      && (out.Ok? ==>
            && out.value.issuer == issuer
            && ApprovalSays(w, wish, issuer, sign, now, approvalId, jti, out.value.approval)
            && ClaimSays(w, wish, issuer, sign, now, claimUuid, out.value.approval, out.value.claim))
  {
    hide RequestProblem, RequestStands, ApprovalSays, ClaimSays, Draft, IssueClaim, Signed, SubjectFor, Base58.DidKey;
    var r := wish.request;
    RequestExactly(w, r, now);
    var out := Approve(w, wish, issuer, sign, now, approvalId, claimUuid, jti);
    if out.Ok? {
      PassedIsBound(w, r, now);
      ApprovalIsSaid(w, wish, issuer, sign, now, approvalId, jti, out.value.approval);
      ClaimIsSaid(w, wish, issuer, sign, now, claimUuid, out.value.approval, out.value.claim);
    }
  }

  lemma ApprovalIsSaid(
    w: World, wish: Wish, issuer: Descriptor, sign: Signer, now: real, approvalId: string, jti: Option<string>,
    a: Approval
  )
    requires wish.request.binding.Some? && Reads(w, wish.expiresAt)
    requires var chosen :=
        if OrElse(jti, "") != "" then jti.value
        else if OrElse(wish.jti, "") != "" then wish.jti.value
        else approvalId;
      a == Signed(Draft(w, wish, issuer, now, approvalId, chosen), sign)
    ensures ApprovalSays(w, wish, issuer, sign, now, approvalId, jti, a) && a.freshRequired == wish.freshRequired
  {
    hide SignedApproval, SignedRequest;
    ApprovalSignedOnce(a, Some(a.proof.value.(signature := None)));
  }

  lemma ClaimIsSaid(
    w: World, wish: Wish, issuer: Descriptor, sign: Signer, now: real, claimUuid: string, a: Approval, c: Claim
  )
    requires Did(issuer).Some? && ProofType(issuer).Some? && Did(wish.request.newIdentity).Some?
    requires a.freshRequired == wish.freshRequired
    requires var subject := wish.request.newIdentity;
      c == IssueClaim(w, issuer, subject, SubjectFor(a, wish.request, Did(subject).value, wish.revocationReference),
        sign, claimUuid, now)
    ensures ClaimSays(w, wish, issuer, sign, now, claimUuid, a, c)
  {
    hide SignedClaim, ReadSubject, SubjectWire, Put, Base58.DidKey;
    var did := Did(wish.request.newIdentity).value;
    IssuedSubject(SubjectFor(a, wish.request, did, wish.revocationReference), did);
    ClaimSignedOnce(c, c.proof.(signature := []));
  }

  /** When bind_and_sign returns, and what. */
  lemma BindExactly(
    w: World, credentials: seq<Claim>, d: Descriptor, sign: Signer, challenge: Bytes, domain: string,
    presentationUuid: string, now: real
  )
    requires forall c | c in credentials :: CarriedClaim(c)
    ensures var out := BindAndSign(w, credentials, d, sign, challenge, domain, presentationUuid, now);
      && (out.Ok? <==> Did(d).Some? && Signs(d)) && (out.Err? ==> out.error == MissingPublicKey)
      && (out.Ok? ==>
            var p := out.value;
            && p.context == Some([
                 "https://www.w3.org/2018/credentials/v1", "https://www.w3.org/2018/credentials/examples/v1"])
            && p.id == "cell:///identity/" + d.uuid + "/claims/" + presentationUuid
            && p.types == ["VerifiableCredential", "SameEntityIdentityLinkPresentation"]
            && Did(d).Some? && p.holder == Str(Did(d).value) && p.binding == Some(d)
            && (p.challenge, p.domain, p.credentials) == (Some(challenge), Some(domain), Some(credentials))
            && (p.proof.created, p.proof.purpose, p.proof.signerUuid) == (w.iso(now.Floor), "authentication", d.uuid)
            && p.proof.kind == (if d.algorithm == "EdDSA" then "Ed25519Signature2020"
                                else "EcdsaSecp256r1Signature2019")
            && p.proof.signature == sign(SignedPresentation(p)))
  {
    hide SignedPresentation, Base58.DidKey, CarriedClaim;
    var out := BindAndSign(w, credentials, d, sign, challenge, domain, presentationUuid, now);
    if out.Ok? {
      PresentationSignedOnce(out.value, out.value.proof.(signature := []));
    }
  }

  predicate Dated(w: World, text: string) {
    w.parse(text).Some? && text != "" && (text[|text| - 1] == 'Z' || '+' in text)
  }

  predicate ClaimReads(w: World, c: Claim) {
    (c.issuer.Str? || c.issuer.Obj?) && c.subject.Obj? && w.parse(c.issued).Some? && Dated(w, c.proof.created)
  }

  /** Which payloads are read: the fields as specified, raw members in their shapes, dates as dates. */
  lemma ReadExactly(w: World, ms: seq<Member>)
    ensures var fs := FromWire(COMPLETION, ms);
      && (ReadCompletion(w, ms).Some? <==>
            && fs.Some?
            && var e := CompletionOf(fs.value);
            && ClaimReads(w, e.claim) && Dated(w, e.presentation.proof.created)
            && (e.presentation.credentials.Some? ==>
                  forall c | c in e.presentation.credentials.value :: ClaimReads(w, c)))
      && (ReadCompletion(w, ms).Some? ==> ReadCompletion(w, ms).value == CompletionOf(fs.value))
  {
    hide FromWire, CompletionOf;
  }

  // ---- such calendars, keys and flows exist ----

  function PlainIso(n: int): string {
    Integer(n) + "Z"
  }

  function PlainParse(text: string): Option<int> {
    if !EndsInZ(text) then None else
      var p := ParseNumber(text[..|text| - 1]);
      if p.Got? && p.value.Num? then Some(p.value.n) else None
  }

  lemma PlainCalendar(n: int)
    ensures PlainParse(PlainIso(n)) == Some(n) && EndsInZ(PlainIso(n))
  {
    hide ParseNumber, Integer;
    assert PlainIso(n)[..|PlainIso(n)| - 1] == Integer(n);
    assert Integer(n) + "" == Integer(n);
    NumberBack(n, "");
  }

  /** Each key has one signature of its own. */
  function PlainWorld(): World {
    World(text => [], (key, text, signature) => signature == key + key, PlainIso, PlainParse)
  }

  lemma PlainWorldIsIdeal()
    ensures Ideal(PlainWorld())
  {
    hide PlainIso, PlainParse, EndsInZ;
    forall n: int ensures PlainParse(PlainIso(n)) == Some(n) && EndsInZ(PlainIso(n)) {
      PlainCalendar(n);
    }
  }

  function KeyOf(n: Byte): Bytes { seq(32, _ => n) }

  function Person(uuid: string, n: Byte): Descriptor {
    Descriptor(uuid, KeyOf(n), "EdDSA", "Curve25519", None)
  }

  function SignerOf(n: Byte): Signer { text => KeyOf(n) + KeyOf(n) }

  lemma PersonIsHonest(uuid: string, n: Byte)
    ensures Honest(PlainWorld(), SignerOf(n), Person(uuid, n)) && Did(Person(uuid, n)).Some?
    ensures ProofType(Person(uuid, n)).Some?
  {
  }

  function PlainRequest(): Request {
    Request(1, "request", "link_identity", Some(Binding("anchor", None, None, None)), Person("new", 2),
      ["domain"], ["context"], ["scope"], "audience", "origin", PlainIso(0), PlainIso(300), seq(16, _ => 0), None, None,
      Some(RequestProof("signature", "new", "EdDSA", "Curve25519", Some(KeyOf(2) + KeyOf(2)))))
  }

  lemma PlainRequestPasses()
    ensures RequestProblem(PlainWorld(), PlainRequest(), 0.0).None?
  {
    hide SignedRequest, PlainIso, PlainParse, EndsInZ, Strip;
    PlainCalendar(300);
    StripKeeps("audience");
    StripKeeps("origin");
  }

  function PlainFlow(): Flow {
    Flow(Wish(PlainRequest(), "existingDevice", None, None, None, None, None, true, None, None, None),
      Person("issuer", 1), SignerOf(1), SignerOf(2), 0.0, 0.0, "approval", "claim", "presentation", None)
  }

  lemma PlainFlowApproves(w: World, f: Flow)
    requires w == PlainWorld() && f == PlainFlow()
    ensures var made := Approve(w, f.wish, f.issuer, f.sign, 0.0, "approval", "claim", None);
      made.Ok? && made.value.approval.jti == "approval"
  {
    hide RequestProblem, SubjectFor, IssueClaim, SignedApproval, Did, PlainIso, PlainParse, ProofType, Person,
      SignerOf, RequestHash;
    PersonIsHonest("issuer", 1);
    PersonIsHonest("new", 2);
    PlainRequestPasses();
  }

  lemma PlainFlowBuilds(w: World, f: Flow)
    requires w == PlainWorld() && f == PlainFlow()
    ensures exists p, e ::
      Builds(w, f, p, e) && e.request == PlainRequest() && e.approval.jti == "approval" && e.requireEvidence.None?
  {
    hide Approve, SignedPresentation, Did, PlainIso, PlainParse, ProofType, Person, SignerOf;
    PersonIsHonest("new", 2);
    PlainFlowApproves(w, f);
    var p := Approve(w, f.wish, f.issuer, f.sign, 0.0, "approval", "claim", None).value;
    var q := BindAndSign(w, [p.claim], Person("new", 2), f.holderSign, [1], "domain", "presentation", 0.0).value;
    var e := Completion(f.wish.request, p.approval, p.claim, q, p.issuer, "audience", "origin", [1], "domain", None);
    assert Builds(w, f, p, e);
  }

  lemma PlainFlowIsAcceptable(w: World, f: Flow, e: Completion)
    requires w == PlainWorld() && f == PlainFlow()
    requires e.request == PlainRequest() && e.approval.jti == "approval" && e.requireEvidence.None?
    ensures Acceptable(w, f, e, 0.0, {}, None)
  {
    hide PlainIso, PlainParse, Strip, SignerOf;
    PlainCalendar(300);
    StripKeeps("approval");
  }

  /** A world, a flow and a completion that meet every hypothesis of HonestCompletes at once. */
  ghost predicate Completable(w: World, f: Flow, p: Package, e: Completion) {
    && Ideal(w) && Builds(w, f, p, e) && Acceptable(w, f, e, 0.0, {}, None)
    && Honest(w, f.sign, f.issuer) && Honest(w, f.holderSign, e.request.newIdentity)
  }

  /** There is a calendar, and there are honest keys and a flow between them that completes. */
  lemma IdealWorldExists()
    ensures exists w, f, p, e :: Completable(w, f, p, e)
  {
    hide Builds, Acceptable, Honest, Ideal, Person, SignerOf, PlainWorld;
    var w, f := PlainWorld(), PlainFlow();
    PlainWorldIsIdeal();
    PersonIsHonest("issuer", 1);
    PersonIsHonest("new", 2);
    PlainFlowBuilds(w, f);
    var p, e :| Builds(w, f, p, e) && e.request == PlainRequest() && e.approval.jti == "approval"
      && e.requireEvidence.None?;
    PlainFlowIsAcceptable(w, f, e);
    assert Completable(w, f, p, e);
  }
}
