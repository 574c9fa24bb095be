/** Bridge channel admission: the messages, and each end as a step function from
    its state, one frame and what its clocks and random source answer. */
module Channel {
  import opened Basics
  import opened Json
  import opened Canonical
  import opened Envelopes
  import opened PyText
  import KeyOrder
  import Base64
  import Utf8

  const PROFILE := "org.haven.bridge-channel.v1"
  const ACTION := "openBridgeChannel"
  const DIRECTION := "client-to-server"
  const CHALLENGE_TYPE := "org.haven.cellprotocol.identity-signing-challenge"
  const PURPOSE := "identity-origin-proof"

  const HELLO := "channelAuthHello"
  const CHALLENGE := "channelAuthChallenge"
  const PROOF := "channelAuthProof"
  const ACCEPTED := "channelAuthAccepted"

  const CHANNEL_MS := 300000
  const TIME_LIMIT := 9000000000000000
  const CHALLENGE_LIFETIME := 30.0
  const PRE_AUTH_DEADLINE := 10.0
  const MAX_SIGNING_BYTES := 8192
  const MAX_SCOPE := 512

  datatype Failure =
    Malformed | UnexpectedMessage | Expired | StaleGeneration | InvalidProof | Revoked | IdentityMismatch

  datatype PublicIdentity = PublicIdentity(uuid: string, publicKey: seq<Byte>, algorithm: string, curve: string)

  datatype Endpoint = Endpoint(origin: string, route: string, domain: string)

  datatype Transcript = Transcript(
    profile: string, endpoint: Endpoint, identity: PublicIdentity,
    clientNonce: seq<Byte>, serverNonce: seq<Byte>, sessionId: string, generation: string,
    direction: string, issuedAtMs: int, expiresAtMs: int)

  datatype Admitted = Admitted(
    identity: PublicIdentity, endpoint: Endpoint, sessionId: string, generation: string,
    digest: string, expiresAt: real)

  datatype Challenge = Challenge(
    kind: string, version: int, purpose: string, identityUuid: string, fingerprint: Option<string>,
    domain: string, resource: string, action: string, audience: string, nonce: seq<Byte>,
    issuedAt: real, expiresAt: real)

  /** What is outside the model: SHA-256, Ed25519, uuid.UUID, and the text of a
      signing challenge, whose times are floats. */
  datatype World = World(
    digest: string -> string,
    verifies: (seq<Byte>, seq<Byte>, seq<Byte>) -> bool,
    isUuid: string -> bool,
    challengeBytes: Challenge -> seq<Byte>,
    readChallenge: seq<Byte> -> Option<Challenge>)

  // ---- field readers ----

  function UnB64(v: Json): Option<seq<Byte>> {
    if v.Str? then Base64.Decode(v.s) else None
  }

  function B64(b: seq<Byte>): Json {
    Str(Base64.Encode(b))
  }

  lemma B64Back(b: seq<Byte>)
    ensures UnB64(B64(b)) == Some(b)
  {
    Base64.DecodeEncode(b);
  }

  // ---- identities, endpoints, transcripts ----

  /** PublicIdentity.validate. */
  predicate ValidIdentity(i: PublicIdentity) {
    && i.uuid != "" && Utf8.Size(i.uuid) <= 512
    && i.algorithm == "EdDSA" && i.curve == "Curve25519" && |i.publicKey| == 32
  }

  const IDENTITY := ["uuid", "algorithm", "curve", "publicKey"]
  const ENDPOINT := ["origin", "route", "domain"]
  const TRANSCRIPT := [
    "profile", "endpoint", "identity", "clientNonce", "serverNonce", "sessionID",
    "generation", "direction", "issuedAtMilliseconds", "channelExpiresAtMilliseconds"]

  lemma KeysDistinct()
    ensures Distinct(IDENTITY) && Distinct(ENDPOINT) && Distinct(TRANSCRIPT)
  {
  }

  function IdentityJson(i: PublicIdentity): Json {
    Obj(Fields(IDENTITY, [Str(i.uuid), Str(i.algorithm), Str(i.curve), B64(i.publicKey)]))
  }

  /** PublicIdentity.from_json; None is malformed. */
  function ReadIdentity(v: Json): Option<PublicIdentity> {
    match ReadFields(v, IDENTITY)
    case None => None
    case Some(f) =>
      match UnB64(f[3])
      case None => None
      case Some(key) =>
        if !f[0].Str? || !f[1].Str? || !f[2].Str? then None else
          var i := PublicIdentity(f[0].s, key, f[1].s, f[2].s);
          if ValidIdentity(i) then Some(i) else None
  }

  function EndpointJson(e: Endpoint): Json {
    Obj(Fields(ENDPOINT, [Str(e.origin), Str(e.route), Str(e.domain)]))
  }

  function TranscriptValues(t: Transcript): (vs: seq<Json>)
    ensures |vs| == 10
  {
    [Str(t.profile), EndpointJson(t.endpoint), IdentityJson(t.identity), B64(t.clientNonce), B64(t.serverNonce),
     Str(t.sessionId), Str(t.generation), Str(t.direction), Num(t.issuedAtMs), Num(t.expiresAtMs)]
  }

  function TranscriptJson(t: Transcript): Json {
    Obj(Fields(TRANSCRIPT, TranscriptValues(t)))
  }

  /** Transcript.from_json. None is malformed; Some(None) is a transcript in which
      some field is no string at all and so equals nothing it is compared with. */
  function ReadTranscript(v: Json): Option<Option<Transcript>> {
    match ReadFields(v, TRANSCRIPT)
    case None => None
    case Some(f) => TranscriptOf(f)
  }

  function TranscriptOf(f: seq<Json>): Option<Option<Transcript>>
    requires |f| == 10
  {
    if !f[8].Num? || !f[9].Num? then None else
      var e, i, c, s := ReadFields(f[1], ENDPOINT), ReadIdentity(f[2]), UnB64(f[3]), UnB64(f[4]);
      if e.None? || i.None? || c.None? || s.None? then None
      else if f[0].Str? && f[5].Str? && f[6].Str? && f[7].Str?
           && e.value[0].Str? && e.value[1].Str? && e.value[2].Str? then
        Some(Some(Transcript(f[0].s, Endpoint(e.value[0].s, e.value[1].s, e.value[2].s), i.value,
          c.value, s.value, f[5].s, f[6].s, f[7].s, f[8].n, f[9].n)))
      else Some(None)
  }

  function Wire(v: Json): Json {
    Sorted(v, KeyOrder.Encoder)
  }

  lemma IdentityBack(i: PublicIdentity)
    ensures IsDict(IdentityJson(i))
    ensures ValidIdentity(i) ==> ReadIdentity(Wire(IdentityJson(i))) == Some(i)
  {
    hide ReadFields, UnB64, Fields, Utf8.Size, IsDict, Sorted, Base64.Encode;
    KeysDistinct();
    B64Back(i.publicKey);
    var vs := [Str(i.uuid), Str(i.algorithm), Str(i.curve), B64(i.publicKey)];
    Scalars(vs);
    FieldsBack(IDENTITY, vs);
    SortedIsObj(Fields(IDENTITY, vs), KeyOrder.Encoder);
    var r := ReadFields(Wire(IdentityJson(i)), IDENTITY).value;
    assert r[0] == vs[0] && r[1] == vs[1] && r[2] == vs[2] && r[3] == vs[3];
  }

  lemma EndpointBack(e: Endpoint)
    ensures IsDict(EndpointJson(e))
    ensures var r := ReadFields(Wire(EndpointJson(e)), ENDPOINT);
      r.Some? && r.value[0] == Str(e.origin) && r.value[1] == Str(e.route) && r.value[2] == Str(e.domain)
  {
    KeysDistinct();
    var vs := [Str(e.origin), Str(e.route), Str(e.domain)];
    FieldsBack(ENDPOINT, vs);
    hide ReadFields, Fields;
    var r := ReadFields(Wire(EndpointJson(e)), ENDPOINT).value;
    assert r[0] == vs[0] && r[1] == vs[1] && r[2] == vs[2];
  }

  lemma TranscriptIsDict(t: Transcript)
    ensures IsDict(TranscriptJson(t))
    ensures forall v | v in TranscriptValues(t) :: IsDict(v)
  {
    EndpointBack(t.endpoint);
    IdentityBack(t.identity);
    KeysDistinct();
    hide EndpointJson, IdentityJson, Fields;
    FieldsBack(TRANSCRIPT, TranscriptValues(t));
  }

  lemma TranscriptOfBack(t: Transcript, f: seq<Json>)
    requires ValidIdentity(t.identity)
    requires |f| == 10 && forall i | 0 <= i < 10 :: f[i] == Wire(TranscriptValues(t)[i])
    ensures TranscriptOf(f) == Some(Some(t))
  {
    var vs := TranscriptValues(t);
    EndpointBack(t.endpoint);
    IdentityBack(t.identity);
    B64Back(t.clientNonce);
    B64Back(t.serverNonce);
    hide ReadFields, ReadIdentity, Fields, UnB64, EndpointJson, IdentityJson, ValidIdentity;
    assert f[0] == vs[0] && f[1] == Wire(vs[1]) && f[2] == Wire(vs[2]) && f[3] == vs[3] && f[4] == vs[4];
    assert f[5] == vs[5] && f[6] == vs[6] && f[7] == vs[7] && f[8] == vs[8] && f[9] == vs[9];
  }

  /** A transcript survives the wire. */
  lemma TranscriptBack(t: Transcript)
    requires ValidIdentity(t.identity)
    ensures ReadTranscript(Wire(TranscriptJson(t))) == Some(Some(t))
  {
    TranscriptIsDict(t);
    KeysDistinct();
    FieldsBack(TRANSCRIPT, TranscriptValues(t));
    hide ReadFields, TranscriptOf, Fields, TranscriptValues, ValidIdentity, Sorted;
    TranscriptOfBack(t, ReadFields(Wire(TranscriptJson(t)), TRANSCRIPT).value);
  }

  function Digest(w: World, t: Transcript): string {
    w.digest(Encode(TranscriptJson(t)))
  }

  ghost predicate InjectiveDigest(w: World) {
    forall a, b :: w.digest(a) == w.digest(b) ==> a == b
  }

  /** The digest names one transcript: every field of it. */
  lemma DigestInjective(w: World, t: Transcript, u: Transcript)
    requires InjectiveDigest(w) && ValidIdentity(t.identity) && ValidIdentity(u.identity)
    requires Digest(w, t) == Digest(w, u)
    ensures t == u
  {
    TranscriptIsDict(t);
    TranscriptIsDict(u);
    TranscriptBack(t);
    TranscriptBack(u);
    ParseCanonical(TranscriptJson(t), KeyOrder.Encoder, false);
    ParseCanonical(TranscriptJson(u), KeyOrder.Encoder, false);
    hide TranscriptJson, ReadTranscript, CanonicalJson, Parse;
    assert Encode(TranscriptJson(t)) == Encode(TranscriptJson(u));
  }

  // ---- the signed challenge ----

  function Fingerprint(i: PublicIdentity): string {
    i.algorithm + ":" + i.curve + ":" + Base64.Encode(i.publicKey)
  }

  function SigningChallenge(w: World, t: Transcript): Challenge {
    Challenge(CHALLENGE_TYPE, 1, PURPOSE, t.identity.uuid, Some(Fingerprint(t.identity)),
      t.endpoint.domain, PROFILE + ":" + Digest(w, t), ACTION, t.endpoint.origin + t.endpoint.route,
      t.serverNonce, t.issuedAtMs as real / 1000.0, t.issuedAtMs as real / 1000.0 + CHALLENGE_LIFETIME)
  }

  function SigningData(w: World, t: Transcript): seq<Byte> {
    w.challengeBytes(SigningChallenge(w, t))
  }

  /** The digest is injective, and the challenges that are made from transcripts are read
      back from their bytes. */
  ghost predicate Ideal(w: World) {
    InjectiveDigest(w) && forall t :: w.readChallenge(SigningData(w, t)) == Some(SigningChallenge(w, t))
  }

  lemma TailOf(p: string, a: string, b: string)
    requires p + a == p + b
    ensures a == b
  {
    assert (p + a)[|p|..] == a && (p + b)[|p|..] == b;
  }

  /** What is signed names one transcript. */
  lemma SigningDataInjective(w: World, t: Transcript, u: Transcript)
    requires Ideal(w) && ValidIdentity(t.identity) && ValidIdentity(u.identity)
    requires SigningData(w, t) == SigningData(w, u)
    ensures t == u
  {
    hide Digest, Fingerprint, ValidIdentity;
    assert SigningChallenge(w, t) == SigningChallenge(w, u);
    TailOf(PROFILE + ":", Digest(w, t), Digest(w, u));
    DigestInjective(w, t, u);
  }

  // ---- such a world exists ----

  function Pack(text: string): (b: seq<Byte>)
    ensures |b| == 3 * |text|
  {
    if text == "" then []
    else [text[0] as int / 65536, text[0] as int / 256 % 256, text[0] as int % 256] + Pack(text[1..])
  }

  lemma BytesOfChar(c: nat, d: nat)
    requires c / 65536 == d / 65536 && c / 256 % 256 == d / 256 % 256 && c % 256 == d % 256
    ensures c == d
  {
  }

  lemma {:induction false} PackInjective(a: string, b: string)
    requires Pack(a) == Pack(b)
    ensures a == b
  {
    if a != "" {
      assert Pack(a)[0] == Pack(b)[0] && Pack(a)[1] == Pack(b)[1] && Pack(a)[2] == Pack(b)[2];
      BytesOfChar(a[0] as int, b[0] as int);
      assert Pack(a)[3..] == Pack(a[1..]) && Pack(b)[3..] == Pack(b[1..]);
      PackInjective(a[1..], b[1..]);
      assert a == [a[0]] + a[1..] && b == [b[0]] + b[1..];
    }
  }

  function ListBytes(vs: seq<Json>): seq<Byte> {
    Pack(CanonicalJson(Arr(vs), KeyOrder.Encoder, false))
  }

  predicate Scalar(v: Json) {
    !v.Arr? && !v.Obj?
  }

  lemma ListTells(vs: seq<Json>, us: seq<Json>)
    requires ListBytes(vs) == ListBytes(us) && forall i | 0 <= i < |vs| :: Scalar(vs[i])
    requires forall i | 0 <= i < |us| :: Scalar(us[i])
    ensures vs == us
  {
    hide CanonicalJson, Pack;
    PackInjective(CanonicalJson(Arr(vs), KeyOrder.Encoder, false), CanonicalJson(Arr(us), KeyOrder.Encoder, false));
    CanonicalInjective(Arr(vs), Arr(us), KeyOrder.Encoder, false);
  }

  function PlainFields(c: Challenge): seq<Json> {
    [Str(c.identityUuid), Str(if c.fingerprint.Some? then c.fingerprint.value else ""), Str(c.domain), Str(c.resource),
     Str(c.audience), B64(c.nonce), Num(Ms(c.issuedAt))]
  }

  /** Bytes that determine a challenge whose times are whole milliseconds. */
  function PlainBytes(c: Challenge): seq<Byte> {
    ListBytes(PlainFields(c))
  }

  lemma PlainBytesTell(w: World, t: Transcript, u: Transcript)
    requires PlainBytes(SigningChallenge(w, t)) == PlainBytes(SigningChallenge(w, u))
    ensures SigningChallenge(w, t) == SigningChallenge(w, u)
  {
    hide Digest, Fingerprint, ListBytes, Base64.Encode, Base64.Decode;
    var c, d := SigningChallenge(w, t), SigningChallenge(w, u);
    var vs, us := PlainFields(c), PlainFields(d);
    ListTells(vs, us);
    assert vs[0] == us[0] && vs[1] == us[1] && vs[2] == us[2] && vs[3] == us[3] && vs[4] == us[4] && vs[5] == us[5]
      && vs[6] == us[6];
    B64Back(c.nonce);
    B64Back(d.nonce);
  }

  /** One signature per key and data, and different keys never share one. */
  ghost predicate SignsWith(w: World, sign: (seq<Byte>, seq<Byte>) -> seq<Byte>) {
    && (forall key, data, s :: w.verifies(key, data, s) <==> s == sign(key, data))
    && (forall key, data | |key| == 32 :: |sign(key, data)| == 64)
    && (forall a, b, data | |a| == 32 && |b| == 32 && a != b :: sign(a, data) != sign(b, data))
  }

  /** There is such a world, in which every key signs. */
  lemma IdealWorldExists()
    ensures exists w, sign :: Ideal(w) && SignsWith(w, sign)
  {
    hide PlainBytes, SigningChallenge;
    var sign := (key: seq<Byte>, data: seq<Byte>) => key + key;
    var bare := World(text => text, (key, data, s) => s == key + key, text => true, PlainBytes, data => None);
    ghost var read: seq<Byte> -> Option<Challenge> := data =>
      if exists t :: PlainBytes(SigningChallenge(bare, t)) == data then
        var t :| PlainBytes(SigningChallenge(bare, t)) == data;
        Some(SigningChallenge(bare, t))
      else None;
    ghost var w := bare.(readChallenge := read);
    forall t ensures w.readChallenge(SigningData(w, t)) == Some(SigningChallenge(w, t)) {
      SameDigestSameChallenge(bare, w, t);
      assert PlainBytes(SigningChallenge(bare, t)) == SigningData(w, t);
      var u :| PlainBytes(SigningChallenge(bare, u)) == SigningData(w, t)
        && read(SigningData(w, t)) == Some(SigningChallenge(bare, u));
      PlainBytesTell(bare, t, u);
    }
    assert Ideal(w);
    forall a: seq<Byte>, b: seq<Byte> | |a| == 32 && |b| == 32 && a + a == b + b ensures a == b {
      assert (a + a)[..32] == a && (b + b)[..32] == b;
    }
    assert SignsWith(w, sign);
  }

  lemma SameDigestSameChallenge(v: World, w: World, t: Transcript)
    requires v.digest == w.digest
    ensures SigningChallenge(v, t) == SigningChallenge(w, t)
  {
  }

  predicate Scoped(item: string) {
    Strip(item) != "" && |item| <= MAX_SCOPE
  }

  /** validate_signing_challenge: whether it returns rather than raises. */
  predicate ValidChallenge(w: World, data: seq<Byte>, identity: PublicIdentity, now: real) {
    && |data| <= MAX_SIGNING_BYTES
    && var read := w.readChallenge(data);
    && read.Some?
    && var c := read.value;
    && c.kind == CHALLENGE_TYPE && c.version == 1 && c.purpose == PURPOSE
    && c.identityUuid == identity.uuid
    && var expected := Strip(if c.fingerprint.Some? then c.fingerprint.value else "");
    && expected != "" && expected == Fingerprint(identity)
    && 32 <= |c.nonce| <= 128
    && Scoped(c.domain) && Scoped(c.resource) && Scoped(c.action) && Scoped(c.audience)
    && c.issuedAt <= c.expiresAt && c.expiresAt - c.issuedAt <= 60.0
    && c.issuedAt <= now + 300.0
    && now <= c.expiresAt
  }

  /** verify_signature. */
  predicate Verifies(w: World, signature: seq<Byte>, data: seq<Byte>, identity: PublicIdentity) {
    && identity.algorithm == "EdDSA" && identity.curve == "Curve25519"
    && |identity.publicKey| == 32 && |signature| == 64
    && w.verifies(identity.publicKey, data, signature)
  }

  function Ms(now: real): int {
    (now * 1000.0).Floor
  }

  // ---- message bodies ----

  const HELLO_KEYS := ["profile", "identity", "clientNonce"]
  const CHALLENGE_KEYS := ["transcript", "signingData"]
  const PROOF_KEYS := ["sessionID", "generation", "signature"]
  const ACCEPTED_KEYS := ["sessionID", "generation", "transcriptDigest"]

  function HelloBody(i: PublicIdentity, clientNonce: seq<Byte>): seq<Member> {
    Fields(HELLO_KEYS, [Str(PROFILE), IdentityJson(i), B64(clientNonce)])
  }

  function ChallengeBody(w: World, t: Transcript): seq<Member> {
    Fields(CHALLENGE_KEYS, [TranscriptJson(t), B64(SigningData(w, t))])
  }

  function ProofBody(sessionId: string, generation: string, signature: seq<Byte>): seq<Member> {
    Fields(PROOF_KEYS, [Str(sessionId), Str(generation), B64(signature)])
  }

  function AcceptedBody(w: World, t: Transcript): seq<Member> {
    Fields(ACCEPTED_KEYS, [Str(t.sessionId), Str(t.generation), Str(Digest(w, t))])
  }

  /** The identity and nonce of a hello body; None is malformed. */
  function ReadHello(body: seq<Member>): Option<(PublicIdentity, seq<Byte>)> {
    match ReadFields(Obj(body), HELLO_KEYS)
    case None => None
    case Some(f) =>
      var i, n := ReadIdentity(f[1]), UnB64(f[2]);
      if f[0] != Str(PROFILE) || i.None? || n.None? || |n.value| != 32 then None else Some((i.value, n.value))
  }

  function ReadOffer(body: seq<Member>): Option<(Option<Transcript>, seq<Byte>)> {
    match ReadFields(Obj(body), CHALLENGE_KEYS)
    case None => None
    case Some(f) =>
      var t, data := ReadTranscript(f[0]), UnB64(f[1]);
      if t.None? || data.None? then None else Some((t.value, data.value))
  }

  function ReadProof(body: seq<Member>): Option<(Json, Json, seq<Byte>)> {
    match ReadFields(Obj(body), PROOF_KEYS)
    case None => None
    case Some(f) =>
      var signature := UnB64(f[2]);
      if signature.None? then None else Some((f[0], f[1], signature.value))
  }

  // ---- the accepting end ----

  datatype ServerPhase = Unauthenticated | ChallengeIssued | Verifying | Authenticated | Closed

  datatype Server = Server(
    endpoint: Endpoint, generation: string, deadline: real, phase: ServerPhase,
    pending: Option<(Transcript, seq<Byte>)>, admitted: Option<Admitted>)

  /** What one receive call reads: the monotonic clock on entry, the wall clock,
      both again before admission, 32 random bytes, a UUID, and the policy's answer. */
  datatype ServerReads = ServerReads(
    mono: real, wall: real, monoLate: real, wallLate: real,
    nonce: seq<Byte>, sessionId: string, policyOk: bool)

  function NewServer(endpoint: Endpoint, generation: string, mono: real): Server {
    Server(endpoint, generation, mono + PRE_AUTH_DEADLINE, Unauthenticated, None, None)
  }

  function Refuse(s: Server): Server {
    s.(phase := Closed, pending := None)
  }

  function ServerTranscript(s: Server, hello: (PublicIdentity, seq<Byte>), e: ServerReads): Transcript {
    Transcript(PROFILE, s.endpoint, hello.0, hello.1, e.nonce, e.sessionId, s.generation, DIRECTION,
      Ms(e.wall), Ms(e.wall) + CHANNEL_MS)
  }

  function OnHello(w: World, s: Server, body: seq<Member>, e: ServerReads): (Server, Result<string, Failure>) {
    match ReadHello(body)
    case None => (Refuse(s), Err(Malformed))
    case Some(hello) =>
      var t := ServerTranscript(s, hello, e);
      (s.(phase := ChallengeIssued, pending := Some((t, SigningData(w, t)))),
       Ok(Envelope(CHALLENGE, ChallengeBody(w, t))))
  }

  function AdmittedFor(w: World, t: Transcript): Admitted {
    Admitted(t.identity, t.endpoint, t.sessionId, t.generation, Digest(w, t), t.expiresAtMs as real / 1000.0)
  }

  function OnProof(w: World, s: Server, body: seq<Member>, e: ServerReads): (Server, Result<string, Failure>) {
    if s.pending.None? then (Refuse(s), Err(UnexpectedMessage)) else
      var (t, data) := s.pending.value;
      match ReadProof(body)
      case None => (Refuse(s), Err(Malformed))
      case Some(proof) =>
        if e.wall >= t.issuedAtMs as real / 1000.0 + CHALLENGE_LIFETIME then (Refuse(s), Err(Expired))
        else if proof.0 != Str(t.sessionId) || proof.1 != Str(s.generation) then (Refuse(s), Err(StaleGeneration))
        else if |proof.2| > 256 || !Verifies(w, proof.2, data, t.identity) then (Refuse(s), Err(InvalidProof))
        else if !e.policyOk then (Refuse(s), Err(Revoked))
        else if e.monoLate >= s.deadline || e.wallLate >= t.expiresAtMs as real / 1000.0 then (Refuse(s), Err(Expired))
        else
          (s.(phase := Authenticated, pending := None,
              admitted := Some(AdmittedFor(w, t).(endpoint := s.endpoint, generation := s.generation))),
           Ok(Envelope(ACCEPTED, AcceptedBody(w, t))))
  }

  /** ChannelServer.receive. A frame that does not open leaves the pending challenge
      behind in the closed state. */
  function ServerReceive(w: World, s: Server, frame: string, e: ServerReads): (Server, Result<string, Failure>) {
    if s.phase == Closed || s.phase == Authenticated then (Refuse(s), Err(UnexpectedMessage)) else
      match OpenEnvelope(frame)
      case None => (s.(phase := Closed), Err(Malformed))
      case Some((name, body)) =>
        if e.mono >= s.deadline then (Refuse(s), Err(Expired))
        else if name == HELLO && s.phase == Unauthenticated then OnHello(w, s, body, e)
        else if name == PROOF && s.phase == ChallengeIssued then OnProof(w, s, body, e)
        else (Refuse(s), Err(UnexpectedMessage))
  }

  // ---- the connecting end ----

  datatype ClientPhase = New | HelloSent | Signing | ProofSent | Connected | Failed

  datatype Client = Client(
    identity: PublicIdentity, endpoint: Endpoint, nonce: seq<Byte>, deadline: real, phase: ClientPhase,
    transcript: Option<Transcript>, offered: Option<seq<Byte>>, admitted: Option<Admitted>)

  datatype ClientReads = ClientReads(mono: real, wall: real)

  function NewClient(identity: PublicIdentity, endpoint: Endpoint, nonce: seq<Byte>, mono: real): Client {
    Client(identity, endpoint, nonce, mono + PRE_AUTH_DEADLINE, New, None, None, None)
  }

  function GiveUp(c: Client): Client {
    c.(phase := Failed)
  }

  function ClientHello(c: Client): (Client, Result<string, Failure>) {
    if c.phase != New then (GiveUp(c), Err(UnexpectedMessage))
    else (c.(phase := HelloSent), Ok(Envelope(HELLO, HelloBody(c.identity, c.nonce))))
  }

  /** The long condition of begin_challenge. */
  predicate Matches(w: World, c: Client, t: Transcript, offered: seq<Byte>, nowMs: int) {
    && t.profile == PROFILE && t.direction == DIRECTION
    && t.endpoint == c.endpoint && t.identity == c.identity && t.clientNonce == c.nonce
    && |t.serverNonce| == 32 && w.isUuid(t.sessionId) && w.isUuid(t.generation)
    && 0 < t.issuedAtMs < TIME_LIMIT && 0 < t.expiresAtMs < TIME_LIMIT
    && t.issuedAtMs <= nowMs + 5000 && t.issuedAtMs > nowMs - 30000
    && t.expiresAtMs > nowMs && t.expiresAtMs - t.issuedAtMs == CHANNEL_MS
    && offered == SigningData(w, t)
  }

  function Accept(
    w: World, c: Client, offer: (Option<Transcript>, seq<Byte>), e: ClientReads
  ): (Client, Result<seq<Byte>, Failure>) {
    var nowMs := Ms(e.wall);
    if offer.0.Some? && Matches(w, c, offer.0.value, offer.1, nowMs)
       && ValidChallenge(w, offer.1, c.identity, nowMs as real / 1000.0)
    then (c.(phase := Signing, transcript := offer.0, offered := Some(offer.1)), Ok(offer.1))
    else (GiveUp(c), Err(InvalidProof))
  }

  /** begin_challenge: the exact bytes to sign. */
  function ClientBegin(w: World, c: Client, frame: string, e: ClientReads): (Client, Result<seq<Byte>, Failure>) {
    match OpenEnvelope(frame)
    case None => (GiveUp(c), Err(Malformed))
    case Some((name, body)) =>
      if e.mono >= c.deadline then (GiveUp(c), Err(Expired))
      else if name != CHALLENGE || c.phase != HelloSent then (GiveUp(c), Err(UnexpectedMessage))
      else
        match ReadOffer(body)
        case None => (GiveUp(c), Err(Malformed))
        case Some(offer) => Accept(w, c, offer, e)
  }

  function ClientFinish(w: World, c: Client, signature: seq<Byte>, e: ClientReads): (Client, Result<string, Failure>) {
    if c.phase != Signing || c.transcript.None? || c.offered.None? then (GiveUp(c), Err(UnexpectedMessage)) else
      var t, offered, d := c.transcript.value, c.offered.value, c.(offered := None);
      if e.mono >= c.deadline || !Verifies(w, signature, offered, c.identity) then (GiveUp(d), Err(StaleGeneration))
      else if !ValidChallenge(w, offered, c.identity, e.wall) then (GiveUp(d), Err(Expired))
      else (d.(phase := ProofSent), Ok(Envelope(PROOF, ProofBody(t.sessionId, t.generation, signature))))
  }

  function ClientAccept(w: World, c: Client, frame: string, e: ClientReads): (Client, Option<Failure>) {
    match OpenEnvelope(frame)
    case None => (GiveUp(c), Some(Malformed))
    case Some((name, body)) =>
      if e.mono >= c.deadline then (GiveUp(c), Some(Expired))
      else if name != ACCEPTED || c.phase != ProofSent then (GiveUp(c), Some(UnexpectedMessage))
      else
        match ReadFields(Obj(body), ACCEPTED_KEYS)
        case None => (GiveUp(c), Some(Malformed))
        case Some(f) =>
          if c.transcript.None? then (GiveUp(c), Some(InvalidProof)) else
            var t := c.transcript.value;
            if f[0] != Str(t.sessionId) || f[1] != Str(t.generation) || f[2] != Str(Digest(w, t)) then
              (GiveUp(c), Some(InvalidProof))
            else if e.wall >= t.expiresAtMs as real / 1000.0 then (GiveUp(c), Some(Expired))
            else (c.(phase := Connected, admitted := Some(AdmittedFor(w, t))), None)
  }
}
