/** Which frames the two ends of the channel accept, whoever sent them, and what they refuse. */
module ChannelFrames {
  import opened Basics
  import opened Json
  import opened Envelopes
  import opened Channel
  import opened PyText
  import Base64
  import Utf8

  function Bytes(v: Json): Option<seq<Byte>> {
    if v.Str? then Base64.Decode(v.s) else None
  }

  /** A 64-byte signature under a 32-byte Ed25519 key. */
  predicate SignedBy(w: World, signature: seq<Byte>, data: seq<Byte>, i: PublicIdentity) {
    && i.algorithm == "EdDSA" && i.curve == "Curve25519" && |i.publicKey| == 32 && |signature| == 64
    && w.verifies(i.publicKey, data, signature)
  }

  /** A text that opens to this command. */
  predicate Says(frame: string, name: string) {
    OpenEnvelope(frame).Some? && OpenEnvelope(frame).value.0 == name
  }

  function Members(frame: string, ks: seq<string>): Option<seq<Json>> {
    match OpenEnvelope(frame)
    case None => None
    case Some((_, body)) => ReadFields(Obj(body), ks)
  }

  // ---- the accepting end ----

  predicate NamesIdentity(v: Json, i: PublicIdentity) {
    var f := ReadFields(v, ["uuid", "algorithm", "curve", "publicKey"]);
    && f.Some? && f.value[0] == Str(i.uuid) && f.value[1] == Str("EdDSA") && f.value[2] == Str("Curve25519")
    && Bytes(f.value[3]) == Some(i.publicKey) && i.algorithm == "EdDSA" && i.curve == "Curve25519"
    && i.uuid != "" && Utf8.Size(i.uuid) <= 512 && |i.publicKey| == 32
  }

  /** A hello of this identity and nonce, in time, at an end that has heard nothing yet. */
  predicate HelloAccepted(s: Server, frame: string, e: ServerReads, i: PublicIdentity, nonce: seq<Byte>) {
    var f := Members(frame, ["profile", "identity", "clientNonce"]);
    && s.phase == Unauthenticated && e.mono < s.deadline && Says(frame, "channelAuthHello")
    && f.Some? && f.value[0] == Str("org.haven.bridge-channel.v1") && NamesIdentity(f.value[1], i)
    && Bytes(f.value[2]) == Some(nonce) && |nonce| == 32
  }

  /** A proof for the pending challenge: its session and this server's generation, a signature
      over the exact bytes, within 30 s of issue, before both deadlines, with the policy's word. */
  predicate ProofAccepted(w: World, s: Server, frame: string, e: ServerReads) {
    var f := Members(frame, ["sessionID", "generation", "signature"]);
    && s.phase == ChallengeIssued && s.pending.Some? && e.mono < s.deadline && Says(frame, "channelAuthProof")
    && f.Some? && Bytes(f.value[2]).Some?
    && var (t, data) := s.pending.value;
    && f.value[0] == Str(t.sessionId) && f.value[1] == Str(s.generation)
    && SignedBy(w, Bytes(f.value[2]).value, data, t.identity)
    && e.wall < t.issuedAtMs as real / 1000.0 + 30.0
    && e.monoLate < s.deadline && e.wallLate < t.expiresAtMs as real / 1000.0
    && e.policyOk
  }

  lemma HelloReads(s: Server, frame: string, e: ServerReads, i: PublicIdentity, nonce: seq<Byte>)
    ensures HelloAccepted(s, frame, e, i, nonce) <==>
      && s.phase == Unauthenticated && e.mono < s.deadline && Says(frame, HELLO)
      && ReadHello(OpenEnvelope(frame).value.1) == Some((i, nonce))
  {
    hide OpenEnvelope, ReadFields, Base64.Decode, Utf8.Size;
  }

  lemma ProofReads(w: World, s: Server, body: seq<Member>, e: ServerReads)
    requires s.pending.Some?
    ensures var f := ReadFields(Obj(body), ["sessionID", "generation", "signature"]);
      var (t, data) := s.pending.value;
      OnProof(w, s, body, e).1.Ok? <==>
        && f.Some? && Bytes(f.value[2]).Some?
        && f.value[0] == Str(t.sessionId) && f.value[1] == Str(s.generation)
        && SignedBy(w, Bytes(f.value[2]).value, data, t.identity)
        && e.wall < t.issuedAtMs as real / 1000.0 + 30.0
        && e.monoLate < s.deadline && e.wallLate < t.expiresAtMs as real / 1000.0 && e.policyOk
  {
    hide ReadFields, Base64.Decode, Envelope, AcceptedBody, AdmittedFor;
  }

  /** The accepting end answers exactly such frames: a hello with the challenge for its own
      transcript, a proof with the admission of the pending one. Any other frame closes it and
      admits nobody. */
  lemma ServerExactly(w: World, s: Server, frame: string, e: ServerReads)
    ensures var (d, reply) := ServerReceive(w, s, frame, e);
      && (reply.Ok? <==> (exists i, nonce :: HelloAccepted(s, frame, e, i, nonce)) || ProofAccepted(w, s, frame, e))
      && (forall i, nonce | HelloAccepted(s, frame, e, i, nonce) ::
            var t := Transcript("org.haven.bridge-channel.v1", s.endpoint, i, nonce, e.nonce, e.sessionId, s.generation,
              "client-to-server", Ms(e.wall), Ms(e.wall) + 300000);
            && d == s.(phase := ChallengeIssued, pending := Some((t, SigningData(w, t))))
            && reply == Ok(Envelope("channelAuthChallenge", ChallengeBody(w, t))))
      && (ProofAccepted(w, s, frame, e) ==>
            var t := s.pending.value.0;
            && d == s.(phase := Authenticated, pending := None, admitted := Some(Admitted(t.identity, s.endpoint,
                 t.sessionId, s.generation, w.digest(Encode(TranscriptJson(t))), t.expiresAtMs as real / 1000.0)))
            && reply == Ok(Envelope("channelAuthAccepted", AcceptedBody(w, t))))
      && (reply.Err? ==> d.phase == Closed && d.admitted == s.admitted)
  {
    hide OpenEnvelope, ReadHello, ReadProof, OnProof, Envelope, ChallengeBody, AcceptedBody, SigningData, ReadFields,
      NamesIdentity, SignedBy, Verifies, Ms, HelloAccepted, TranscriptJson, Encode;
    forall i, nonce ensures HelloAccepted(s, frame, e, i, nonce) <==>
      && s.phase == Unauthenticated && e.mono < s.deadline && Says(frame, HELLO)
      && ReadHello(OpenEnvelope(frame).value.1) == Some((i, nonce))
    {
      HelloReads(s, frame, e, i, nonce);
    }
    if Says(frame, HELLO) && ReadHello(OpenEnvelope(frame).value.1).Some? {
      var hello := ReadHello(OpenEnvelope(frame).value.1).value;
      assert HelloAccepted(s, frame, e, hello.0, hello.1) <==> s.phase == Unauthenticated && e.mono < s.deadline;
    }
    if Says(frame, PROOF) {
      ProofGives(w, s, OpenEnvelope(frame).value.1, e);
      if s.pending.Some? { ProofReads(w, s, OpenEnvelope(frame).value.1, e); }
    }
  }

  lemma ProofGives(w: World, s: Server, body: seq<Member>, e: ServerReads)
    ensures var (d, reply) := OnProof(w, s, body, e);
      && (reply.Err? ==> d.phase == Closed && d.admitted == s.admitted)
      && (reply.Ok? ==>
            && s.pending.Some?
            && var t := s.pending.value.0;
            && d == s.(phase := Authenticated, pending := None, admitted := Some(Admitted(t.identity, s.endpoint,
                 t.sessionId, s.generation, w.digest(Encode(TranscriptJson(t))), t.expiresAtMs as real / 1000.0)))
            && reply == Ok(Envelope("channelAuthAccepted", AcceptedBody(w, t))))
  {
    hide ReadProof, Verifies, Envelope, AcceptedBody, TranscriptJson, Encode;
  }

  /** A refusal of the accepting end is for what it says. */
  lemma ServerRefusal(w: World, s: Server, frame: string, e: ServerReads)
    ensures var reply := ServerReceive(w, s, frame, e).1;
      var f := Members(frame, ["sessionID", "generation", "signature"]);
      reply.Err? ==>
        match reply.error
        case Malformed =>
          || OpenEnvelope(frame).None?
          || (Says(frame, "channelAuthHello") && forall i, nonce :: !HelloAccepted(s, frame, e, i, nonce))
          || (Says(frame, "channelAuthProof") && (f.None? || Bytes(f.value[2]).None?))
        case UnexpectedMessage =>
          || s.phase == Closed || s.phase == Authenticated
          || (!(Says(frame, "channelAuthHello") && s.phase == Unauthenticated)
              && !(Says(frame, "channelAuthProof") && s.phase == ChallengeIssued && s.pending.Some?))
        case Expired =>
          || s.deadline <= e.mono || s.deadline <= e.monoLate
          || (s.pending.Some? && s.pending.value.0.issuedAtMs as real / 1000.0 + 30.0 <= e.wall)
          || (s.pending.Some? && s.pending.value.0.expiresAtMs as real / 1000.0 <= e.wallLate)
        case StaleGeneration =>
          && s.pending.Some? && f.Some?
          && (f.value[0] != Str(s.pending.value.0.sessionId) || f.value[1] != Str(s.generation))
        case InvalidProof =>
          && s.pending.Some? && f.Some? && Bytes(f.value[2]).Some?
          && !SignedBy(w, Bytes(f.value[2]).value, s.pending.value.1, s.pending.value.0.identity)
        case Revoked => !e.policyOk
        case IdentityMismatch => false
  {
    hide OpenEnvelope, ReadHello, ReadFields, Envelope, ChallengeBody, AcceptedBody, SigningData, Base64.Decode,
      NamesIdentity, Ms, HelloAccepted;
    forall i, nonce ensures HelloAccepted(s, frame, e, i, nonce) <==>
      && s.phase == Unauthenticated && e.mono < s.deadline && Says(frame, HELLO)
      && ReadHello(OpenEnvelope(frame).value.1) == Some((i, nonce))
    {
      HelloReads(s, frame, e, i, nonce);
    }
  }

  // ---- the connecting end ----

  predicate InScope(item: string) {
    Strip(item) != "" && |item| <= 512
  }

  /** A signing challenge of origin proofs for this identity, short, in scope, for at most 60 s,
      issued no more than 300 s ahead of now and not yet over. */
  predicate ChallengeStands(w: World, data: seq<Byte>, i: PublicIdentity, now: real) {
    && |data| <= 8192 && w.readChallenge(data).Some?
    && var c := w.readChallenge(data).value;
    && c.kind == "org.haven.cellprotocol.identity-signing-challenge" && c.version == 1
    && c.purpose == "identity-origin-proof" && c.identityUuid == i.uuid && c.fingerprint.Some?
    && Strip(c.fingerprint.value) == i.algorithm + ":" + i.curve + ":" + Base64.Encode(i.publicKey)
    && 32 <= |c.nonce| <= 128 && InScope(c.domain) && InScope(c.resource) && InScope(c.action) && InScope(c.audience)
    && c.issuedAt <= c.expiresAt <= c.issuedAt + 60.0 && c.issuedAt <= now + 300.0 && now <= c.expiresAt
  }

  lemma ValidStands(w: World, data: seq<Byte>, i: PublicIdentity, now: real)
    ensures ValidChallenge(w, data, i, now) <==> ChallengeStands(w, data, i, now)
  {
    hide Base64.Encode;
    BlankStrips();
    assert Fingerprint(i) != "" by { assert ':' in Fingerprint(i); }
  }

  lemma BlankStrips()
    ensures Strip("") == ""
  {
  }

  /** A transcript with its bytes that the connecting end can sign: its own endpoint, identity and
      nonce, well formed, issued just now, for 300 s, and in the exact bytes offered. */
  predicate OfferAccepted(w: World, c: Client, frame: string, e: ClientReads, t: Transcript, data: seq<Byte>) {
    var f, now := Members(frame, ["transcript", "signingData"]), Ms(e.wall);
    && c.phase == HelloSent && e.mono < c.deadline && Says(frame, "channelAuthChallenge")
    && f.Some? && ReadTranscript(f.value[0]) == Some(Some(t)) && Bytes(f.value[1]) == Some(data)
    && t.profile == "org.haven.bridge-channel.v1" && t.direction == "client-to-server"
    && t.endpoint == c.endpoint && t.identity == c.identity && t.clientNonce == c.nonce
    && |t.serverNonce| == 32 && w.isUuid(t.sessionId) && w.isUuid(t.generation)
    && 0 < t.issuedAtMs < 9000000000000000 && now - 30000 < t.issuedAtMs <= now + 5000
    && now < t.expiresAtMs < 9000000000000000 && t.expiresAtMs == t.issuedAtMs + 300000 && 0 < t.expiresAtMs
    && data == SigningData(w, t) && ChallengeStands(w, data, c.identity, now as real / 1000.0)
  }

  /** Bytes are offered to the signer exactly for such a frame; any other ends the client. */
  lemma OfferExactly(w: World, c: Client, frame: string, e: ClientReads)
    ensures var (d, reply) := ClientBegin(w, c, frame, e);
      && (reply.Ok? <==> exists t, data :: OfferAccepted(w, c, frame, e, t, data))
      && (forall t, data | OfferAccepted(w, c, frame, e, t, data) ::
            (d, reply) == (c.(phase := Signing, transcript := Some(t), offered := Some(data)), Ok(data)))
      && (reply.Err? ==> d == c.(phase := Failed))
  {
    hide OpenEnvelope, ReadFields, ReadTranscript, Base64.Decode, SigningData, ValidChallenge, Ms, OfferAccepted,
      Accept;
    forall t, data ensures OfferAccepted(w, c, frame, e, t, data) <==>
      ClientBegin(w, c, frame, e) == (c.(phase := Signing, transcript := Some(t), offered := Some(data)), Ok(data))
    {
      OfferReads(w, c, frame, e, t, data);
    }
    if ClientBegin(w, c, frame, e).1.Ok? {
      var t := OfferOf(w, c, frame, e);
      assert OfferAccepted(w, c, frame, e, t, ClientBegin(w, c, frame, e).1.value);
    }
    BeginFails(w, c, frame, e);
  }

  lemma OfferReads(w: World, c: Client, frame: string, e: ClientReads, t: Transcript, data: seq<Byte>)
    ensures OfferAccepted(w, c, frame, e, t, data) <==>
      ClientBegin(w, c, frame, e) == (c.(phase := Signing, transcript := Some(t), offered := Some(data)), Ok(data))
  {
    hide OpenEnvelope, ReadFields, ReadTranscript, Base64.Decode, SigningData, ValidChallenge, ChallengeStands, Ms;
    ValidStands(w, data, c.identity, Ms(e.wall) as real / 1000.0);
  }

  lemma OfferOf(w: World, c: Client, frame: string, e: ClientReads) returns (t: Transcript)
    requires ClientBegin(w, c, frame, e).1.Ok?
    ensures var reply := ClientBegin(w, c, frame, e);
      reply.0 == c.(phase := Signing, transcript := Some(t), offered := Some(reply.1.value))
  {
    hide OpenEnvelope, ReadOffer, Matches, ValidChallenge, Ms;
    t := ClientBegin(w, c, frame, e).0.transcript.value;
  }

  lemma BeginFails(w: World, c: Client, frame: string, e: ClientReads)
    ensures ClientBegin(w, c, frame, e).1.Err? ==> ClientBegin(w, c, frame, e).0 == c.(phase := Failed)
  {
    hide OpenEnvelope, ReadOffer, Matches, ValidChallenge, Ms;
  }

  /** The proof goes out exactly with a signature over the offered bytes, in time and while the
      challenge is valid; either way the bytes are offered no more. */
  lemma FinishExactly(w: World, c: Client, signature: seq<Byte>, e: ClientReads)
    ensures var (d, reply) := ClientFinish(w, c, signature, e);
      && (reply.Ok? <==>
            && c.phase == Signing && c.transcript.Some? && c.offered.Some? && e.mono < c.deadline
            && SignedBy(w, signature, c.offered.value, c.identity)
            && ChallengeStands(w, c.offered.value, c.identity, e.wall))
      && (reply.Ok? ==>
            && d == c.(phase := ProofSent, offered := None)
            && var t := c.transcript.value;
            reply == Ok(Envelope("channelAuthProof", ProofBody(t.sessionId, t.generation, signature))))
      && (reply.Err? ==> d.phase == Failed && d.admitted == c.admitted)
      && (c.phase == Signing && c.transcript.Some? ==> d.offered.None?)
  {
    hide ValidChallenge, ChallengeStands, Envelope, ProofBody;
    if c.offered.Some? { ValidStands(w, c.offered.value, c.identity, e.wall); }
  }

  /** An acknowledgement of the transcript that was signed, by session, generation and digest. */
  predicate AckAccepted(w: World, c: Client, frame: string, e: ClientReads) {
    var f := Members(frame, ["sessionID", "generation", "transcriptDigest"]);
    && c.phase == ProofSent && c.transcript.Some? && e.mono < c.deadline && Says(frame, "channelAuthAccepted")
    && var t := c.transcript.value;
    && f.Some? && f.value[0] == Str(t.sessionId) && f.value[1] == Str(t.generation)
    && f.value[2] == Str(w.digest(Encode(TranscriptJson(t))))
    && e.wall < t.expiresAtMs as real / 1000.0
  }

  /** The client connects exactly on such a frame, with the admission of its transcript. */
  lemma ConnectsExactly(w: World, c: Client, frame: string, e: ClientReads)
    ensures var (d, failure) := ClientAccept(w, c, frame, e);
      && (failure.None? <==> AckAccepted(w, c, frame, e))
      && (failure.None? ==>
            var t := c.transcript.value;
            d == c.(phase := Connected, admitted := Some(Admitted(t.identity, t.endpoint, t.sessionId, t.generation,
                w.digest(Encode(TranscriptJson(t))), t.expiresAtMs as real / 1000.0))))
      && (failure.Some? ==> d == c.(phase := Failed))
  {
    hide OpenEnvelope, ReadFields, TranscriptJson, Encode;
  }

  // ---- what is written and signed ----

  /** The members of a transcript as it travels and is digested. */
  lemma TranscriptSays(t: Transcript)
    ensures TranscriptJson(t) == Obj([
      Member("profile", Str(t.profile)), Member("endpoint", EndpointJson(t.endpoint)),
      Member("identity", IdentityJson(t.identity)), Member("clientNonce", Str(Base64.Encode(t.clientNonce))),
      Member("serverNonce", Str(Base64.Encode(t.serverNonce))), Member("sessionID", Str(t.sessionId)),
      Member("generation", Str(t.generation)), Member("direction", Str(t.direction)),
      Member("issuedAtMilliseconds", Num(t.issuedAtMs)), Member("channelExpiresAtMilliseconds", Num(t.expiresAtMs))])
    ensures EndpointJson(t.endpoint) == Obj([
      Member("origin", Str(t.endpoint.origin)), Member("route", Str(t.endpoint.route)),
      Member("domain", Str(t.endpoint.domain))])
    ensures IdentityJson(t.identity) == Obj([
      Member("uuid", Str(t.identity.uuid)), Member("algorithm", Str(t.identity.algorithm)),
      Member("curve", Str(t.identity.curve)), Member("publicKey", Str(Base64.Encode(t.identity.publicKey)))])
  {
    hide Base64.Encode, EndpointJson, IdentityJson;
    var fs := Fields(TRANSCRIPT, TranscriptValues(t));
    assert fs == [fs[0], fs[1], fs[2], fs[3], fs[4], fs[5], fs[6], fs[7], fs[8], fs[9]];
    NestedSays(t);
  }

  lemma NestedSays(t: Transcript)
    ensures EndpointJson(t.endpoint) == Obj([
      Member("origin", Str(t.endpoint.origin)), Member("route", Str(t.endpoint.route)),
      Member("domain", Str(t.endpoint.domain))])
    ensures IdentityJson(t.identity) == Obj([
      Member("uuid", Str(t.identity.uuid)), Member("algorithm", Str(t.identity.algorithm)),
      Member("curve", Str(t.identity.curve)), Member("publicKey", Str(Base64.Encode(t.identity.publicKey)))])
  {
    hide Base64.Encode;
    var i := t.identity;
    var fs := Fields(ENDPOINT, [Str(t.endpoint.origin), Str(t.endpoint.route), Str(t.endpoint.domain)]);
    var gs := Fields(IDENTITY, [Str(i.uuid), Str(i.algorithm), Str(i.curve), B64(i.publicKey)]);
    assert fs == [fs[0], fs[1], fs[2]] && gs == [gs[0], gs[1], gs[2], gs[3]];
  }

  /** What the signer of an accepted challenge is handed. */
  lemma SignerIsHanded(w: World, t: Transcript)
    requires Ideal(w)
    ensures w.readChallenge(SigningData(w, t)) == Some(Challenge(
      "org.haven.cellprotocol.identity-signing-challenge", 1, "identity-origin-proof", t.identity.uuid,
      Some(t.identity.algorithm + ":" + t.identity.curve + ":" + Base64.Encode(t.identity.publicKey)),
      t.endpoint.domain, "org.haven.bridge-channel.v1" + ":" + w.digest(Encode(TranscriptJson(t))),
      "openBridgeChannel", t.endpoint.origin + t.endpoint.route, t.serverNonce, t.issuedAtMs as real / 1000.0,
      t.issuedAtMs as real / 1000.0 + 30.0))
  {
    hide Base64.Encode, TranscriptJson, Encode;
    assert w.readChallenge(SigningData(w, t)) == Some(SigningChallenge(w, t));
  }
}
