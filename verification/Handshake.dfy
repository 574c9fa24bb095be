/** Two honest ends over a network that delivers: when admission completes. */
module Handshake {
  import opened Basics
  import opened Json
  import opened Canonical
  import opened Envelopes
  import opened Channel
  import opened PyText
  import Base64
  import KeyOrder

  /** What the clocks and random sources answer at each of the five steps. */
  datatype Reads = Reads(
    hello: ServerReads, begin: ClientReads, finish: ClientReads, proof: ServerReads, accept: ClientReads)

  datatype Outcome = Outcome(server: Server, client: Client, signed: seq<seq<Byte>>)

  /** hello -> challenge -> proof -> accepted; a refusal ends the exchange. `sign` is
      the client's signer, and `signed` lists what it was asked to sign. */
  function Exchange(w: World, s: Server, c: Client, sign: seq<Byte> -> seq<Byte>, r: Reads): Outcome {
    var (c1, hello) := ClientHello(c);
    if hello.Err? then Outcome(s, c1, []) else
      var (s1, challenge) := ServerReceive(w, s, hello.value, r.hello);
      if challenge.Err? then Outcome(s1, c1, []) else
        var (c2, offered) := ClientBegin(w, c1, challenge.value, r.begin);
        if offered.Err? then Outcome(s1, c2, []) else
          var (c3, proof) := ClientFinish(w, c2, sign(offered.value), r.finish);
          if proof.Err? then Outcome(s1, c3, [offered.value]) else
            var (s2, accepted) := ServerReceive(w, s1, proof.value, r.proof);
            if accepted.Err? then Outcome(s2, c3, [offered.value]) else
              Outcome(s2, ClientAccept(w, c3, accepted.value, r.accept).0, [offered.value])
  }

  /** The transcript this server writes for this client's hello. */
  function Agreed(s: Server, c: Client, r: Reads): Transcript {
    ServerTranscript(s, (c.identity, c.nonce), r.hello)
  }

  // ---- the conditions, step by step ----

  predicate HelloPasses(s: Server, c: Client, r: Reads) {
    && |c.nonce| == 32
    && r.hello.mono < s.deadline
    && Fits(HELLO, HelloBody(c.identity, c.nonce))
  }

  /** The client's checks of the transcript, on the client's clock: issued at most 5 s
      ahead of it and less than 30 s ago. */
  predicate TranscriptPasses(w: World, s: Server, c: Client, r: Reads) {
    var t := Agreed(s, c, r);
    && s.endpoint == c.endpoint
    && |r.hello.nonce| == 32 && w.isUuid(t.sessionId) && w.isUuid(t.generation)
    && 0 < t.issuedAtMs && t.expiresAtMs < TIME_LIMIT
    && Ms(r.begin.wall) - 30000 < t.issuedAtMs <= Ms(r.begin.wall) + 5000
  }

  predicate SignableWithin(w: World, t: Transcript) {
    && Scoped(t.endpoint.domain) && Scoped(t.endpoint.origin + t.endpoint.route)
    && |PROFILE + ":" + Digest(w, t)| <= MAX_SCOPE
    && |SigningData(w, t)| <= MAX_SIGNING_BYTES
  }

  predicate ChallengePasses(w: World, s: Server, c: Client, r: Reads) {
    && r.begin.mono < c.deadline
    && TranscriptPasses(w, s, c, r)
    && SignableWithin(w, Agreed(s, c, r))
    && Fits(CHALLENGE, ChallengeBody(w, Agreed(s, c, r)))
  }

  predicate SigningPasses(w: World, s: Server, c: Client, sign: seq<Byte> -> seq<Byte>, r: Reads) {
    var t := Agreed(s, c, r);
    && r.finish.mono < c.deadline
    && Verifies(w, sign(SigningData(w, t)), SigningData(w, t), c.identity)
    && t.issuedAtMs as real / 1000.0 - 300.0 <= r.finish.wall <= t.issuedAtMs as real / 1000.0 + CHALLENGE_LIFETIME
  }

  predicate ProofPasses(w: World, s: Server, c: Client, sign: seq<Byte> -> seq<Byte>, r: Reads) {
    var t := Agreed(s, c, r);
    && r.proof.mono < s.deadline && r.proof.monoLate < s.deadline
    && r.proof.wall < t.issuedAtMs as real / 1000.0 + CHALLENGE_LIFETIME
    && r.proof.wallLate < t.expiresAtMs as real / 1000.0
    && r.proof.policyOk
    && Fits(PROOF, ProofBody(t.sessionId, t.generation, sign(SigningData(w, t))))
  }

  predicate AcceptPasses(w: World, s: Server, c: Client, r: Reads) {
    var t := Agreed(s, c, r);
    && r.accept.mono < c.deadline
    && r.accept.wall < t.expiresAtMs as real / 1000.0
    && Fits(ACCEPTED, AcceptedBody(w, t))
  }

  predicate Completes(w: World, s: Server, c: Client, sign: seq<Byte> -> seq<Byte>, r: Reads) {
    && HelloPasses(s, c, r) && ChallengePasses(w, s, c, r) && SigningPasses(w, s, c, sign, r)
    && ProofPasses(w, s, c, sign, r) && AcceptPasses(w, s, c, r)
  }

  // ---- whitespace in what is checked ----

  lemma FingerprintStrips(i: PublicIdentity)
    requires ValidIdentity(i)
    ensures Strip(Fingerprint(i)) == Fingerprint(i) != ""
  {
    hide Base64.Encode, Base64.Bytes;
    var text := Base64.Encode(i.publicKey);
    Base64.EncodeShape(i.publicKey);
    assert Base64.Shape(text, Base64.DataLength(32));
    assert text[|text| - 1] == '=';
    assert Fingerprint(i)[|Fingerprint(i)| - 1] == '=' && Fingerprint(i)[0] == 'E';
    StripKeeps(Fingerprint(i));
  }

  lemma ScopeOf(w: World, t: Transcript)
    ensures Strip(PROFILE + ":" + Digest(w, t)) != "" && Strip(ACTION) != "" && |ACTION| <= MAX_SCOPE
  {
    StripKeeps(PROFILE + ":" + Digest(w, t));
    StripKeeps(ACTION);
  }

  /** A challenge made from a transcript validates exactly under these conditions. */
  lemma ValidExactly(w: World, t: Transcript, now: real)
    requires Ideal(w) && ValidIdentity(t.identity)
    ensures ValidChallenge(w, SigningData(w, t), t.identity, now)
       <==> && SignableWithin(w, t) && 32 <= |t.serverNonce| <= 128
            && t.issuedAtMs as real / 1000.0 <= now + 300.0
            && now <= t.issuedAtMs as real / 1000.0 + CHALLENGE_LIFETIME
  {
    hide Strip, Fingerprint, Digest, ValidIdentity;
    FingerprintStrips(t.identity);
    ScopeOf(w, t);
    assert w.readChallenge(SigningData(w, t)) == Some(SigningChallenge(w, t));
  }

  // ---- the bodies survive the wire ----

  lemma MessageKeys()
    ensures Distinct(HELLO_KEYS) && Distinct(CHALLENGE_KEYS) && Distinct(PROOF_KEYS) && Distinct(ACCEPTED_KEYS)
  {
  }

  lemma HelloBack(i: PublicIdentity, nonce: seq<Byte>)
    requires ValidIdentity(i)
    ensures IsDict(Obj(HelloBody(i, nonce)))
    ensures ReadHello(Wire(Obj(HelloBody(i, nonce))).members) == if |nonce| == 32 then Some((i, nonce)) else None
  {
    hide ReadFields, Fields, IdentityJson, ReadIdentity, UnB64, ValidIdentity, IsDict, Sorted, Base64.Encode;
    MessageKeys();
    IdentityBack(i);
    B64Back(nonce);
    var vs := [Str(PROFILE), IdentityJson(i), B64(nonce)];
    Scalars(vs);
    SortedIsObj(HelloBody(i, nonce), KeyOrder.Encoder);
    FieldsBack(HELLO_KEYS, vs);
    var r := ReadFields(Wire(Obj(HelloBody(i, nonce))), HELLO_KEYS).value;
    assert r[0] == vs[0] && r[1] == Wire(vs[1]) && r[2] == vs[2];
  }

  lemma OfferBack(w: World, t: Transcript)
    requires ValidIdentity(t.identity)
    ensures IsDict(Obj(ChallengeBody(w, t)))
    ensures ReadOffer(Wire(Obj(ChallengeBody(w, t))).members) == Some((Some(t), SigningData(w, t)))
  {
    hide ReadFields, Fields, TranscriptJson, ReadTranscript, UnB64, ValidIdentity, SigningData, IsDict, Sorted,
      Base64.Encode;
    MessageKeys();
    TranscriptIsDict(t);
    TranscriptBack(t);
    B64Back(SigningData(w, t));
    var vs := [TranscriptJson(t), B64(SigningData(w, t))];
    Scalars(vs);
    SortedIsObj(ChallengeBody(w, t), KeyOrder.Encoder);
    FieldsBack(CHALLENGE_KEYS, vs);
    var r := ReadFields(Wire(Obj(ChallengeBody(w, t))), CHALLENGE_KEYS).value;
    assert r[0] == Wire(vs[0]) && r[1] == vs[1];
  }

  lemma ProofBack(sessionId: string, generation: string, signature: seq<Byte>)
    ensures IsDict(Obj(ProofBody(sessionId, generation, signature)))
    ensures ReadProof(Wire(Obj(ProofBody(sessionId, generation, signature))).members)
         == Some((Str(sessionId), Str(generation), signature))
  {
    hide ReadFields, Fields, UnB64, IsDict, Sorted, Base64.Encode;
    MessageKeys();
    B64Back(signature);
    var vs := [Str(sessionId), Str(generation), B64(signature)];
    Scalars(vs);
    SortedIsObj(ProofBody(sessionId, generation, signature), KeyOrder.Encoder);
    FieldsBack(PROOF_KEYS, vs);
    var r := ReadFields(Wire(Obj(ProofBody(sessionId, generation, signature))), PROOF_KEYS).value;
    assert r[0] == vs[0] && r[1] == vs[1] && r[2] == vs[2];
  }

  lemma AcceptedBack(w: World, t: Transcript)
    ensures IsDict(Obj(AcceptedBody(w, t)))
    ensures var f := ReadFields(Wire(Obj(AcceptedBody(w, t))), ACCEPTED_KEYS);
      f.Some? && f.value[0] == Str(t.sessionId) && f.value[1] == Str(t.generation) && f.value[2] == Str(Digest(w, t))
  {
    hide ReadFields, Fields, Digest, IsDict, Sorted;
    MessageKeys();
    var vs := [Str(t.sessionId), Str(t.generation), Str(Digest(w, t))];
    Scalars(vs);
    FieldsBack(ACCEPTED_KEYS, vs);
    var r := ReadFields(Wire(Obj(AcceptedBody(w, t))), ACCEPTED_KEYS).value;
    assert r[0] == vs[0] && r[1] == vs[1] && r[2] == vs[2];
  }

  lemma HelloOpens(i: PublicIdentity, nonce: seq<Byte>)
    requires ValidIdentity(i)
    ensures var m := OpenEnvelope(Envelope(HELLO, HelloBody(i, nonce)));
      && (m.Some? <==> Fits(HELLO, HelloBody(i, nonce)))
      && (m.Some? ==> m.value.0 == HELLO && ReadHello(m.value.1) == if |nonce| == 32 then Some((i, nonce)) else None)
  {
    hide HelloBody, ReadHello, Fits, IsDict;
    HelloBack(i, nonce);
    OpenEnvelopeBack(HELLO, HelloBody(i, nonce));
  }

  lemma OfferOpens(w: World, t: Transcript)
    requires ValidIdentity(t.identity)
    ensures var m := OpenEnvelope(Envelope(CHALLENGE, ChallengeBody(w, t)));
      && (m.Some? <==> Fits(CHALLENGE, ChallengeBody(w, t)))
      && (m.Some? ==> m.value.0 == CHALLENGE && ReadOffer(m.value.1) == Some((Some(t), SigningData(w, t))))
  {
    hide ChallengeBody, ReadOffer, Fits, IsDict;
    OfferBack(w, t);
    OpenEnvelopeBack(CHALLENGE, ChallengeBody(w, t));
  }

  lemma ProofOpens(sessionId: string, generation: string, signature: seq<Byte>)
    ensures var body := ProofBody(sessionId, generation, signature);
      var m := OpenEnvelope(Envelope(PROOF, body));
      && (m.Some? <==> Fits(PROOF, body))
      && (m.Some? ==> m.value.0 == PROOF && ReadProof(m.value.1) == Some((Str(sessionId), Str(generation), signature)))
  {
    hide ProofBody, ReadProof, Fits, IsDict;
    ProofBack(sessionId, generation, signature);
    OpenEnvelopeBack(PROOF, ProofBody(sessionId, generation, signature));
  }

  lemma AcceptedOpens(w: World, t: Transcript)
    ensures var m := OpenEnvelope(Envelope(ACCEPTED, AcceptedBody(w, t)));
      && (m.Some? <==> Fits(ACCEPTED, AcceptedBody(w, t)))
      && (m.Some? ==>
        && m.value.0 == ACCEPTED
        && var f := ReadFields(Obj(m.value.1), ACCEPTED_KEYS);
        && f.Some? && f.value[0] == Str(t.sessionId) && f.value[1] == Str(t.generation)
        && f.value[2] == Str(Digest(w, t)))
  {
    hide AcceptedBody, ReadFields, Fits, IsDict;
    AcceptedBack(w, t);
    OpenEnvelopeBack(ACCEPTED, AcceptedBody(w, t));
  }

  // ---- each step passes exactly under its conditions ----

  lemma HelloStep(w: World, s: Server, c: Client, r: Reads)
    requires s.phase == Unauthenticated && ValidIdentity(c.identity)
    ensures ServerReceive(w, s, Envelope(HELLO, HelloBody(c.identity, c.nonce)), r.hello).1.Ok?
        <==> HelloPasses(s, c, r)
    ensures HelloPasses(s, c, r) ==>
      ServerReceive(w, s, Envelope(HELLO, HelloBody(c.identity, c.nonce)), r.hello)
      == (s.(phase := ChallengeIssued, pending := Some((Agreed(s, c, r), SigningData(w, Agreed(s, c, r))))),
          Ok(Envelope(CHALLENGE, ChallengeBody(w, Agreed(s, c, r)))))
  {
    hide OpenEnvelope, Envelope, HelloBody, ReadHello, ValidIdentity, SigningData, ChallengeBody, OnProof, Fits, IsDict;
    HelloOpens(c.identity, c.nonce);
    var m := OpenEnvelope(Envelope(HELLO, HelloBody(c.identity, c.nonce)));
    if m.Some? { assert m.value.0 == HELLO; }
  }

  lemma MatchesExactly(w: World, s: Server, c: Client, c1: Client, r: Reads)
    requires c1 == c.(phase := HelloSent)
    ensures Matches(w, c1, Agreed(s, c, r), SigningData(w, Agreed(s, c, r)), Ms(r.begin.wall))
       <==> TranscriptPasses(w, s, c, r)
  {
    hide SigningData, Ms;
  }

  lemma OfferStep(w: World, s: Server, c: Client, c1: Client, r: Reads)
    requires Ideal(w) && ValidIdentity(c.identity) && c1 == c.(phase := HelloSent)
    ensures var t := Agreed(s, c, r);
      var after := Accept(w, c1, (Some(t), SigningData(w, t)), r.begin);
      && (after.1.Ok? <==> TranscriptPasses(w, s, c, r) && SignableWithin(w, t))
      && (after.1.Ok? ==>
          after == (c.(phase := Signing, transcript := Some(t), offered := Some(SigningData(w, t))),
            Ok(SigningData(w, t))))
  {
    hide Matches, SignableWithin, ValidIdentity, SigningData, ValidChallenge, Ms, Ideal;
    var t := Agreed(s, c, r);
    MatchesExactly(w, s, c, c1, r);
    ValidExactly(w, t, Ms(r.begin.wall) as real / 1000.0);
  }

  lemma ChallengeStep(w: World, s: Server, c: Client, c1: Client, r: Reads)
    requires Ideal(w) && ValidIdentity(c.identity) && c1 == c.(phase := HelloSent)
    ensures var t := Agreed(s, c, r);
      && (ClientBegin(w, c1, Envelope(CHALLENGE, ChallengeBody(w, t)), r.begin).1.Ok? <==> ChallengePasses(w, s, c, r))
      && (ChallengePasses(w, s, c, r) ==>
          ClientBegin(w, c1, Envelope(CHALLENGE, ChallengeBody(w, t)), r.begin)
          == (c.(phase := Signing, transcript := Some(t), offered := Some(SigningData(w, t))), Ok(SigningData(w, t))))
  {
    hide OpenEnvelope, Envelope, ChallengeBody, ReadOffer, SigningData, Fits, TranscriptPasses, SignableWithin,
      Accept, Ideal, ValidIdentity;
    var t := Agreed(s, c, r);
    OfferOpens(w, t);
    OfferStep(w, s, c, c1, r);
    var m := OpenEnvelope(Envelope(CHALLENGE, ChallengeBody(w, t)));
    if m.Some? { assert m.value.0 == CHALLENGE; }
  }

  lemma SigningStep(w: World, s: Server, c: Client, c2: Client, sign: seq<Byte> -> seq<Byte>, r: Reads)
    requires Ideal(w) && ValidIdentity(c.identity) && ChallengePasses(w, s, c, r)
    requires c2 == c.(phase := Signing, transcript := Some(Agreed(s, c, r)),
                      offered := Some(SigningData(w, Agreed(s, c, r))))
    ensures var t := Agreed(s, c, r);
      && (ClientFinish(w, c2, sign(SigningData(w, t)), r.finish).1.Ok? <==> SigningPasses(w, s, c, sign, r))
      && (SigningPasses(w, s, c, sign, r) ==>
          ClientFinish(w, c2, sign(SigningData(w, t)), r.finish)
          == (c2.(phase := ProofSent, offered := None),
              Ok(Envelope(PROOF, ProofBody(t.sessionId, t.generation, sign(SigningData(w, t)))))))
  {
    hide Envelope, ProofBody, ValidIdentity, SigningData, SignableWithin, Fits, ValidChallenge, Ms, Verifies,
      ChallengeBody;
    var t := Agreed(s, c, r);
    ValidExactly(w, t, r.finish.wall);
  }

  lemma ProofStep(w: World, s: Server, c: Client, s1: Server, sign: seq<Byte> -> seq<Byte>, r: Reads)
    requires SigningPasses(w, s, c, sign, r)
    requires s1 == s.(phase := ChallengeIssued, pending := Some((Agreed(s, c, r), SigningData(w, Agreed(s, c, r)))))
    ensures var t := Agreed(s, c, r);
      var after := ServerReceive(w, s1, Envelope(PROOF,
        ProofBody(t.sessionId, t.generation, sign(SigningData(w, t)))), r.proof);
      && (after.1.Ok? <==> ProofPasses(w, s, c, sign, r))
      && (after.1.Ok? ==>
          && after.0.phase == Authenticated
          && after.0.admitted == Some(Admitted(c.identity, s.endpoint, r.hello.sessionId, s.generation, Digest(w, t),
               (Ms(r.hello.wall) + 300000) as real / 1000.0))
          && after.1 == Ok(Envelope(ACCEPTED, AcceptedBody(w, t))))
  {
    hide OpenEnvelope, Envelope, ProofBody, ReadProof, SigningData, Fits, Digest, Ms, OnHello, AcceptedBody;
    var t := Agreed(s, c, r);
    var signature := sign(SigningData(w, t));
    ProofOpens(t.sessionId, t.generation, signature);
    var m := OpenEnvelope(Envelope(PROOF, ProofBody(t.sessionId, t.generation, signature)));
    if m.Some? { assert m.value.0 == PROOF; }
  }

  lemma AcceptStep(w: World, s: Server, c: Client, c3: Client, r: Reads)
    requires c3.phase == ProofSent && c3.transcript == Some(Agreed(s, c, r)) && c3.deadline == c.deadline
    ensures var t := Agreed(s, c, r);
      var after := ClientAccept(w, c3, Envelope(ACCEPTED, AcceptedBody(w, t)), r.accept).0;
      && (after.phase == Connected <==> AcceptPasses(w, s, c, r))
      && (after.phase == Connected ==>
          after.admitted == Some(Admitted(c.identity, s.endpoint, r.hello.sessionId, s.generation, Digest(w, t),
            (Ms(r.hello.wall) + 300000) as real / 1000.0)))
  {
    hide OpenEnvelope, Envelope, AcceptedBody, Fits, Digest, Ms, ReadFields;
    var t := Agreed(s, c, r);
    AcceptedOpens(w, t);
    var m := OpenEnvelope(Envelope(ACCEPTED, AcceptedBody(w, t)));
    if m.Some? { assert m.value.0 == ACCEPTED; }
  }

  /** ... and whatever happens the signer is asked for nothing else. */
  lemma Outcomes(w: World, s: Server, c: Client, sign: seq<Byte> -> seq<Byte>, r: Reads)
    requires Ideal(w) && ValidIdentity(c.identity)
    requires s.phase == Unauthenticated && s.admitted.None? && c.phase == New && c.admitted.None?
    ensures var out, t := Exchange(w, s, c, sign, r), Agreed(s, c, r);
      && (out.server.phase == Authenticated && out.client.phase == Connected <==> Completes(w, s, c, sign, r))
      && (Completes(w, s, c, sign, r) ==>
        && out.server.admitted == out.client.admitted == Some(Admitted(c.identity, s.endpoint, r.hello.sessionId,
             s.generation, Digest(w, t), (Ms(r.hello.wall) + 300000) as real / 1000.0))
        && out.signed == [SigningData(w, t)])
      && (out.signed == [] || out.signed == [SigningData(w, t)])
  {
    hide ServerReceive, ClientBegin, ClientFinish, ClientAccept, ValidIdentity, Envelope, HelloBody, SigningData,
      ChallengeBody, ProofBody, AcceptedBody, Agreed, HelloPasses, SigningPasses, ProofPasses, AcceptPasses;
    var t := Agreed(s, c, r);
    HelloStep(w, s, c, r);
    var c1 := c.(phase := HelloSent);
    if HelloPasses(s, c, r) {
      var s1 := s.(phase := ChallengeIssued, pending := Some((t, SigningData(w, t))));
      ChallengeStep(w, s, c, c1, r);
      hide ChallengePasses;
      if ChallengePasses(w, s, c, r) {
        var c2 := c.(phase := Signing, transcript := Some(t), offered := Some(SigningData(w, t)));
        SigningStep(w, s, c, c2, sign, r);
        if SigningPasses(w, s, c, sign, r) {
          ProofStep(w, s, c, s1, sign, r);
          if ProofPasses(w, s, c, sign, r) {
            AcceptStep(w, s, c, c2.(phase := ProofSent, offered := None), r);
          }
        }
      }
    }
  }

  /** The conditions of a completed handshake over the transcript t that its parts make, in
      numbers: 30 s for the challenge, 300 s for the channel, 5 s of skew. */
  predicate Conditions(w: World, s: Server, c: Client, sign: seq<Byte> -> seq<Byte>, r: Reads, t: Transcript) {
    var issued := Ms(r.hello.wall);
    && |c.nonce| == 32 && |r.hello.nonce| == 32 && s.endpoint == c.endpoint
    && w.isUuid(r.hello.sessionId) && w.isUuid(s.generation)
    && r.hello.mono < s.deadline && r.proof.mono < s.deadline && r.proof.monoLate < s.deadline
    && r.begin.mono < c.deadline && r.finish.mono < c.deadline && r.accept.mono < c.deadline
    && 0 < issued && issued + 300000 < 9000000000000000
    && Ms(r.begin.wall) - 30000 < issued <= Ms(r.begin.wall) + 5000
    && issued as real / 1000.0 - 300.0 <= r.finish.wall <= issued as real / 1000.0 + 30.0
    && r.proof.wall < issued as real / 1000.0 + 30.0
    && r.proof.wallLate < (issued + 300000) as real / 1000.0 && r.accept.wall < (issued + 300000) as real / 1000.0
    && r.proof.policyOk
    && c.identity.algorithm == "EdDSA" && c.identity.curve == "Curve25519" && |c.identity.publicKey| == 32
    && |sign(SigningData(w, t))| == 64
    && w.verifies(c.identity.publicKey, SigningData(w, t), sign(SigningData(w, t)))
    && Strip(t.endpoint.domain) != "" && |t.endpoint.domain| <= 512
    && Strip(t.endpoint.origin + t.endpoint.route) != "" && |t.endpoint.origin + t.endpoint.route| <= 512
    && |"org.haven.bridge-channel.v1:" + Digest(w, t)| <= 512 && |SigningData(w, t)| <= 8192
    && Fits(HELLO, HelloBody(c.identity, c.nonce)) && Fits(CHALLENGE, ChallengeBody(w, t))
    && Fits(PROOF, ProofBody(r.hello.sessionId, s.generation, sign(SigningData(w, t))))
    && Fits(ACCEPTED, AcceptedBody(w, t))
  }

  /** The transcript of a completed handshake, part by part. */
  lemma CompletesExactly(w: World, s: Server, c: Client, sign: seq<Byte> -> seq<Byte>, r: Reads)
    ensures var t := Transcript("org.haven.bridge-channel.v1", s.endpoint, c.identity, c.nonce, r.hello.nonce,
        r.hello.sessionId, s.generation, "client-to-server", Ms(r.hello.wall), Ms(r.hello.wall) + 300000);
      && (Completes(w, s, c, sign, r) <==> Conditions(w, s, c, sign, r, t))
      && Agreed(s, c, r) == t
  {
    hide Ms, SigningData, Digest, Strip, Fits, HelloBody, ChallengeBody, ProofBody, AcceptedBody;
  }

  /** Both ends are admitted exactly under the stated conditions. Then both hold the client's
      identity and endpoint, the server's session and generation, the digest of this
      transcript, and an end 300 s after the server's clock at the hello. The client's signer
      is asked at most once, and on success exactly once, for this transcript. */
  lemma Completion(w: World, s: Server, c: Client, sign: seq<Byte> -> seq<Byte>, r: Reads)
    requires Ideal(w) && ValidIdentity(c.identity)
    requires s.phase == Unauthenticated && s.admitted.None? && c.phase == New && c.admitted.None?
    ensures var out := Exchange(w, s, c, sign, r);
      var t := Transcript("org.haven.bridge-channel.v1", s.endpoint, c.identity, c.nonce, r.hello.nonce,
        r.hello.sessionId, s.generation, "client-to-server", Ms(r.hello.wall), Ms(r.hello.wall) + 300000);
      && (out.server.phase == Authenticated && out.client.phase == Connected <==> Conditions(w, s, c, sign, r, t))
      && (Conditions(w, s, c, sign, r, t) ==>
        && out.server.admitted == out.client.admitted
        && out.server.admitted == Some(Admitted(c.identity, c.endpoint, r.hello.sessionId, s.generation, Digest(w, t),
             (Ms(r.hello.wall) + 300000) as real / 1000.0))
        && out.signed == [SigningData(w, t)])
      && (out.signed == [] || out.signed == [SigningData(w, t)])
  {
    hide Exchange, Completes, Agreed, Ideal, ValidIdentity, SigningData, Digest, Ms, SignableWithin, Verifies, Fits;
    CompletesExactly(w, s, c, sign, r);
    Outcomes(w, s, c, sign, r);
  }
}
