/** ChannelServer and ChannelClient, which update their state field by field; each
    method is tied to the step function of module Channel. */
module ChannelEnds {
  import opened Basics
  import opened Json
  import opened Envelopes
  import opened Channel

  class ChannelServer {
    const w: World
    const endpoint: Endpoint
    const generation: string
    const deadline: real
    var state: ServerPhase
    var pending: Option<(Transcript, seq<Byte>)>
    var admitted: Option<Admitted>

    constructor (w: World, endpoint: Endpoint, generation: string, mono: real)
      ensures Snapshot() == NewServer(endpoint, generation, mono) && this.w == w
    {
      this.w, this.endpoint, this.generation := w, endpoint, generation;
      deadline := mono + PRE_AUTH_DEADLINE;
      state, pending, admitted := Unauthenticated, None, None;
    }

    function Snapshot(): Server
      reads this
    {
      Server(endpoint, generation, deadline, state, pending, admitted)
    }

    method Fail(code: Failure) returns (reply: Result<string, Failure>)
      modifies this
      ensures Snapshot() == Refuse(old(Snapshot())) && reply == Err(code)
    {
      state, pending := Closed, None;
      reply := Err(code);
    }

    method Receive(frame: string, e: ServerReads) returns (reply: Result<string, Failure>)
      modifies this
      ensures (Snapshot(), reply) == ServerReceive(w, old(Snapshot()), frame, e)
    {
      hide OpenEnvelope, Channel.OnHello, Channel.OnProof;
      if state == Closed || state == Authenticated {
        reply := Fail(UnexpectedMessage);
        return;
      }
      var message := OpenEnvelope(frame);
      if message.None? {
        state := Closed;
        return Err(Malformed);
      }
      var (name, body) := message.value;
      if e.mono >= deadline {
        reply := Fail(Expired);
      } else if name == HELLO && state == Unauthenticated {
        reply := OnHello(body, e);
      } else if name == PROOF && state == ChallengeIssued {
        reply := OnProof(body, e);
      } else {
        reply := Fail(UnexpectedMessage);
      }
    }

    method OnHello(body: seq<Member>, e: ServerReads) returns (reply: Result<string, Failure>)
      modifies this
      ensures (Snapshot(), reply) == Channel.OnHello(w, old(Snapshot()), body, e)
    {
      hide ReadHello, Envelope, ChallengeBody, SigningData;
      var hello := ReadHello(body);
      if hello.None? {
        reply := Fail(Malformed);
        return;
      }
      var issued := Ms(e.wall);
      var transcript := Transcript(PROFILE, endpoint, hello.value.0, hello.value.1, e.nonce, e.sessionId, generation,
        DIRECTION, issued, issued + CHANNEL_MS);
      pending := Some((transcript, SigningData(w, transcript)));
      state := ChallengeIssued;
      reply := Ok(Envelope(CHALLENGE, ChallengeBody(w, transcript)));
    }

    /** The pending challenge is consumed before anything is verified. */
    method OnProof(body: seq<Member>, e: ServerReads) returns (reply: Result<string, Failure>)
      modifies this
      ensures (Snapshot(), reply) == Channel.OnProof(w, old(Snapshot()), body, e)
    {
      hide ReadProof, Envelope, AcceptedBody, Verifies, Digest;
      var taken := pending;
      pending := None;
      state := Verifying;
      if taken.None? {
        reply := Fail(UnexpectedMessage);
        return;
      }
      var (transcript, data) := taken.value;
      var proof := ReadProof(body);
      if proof.None? {
        reply := Fail(Malformed);
        return;
      }
      var (sessionId, gen, signature) := proof.value;
      if e.wall >= transcript.issuedAtMs as real / 1000.0 + CHALLENGE_LIFETIME {
        reply := Fail(Expired);
        return;
      }
      if sessionId != Str(transcript.sessionId) || gen != Str(generation) {
        reply := Fail(StaleGeneration);
        return;
      }
      if |signature| > 256 || !Verifies(w, signature, data, transcript.identity) {
        reply := Fail(InvalidProof);
        return;
      }
      if !e.policyOk {
        reply := Fail(Revoked);
        return;
      }
      if e.monoLate >= deadline || e.wallLate >= transcript.expiresAtMs as real / 1000.0 {
        reply := Fail(Expired);
        return;
      }
      admitted := Some(Admitted(transcript.identity, endpoint, transcript.sessionId, generation,
        Digest(w, transcript), transcript.expiresAtMs as real / 1000.0));
      state := Authenticated;
      reply := Ok(Envelope(ACCEPTED, AcceptedBody(w, transcript)));
    }
  }

  /** The condition on a challenge reads only what never changes in a client. */
  lemma SameMatch(w: World, c: Client, d: Client, nowMs: int)
    requires c.identity == d.identity && c.endpoint == d.endpoint && c.nonce == d.nonce
    ensures forall t, data :: Matches(w, c, t, data, nowMs) == Matches(w, d, t, data, nowMs)
  {
  }

  class ChannelClient {
    const w: World
    const identity: PublicIdentity
    const endpoint: Endpoint
    const nonce: seq<Byte>
    const deadline: real
    var state: ClientPhase
    var transcript: Option<Transcript>
    var offered: Option<seq<Byte>>
    var admitted: Option<Admitted>

    constructor (w: World, identity: PublicIdentity, endpoint: Endpoint, nonce: seq<Byte>, mono: real)
      requires ValidIdentity(identity)
      ensures Snapshot() == NewClient(identity, endpoint, nonce, mono) && this.w == w
    {
      this.w, this.identity, this.endpoint, this.nonce := w, identity, endpoint, nonce;
      deadline := mono + PRE_AUTH_DEADLINE;
      state, transcript, offered, admitted := New, None, None, None;
    }

    function Snapshot(): Client
      reads this
    {
      Client(identity, endpoint, nonce, deadline, state, transcript, offered, admitted)
    }

    method Hello() returns (reply: Result<string, Failure>)
      modifies this
      ensures (Snapshot(), reply) == ClientHello(old(Snapshot()))
    {
      if state != New {
        state := Failed;
        return Err(UnexpectedMessage);
      }
      state := HelloSent;
      reply := Ok(Envelope(HELLO, HelloBody(identity, nonce)));
    }

    method BeginChallenge(frame: string, e: ClientReads) returns (reply: Result<seq<Byte>, Failure>)
      modifies this
      ensures (Snapshot(), reply) == ClientBegin(w, old(Snapshot()), frame, e)
    {
      hide OpenEnvelope, ReadOffer, Matches, ValidChallenge, Ms;
      var message := OpenEnvelope(frame);
      if message.None? {
        state := Failed;
        return Err(Malformed);
      }
      var (name, body) := message.value;
      if e.mono >= deadline {
        state := Failed;
        return Err(Expired);
      }
      if name != CHALLENGE || state != HelloSent {
        state := Failed;
        return Err(UnexpectedMessage);
      }
      ghost var before := Snapshot();
      state := Signing;
      var offer := ReadOffer(body);
      if offer.None? {
        state := Failed;
        return Err(Malformed);
      }
      var nowMs := Ms(e.wall);
      SameMatch(w, before, Snapshot(), nowMs);
      if offer.value.0.None? || !Matches(w, Snapshot(), offer.value.0.value, offer.value.1, nowMs) {
        state := Failed;
        return Err(InvalidProof);
      }
      if !ValidChallenge(w, offer.value.1, identity, nowMs as real / 1000.0) {
        state := Failed;
        return Err(InvalidProof);
      }
      transcript, offered := offer.value.0, Some(offer.value.1);
      reply := Ok(offer.value.1);
    }

    method FinishChallenge(signature: seq<Byte>, e: ClientReads) returns (reply: Result<string, Failure>)
      modifies this
      ensures (Snapshot(), reply) == ClientFinish(w, old(Snapshot()), signature, e)
    {
      hide ValidChallenge, Verifies, Envelope, ProofBody;
      if state != Signing || transcript.None? || offered.None? {
        state := Failed;
        return Err(UnexpectedMessage);
      }
      var t, data := transcript.value, offered.value;
      offered := None;
      if e.mono >= deadline || !Verifies(w, signature, data, identity) {
        state := Failed;
        return Err(StaleGeneration);
      }
      if !ValidChallenge(w, data, identity, e.wall) {
        state := Failed;
        return Err(Expired);
      }
      state := ProofSent;
      reply := Ok(Envelope(PROOF, ProofBody(t.sessionId, t.generation, signature)));
    }

    /** accept, with the body checks of _on_accepted. */
    method AcceptFrame(frame: string, e: ClientReads) returns (failure: Option<Failure>)
      modifies this
      ensures (Snapshot(), failure) == ClientAccept(w, old(Snapshot()), frame, e)
    {
      hide OpenEnvelope, ReadFields, Digest;
      var message := OpenEnvelope(frame);
      if message.None? {
        state := Failed;
        return Some(Malformed);
      }
      var (name, body) := message.value;
      if e.mono >= deadline {
        state := Failed;
        return Some(Expired);
      }
      if name != ACCEPTED || state != ProofSent {
        state := Failed;
        return Some(UnexpectedMessage);
      }
      var f := ReadFields(Obj(body), ACCEPTED_KEYS);
      if f.None? {
        state := Failed;
        return Some(Malformed);
      }
      if transcript.None? || f.value[0] != Str(transcript.value.sessionId)
         || f.value[1] != Str(transcript.value.generation) || f.value[2] != Str(Digest(w, transcript.value)) {
        state := Failed;
        return Some(InvalidProof);
      }
      var t := transcript.value;
      if e.wall >= t.expiresAtMs as real / 1000.0 {
        state := Failed;
        return Some(Expired);
      }
      admitted := Some(Admitted(t.identity, t.endpoint, t.sessionId, t.generation, Digest(w, t),
        t.expiresAtMs as real / 1000.0));
      state := Connected;
      failure := None;
    }
  }
}
