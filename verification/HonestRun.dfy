/** The honest exchange takes place in the network too: its events are possible there, one after
    the other, and end in the same admission on both sides. */
module HonestRun {
  import opened Basics
  import opened Envelopes
  import opened Channel
  import opened Agreement
  import opened Handshake

  const EMPTY := Net(map[], map[], [])

  lemma Extend(w: World, honest: set<seq<Byte>>, evs: seq<Event>, m: Net, ev: Event)
    requires Reaches(w, honest, evs, m) && Possible(w, honest, m, ev)
    ensures Reaches(w, honest, evs + [ev], Agreement.After(w, m, ev))
  {
    hide Possible, Agreement.After;
    assert Earlier(evs + [ev]) == evs && Latest(evs + [ev]) == ev;
    assert Step(w, honest, m, ev, Agreement.After(w, m, ev));
  }

  /** Two ends that have exchanged the challenge; the client was handed its bytes. */
  function Offered(w: World, s: Server, c: Client, t: Transcript): Net {
    var data := SigningData(w, t);
    Net(map[0 := s.(phase := ChallengeIssued, pending := Some((t, data)))],
        map[0 := c.(phase := Signing, transcript := Some(t), offered := Some(data))], [(0, data)])
  }

  lemma Opened(
    w: World, honest: set<seq<Byte>>, i: PublicIdentity, e: Endpoint, f: Endpoint, generation: string,
    nonce: seq<Byte>, ms: real, mc: real
  )
    requires ValidIdentity(i)
    ensures var evs := [] + [OpenServer(0, e, generation, ms)] + [OpenClient(0, i, f, nonce, mc)] + [SendHello(0)];
      var c := NewClient(i, f, nonce, mc);
      Reaches(w, honest, evs, Net(map[0 := NewServer(e, generation, ms)], map[0 := c.(phase := HelloSent)], []))
  {
    hide ValidIdentity, Envelope;
    Extend(w, honest, [], EMPTY, OpenServer(0, e, generation, ms));
    var n1 := Net(map[0 := NewServer(e, generation, ms)], map[], []);
    Extend(w, honest, [] + [OpenServer(0, e, generation, ms)], n1, OpenClient(0, i, f, nonce, mc));
    var n2 := Net(n1.servers, map[0 := NewClient(i, f, nonce, mc)], []);
    Extend(w, honest, [] + [OpenServer(0, e, generation, ms)] + [OpenClient(0, i, f, nonce, mc)], n2, SendHello(0));
  }

  lemma Challenged(w: World, honest: set<seq<Byte>>, evs: seq<Event>, s: Server, c: Client, r: Reads)
    requires Ideal(w) && ValidIdentity(c.identity)
    requires s.phase == Unauthenticated && s.pending.None? && HelloPasses(s, c, r) && ChallengePasses(w, s, c, r)
    requires Reaches(w, honest, evs, Net(map[0 := s], map[0 := c.(phase := HelloSent)], []))
    ensures var t := Agreed(s, c, r);
      Reaches(w, honest,
        evs + [ToServer(0, Envelope(HELLO, HelloBody(c.identity, c.nonce)), r.hello)]
            + [Offer(0, Envelope(CHALLENGE, ChallengeBody(w, t)), r.begin)], Offered(w, s, c, t))
  {
    hide ServerReceive, ClientBegin, Envelope, HelloBody, ChallengeBody, SigningData, Agreed, ValidIdentity, Ideal,
      HelloPasses, ChallengePasses, Reaches;
    var t, c1 := Agreed(s, c, r), c.(phase := HelloSent);
    var n := Net(map[0 := s], map[0 := c1], []);
    HelloStep(w, s, c, r);
    var hello := ToServer(0, Envelope(HELLO, HelloBody(c.identity, c.nonce)), r.hello);
    Extend(w, honest, evs, n, hello);
    var s1 := s.(phase := ChallengeIssued, pending := Some((t, SigningData(w, t))));
    var n1 := Net(map[0 := s1], map[0 := c1], []);
    assert Agreement.After(w, n, hello) == n1;
    ChallengeStep(w, s, c, c1, r);
    var offer := Offer(0, Envelope(CHALLENGE, ChallengeBody(w, t)), r.begin);
    Extend(w, honest, evs + [hello], n1, offer);
    assert Agreement.After(w, n1, offer) == Offered(w, s, c, t);
  }

  /** What both ends hold at last. */
  ghost predicate BothAdmitted(n: Net, a: Admitted) {
    && 0 in n.servers && n.servers[0].phase == Authenticated && n.servers[0].admitted == Some(a)
    && 0 in n.clients && n.clients[0].phase == Connected && n.clients[0].admitted == Some(a)
  }

  lemma Answered(
    w: World, honest: set<seq<Byte>>, evs: seq<Event>, s: Server, c: Client, sign: seq<Byte> -> seq<Byte>, r: Reads
  )
    requires Ideal(w) && ValidIdentity(c.identity) && Completes(w, s, c, sign, r)
    requires Reaches(w, honest, evs, Offered(w, s, c, Agreed(s, c, r)))
    ensures exists all, n ::
      Reaches(w, honest, all, n) && BothAdmitted(n, Admitted(c.identity, s.endpoint, r.hello.sessionId, s.generation,
        Digest(w, Agreed(s, c, r)), (Ms(r.hello.wall) + 300000) as real / 1000.0))
  {
    hide ServerReceive, ClientFinish, ClientAccept, Envelope, ProofBody, AcceptedBody, SigningData, Agreed,
      ValidIdentity, Ideal, HelloPasses, ChallengePasses, SigningPasses, ProofPasses, AcceptPasses, Reaches, Digest, Ms,
      Verifies, OpenEnvelope, ReadProof;
    var t := Agreed(s, c, r);
    var data, n := SigningData(w, t), Offered(w, s, c, t);
    var s1, c2 := n.servers[0], n.clients[0];
    SigningStep(w, s, c, c2, sign, r);
    var signature := Signature(0, sign(data), r.finish);
    Extend(w, honest, evs, n, signature);
    var c3 := c2.(phase := ProofSent, offered := None);
    var n1 := Net(n.servers, map[0 := c3], n.signed);
    assert Agreement.After(w, n, signature) == n1;
    ProofStep(w, s, c, s1, sign, r);
    var proof := ToServer(0, Envelope(PROOF, ProofBody(t.sessionId, t.generation, sign(data))), r.proof);
    assert WasSigned(n1, c.identity.publicKey, data) by { assert n1.signed[0] == (0, data); }
    AgreedIdentity(s, c, r);
    Extend(w, honest, evs + [signature], n1, proof);
    var s2 := ServerReceive(w, s1, proof.frame, r.proof).0;
    var n2 := Net(map[0 := s2], map[0 := c3], n.signed);
    assert Agreement.After(w, n1, proof) == n2;
    AcceptStep(w, s, c, c3, r);
    var ack := Acknowledge(0, Envelope(ACCEPTED, AcceptedBody(w, t)), r.accept);
    Extend(w, honest, evs + [signature] + [proof], n2, ack);
    assert Agreement.After(w, n2, ack).servers == n2.servers;
  }

  lemma AgreedIdentity(s: Server, c: Client, r: Reads)
    ensures Agreed(s, c, r).identity == c.identity
  {
  }

  /** Whatever keys are honest: a server and a client that start in the empty network, under the
      conditions of a completed handshake, reach a network in which both are admitted to the
      same channel. */
  lemma HonestRunIsReached(
    w: World, honest: set<seq<Byte>>, i: PublicIdentity, e: Endpoint, f: Endpoint, generation: string,
    nonce: seq<Byte>, ms: real, mc: real, sign: seq<Byte> -> seq<Byte>, r: Reads
  )
    requires Ideal(w) && ValidIdentity(i)
    requires var t := Transcript("org.haven.bridge-channel.v1", e, i, nonce, r.hello.nonce, r.hello.sessionId,
        generation, "client-to-server", Ms(r.hello.wall), Ms(r.hello.wall) + 300000);
      Conditions(w, Server(e, generation, ms + 10.0, Unauthenticated, None, None),
        Client(i, f, nonce, mc + 10.0, New, None, None, None), sign, r, t)
    ensures var t := Transcript("org.haven.bridge-channel.v1", e, i, nonce, r.hello.nonce, r.hello.sessionId,
        generation, "client-to-server", Ms(r.hello.wall), Ms(r.hello.wall) + 300000);
      exists evs, n ::
        Reaches(w, honest, evs, n) && BothAdmitted(n, Admitted(i, e, r.hello.sessionId, generation, Digest(w, t),
          (Ms(r.hello.wall) + 300000) as real / 1000.0))
  {
    hide Reaches, Conditions, Ideal, ValidIdentity, Ms, HelloPasses, ChallengePasses, SigningPasses, ProofPasses,
      AcceptPasses, Envelope, SigningData, Digest, Agreed;
    var s, c := NewServer(e, generation, ms), NewClient(i, f, nonce, mc);
    CompletesExactly(w, s, c, sign, r);
    Opened(w, honest, i, e, f, generation, nonce, ms, mc);
    var evs := [] + [OpenServer(0, e, generation, ms)] + [OpenClient(0, i, f, nonce, mc)] + [SendHello(0)];
    Challenged(w, honest, evs, s, c, r);
    var t := Agreed(s, c, r);
    Answered(w, honest,
      evs + [ToServer(0, Envelope(HELLO, HelloBody(i, nonce)), r.hello)]
          + [Offer(0, Envelope(CHALLENGE, ChallengeBody(w, t)), r.begin)], s, c, sign, r);
  }
}
