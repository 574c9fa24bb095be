/** Agreement over a network that drops, replays, reorders and injects frames, when
    nobody forges a signature of a key that only ChannelClients sign with. */
module Agreement {
  import opened Basics
  import opened Json
  import opened Envelopes
  import opened Channel

  /** `signed` lists what each client's signer was handed, oldest first. */
  datatype Net = Net(servers: map<nat, Server>, clients: map<nat, Client>, signed: seq<(nat, seq<Byte>)>)

  datatype Event =
    | OpenServer(id: nat, endpoint: Endpoint, generation: string, mono: real)
    | ToServer(id: nat, frame: string, answers: ServerReads)
    | OpenClient(id: nat, identity: PublicIdentity, endpoint: Endpoint, nonce: seq<Byte>, mono: real)
    | SendHello(id: nat)
    | Offer(id: nat, frame: string, at: ClientReads)
    | Signature(id: nat, signature: seq<Byte>, at: ClientReads)
    | Acknowledge(id: nat, frame: string, at: ClientReads)

  /** Some client that holds the key was handed these bytes to sign. */
  ghost predicate WasSigned(n: Net, key: seq<Byte>, data: seq<Byte>) {
    exists i | 0 <= i < |n.signed| ::
      n.signed[i].1 == data && n.signed[i].0 in n.clients && n.clients[n.signed[i].0].identity.publicKey == key
  }

  /** If the frame carries a signature that verifies for an honest key over the pending
      bytes, those bytes were signed. */
  ghost predicate Unforged(w: World, honest: set<seq<Byte>>, n: Net, s: Server, frame: string) {
    var m := OpenEnvelope(frame);
    m.Some? && s.pending.Some? ==>
      var proof, (t, data) := ReadProof(m.value.1), s.pending.value;
      (proof.Some? && t.identity.publicKey in honest && Verifies(w, proof.value.2, data, t.identity)) ==>
        WasSigned(n, t.identity.publicKey, data)
  }

  ghost predicate Possible(w: World, honest: set<seq<Byte>>, n: Net, ev: Event) {
    match ev
    case OpenServer(id, _, generation, _) =>
      id !in n.servers && forall i | i in n.servers :: n.servers[i].generation != generation
    case ToServer(id, frame, _) => id in n.servers && Unforged(w, honest, n, n.servers[id], frame)
    case OpenClient(id, identity, _, _, _) => id !in n.clients && ValidIdentity(identity)
    case _ => ev.id in n.clients
  }

  function After(w: World, n: Net, ev: Event): Net {
    if (ev.ToServer? && ev.id !in n.servers)
       || (!ev.ToServer? && !ev.OpenServer? && !ev.OpenClient? && ev.id !in n.clients) then n else
    match ev
    case OpenServer(id, endpoint, generation, mono) =>
      n.(servers := n.servers[id := NewServer(endpoint, generation, mono)])
    case ToServer(id, frame, at) =>
      n.(servers := n.servers[id := ServerReceive(w, n.servers[id], frame, at).0])
    case OpenClient(id, identity, endpoint, nonce, mono) =>
      n.(clients := n.clients[id := NewClient(identity, endpoint, nonce, mono)])
    case SendHello(id) => n.(clients := n.clients[id := ClientHello(n.clients[id]).0])
    case Offer(id, frame, at) =>
      var (c, data) := ClientBegin(w, n.clients[id], frame, at);
      Net(n.servers, n.clients[id := c], if data.Ok? then n.signed + [(id, data.value)] else n.signed)
    case Signature(id, signature, at) =>
      n.(clients := n.clients[id := ClientFinish(w, n.clients[id], signature, at).0])
    case Acknowledge(id, frame, at) =>
      n.(clients := n.clients[id := ClientAccept(w, n.clients[id], frame, at).0])
  }

  ghost predicate Step(w: World, honest: set<seq<Byte>>, m: Net, ev: Event, n: Net) {
    Possible(w, honest, m, ev) && n == After(w, m, ev)
  }

  function Earlier(evs: seq<Event>): seq<Event>
    requires evs != []
  {
    evs[..|evs| - 1]
  }

  function Latest(evs: seq<Event>): Event
    requires evs != []
  {
    evs[|evs| - 1]
  }

  /** n is reached from the empty network by the events, each possible when it happens. */
  ghost predicate Reaches(w: World, honest: set<seq<Byte>>, evs: seq<Event>, n: Net)
    decreases |evs|
  {
    if evs == [] then n == Net(map[], map[], []) else
      exists m :: Reaches(w, honest, Earlier(evs), m) && Step(w, honest, m, Latest(evs), n)
  }

  // ---- what every step keeps ----

  ghost predicate ServerKeeps(w: World, honest: set<seq<Byte>>, n: Net, s: Server) {
    && (s.pending.Some? ==>
        var (t, data) := s.pending.value;
        && ValidIdentity(t.identity) && data == SigningData(w, t)
        && t.endpoint == s.endpoint && t.generation == s.generation)
    && (s.admitted.Some? ==> AdmissionKeeps(w, honest, n, s, s.admitted.value))
  }

  ghost predicate AdmissionKeeps(w: World, honest: set<seq<Byte>>, n: Net, s: Server, a: Admitted) {
    exists t ::
      Names(w, s, t, a)
      && (a.identity.publicKey in honest ==> WasSigned(n, a.identity.publicKey, SigningData(w, t)))
  }

  ghost predicate Names(w: World, s: Server, t: Transcript, a: Admitted) {
    && ValidIdentity(t.identity) && t.endpoint == s.endpoint && t.generation == s.generation && a == AdmittedFor(w, t)
  }

  /** The transcript is of this client's connect, and its channel lasts 300 s. */
  predicate OfClient(t: Transcript, c: Client) {
    t.identity == c.identity && t.endpoint == c.endpoint && t.clientNonce == c.nonce
    && t.expiresAtMs == t.issuedAtMs + 300000
  }

  ghost predicate ClientKeeps(w: World, n: Net, id: nat, c: Client) {
    && ValidIdentity(c.identity)
    && (c.transcript.Some? ==>
        && c.phase != New && c.phase != HelloSent
        && OfClient(c.transcript.value, c))
    && (c.transcript.Some? <==> exists i | 0 <= i < |n.signed| :: n.signed[i].0 == id)
  }

  /** A client's signer got exactly the data of the transcript the client accepted. */
  ghost predicate EntryKeeps(w: World, n: Net, i: nat) {
    i < |n.signed| ==>
      && n.signed[i].0 in n.clients
      && n.clients[n.signed[i].0].transcript.Some?
      && n.signed[i].1 == SigningData(w, n.clients[n.signed[i].0].transcript.value)
  }

  ghost predicate Keeps(w: World, honest: set<seq<Byte>>, n: Net) {
    && (forall s | s in n.servers :: ServerKeeps(w, honest, n, n.servers[s]))
    && (forall s, u | s in n.servers && u in n.servers && s != u :: n.servers[s].generation != n.servers[u].generation)
    && (forall c | c in n.clients :: ClientKeeps(w, n, c, n.clients[c]))
    && (forall i: nat :: EntryKeeps(w, n, i))
    && (forall i, j | 0 <= i < j < |n.signed| :: n.signed[i].0 != n.signed[j].0)
  }

  /** The only two ways a server's fields move. */
  ghost predicate Challenges(w: World, s: Server, s1: Server) {
    && s1.admitted == s.admitted && s1.pending.Some?
    && var (t, data) := s1.pending.value;
    && ValidIdentity(t.identity) && data == SigningData(w, t)
    && t.endpoint == s.endpoint && t.generation == s.generation
  }

  ghost predicate Admits(w: World, s: Server, frame: string, s1: Server) {
    && s1.pending.None? && s.pending.Some? && OpenEnvelope(frame).Some?
    && var (t, data) := s.pending.value;
    && var proof := ReadProof(OpenEnvelope(frame).value.1);
    && proof.Some? && proof.value.1 == Str(s.generation) && Verifies(w, proof.value.2, data, t.identity)
    && s1.admitted == Some(AdmittedFor(w, t).(endpoint := s.endpoint, generation := s.generation))
  }

  lemma HelloMoves(w: World, s: Server, body: seq<Member>, e: ServerReads)
    ensures var s1 := OnHello(w, s, body, e).0;
      s1.endpoint == s.endpoint && s1.generation == s.generation
      && (Challenges(w, s, s1) || (s1.admitted == s.admitted && s1.pending.None?))
  {
    hide SigningData, ValidIdentity, ReadIdentity, ReadHello;
    HelloIdentity(body);
  }

  lemma ProofMoves(w: World, s: Server, frame: string, e: ServerReads)
    requires OpenEnvelope(frame).Some?
    ensures var s1 := OnProof(w, s, OpenEnvelope(frame).value.1, e).0;
      s1.endpoint == s.endpoint && s1.generation == s.generation
      && (Admits(w, s, frame, s1) || (s1.admitted == s.admitted && s1.pending.None?))
  {
    hide OpenEnvelope, ReadProof, Verifies, Digest, Envelope, AcceptedBody;
  }

  lemma ServerMoves(w: World, s: Server, frame: string, e: ServerReads)
    ensures var s1 := ServerReceive(w, s, frame, e).0;
      && s1.endpoint == s.endpoint && s1.generation == s.generation
      && (Challenges(w, s, s1) || Admits(w, s, frame, s1)
          || (s1.admitted == s.admitted && (s1.pending.None? || s1.pending == s.pending)))
  {
    hide OpenEnvelope, OnHello, OnProof, Challenges, Admits;
    if OpenEnvelope(frame).Some? {
      HelloMoves(w, s, OpenEnvelope(frame).value.1, e);
      ProofMoves(w, s, frame, e);
    }
  }

  lemma ServerKept(w: World, honest: set<seq<Byte>>, n: Net, s: Server, frame: string, e: ServerReads)
    requires ServerKeeps(w, honest, n, s) && Unforged(w, honest, n, s, frame)
    ensures var s1 := ServerReceive(w, s, frame, e).0;
      ServerKeeps(w, honest, n, s1) && s1.endpoint == s.endpoint && s1.generation == s.generation
  {
    hide ServerReceive, WasSigned, OpenEnvelope, Verifies, ValidIdentity, SigningData, ReadProof, Digest;
    ServerMoves(w, s, frame, e);
    var s1 := ServerReceive(w, s, frame, e).0;
    if Admits(w, s, frame, s1) {
      var (t, data) := s.pending.value;
      assert Names(w, s1, t, s1.admitted.value);
    } else if s.admitted.Some? {
      var a := s.admitted.value;
      var t :| Names(w, s, t, a)
        && (a.identity.publicKey in honest ==> WasSigned(n, a.identity.publicKey, SigningData(w, t)));
      assert Names(w, s1, t, a);
    }
  }

  lemma HelloIdentity(body: seq<Member>)
    ensures ReadHello(body).Some? ==> ValidIdentity(ReadHello(body).value.0)
  {
  }

  /** begin_challenge accepts once, and only a transcript of its own connect. */
  lemma BeginKeeps(w: World, c: Client, frame: string, at: ClientReads)
    ensures var (c1, data) := ClientBegin(w, c, frame, at);
      && c1.identity == c.identity && c1.endpoint == c.endpoint && c1.nonce == c.nonce
      && (data.Ok? ==>
        && c.phase == HelloSent && c1.phase == Signing && c1.transcript.Some?
        && OfClient(c1.transcript.value, c)
        && data.value == SigningData(w, c1.transcript.value))
      && (data.Err? ==> c1.phase == Failed && c1.transcript == c.transcript)
  {
    hide OpenEnvelope, ReadOffer, SigningData, ValidChallenge, Ms;
  }

  lemma OthersKeep(w: World, c: Client, signature: seq<Byte>, frame: string, at: ClientReads)
    ensures forall d | d in [ClientHello(c).0, ClientFinish(w, c, signature, at).0, ClientAccept(w, c, frame, at).0] ::
      && d.identity == c.identity && d.endpoint == c.endpoint && d.nonce == c.nonce && d.transcript == c.transcript
      && (c.phase != New && c.phase != HelloSent ==> d.phase != New && d.phase != HelloSent)
  {
    hide OpenEnvelope, ReadFields, Verifies, ValidChallenge, Envelope, ProofBody, HelloBody, Digest;
  }

  // ---- every step keeps it ----

  lemma SignedGrows(n: Net, m: Net, key: seq<Byte>, data: seq<Byte>)
    requires WasSigned(n, key, data) && n.signed <= m.signed
    requires forall c | c in n.clients :: c in m.clients && m.clients[c].identity == n.clients[c].identity
    ensures WasSigned(m, key, data)
  {
    var i :| 0 <= i < |n.signed| && n.signed[i].1 == data && n.signed[i].0 in n.clients
      && n.clients[n.signed[i].0].identity.publicKey == key;
    assert m.signed[i] == n.signed[i];
  }

  lemma ServerKeepsOn(w: World, honest: set<seq<Byte>>, n: Net, m: Net, s: Server)
    requires ServerKeeps(w, honest, n, s) && n.signed <= m.signed
    requires forall c | c in n.clients :: c in m.clients && m.clients[c].identity == n.clients[c].identity
    ensures ServerKeeps(w, honest, m, s)
  {
    hide WasSigned, SigningData, ValidIdentity;
    if s.admitted.Some? {
      var a := s.admitted.value;
      var t :| Names(w, s, t, a)
        && (a.identity.publicKey in honest ==> WasSigned(n, a.identity.publicKey, SigningData(w, t)));
      if a.identity.publicKey in honest {
        SignedGrows(n, m, a.identity.publicKey, SigningData(w, t));
      }
    }
  }

  /** A client event: one client changes and its signer is handed at most one more message. */
  lemma ClientStep(w: World, honest: set<seq<Byte>>, n: Net, id: nat, d: Client, more: seq<(nat, seq<Byte>)>)
    requires Keeps(w, honest, n) && id in n.clients && |more| <= 1
    requires d.identity == n.clients[id].identity && d.endpoint == n.clients[id].endpoint
    requires d.nonce == n.clients[id].nonce
    requires more == [] ==>
      && d.transcript == n.clients[id].transcript
      && (d.transcript.Some? ==> d.phase != New && d.phase != HelloSent)
    requires more != [] ==>
      && more[0].0 == id && n.clients[id].transcript.None? && d.transcript.Some?
      && d.phase == Signing && more[0].1 == SigningData(w, d.transcript.value)
      && OfClient(d.transcript.value, d)
    ensures Keeps(w, honest, Net(n.servers, n.clients[id := d], n.signed + more))
  {
    hide ServerKeeps, SigningData, ValidIdentity, WasSigned;
    var m := Net(n.servers, n.clients[id := d], n.signed + more);
    forall s | s in n.servers ensures ServerKeeps(w, honest, m, n.servers[s]) {
      ServerKeepsOn(w, honest, n, m, n.servers[s]);
    }
    assert ClientKeeps(w, n, id, n.clients[id]);
    forall c | c in m.clients ensures ClientKeeps(w, m, c, m.clients[c]) {
      SignerKept(n, m, c, id);
      assert ClientKeeps(w, n, c, n.clients[c]);
    }
    forall i: nat ensures EntryKeeps(w, m, i) {
      assert EntryKeeps(w, n, i);
    }
    if more != [] {
      forall i | 0 <= i < |n.signed| ensures n.signed[i].0 != id {
        assert EntryKeeps(w, n, i);
      }
    }
  }

  lemma SignerKept(n: Net, m: Net, c: nat, id: nat)
    requires |n.signed| <= |m.signed| <= |n.signed| + 1 && n.signed <= m.signed
    requires |m.signed| > |n.signed| ==> m.signed[|n.signed|].0 == id
    ensures (exists i | 0 <= i < |m.signed| :: m.signed[i].0 == c)
       <==> (exists i | 0 <= i < |n.signed| :: n.signed[i].0 == c) || (|m.signed| > |n.signed| && c == id)
  {
    if exists i | 0 <= i < |n.signed| :: n.signed[i].0 == c {
      var i :| 0 <= i < |n.signed| && n.signed[i].0 == c;
      assert m.signed[i].0 == c;
    }
    if exists i | 0 <= i < |m.signed| :: m.signed[i].0 == c {
      var i :| 0 <= i < |m.signed| && m.signed[i].0 == c;
      assert i < |n.signed| ==> n.signed[i].0 == c;
    }
  }

  lemma ServerStep(w: World, honest: set<seq<Byte>>, n: Net, id: nat, s: Server)
    requires Keeps(w, honest, n) && ServerKeeps(w, honest, n, s)
    requires forall u | u in n.servers && u != id :: n.servers[u].generation != s.generation
    ensures Keeps(w, honest, n.(servers := n.servers[id := s]))
  {
    hide ServerKeeps, SigningData, ValidIdentity, WasSigned;
    var m := n.(servers := n.servers[id := s]);
    forall u | u in m.servers ensures ServerKeeps(w, honest, m, m.servers[u]) {
      ServerKeepsOn(w, honest, n, m, m.servers[u]);
    }
    forall c | c in m.clients ensures ClientKeeps(w, m, c, m.clients[c]) {
      assert ClientKeeps(w, n, c, n.clients[c]);
    }
    forall i: nat ensures EntryKeeps(w, m, i) {
      assert EntryKeeps(w, n, i);
    }
  }

  lemma NewClientStep(w: World, honest: set<seq<Byte>>, n: Net, id: nat, c: Client)
    requires Keeps(w, honest, n) && id !in n.clients && ValidIdentity(c.identity) && c.transcript.None?
    ensures Keeps(w, honest, n.(clients := n.clients[id := c]))
  {
    hide ServerKeeps, SigningData, ValidIdentity, WasSigned;
    var m := n.(clients := n.clients[id := c]);
    forall u | u in m.servers ensures ServerKeeps(w, honest, m, m.servers[u]) {
      ServerKeepsOn(w, honest, n, m, m.servers[u]);
    }
    forall i: nat ensures EntryKeeps(w, m, i) {
      assert EntryKeeps(w, n, i);
    }
    forall d | d in m.clients ensures ClientKeeps(w, m, d, m.clients[d]) {
      if d == id {
        forall i | 0 <= i < |n.signed| ensures n.signed[i].0 != id {
          assert EntryKeeps(w, n, i);
        }
      } else {
        assert ClientKeeps(w, n, d, n.clients[d]);
      }
    }
  }

  lemma StepKeeps(w: World, honest: set<seq<Byte>>, n: Net, ev: Event)
    requires Keeps(w, honest, n) && Possible(w, honest, n, ev)
    ensures Keeps(w, honest, After(w, n, ev))
  {
    hide Keeps, ServerKeeps, ClientKeeps, EntryKeeps, Unforged, ServerReceive, ClientBegin, ClientFinish,
      ClientAccept, ClientHello, SigningData;
    Parts(w, honest, n);
    match ev {
      case OpenServer(id, endpoint, generation, mono) =>
        FreshServer(w, honest, n, endpoint, generation, mono);
        ServerStep(w, honest, n, id, NewServer(endpoint, generation, mono));
      case ToServer(id, frame, at) =>
        ServerKept(w, honest, n, n.servers[id], frame, at);
        ServerStep(w, honest, n, id, ServerReceive(w, n.servers[id], frame, at).0);
      case OpenClient(id, identity, endpoint, nonce, mono) =>
        NewClientStep(w, honest, n, id, NewClient(identity, endpoint, nonce, mono));
      case Offer(id, frame, at) =>
        BeginKeeps(w, n.clients[id], frame, at);
        ClientParts(w, n, id);
        var (c, data) := ClientBegin(w, n.clients[id], frame, at);
        ClientStep(w, honest, n, id, c, if data.Ok? then [(id, data.value)] else []);
        assert n.signed + [] == n.signed;
      case SendHello(id) =>
        PlainStep(w, honest, n, id, ClientHello(n.clients[id]).0, [], "", ClientReads(0.0, 0.0));
      case Signature(id, signature, at) =>
        PlainStep(w, honest, n, id, ClientFinish(w, n.clients[id], signature, at).0, signature, "", at);
      case Acknowledge(id, frame, at) =>
        PlainStep(w, honest, n, id, ClientAccept(w, n.clients[id], frame, at).0, [], frame, at);
    }
  }

  lemma Parts(w: World, honest: set<seq<Byte>>, n: Net)
    requires Keeps(w, honest, n)
    ensures forall s | s in n.servers :: ServerKeeps(w, honest, n, n.servers[s])
    ensures forall s, u | s in n.servers && u in n.servers && s != u ::
      n.servers[s].generation != n.servers[u].generation
    ensures forall c | c in n.clients :: ClientKeeps(w, n, c, n.clients[c])
  {
  }

  lemma FreshServer(w: World, honest: set<seq<Byte>>, n: Net, endpoint: Endpoint, generation: string, mono: real)
    ensures ServerKeeps(w, honest, n, NewServer(endpoint, generation, mono))
  {
  }

  lemma ClientParts(w: World, n: Net, id: nat)
    requires id in n.clients && ClientKeeps(w, n, id, n.clients[id])
    ensures n.clients[id].transcript.Some? ==> n.clients[id].phase != New && n.clients[id].phase != HelloSent
  {
  }

  lemma PlainStep(
    w: World, honest: set<seq<Byte>>, n: Net, id: nat, d: Client, signature: seq<Byte>, frame: string, at: ClientReads
  )
    requires Keeps(w, honest, n) && id in n.clients && ClientKeeps(w, n, id, n.clients[id])
    requires d in [ClientHello(n.clients[id]).0, ClientFinish(w, n.clients[id], signature, at).0,
      ClientAccept(w, n.clients[id], frame, at).0]
    ensures Keeps(w, honest, n.(clients := n.clients[id := d]))
  {
    hide Keeps, ClientKeeps, ClientHello, ClientFinish, ClientAccept;
    OthersKeep(w, n.clients[id], signature, frame, at);
    ClientParts(w, n, id);
    ClientStep(w, honest, n, id, d, []);
    assert n.signed + [] == n.signed;
  }

  lemma {:induction false} RunKeeps(w: World, honest: set<seq<Byte>>, evs: seq<Event>, n: Net)
    requires Reaches(w, honest, evs, n)
    ensures Keeps(w, honest, n)
    decreases |evs|
  {
    hide After, Possible;
    if evs != [] {
      var m :| Reaches(w, honest, Earlier(evs), m) && Step(w, honest, m, Latest(evs), n);
      RunKeeps(w, honest, Earlier(evs), m);
      StepKeeps(w, honest, m, Latest(evs));
    }
  }

  // ---- agreement ----

  /** The client with this id accepted the transcript the admission is about. */
  ghost predicate Partner(w: World, s: Server, c: Client) {
    && s.admitted.Some? && c.transcript.Some?
    && var t := c.transcript.value;
    && s.admitted.value == Admitted(c.identity, c.endpoint, t.sessionId, s.generation, Digest(w, t),
         t.expiresAtMs as real / 1000.0)
    && OfClient(t, c) && s.endpoint == c.endpoint && t.generation == s.generation
  }

  /** Whoever a server admits under an honest key is a client of that key that chose
      this endpoint and accepted this very transcript: both nonces, session,
      generation and times. */
  lemma AdmittedHasPartner(w: World, honest: set<seq<Byte>>, evs: seq<Event>, n: Net, id: nat)
    requires Ideal(w) && Reaches(w, honest, evs, n)
    requires id in n.servers && n.servers[id].admitted.Some?
    requires n.servers[id].admitted.value.identity.publicKey in honest
    ensures exists c | c in n.clients :: Partner(w, n.servers[id], n.clients[c])
  {
    hide Reaches, SigningData, ValidIdentity;
    RunKeeps(w, honest, evs, n);
    var s := n.servers[id];
    var a := s.admitted.value;
    assert ServerKeeps(w, honest, n, s);
    var t :| Names(w, s, t, a) && WasSigned(n, a.identity.publicKey, SigningData(w, t));
    var i :| 0 <= i < |n.signed| && n.signed[i].1 == SigningData(w, t);
    assert EntryKeeps(w, n, i);
    var c := n.signed[i].0;
    assert ClientKeeps(w, n, c, n.clients[c]);
    SigningDataInjective(w, t, n.clients[c].transcript.value);
    assert Partner(w, s, n.clients[c]);
  }

  /** One connect is behind at most one admission. */
  lemma OneAdmissionPerConnect(w: World, honest: set<seq<Byte>>, evs: seq<Event>, n: Net, a: nat, b: nat, c: nat)
    requires Reaches(w, honest, evs, n)
    requires a in n.servers && b in n.servers && c in n.clients
    requires Partner(w, n.servers[a], n.clients[c]) && Partner(w, n.servers[b], n.clients[c])
    ensures a == b
  {
    hide Reaches;
    RunKeeps(w, honest, evs, n);
    Parts(w, honest, n);
  }

  /** A client's signer is asked at most once in a whole run, and for the transcript the
      client accepted. */
  lemma SignsOnce(w: World, honest: set<seq<Byte>>, evs: seq<Event>, n: Net, i: nat, j: nat)
    requires Reaches(w, honest, evs, n) && i < |n.signed| && j < |n.signed| && n.signed[i].0 == n.signed[j].0
    ensures i == j
    ensures n.signed[i].0 in n.clients && n.clients[n.signed[i].0].transcript.Some?
      && n.signed[i].1 == SigningData(w, n.clients[n.signed[i].0].transcript.value)
  {
    hide Reaches;
    RunKeeps(w, honest, evs, n);
    assert EntryKeeps(w, n, i);
  }

  /** One proof frame never admits two servers of different generations, whatever was forged. */
  lemma ProofIsForOneGeneration(w: World, s: Server, u: Server, frame: string, e: ServerReads, f: ServerReads)
    requires s.admitted.None? && ServerReceive(w, s, frame, e).0.admitted.Some?
    requires u.admitted.None? && ServerReceive(w, u, frame, f).0.admitted.Some?
    ensures s.generation == u.generation
  {
    hide ServerReceive, OpenEnvelope, ReadProof, Verifies, SigningData, ValidIdentity, Digest;
    ServerMoves(w, s, frame, e);
    ServerMoves(w, u, frame, f);
  }
}
