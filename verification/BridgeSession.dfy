/** The authenticated inbound session: admission first, then commands for one Cell. */
module BridgeSession {
  import opened Basics
  import opened Envelopes
  import opened Channel
  import opened ChannelEnds
  import opened Agreement
  import ChannelFrames
  import Handshake
  import Base64

  datatype WireIdentity = WireIdentity(uuid: string, publicKey: string)

  datatype Command = Command(cmd: string, identity: Option<WireIdentity>, cid: int)

  /** A frame after admission, with the clock at its check, and for a command each
      response of the endpoint with the clock just before it is sent. */
  datatype Received =
    | Gone
    | Unreadable
    | Got(command: Command, now: real, responses: seq<(string, real)>)

  /** public_identity: no key is no principal; an unreadable key raises identityMismatch. */
  function PublicOf(i: Option<WireIdentity>): Result<Option<PublicIdentity>, Failure> {
    if i.None? || i.value.publicKey == "" then Ok(None) else
      match Base64.Decode(i.value.publicKey)
      case None => Err(IdentityMismatch)
      case Some(key) => Ok(Some(PublicIdentity(i.value.uuid, key, "EdDSA", "Curve25519")))
  }

  /** AdmittedChannel.check_identity. */
  function CheckIdentity(a: Admitted, p: Option<PublicIdentity>, required: bool, now: real): Option<Failure> {
    if now >= a.expiresAt then Some(Expired)
    else if p.None? then if required then Some(IdentityMismatch) else None
    else if p.value != a.identity then Some(IdentityMismatch)
    else None
  }

  /** _check. */
  function Check(a: Admitted, c: Command, now: real): Option<Failure> {
    if "channelAuth" <= c.cmd || c.cmd == "ready" then Some(UnexpectedMessage) else
      match PublicOf(c.identity)
      case Err(f) => Some(f)
      case Ok(p) => CheckIdentity(a, p, c.cmd != "response", now)
  }

  /** The responses sent before the first one that comes too late. */
  function Sendable(a: Admitted, responses: seq<(string, real)>): (sent: seq<(string, real)>)
    ensures sent <= responses
  {
    if responses == [] || responses[0].1 >= a.expiresAt then [] else [responses[0]] + Sendable(a, responses[1..])
  }

  /** What _serve does with its frames: the commands it passes on, what it sends, how it ends. */
  datatype Served = Served(passed: seq<(Command, real)>, sent: seq<(string, real)>, failure: Option<Failure>)

  function Serve(a: Admitted, inbox: seq<Received>): Served {
    if inbox == [] || inbox[0].Gone? then Served([], [], None)
    else if inbox[0].Unreadable? then Served([], [], Some(Malformed))
    else
      var Got(c, now, responses) := inbox[0];
      var failure := Check(a, c, now);
      if failure.Some? then Served([], [], failure)
      else if c.cmd == "feed" then
        var rest := Serve(a, inbox[1..]);
        rest.(passed := [(c, now)] + rest.passed)
      else if |Sendable(a, responses)| < |responses| then Served([(c, now)], Sendable(a, responses), Some(Expired))
      else
        var rest := Serve(a, inbox[1..]);
        Served([(c, now)] + rest.passed, responses + rest.sent, rest.failure)
  }

  /** A command the session may pass on. */
  predicate Speaks(a: Admitted, c: Command, now: real) {
    && now < a.expiresAt
    && !("channelAuth" <= c.cmd) && c.cmd != "ready"
    && (PublicOf(c.identity) == Ok(Some(a.identity)) || (c.cmd == "response" && PublicOf(c.identity) == Ok(None)))
  }

  lemma CheckExactly(a: Admitted, c: Command, now: real)
    ensures Check(a, c, now).None? <==> Speaks(a, c, now)
  {
  }

  lemma {:induction false} SendableTimely(a: Admitted, responses: seq<(string, real)>)
    ensures forall x | x in Sendable(a, responses) :: x.1 < a.expiresAt
    ensures |Sendable(a, responses)| < |responses| ==> responses[|Sendable(a, responses)|].1 >= a.expiresAt
  {
    if responses != [] && responses[0].1 < a.expiresAt {
      SendableTimely(a, responses[1..]);
    }
  }

  /** The Cell sees only commands under the admitted key (or identity-less responses),
      each checked before expiry; nothing is sent at or after expiry. */
  lemma {:induction false} ServeSafe(a: Admitted, inbox: seq<Received>)
    ensures forall x | x in Serve(a, inbox).passed :: Speaks(a, x.0, x.1)
    ensures forall x | x in Serve(a, inbox).sent :: x.1 < a.expiresAt
  {
    if inbox != [] && inbox[0].Got? {
      CheckExactly(a, inbox[0].command, inbox[0].now);
      SendableTimely(a, inbox[0].responses);
      ServeSafe(a, inbox[1..]);
    }
  }

  predicate Smooth(a: Admitted, r: Received) {
    r.Got? && Speaks(a, r.command, r.now)
    && (r.command.cmd == "feed" || forall x | x in r.responses :: x.1 < a.expiresAt)
  }

  /** ... and every command is passed on, in order, up to the first frame that breaks a rule. */
  lemma {:induction false} ServeComplete(a: Admitted, inbox: seq<Received>, k: nat)
    requires k <= |inbox| && forall i | 0 <= i < k :: Smooth(a, inbox[i])
    ensures |Serve(a, inbox).passed| >= k
    ensures forall i | 0 <= i < k :: inbox[i].Got? && Serve(a, inbox).passed[i] == (inbox[i].command, inbox[i].now)
  {
    if k > 0 {
      var r := inbox[0];
      CheckExactly(a, r.command, r.now);
      SendableTimely(a, r.responses);
      assert forall i | 0 <= i < k - 1 :: inbox[1..][i] == inbox[i + 1];
      ServeComplete(a, inbox[1..], k - 1);
    }
  }

  /** After a completed handshake, under the admitted identity any command but those of the
      handshake passes exactly until 300 s after the server's clock at the hello. */
  lemma SpeaksUntil(
    w: World, s: Server, c: Client, sign: seq<Byte> -> seq<Byte>, r: Handshake.Reads, command: Command, now: real
  )
    requires Ideal(w) && ValidIdentity(c.identity)
    requires s.phase == Unauthenticated && s.admitted.None? && c.phase == New && c.admitted.None?
    requires var out := Handshake.Exchange(w, s, c, sign, r);
      out.server.phase == Authenticated && out.client.phase == Connected
    requires PublicOf(command.identity) == Ok(Some(c.identity))
    requires !("channelAuth" <= command.cmd) && command.cmd != "ready"
    ensures var out := Handshake.Exchange(w, s, c, sign, r);
      && out.server.admitted.Some? && out.client.admitted == out.server.admitted
      && (Check(out.server.admitted.value, command, now).None? <==>
          now < (Ms(r.hello.wall) + 300000) as real / 1000.0)
  {
    hide Handshake.Exchange, Handshake.Conditions, Ideal, ValidIdentity, PublicOf, Ms;
    Handshake.Completion(w, s, c, sign, r);
    CheckExactly(Handshake.Exchange(w, s, c, sign, r).server.admitted.value, command, now);
  }

  /** The principal of a wire identity: none without a key, else the uuid with the key that
      the text encodes; a text that encodes nothing is refused. */
  lemma PublicExactly(i: Option<WireIdentity>, p: PublicIdentity)
    ensures PublicOf(i) == Ok(None) <==> i.None? || i.value.publicKey == ""
    ensures PublicOf(i) == Ok(Some(p)) <==>
      && i.Some? && i.value.publicKey != "" && Base64.Decode(i.value.publicKey) == Some(p.publicKey)
      && p.uuid == i.value.uuid && p.algorithm == "EdDSA" && p.curve == "Curve25519"
    ensures PublicOf(i).Err? ==> PublicOf(i) == Err(IdentityMismatch)
  {
    hide Base64.Decode;
  }

  /** What is answered to commands other than feed, in turn. */
  function Answers(inbox: seq<Received>): seq<(string, real)> {
    if inbox == [] then []
    else (if inbox[0].Got? && inbox[0].command.cmd != "feed" then inbox[0].responses else []) + Answers(inbox[1..])
  }

  /** How serving ends at a frame that is not passed on. */
  function Ending(a: Admitted, r: Received): Option<Failure> {
    match r
    case Gone => None
    case Unreadable => Some(Malformed)
    case Got(c, now, responses) =>
      if "channelAuth" <= c.cmd || c.cmd == "ready" then Some(UnexpectedMessage)
      else if PublicOf(c.identity).Err? then Some(IdentityMismatch)
      else if now >= a.expiresAt then Some(Expired)
      else Some(IdentityMismatch)
  }

  lemma FirstIsSmooth(a: Admitted, inbox: seq<Received>)
    requires inbox != [] && Smooth(a, inbox[0])
    ensures var r := inbox[0]; var rest := Serve(a, inbox[1..]);
      Serve(a, inbox) == Served(
        [(r.command, r.now)] + rest.passed,
        (if r.command.cmd == "feed" then [] else r.responses) + rest.sent, rest.failure)
  {
    var r := inbox[0];
    CheckExactly(a, r.command, r.now);
    SendableTimely(a, r.responses);
    if r.command.cmd != "feed" { SendableWhole(a, r.responses); }
    hide Check, Speaks, Sendable;
  }

  lemma FirstBreaksRule(a: Admitted, inbox: seq<Received>)
    requires inbox != [] && !Smooth(a, inbox[0])
    ensures var r := inbox[0];
      Serve(a, inbox) ==
      if r.Got? && Speaks(a, r.command, r.now) then
        Served([(r.command, r.now)], Sendable(a, r.responses), Some(Expired))
      else
        Served([], [], Ending(a, r))
  {
    if inbox[0].Got? {
      CheckExactly(a, inbox[0].command, inbox[0].now);
      TimelyIsSendable(a, inbox[0].responses);
    }
  }

  lemma {:induction false} TimelyIsSendable(a: Admitted, responses: seq<(string, real)>)
    ensures |Sendable(a, responses)| == |responses| ==> forall x | x in responses :: x.1 < a.expiresAt
  {
    if responses != [] {
      TimelyIsSendable(a, responses[1..]);
    }
  }

  /** Frames that break no rule are all passed on and answered, and then serving ends as the
      next frame says; of that frame only answers in time go out, when it is a command whose
      answers run late. */
  lemma {:induction false} ServeExactly(a: Admitted, inbox: seq<Received>, k: nat)
    requires k <= |inbox| && (forall i | 0 <= i < k :: Smooth(a, inbox[i])) && (k < |inbox| ==> !Smooth(a, inbox[k]))
    ensures var served := Serve(a, inbox);
      && k <= |served.passed|
      && (forall i | 0 <= i < k :: inbox[i].Got? && served.passed[i] == (inbox[i].command, inbox[i].now))
      && (if k == |inbox| then
            |served.passed| == k && served.sent == Answers(inbox) && served.failure.None?
          else if inbox[k].Got? && Speaks(a, inbox[k].command, inbox[k].now) then
            && served.passed[k..] == [(inbox[k].command, inbox[k].now)]
            && served.sent == Answers(inbox[..k]) + Sendable(a, inbox[k].responses) && served.failure == Some(Expired)
          else
            |served.passed| == k && served.sent == Answers(inbox[..k]) && served.failure == Ending(a, inbox[k]))
  {
    hide Serve, Speaks, Sendable, Ending;
    if k == 0 {
      if inbox == [] {
        assert Serve(a, inbox) == Served([], [], None) by { ServeNone(a); }
      } else {
        FirstBreaksRule(a, inbox);
      }
    } else {
      assert Smooth(a, inbox[0]);
      FirstIsSmooth(a, inbox);
      ServeExactly(a, inbox[1..], k - 1);
      assert inbox[..k][1..] == inbox[1..][..k - 1] && inbox[..k][0] == inbox[0];
    }
  }

  lemma ServeNone(a: Admitted)
    ensures Serve(a, []) == Served([], [], None)
  {
  }

  /** With admission as the network of module Agreement delivers it: under an honest
      key the Cell hears only that key's own client of this endpoint. */
  lemma SpeaksForAClient(
    w: World, honest: set<seq<Byte>>, evs: seq<Event>, n: Net, id: nat, inbox: seq<Received>, i: nat
  )
    requires Ideal(w) && Reaches(w, honest, evs, n) && id in n.servers && n.servers[id].admitted.Some?
    requires n.servers[id].admitted.value.identity.publicKey in honest
    requires i < |Serve(n.servers[id].admitted.value, inbox).passed|
    ensures var (c, _) := Serve(n.servers[id].admitted.value, inbox).passed[i];
      PublicOf(c.identity) == Ok(None) ||
      exists u | u in n.clients ::
        Partner(w, n.servers[id], n.clients[u]) && PublicOf(c.identity) == Ok(Some(n.clients[u].identity))
  {
    hide Reaches, Ideal, PublicOf;
    var a := n.servers[id].admitted.value;
    ServeSafe(a, inbox);
    var x := Serve(a, inbox).passed[i];
    assert Speaks(a, x.0, x.1);
    AdmittedHasPartner(w, honest, evs, n, id);
    var u :| u in n.clients && Partner(w, n.servers[id], n.clients[u]);
  }

  // ---- admission first ----

  /** What _admit does with the frames that arrive in time: the server afterwards, what it
      answered, and the failure that ends it. */
  function Greet(
    w: World, s: Server, frames: seq<(string, ServerReads)>
  ): (Server, seq<string>, Option<Failure>)
    decreases |frames|
  {
    if s.phase == Authenticated then (s, [], None)
    else if frames == [] then (s, [], Some(Expired))
    else
      var (next, reply) := ServerReceive(w, s, frames[0].0, frames[0].1);
      if reply.Err? then (next, [], Some(reply.error)) else
        var (last, replies, failure) := Greet(w, next, frames[1..]);
        (last, [reply.value] + replies, failure)
  }

  /** The server after one more frame. */
  function Heard(w: World, s: Server, frame: (string, ServerReads)): Server {
    ServerReceive(w, s, frame.0, frame.1).0
  }

  /** A session is admitted exactly by an accepted hello and then an accepted proof; both are
      answered, and frames after them are left for the commands. */
  lemma AdmittedExactly(w: World, s: Server, frames: seq<(string, ServerReads)>)
    requires s.phase == Unauthenticated
    ensures var (d, replies, failure) := Greet(w, s, frames);
      && (failure.None? <==>
            && |frames| >= 2
            && (exists i, nonce :: ChannelFrames.HelloAccepted(s, frames[0].0, frames[0].1, i, nonce))
            && ChannelFrames.ProofAccepted(w, Heard(w, s, frames[0]), frames[1].0, frames[1].1))
      && (failure.None? ==>
            d == Heard(w, Heard(w, s, frames[0]), frames[1]) && d.phase == Authenticated && |replies| == 2)
      && (failure.Some? ==> d.phase != Authenticated && d.admitted == s.admitted)
  {
    hide ServerReceive, ChannelFrames.HelloAccepted, ChannelFrames.ProofAccepted;
    if frames != [] {
      FrameSays(w, s, frames[0].0, frames[0].1);
      var s1 := Heard(w, s, frames[0]);
      if s1.phase == ChallengeIssued { ProofNext(w, s1, frames[1..]); }
    }
  }

  lemma ProofNext(w: World, s: Server, frames: seq<(string, ServerReads)>)
    requires s.phase == ChallengeIssued
    ensures var (d, replies, failure) := Greet(w, s, frames);
      && (failure.None? <==> frames != [] && ChannelFrames.ProofAccepted(w, s, frames[0].0, frames[0].1))
      && (failure.None? ==> d == Heard(w, s, frames[0]) && d.phase == Authenticated && |replies| == 1)
      && (failure.Some? ==> d.phase != Authenticated && d.admitted == s.admitted)
  {
    hide ServerReceive, ChannelFrames.ProofAccepted;
    if frames != [] {
      FrameSays(w, s, frames[0].0, frames[0].1);
      var s1 := Heard(w, s, frames[0]);
      if s1.phase == Authenticated { assert Greet(w, s1, frames[1..]) == (s1, [], None); }
    }
  }

  /** A hello is answered only first, and a proof only after it. */
  lemma FrameSays(w: World, s: Server, frame: string, e: ServerReads)
    requires s.phase == Unauthenticated || s.phase == ChallengeIssued
    ensures var (d, reply) := ServerReceive(w, s, frame, e);
      && (s.phase == Unauthenticated ==>
            && (reply.Ok? <==> exists i, nonce :: ChannelFrames.HelloAccepted(s, frame, e, i, nonce))
            && (reply.Ok? ==> d.phase == ChallengeIssued && d.admitted == s.admitted))
      && (s.phase == ChallengeIssued ==>
            && (reply.Ok? <==> ChannelFrames.ProofAccepted(w, s, frame, e))
            && (reply.Ok? ==> d.phase == Authenticated))
      && (reply.Err? ==> d.phase == Closed && d.admitted == s.admitted)
  {
    hide ServerReceive, ChannelFrames.HelloAccepted, ChannelFrames.ProofAccepted;
    ChannelFrames.ServerExactly(w, s, frame, e);
    PhasesOfFrame(w, s, frame, e);
  }

  lemma PhasesOfFrame(w: World, s: Server, frame: string, e: ServerReads)
    ensures var (d, reply) := ServerReceive(w, s, frame, e);
      && (reply.Ok? && s.phase == Unauthenticated ==> d.phase == ChallengeIssued && d.admitted == s.admitted)
      && (reply.Ok? && s.phase == ChallengeIssued ==> d.phase == Authenticated)
      && (ChannelFrames.ProofAccepted(w, s, frame, e) ==> s.phase == ChallengeIssued)
      && forall i, nonce :: ChannelFrames.HelloAccepted(s, frame, e, i, nonce) ==> s.phase == Unauthenticated
  {
    hide OpenEnvelope, ReadHello, ReadProof, Verifies, SigningData;
  }

  /** AuthenticatedBridgeSession: what it keeps while it runs. */
  class Session {
    const server: ChannelServer
    var admitted: Option<Admitted>
    var failure: Option<Failure>
    var passed: seq<(Command, real)>
    var sent: seq<(string, real)>
    var replies: seq<string>

    constructor (server: ChannelServer)
      ensures this.server == server && admitted.None? && passed == [] && sent == [] && replies == [] && failure.None?
    {
      this.server := server;
      admitted, failure, passed, sent, replies := None, None, [], [], [];
    }

    /** _admit, with the frames that arrive in time; it gives up when they run out. */
    method Admit(frames: seq<(string, ServerReads)>)
      requires server.state == Unauthenticated && server.admitted.None?
      modifies this, server
      ensures passed == old(passed) && sent == old(sent)
      ensures var (d, answers, ending) := Greet(server.w, old(server.Snapshot()), frames);
        && server.Snapshot() == d && replies == old(replies) + answers
        && admitted == (if ending.None? then d.admitted else None) && (ending.Some? ==> failure == ending)
      ensures admitted.Some? ==> server.state == Authenticated && admitted == server.admitted
      ensures admitted.None? ==> failure.Some? && server.state != Authenticated
    {
      hide ServerReceive;
      var i := 0;
      ghost var first, whole := server.Snapshot(), Greet(server.w, server.Snapshot(), frames);
      while server.state != Authenticated
        invariant i <= |frames| && passed == old(passed) && sent == old(sent)
        invariant server.state == Authenticated ==> server.admitted.Some?
        invariant var rest := Greet(server.w, server.Snapshot(), frames[i..]);
          rest.0 == whole.0 && replies + rest.1 == old(replies) + whole.1 && rest.2 == whole.2
        decreases |frames| - i
      {
        if i == |frames| {
          admitted, failure := None, Some(Expired);
          return;
        }
        assert frames[i..][1..] == frames[i + 1..];
        AuthenticatedHasAdmission(server.w, server.Snapshot(), frames[i].0, frames[i].1);
        var reply := server.Receive(frames[i].0, frames[i].1);
        if reply.Err? {
          admitted, failure := None, Some(reply.error);
          return;
        }
        replies := replies + [reply.value];
        i := i + 1;
      }
      admitted := server.admitted;
    }

    method Respond(responses: seq<(string, real)>) returns (late: bool)
      requires admitted.Some?
      modifies this`sent
      ensures sent == old(sent) + Sendable(admitted.value, responses)
      ensures late <==> |Sendable(admitted.value, responses)| < |responses|
    {
      hide Sendable;
      ghost var a := admitted.value;
      for i := 0 to |responses|
        invariant sent + Sendable(a, responses[i..]) == old(sent) + Sendable(a, responses)
        invariant |Sendable(a, responses[i..])| + i == |Sendable(a, responses)|
      {
        SendableHead(a, responses[i..]);
        if responses[i].1 >= admitted.value.expiresAt {
          return true;
        }
        assert responses[i..][1..] == responses[i + 1..];
        sent := sent + [responses[i]];
      }
      SendableHead(a, responses[|responses|..]);
      late := false;
    }

    /** _serve. The responses of a feed are sent by a task of its own, with Respond. */
    method ServeFrames(inbox: seq<Received>)
      requires admitted.Some?
      modifies this`passed, this`sent, this`failure
      ensures var served := Serve(admitted.value, inbox);
        passed == old(passed) + served.passed && sent == old(sent) + served.sent && failure == served.failure
    {
      hide Check, Sendable;
      var a := admitted.value;
      for i := 0 to |inbox|
        invariant passed + Serve(a, inbox[i..]).passed == old(passed) + Serve(a, inbox).passed
        invariant sent + Serve(a, inbox[i..]).sent == old(sent) + Serve(a, inbox).sent
        invariant Serve(a, inbox[i..]).failure == Serve(a, inbox).failure
      {
        assert inbox[i..][1..] == inbox[i + 1..];
        var frame := inbox[i];
        if frame.Gone? {
          failure := None;
          return;
        }
        if frame.Unreadable? {
          failure := Some(Malformed);
          return;
        }
        var problem := Check(a, frame.command, frame.now);
        if problem.Some? {
          failure := problem;
          return;
        }
        passed := passed + [(frame.command, frame.now)];
        if frame.command.cmd != "feed" {
          var late := Respond(frame.responses);
          if late {
            failure := Some(Expired);
            return;
          }
          SendableWhole(a, frame.responses);
        }
      }
      failure := None;
    }
  }

  lemma SendableHead(a: Admitted, responses: seq<(string, real)>)
    ensures Sendable(a, responses) ==
      if responses == [] || responses[0].1 >= a.expiresAt then [] else [responses[0]] + Sendable(a, responses[1..])
  {
  }

  lemma AuthenticatedHasAdmission(w: World, s: Server, frame: string, e: ServerReads)
    requires s.phase != Authenticated
    ensures var (s1, reply) := ServerReceive(w, s, frame, e);
      s1.phase == Authenticated ==> s1.admitted.Some? && reply.Ok?
  {
    hide OpenEnvelope, ReadHello, ReadProof, Verifies;
  }

  lemma SendableWhole(a: Admitted, responses: seq<(string, real)>)
    requires |Sendable(a, responses)| == |responses|
    ensures Sendable(a, responses) == responses
  {
  }
}
