/** The outbound bridge: requests and streams told apart by cid, under every interleaving
    of requests, deliveries, timeouts, failures and close. */
module BridgeClient {
  import opened Basics

  type Cid = nat

  /** An inbound command; ready and sign commands are handled before routing. */
  datatype Command = Ready | SignRequest(challenge: string) | Plain(cid: Cid)

  datatype Future = Waiting | Result(at: nat) | Failed | TimedOut

  /** Where the receive loop put a command. */
  datatype Route = Handled | ToStream(cid: Cid) | ToRequest(cid: Cid) | Unhandled

  /** _cid, _pending, _streams, the futures of all requests so far, and what the receive
      loop read and did, in order. `claimed` holds cids taken by requests that have not
      registered their future yet; `since` is how much was read when they did. */
  datatype Bridge = Bridge(
    cid: Cid, claimed: set<Cid>, pending: set<Cid>, streams: set<Cid>,
    futures: map<Cid, Future>, since: map<Cid, nat>,
    log: seq<Command>, routes: seq<Route>,
    used: set<string>, signed: seq<string>)

  const FRESH := Bridge(0, {}, {}, {}, map[], map[], [], [], {}, [])

  datatype Step =
    | Claim
    | Register(cid: Cid)
    | OpenStream
    | DropStream(cid: Cid)
    | SendUntracked
    | Deliver(command: Command)
    | Expire(cid: Cid)
    | SendFails(cid: Cid)
    | Forget(cid: Cid)
    | EndLoop
    | AnswerSign(challenge: string)

  predicate Enabled(b: Bridge, s: Step) {
    match s
    case Register(c) => c in b.claimed
    case Expire(c) => c in b.futures && b.futures[c] == Waiting
    case SendFails(c) => c in b.futures
    case Forget(c) => c in b.futures && b.futures[c] != Waiting
    case _ => true
  }

  /** The routing part of _receive_loop. */
  function Routed(b: Bridge, m: Command): (Bridge, Route) {
    match m
    case Ready => (b, Handled)
    case SignRequest(_) => (b, Handled)
    case Plain(c) =>
      if c in b.streams then (b, ToStream(c))
      else if c in b.pending && c in b.futures && b.futures[c] == Waiting then
        (b.(pending := b.pending - {c}, futures := b.futures[c := Result(|b.log|)]), ToRequest(c))
      else (b.(pending := b.pending - {c}), Unhandled)
  }

  /** _fail_pending and _close_streams, at the end of the receive loop and in close. */
  function Ended(b: Bridge): Bridge {
    b.(pending := {}, streams := {},
       futures := map c | c in b.futures :: if c in b.pending && b.futures[c] == Waiting then Failed else b.futures[c])
  }

  function After(b: Bridge, s: Step): Bridge {
    match s
    case Claim => b.(cid := b.cid + 1, claimed := b.claimed + {b.cid + 1})
    case Register(c) =>
      b.(claimed := b.claimed - {c}, pending := b.pending + {c},
         futures := b.futures[c := Waiting], since := b.since[c := |b.log|])
    case OpenStream => b.(cid := b.cid + 1, streams := b.streams + {b.cid + 1})
    case DropStream(c) => b.(streams := b.streams - {c})
    case SendUntracked => b.(cid := b.cid + 1)
    case Deliver(m) =>
      var (d, route) := Routed(b, m);
      d.(log := b.log + [m], routes := b.routes + [route])
    case Expire(c) => if c in b.futures then b.(futures := b.futures[c := TimedOut]) else b
    case SendFails(c) =>
      if c in b.futures && b.futures[c] == Waiting then
        b.(pending := b.pending - {c}, futures := b.futures[c := Failed])
      else b.(pending := b.pending - {c})
    case Forget(c) => b.(pending := b.pending - {c})
    case EndLoop => Ended(b)
    case AnswerSign(k) => if k in b.used then b else b.(used := b.used + {k}, signed := b.signed + [k])
  }

  ghost predicate Runs(b: Bridge, steps: seq<Step>)
    decreases |steps|
  {
    steps == [] || (Enabled(b, steps[0]) && Runs(After(b, steps[0]), steps[1..]))
  }

  function Final(b: Bridge, steps: seq<Step>): Bridge
    decreases |steps|
  {
    if steps == [] then b else Final(After(b, steps[0]), steps[1..])
  }

  // ---- what every step keeps ----

  /** No command for c was read in log[from..to). */
  ghost predicate Silent(b: Bridge, c: Cid, from: nat, to: nat) {
    forall j | from <= j < to && j < |b.log| :: b.log[j] != Plain(c)
  }

  ghost predicate FutureKeeps(b: Bridge, c: Cid) {
    c in b.futures ==>
      && c <= b.cid && c !in b.claimed && c !in b.streams && c in b.since && b.since[c] <= |b.log|
      && (b.futures[c].Waiting? ==> c in b.pending && Silent(b, c, b.since[c], |b.log|))
      && (b.futures[c].Result? ==>
          var i := b.futures[c].at;
          b.since[c] <= i < |b.log| && b.log[i] == Plain(c) && Silent(b, c, b.since[c], i))
  }

  ghost predicate RouteKeeps(b: Bridge, i: nat) {
    i < |b.routes| && b.routes[i].ToRequest? ==>
      b.routes[i].cid in b.futures && b.futures[b.routes[i].cid] == Result(i)
  }

  ghost predicate ResultKeeps(b: Bridge, c: Cid) {
    c in b.futures && b.futures[c].Result? ==> b.futures[c].at < |b.routes| && b.routes[b.futures[c].at] == ToRequest(c)
  }

  ghost predicate Keeps(b: Bridge) {
    && |b.routes| == |b.log|
    && b.pending !! b.streams
    && (forall c | c in b.claimed :: c <= b.cid)
    && (forall c | c in b.pending :: c <= b.cid)
    && (forall c | c in b.streams :: c <= b.cid)
    && b.claimed !! b.streams && b.claimed !! b.pending
    && b.pending <= b.futures.Keys
    && (forall c :: FutureKeeps(b, c))
    && (forall i: nat :: RouteKeeps(b, i))
    && (forall c :: ResultKeeps(b, c))
    && (forall i, j | 0 <= i < j < |b.signed| :: b.signed[i] != b.signed[j])
    && (forall k | k in b.signed :: k in b.used)
  }

  lemma DeliverKeeps(b: Bridge, m: Command)
    requires Keeps(b)
    ensures Keeps(After(b, Deliver(m)))
  {
    var d := After(b, Deliver(m));
    forall c ensures FutureKeeps(d, c) { assert FutureKeeps(b, c); }
    forall i: nat ensures RouteKeeps(d, i) {
      assert RouteKeeps(b, i);
      if m.Plain? { assert FutureKeeps(b, m.cid); }
    }
    forall c ensures ResultKeeps(d, c) { assert ResultKeeps(b, c) && FutureKeeps(b, c); }
  }

  lemma EndedKeeps(b: Bridge)
    requires Keeps(b)
    ensures Keeps(Ended(b))
  {
    var d := Ended(b);
    forall c ensures FutureKeeps(d, c) { assert FutureKeeps(b, c); }
    forall i: nat ensures RouteKeeps(d, i) { assert RouteKeeps(b, i); }
    forall c ensures ResultKeeps(d, c) { assert ResultKeeps(b, c); }
  }

  /** Steps of one known request. */
  lemma RequestStepKeeps(b: Bridge, s: Step)
    requires Keeps(b) && Enabled(b, s) && (s.Register? || s.Expire? || s.SendFails? || s.Forget?)
    ensures Keeps(After(b, s))
  {
    var d := After(b, s);
    assert FutureKeeps(b, s.cid) && ResultKeeps(b, s.cid);
    forall c ensures FutureKeeps(d, c) { assert FutureKeeps(b, c); }
    forall i: nat ensures RouteKeeps(d, i) { assert RouteKeeps(b, i); }
    forall c ensures ResultKeeps(d, c) { assert ResultKeeps(b, c); }
  }

  lemma OtherStepKeeps(b: Bridge, s: Step)
    requires Keeps(b) && (s.Claim? || s.OpenStream? || s.DropStream? || s.SendUntracked? || s.AnswerSign?)
    ensures Keeps(After(b, s))
  {
    var d := After(b, s);
    forall c ensures FutureKeeps(d, c) { assert FutureKeeps(b, c); }
    forall i: nat ensures RouteKeeps(d, i) { assert RouteKeeps(b, i); }
    forall c ensures ResultKeeps(d, c) { assert ResultKeeps(b, c); }
  }

  lemma StepKeeps(b: Bridge, s: Step)
    requires Keeps(b) && Enabled(b, s)
    ensures Keeps(After(b, s))
  {
    hide Keeps, Routed;
    if s.Deliver? {
      DeliverKeeps(b, s.command);
    } else if s.EndLoop? {
      EndedKeeps(b);
    } else if s.Register? || s.Expire? || s.SendFails? || s.Forget? {
      RequestStepKeeps(b, s);
    } else {
      OtherStepKeeps(b, s);
    }
  }

  lemma {:induction false} RunKeeps(b: Bridge, steps: seq<Step>)
    requires Keeps(b) && Runs(b, steps)
    ensures Keeps(Final(b, steps))
    decreases |steps|
  {
    hide After, Keeps, Enabled;
    if steps != [] {
      StepKeeps(b, steps[0]);
      RunKeeps(After(b, steps[0]), steps[1..]);
    }
  }

  // ---- correlation ----

  /** A request that returns gets the first command with its own cid read since it
      registered; that command completes no other request; and the cid is no stream's. */
  lemma ReturnsItsOwn(steps: seq<Step>, c: Cid)
    requires Runs(FRESH, steps)
    requires c in Final(FRESH, steps).futures && Final(FRESH, steps).futures[c].Result?
    ensures var b := Final(FRESH, steps);
      var i := b.futures[c].at;
      && c in b.since && b.since[c] <= i < |b.log| && b.log[i] == Plain(c) && Silent(b, c, b.since[c], i)
      && (forall e | e in b.futures && b.futures[e] == Result(i) :: e == c)
      && c !in b.streams && b.pending !! b.streams
  {
    hide Runs, Final;
    RunKeeps(FRESH, steps);
    var b := Final(FRESH, steps);
    assert FutureKeeps(b, c) && ResultKeeps(b, c);
    forall e | e in b.futures && b.futures[e] == b.futures[c] ensures e == c {
      assert ResultKeeps(b, e);
    }
  }

  /** Once the receive loop has ended no registered future is unresolved. */
  lemma NoneLeftWaiting(steps: seq<Step>)
    requires Runs(FRESH, steps + [EndLoop])
    ensures var b := Final(FRESH, steps + [EndLoop]);
      b.pending == {} && b.streams == {} && forall c | c in b.futures :: b.futures[c] != Waiting
  {
    hide After, Keeps;
    FinalSnoc(FRESH, steps, EndLoop);
    FreshKeeps();
    RunKeeps(FRESH, steps);
    EndsAll(Final(FRESH, steps));
  }

  lemma FreshKeeps()
    ensures Keeps(FRESH)
  {
  }

  lemma EndsAll(b: Bridge)
    requires Keeps(b)
    ensures
      var d := After(b, EndLoop);
      d.pending == {} && d.streams == {} && forall c | c in d.futures :: d.futures[c] != Waiting
  {
    var d := After(b, EndLoop);
    forall c | c in d.futures ensures d.futures[c] != Waiting {
      assert FutureKeeps(b, c);
    }
  }

  lemma {:induction false} FinalSnoc(b: Bridge, steps: seq<Step>, s: Step)
    requires Runs(b, steps + [s])
    ensures Runs(b, steps) && Final(b, steps + [s]) == After(Final(b, steps), s)
    decreases |steps|
  {
    hide After, Enabled;
    if steps == [] {
      assert [] + [s] == [s] && [s][1..] == [];
      assert Final(After(b, s), []) == After(b, s);
    } else {
      assert (steps + [s])[1..] == steps[1..] + [s] && (steps + [s])[0] == steps[0];
      FinalSnoc(After(b, steps[0]), steps[1..], s);
    }
  }

  /** No signing challenge is signed twice. */
  lemma SignsOnce(steps: seq<Step>, i: nat, j: nat)
    requires Runs(FRESH, steps) && i < j < |Final(FRESH, steps).signed|
    ensures Final(FRESH, steps).signed[i] != Final(FRESH, steps).signed[j]
  {
    hide Runs, Final;
    RunKeeps(FRESH, steps);
  }

  // ---- what becomes of each request, from the steps alone ----

  /** The first step that concerns request c decides; n commands were read before. */
  function Fate(steps: seq<Step>, n: nat, c: Cid): Future
    decreases |steps|
  {
    if steps == [] then Waiting else
      match steps[0]
      case Deliver(m) => if m == Plain(c) then Result(n) else Fate(steps[1..], n + 1, c)
      case Expire(d) => if d == c then TimedOut else Fate(steps[1..], n, c)
      case SendFails(d) => if d == c then Failed else Fate(steps[1..], n, c)
      case EndLoop => Failed
      case _ => Fate(steps[1..], n, c)
  }

  lemma StepDecides(b: Bridge, s: Step, c: Cid)
    requires Keeps(b) && Enabled(b, s) && c in b.futures
    ensures var d := After(b, s);
      && c in d.futures && |d.log| == |b.log| + (if s.Deliver? then 1 else 0)
      && d.futures[c] ==
         if b.futures[c] != Waiting then b.futures[c]
         else if s == Deliver(Plain(c)) then Result(|b.log|)
         else if s == Expire(c) then TimedOut
         else if s == SendFails(c) || s == EndLoop then Failed
         else Waiting
  {
    assert FutureKeeps(b, c);
  }

  lemma {:induction false} FateFrom(b: Bridge, steps: seq<Step>, c: Cid)
    requires Keeps(b) && Runs(b, steps) && c in b.futures
    ensures var d := Final(b, steps);
      c in d.futures && d.futures[c] == if b.futures[c] == Waiting then Fate(steps, |b.log|, c) else b.futures[c]
    decreases |steps|
  {
    hide After, Keeps, Enabled;
    if steps != [] {
      StepDecides(b, steps[0], c);
      StepKeeps(b, steps[0]);
      FateFrom(After(b, steps[0]), steps[1..], c);
    }
  }

  /** In every run a request returns with the first command of its cid, times out or fails,
      whichever step comes first after it registered, and otherwise still waits. */
  lemma FateExactly(before: seq<Step>, c: Cid, steps: seq<Step>)
    requires Runs(FRESH, before + [Register(c)] + steps)
    ensures var d := Final(FRESH, before + [Register(c)] + steps);
      c in d.futures && d.futures[c] == Fate(steps, |Final(FRESH, before).log|, c)
  {
    hide Runs, Final, Keeps;
    FreshKeeps();
    RunsSplit(FRESH, before + [Register(c)], steps);
    FinalSnoc(FRESH, before, Register(c));
    RunKeeps(FRESH, before + [Register(c)]);
    FateFrom(Final(FRESH, before + [Register(c)]), steps, c);
  }

  lemma {:induction false} RunsSplit(b: Bridge, a: seq<Step>, steps: seq<Step>)
    requires Runs(b, a + steps)
    ensures Runs(b, a) && Runs(Final(b, a), steps) && Final(b, a + steps) == Final(Final(b, a), steps)
    decreases |a|
  {
    hide After, Enabled;
    if a == [] {
      assert a + steps == steps;
    } else {
      assert (a + steps)[1..] == a[1..] + steps && (a + steps)[0] == a[0];
      RunsSplit(After(b, a[0]), a[1..], steps);
    }
  }

  /** Cids count up by one, from one, whoever takes them. */
  function Taken(steps: seq<Step>): nat {
    if steps == [] then 0
    else (if steps[0].Claim? || steps[0].OpenStream? || steps[0].SendUntracked? then 1 else 0) + Taken(steps[1..])
  }

  lemma {:induction false} CidsCount(b: Bridge, steps: seq<Step>)
    ensures Final(b, steps).cid == b.cid + Taken(steps)
    decreases |steps|
  {
    if steps != [] {
      CidsCount(After(b, steps[0]), steps[1..]);
    }
  }

  lemma Unroll(b: Bridge, steps: seq<Step>, k: nat)
    requires k < |steps| && Enabled(b, steps[k]) && Runs(After(b, steps[k]), steps[k + 1..])
    ensures Runs(b, steps[k..]) && Final(b, steps[k..]) == Final(After(b, steps[k]), steps[k + 1..])
  {
    assert steps[k..][1..] == steps[k + 1..];
  }

  /** Such runs exist. */
  lemma OneIsAnswered()
    ensures var steps := [Claim, Register(1), Deliver(Plain(1))];
      Runs(FRESH, steps) && Final(FRESH, steps).futures == map[1 := Result(0)]
  {
    var steps := [Claim, Register(1), Deliver(Plain(1))];
    var b1 := After(FRESH, Claim);
    var b2 := After(b1, Register(1));
    assert steps[3..] == [] && steps[0..] == steps;
    Unroll(b2, steps, 2);
    Unroll(b1, steps, 1);
    Unroll(FRESH, steps, 0);
  }

  /** An open stream hears every command with its cid until it is dropped or the loop ends. */
  lemma {:induction false} StreamHears(b: Bridge, steps: seq<Step>, c: Cid)
    requires c in b.streams && |b.routes| == |b.log|
    requires forall s | s in steps :: s != DropStream(c) && s != EndLoop
    ensures var d := Final(b, steps);
      && b.log <= d.log && |d.routes| == |d.log| && b.routes <= d.routes
      && forall i | |b.log| <= i < |d.log| && d.log[i] == Plain(c) :: d.routes[i] == ToStream(c)
    decreases |steps|
  {
    hide After;
    if steps != [] {
      assert steps[0] in steps && forall s | s in steps[1..] :: s in steps;
      StreamStep(b, steps[0], c);
      StreamHears(After(b, steps[0]), steps[1..], c);
    }
  }

  lemma StreamStep(b: Bridge, s: Step, c: Cid)
    requires c in b.streams && |b.routes| == |b.log| && s != DropStream(c) && s != EndLoop
    ensures var d := After(b, s);
      && c in d.streams && |d.routes| == |d.log| && b.routes <= d.routes
      && d.log == b.log + (if s.Deliver? then [s.command] else [])
      && (s == Deliver(Plain(c)) ==> d.routes[|b.log|] == ToStream(c))
  {
  }

  /** The challenges asked for, each the first time. */
  function FirstAsked(steps: seq<Step>, used: set<string>): seq<string>
    decreases |steps|
  {
    if steps == [] then []
    else if steps[0].AnswerSign? && steps[0].challenge !in used then
      [steps[0].challenge] + FirstAsked(steps[1..], used + {steps[0].challenge})
    else FirstAsked(steps[1..], used)
  }

  /** Each challenge is answered when it is first asked, and then no more. */
  lemma {:induction false} SignedExactly(b: Bridge, steps: seq<Step>)
    ensures Final(b, steps).signed == b.signed + FirstAsked(steps, b.used)
    decreases |steps|
  {
    hide After;
    if steps == [] {
      assert b.signed + [] == b.signed;
    } else {
      var s, d := steps[0], After(b, steps[0]);
      SignStep(b, s);
      SignedExactly(d, steps[1..]);
      if s.AnswerSign? && s.challenge !in b.used {
        assert b.signed + [s.challenge] + FirstAsked(steps[1..], d.used)
            == b.signed + ([s.challenge] + FirstAsked(steps[1..], d.used));
      }
    }
  }

  lemma SignStep(b: Bridge, s: Step)
    ensures var d := After(b, s);
      if s.AnswerSign? && s.challenge !in b.used then
        d.signed == b.signed + [s.challenge] && d.used == b.used + {s.challenge}
      else
        d.signed == b.signed && d.used == b.used
  {
  }

  // ---- the client ----

  /** WebSocketBridgeClient. pending and streams are its dictionaries; futures holds the future
      objects that requests wait for, which the pending ones share. What was read and claimed
      is kept for the specification. */
  class Client {
    var cid: Cid
    var pending: set<Cid>
    var streams: map<Cid, seq<Command>>
    var futures: map<Cid, Future>
    var used: set<string>
    var signed: seq<string>
    ghost var claimed: set<Cid>
    ghost var since: map<Cid, nat>
    var received: nat
    ghost var log: seq<Command>
    ghost var routes: seq<Route>

    constructor ()
      ensures Snapshot() == FRESH && Counts()
    {
      cid, pending, streams, futures, used, signed := 0, {}, map[], map[], {}, [];
      claimed, since, received, log, routes := {}, map[], 0, [], [];
    }

    ghost function Snapshot(): Bridge
      reads this
    {
      Bridge(cid, claimed, pending, streams.Keys, futures, since, log, routes, used, signed)
    }

    /** The number by which futures name their command. */
    ghost predicate Counts()
      reads this
    {
      received == |log|
    }

    method NextCid() returns (c: Cid)
      requires Counts()
      modifies this
      ensures Counts() && c == old(cid) + 1 && Snapshot() == After(old(Snapshot()), Claim)
    {
      cid := cid + 1;
      c := cid;
      claimed := claimed + {cid};
    }

    /** The start of _send_command. */
    method AwaitAnswer(c: Cid)
      requires Counts() && Enabled(Snapshot(), Register(c))
      modifies this
      ensures Counts() && Snapshot() == After(old(Snapshot()), Register(c))
    {
      futures := futures[c := Waiting];
      pending := pending + {c};
      claimed, since := claimed - {c}, since[c := |log|];
    }

    /** flow: a stream under a new cid. */
    method OpenFlow() returns (c: Cid)
      requires Counts()
      modifies this
      ensures Counts() && c == old(cid) + 1 && Snapshot() == After(old(Snapshot()), OpenStream) && c in streams
      ensures streams[c] == []
    {
      cid := cid + 1;
      c := cid;
      streams := streams[c := []];
    }

    /** The request that waits for this cid gets its answer, if it still waits. */
    method PopAnswer(c: Cid, at: nat) returns (route: Route)
      modifies this`pending, this`futures
      ensures pending == old(pending) - {c}
      ensures if c in old(pending) && c in old(futures) && old(futures)[c] == Waiting
              then futures == old(futures)[c := Result(at)] && route == ToRequest(c)
              else futures == old(futures) && route == Unhandled
    {
      var popped := c in pending;
      pending := pending - {c};
      if popped && c in futures && futures[c] == Waiting {
        futures := futures[c := Result(at)];
        route := ToRequest(c);
      } else {
        route := Unhandled;
      }
    }

    /** One turn of _receive_loop: a stream gets the command, or the waiting future that was
        popped, or nobody. */
    method RouteCommand(m: Command) returns (route: Route)
      requires Counts()
      modifies this
      ensures Counts() && Snapshot() == After(old(Snapshot()), Deliver(m)) && route == Routed(old(Snapshot()), m).1
      ensures streams == if route.ToStream? then old(streams)[m.cid := old(streams)[m.cid] + [m]] else old(streams)
    {
      ghost var before := Snapshot();
      var at := received;
      received, log := received + 1, log + [m];
      if !m.Plain? {
        route := Handled;
      } else if m.cid in streams {
        streams := streams[m.cid := streams[m.cid] + [m]];
        assert streams.Keys == before.streams;
        route := ToStream(m.cid);
      } else {
        route := PopAnswer(m.cid, at);
      }
      routes := routes + [route];
    }

    /** asyncio.wait_for gives up. */
    method TimeOut(c: Cid)
      requires Counts() && Enabled(Snapshot(), Expire(c))
      modifies this
      ensures Counts() && Snapshot() == After(old(Snapshot()), Expire(c))
    {
      futures := futures[c := TimedOut];
    }

    /** The except branches of _send_command. */
    method DropRequest(c: Cid)
      requires Counts() && Enabled(Snapshot(), Forget(c))
      modifies this
      ensures Counts() && Snapshot() == After(old(Snapshot()), Forget(c))
    {
      pending := pending - {c};
    }

    /** _fail_pending: every pending future that is not done gets the error. */
    method FailPending() returns (failed: set<Cid>)
      modifies this`futures
      ensures failed == set c | c in pending && c in old(futures) && old(futures)[c] == Waiting
      ensures futures.Keys == old(futures).Keys
      ensures forall c | c in futures :: futures[c] == if c in failed then Failed else old(futures)[c]
    {
      failed := {};
      var todo := pending;
      while todo != {}
        invariant todo <= pending && futures.Keys == old(futures).Keys
        invariant forall c | c in futures :: futures[c] == if c in failed then Failed else old(futures)[c]
        invariant forall c ::
          c in failed <==> c in pending && c in old(futures) && old(futures)[c] == Waiting && c !in todo
        decreases |todo|
      {
        var c :| c in todo;
        todo := todo - {c};
        if c in futures && futures[c] == Waiting {
          futures := futures[c := Failed];
          failed := failed + {c};
        }
      }
    }

    /** The end of the receive loop, and close: pending futures fail, and both dictionaries are
        emptied. */
    method Close()
      requires Counts()
      modifies this
      ensures Counts() && Snapshot() == After(old(Snapshot()), EndLoop)
    {
      var failed := FailPending();
      assert futures == Ended(old(Snapshot())).futures;
      pending, streams := {}, map[];
      assert streams.Keys == {};
    }

    /** _answer_sign for a challenge that is valid: a challenge is signed once. */
    method AnswerChallenge(challenge: string) returns (answered: bool)
      requires Counts()
      modifies this
      ensures Counts() && Snapshot() == After(old(Snapshot()), AnswerSign(challenge))
      ensures answered == (challenge !in old(used))
    {
      if challenge in used {
        return false;
      }
      used, signed := used + {challenge}, signed + [challenge];
      answered := true;
    }
  }
}
