/** The landing store of invitations: tickets by id, replies held for their issuer. */
module InviteLanding {
  import opened Basics
  import opened Lists

  const GRACE := 86400.0
  const MOST_REQUESTS := 20

  datatype Publication =
    Publication(ticketId: string, humanCode: string, token: string, statusKey: string, maxRequests: int)

  datatype Request = Request(requestId: string, ticketId: string, entityRef: Option<string>, content: string)

  datatype Ticket = Ticket(
    humanCode: string, token: string, keyDigest: string, expiresAt: real, maxRequests: int,
    openCount: nat, respondedAt: Option<real>, entityRef: Option<string>, revokedAt: Option<real>)

  datatype Landing = Landing(tickets: map<string, Ticket>, requests: seq<Request>)

  /** The signature checks, the status-key digest and the link verdict. */
  datatype World = World(
    publicationExpiry: (Publication, real) -> Option<real>,
    noticeOk: (string, string) -> bool,
    requestOk: (Request, string, real) -> bool,
    digest: string -> string,
    linkOk: (string, bool, real) -> bool)

  datatype Answer = Registered | AlreadyRegistered | Rejected | Expired | AlreadyPublished | CodeTaken
    | NotFound | Withdrawn | NotActive | InboxFull | AlreadyReceived | Delivered

  function Clamp(n: int): int {
    if n < 1 then 1 else if n > MOST_REQUESTS then MOST_REQUESTS else n
  }

  predicate CodeInUse(s: Landing, code: string) {
    exists id | id in s.tickets :: s.tickets[id].humanCode == code
  }

  /** publish. */
  function Publish(s: Landing, w: World, p: Publication, now: real): (Landing, Answer) {
    match w.publicationExpiry(p, now)
    case None => (s, Rejected)
    case Some(expiresAt) =>
      if now > expiresAt then (s, Expired)
      else if p.ticketId in s.tickets then
        (s, if s.tickets[p.ticketId].token != p.token then AlreadyPublished else AlreadyRegistered)
      else if CodeInUse(s, p.humanCode) then (s, CodeTaken)
      else
        (s.(tickets := s.tickets[p.ticketId := Ticket(p.humanCode, p.token, w.digest(p.statusKey), expiresAt,
          Clamp(p.maxRequests), 0, None, None, None)]), Registered)
  }

  /** revoke. */
  function Revoke(s: Landing, w: World, ticketId: string, notice: string, now: real): (Landing, Answer) {
    if ticketId !in s.tickets then (s, NotFound)
    else if !w.noticeOk(notice, s.tickets[ticketId].token) then (s, Rejected)
    else (s.(tickets := s.tickets[ticketId := s.tickets[ticketId].(revokedAt := Some(now))]), Withdrawn)
  }

  predicate Authorised(s: Landing, w: World, ticketId: string, key: string) {
    ticketId in s.tickets && w.digest(key) == s.tickets[ticketId].keyDigest
  }

  function Of(rs: seq<Request>, ticketId: string): seq<Request> {
    Filter(rs, (r: Request) => r.ticketId == ticketId)
  }

  function Others(rs: seq<Request>, ticketId: string): seq<Request> {
    Filter(rs, (r: Request) => r.ticketId != ticketId)
  }

  /** collect: the replies go to the caller and out of the store. */
  function Collect(s: Landing, w: World, ticketId: string, key: string): (Landing, Option<seq<Request>>) {
    if !Authorised(s, w, ticketId, key) then (s, None)
    else (s.(requests := Others(s.requests, ticketId)), Some(Of(s.requests, ticketId)))
  }

  /** _store. */
  function Store(s: Landing, w: World, q: Request, now: real): (Landing, Answer) {
    if q.ticketId !in s.tickets then (s, NotFound) else
      var t := s.tickets[q.ticketId];
      if t.revokedAt.Some? || now > t.expiresAt then (s, NotActive)
      else if !w.requestOk(q, t.token, now) then (s, Rejected)
      else if |Of(s.requests, q.ticketId)| >= t.maxRequests then (s, InboxFull)
      else if exists r | r in s.requests :: r.requestId == q.requestId then (s, AlreadyReceived)
      else
        (Landing(s.tickets[q.ticketId := t.(respondedAt := Some(now), entityRef := q.entityRef)], s.requests + [q]),
         Delivered)
  }

  function Gone(s: Landing, now: real): set<string> {
    set id | id in s.tickets && s.tickets[id].expiresAt < now - GRACE
  }

  /** purge_expired. */
  function Purge(s: Landing, now: real): Landing {
    var gone := Gone(s, now);
    Landing(s.tickets - gone, Filter(s.requests, (r: Request) => r.ticketId !in gone))
  }

  /** landing: a valid open counts. */
  function Open(s: Landing, w: World, ticketId: string, now: real): Landing {
    if ticketId in s.tickets && w.linkOk(s.tickets[ticketId].token, s.tickets[ticketId].revokedAt.Some?, now)
    then s.(tickets := s.tickets[ticketId := s.tickets[ticketId].(openCount := s.tickets[ticketId].openCount + 1)])
    else s
  }

  // ---- the issuer's inbox ----

  /** One answer of the landing, verified row by row against the ticket it answers; a
      request id already in the inbox is skipped. */
  function Receive(w: World, inbox: seq<Request>, rows: seq<Request>, token: string, now: real): seq<Request>
    decreases |rows|
  {
    if rows == [] then inbox
    else if w.requestOk(rows[0], token, now) && forall r | r in inbox :: r.requestId != rows[0].requestId then
      Receive(w, [rows[0]] + inbox, rows[1..], token, now)
    else Receive(w, inbox, rows[1..], token, now)
  }

  // ---- the whole system ----

  /** The landing, the issuer's inbox, and where every stored reply went: handed to the
      inbox, handed out with an answer that was lost, or purged. */
  datatype System = System(
    landing: Landing, inbox: seq<Request>,
    stored: multiset<Request>, received: multiset<Request>, lost: multiset<Request>, purged: multiset<Request>)

  datatype Op =
    | DoPublish(publication: Publication)
    | DoRevoke(ticketId: string, notice: string)
    | DoCollect(ticketId: string, key: string, arrives: bool, token: string)
    | DoReply(request: Request)
    | DoPurge
    | DoOpen(ticketId: string)

  datatype Call = Call(op: Op, now: real, world: World)

  function Step(y: System, c: Call): System {
    var s, w := y.landing, c.world;
    match c.op
    case DoPublish(p) => y.(landing := Publish(s, w, p, c.now).0)
    case DoRevoke(id, notice) => y.(landing := Revoke(s, w, id, notice, c.now).0)
    case DoCollect(id, key, arrives, token) =>
      var (s1, rows) := Collect(s, w, id, key);
      if rows.None? then y
      else if arrives then
        y.(landing := s1, received := y.received + multiset(rows.value),
           inbox := Receive(w, y.inbox, rows.value, token, c.now))
      else y.(landing := s1, lost := y.lost + multiset(rows.value))
    case DoReply(q) =>
      var (s1, answer) := Store(s, w, q, c.now);
      if answer == Delivered then y.(landing := s1, stored := y.stored + multiset{q}) else y.(landing := s1)
    case DoPurge =>
      y.(landing := Purge(s, c.now),
         purged := y.purged + multiset(Filter(s.requests, (r: Request) => r.ticketId in Gone(s, c.now))))
    case DoOpen(id) => y.(landing := Open(s, w, id, c.now))
  }

  function Run(y: System, cs: seq<Call>): System
    decreases |cs|
  {
    if cs == [] then y else Run(Step(y, cs[0]), cs[1..])
  }

  // ---- what every call keeps ----

  ghost predicate DistinctIds(rs: seq<Request>) {
    forall i, j | 0 <= i < j < |rs| :: rs[i].requestId != rs[j].requestId
  }

  ghost predicate TicketKeeps(s: Landing, id: string) {
    id in s.tickets ==>
      1 <= s.tickets[id].maxRequests <= MOST_REQUESTS && |Of(s.requests, id)| <= s.tickets[id].maxRequests
  }

  ghost predicate Keeps(s: Landing) {
    && (forall a, b | a in s.tickets && b in s.tickets && a != b :: s.tickets[a].humanCode != s.tickets[b].humanCode)
    && DistinctIds(s.requests)
    && (forall r | r in s.requests :: r.ticketId in s.tickets)
    && (forall id :: TicketKeeps(s, id))
  }

  ghost predicate Conserves(y: System) {
    y.stored == multiset(y.landing.requests) + y.received + y.lost + y.purged
  }

  lemma {:induction false} FilterDistinct(rs: seq<Request>, keep: Request -> bool)
    requires DistinctIds(rs)
    ensures DistinctIds(Filter(rs, keep))
  {
    if rs != [] {
      FilterDistinct(rs[1..], keep);
      FilterMembers(rs[1..], keep);
      if keep(rs[0]) {
        var rest := Filter(rs[1..], keep);
        forall j | 0 <= j < |rest| ensures rest[j].requestId != rs[0].requestId {
          assert rest[j] in rest;
          var i :| 0 <= i < |rs| - 1 && rs[1..][i] == rest[j];
          assert rs[i + 1] == rest[j];
        }
      }
    }
  }

  lemma {:induction false} NoneOf(rs: seq<Request>, id: string)
    requires forall r | r in rs :: r.ticketId != id
    ensures Of(rs, id) == []
  {
    if rs != [] {
      assert rs[0] in rs && forall r | r in rs[1..] :: r in rs;
      NoneOf(rs[1..], id);
    }
  }

  lemma PublishKeeps(s: Landing, w: World, p: Publication, now: real)
    requires Keeps(s)
    ensures Keeps(Publish(s, w, p, now).0)
  {
    var d := Publish(s, w, p, now).0;
    forall id ensures TicketKeeps(d, id) {
      assert TicketKeeps(s, id);
      if id == p.ticketId && id !in s.tickets {
        NoneOf(s.requests, id);
      }
    }
  }

  /** Changing fields of a ticket other than its code and limit. */
  lemma TicketUpdateKeeps(s: Landing, id: string, t: Ticket)
    requires Keeps(s) && id in s.tickets && t.humanCode == s.tickets[id].humanCode
    requires t.maxRequests == s.tickets[id].maxRequests
    ensures Keeps(s.(tickets := s.tickets[id := t]))
  {
    var d := s.(tickets := s.tickets[id := t]);
    forall x ensures TicketKeeps(d, x) { assert TicketKeeps(s, x); }
  }

  lemma CollectKeeps(s: Landing, id: string)
    requires Keeps(s)
    ensures Keeps(s.(requests := Others(s.requests, id)))
    ensures multiset(s.requests) == multiset(Others(s.requests, id)) + multiset(Of(s.requests, id))
  {
    var d := s.(requests := Others(s.requests, id));
    FilterDistinct(s.requests, (r: Request) => r.ticketId != id);
    FilterMembers(s.requests, (r: Request) => r.ticketId != id);
    FilterSplits(s.requests, (r: Request) => r.ticketId != id, (r: Request) => r.ticketId == id);
    forall x ensures TicketKeeps(d, x) {
      assert TicketKeeps(s, x);
      OfFiltered(s.requests, (r: Request) => r.ticketId != id, x);
    }
  }

  lemma {:induction false} OfFiltered(rs: seq<Request>, keep: Request -> bool, id: string)
    ensures |Of(Filter(rs, keep), id)| <= |Of(rs, id)|
  {
    if rs != [] {
      OfFiltered(rs[1..], keep, id);
      if keep(rs[0]) {
        FilterCons(rs[0], Filter(rs[1..], keep), (r: Request) => r.ticketId == id);
      }
    }
  }

  lemma StoreKeeps(s: Landing, w: World, q: Request, now: real)
    requires Keeps(s)
    ensures Keeps(Store(s, w, q, now).0)
    ensures Store(s, w, q, now).1 == Delivered ==>
      multiset(Store(s, w, q, now).0.requests) == multiset(s.requests) + multiset{q}
  {
    hide TicketKeeps;
    var (d, answer) := Store(s, w, q, now);
    if answer == Delivered {
      forall x ensures TicketKeeps(d, x) {
        StoredTicketKeeps(s, w, q, now, x);
      }
    }
  }

  lemma StoredTicketKeeps(s: Landing, w: World, q: Request, now: real, x: string)
    requires TicketKeeps(s, x) && Store(s, w, q, now).1 == Delivered
    ensures TicketKeeps(Store(s, w, q, now).0, x)
  {
    hide Filter;
    FilterSnoc(s.requests, q, (r: Request) => r.ticketId == x);
  }

  lemma PurgeKeeps(s: Landing, now: real)
    requires Keeps(s)
    ensures Keeps(Purge(s, now))
    ensures multiset(s.requests)
         == multiset(Purge(s, now).requests) + multiset(Filter(s.requests, (r: Request) => r.ticketId in Gone(s, now)))
  {
    var gone, d := Gone(s, now), Purge(s, now);
    FilterDistinct(s.requests, (r: Request) => r.ticketId !in gone);
    FilterMembers(s.requests, (r: Request) => r.ticketId !in gone);
    FilterSplits(s.requests, (r: Request) => r.ticketId !in gone, (r: Request) => r.ticketId in Gone(s, now));
    forall x ensures TicketKeeps(d, x) {
      assert TicketKeeps(s, x);
      OfFiltered(s.requests, (r: Request) => r.ticketId !in gone, x);
    }
  }

  // ---- the inbox ----

  /** Distinct ids stay distinct; what was there stays; every row that verifies is there
      by its id; nothing else comes in. */
  lemma {:induction false} ReceiveOnce(w: World, inbox: seq<Request>, rows: seq<Request>, token: string, now: real)
    requires DistinctIds(inbox)
    ensures var after := Receive(w, inbox, rows, token, now);
      && DistinctIds(after)
      && (forall r | r in inbox :: r in after)
      && (forall r | r in rows && w.requestOk(r, token, now) :: exists q | q in after :: q.requestId == r.requestId)
      && (forall r | r in after :: r in inbox || (r in rows && w.requestOk(r, token, now)))
    decreases |rows|
  {
    if rows != [] {
      assert rows == [rows[0]] + rows[1..];
      if w.requestOk(rows[0], token, now) && forall r | r in inbox :: r.requestId != rows[0].requestId {
        ReceiveOnce(w, [rows[0]] + inbox, rows[1..], token, now);
      } else {
        ReceiveOnce(w, inbox, rows[1..], token, now);
      }
    }
  }

  // ---- every call, every run ----

  ghost predicate AllKeeps(y: System) {
    Keeps(y.landing) && Conserves(y) && DistinctIds(y.inbox)
  }

  lemma CollectStep(y: System, c: Call)
    requires AllKeeps(y) && c.op.DoCollect?
    ensures AllKeeps(Step(y, c)) && forall r | r in y.inbox :: r in Step(y, c).inbox
  {
    hide Keeps, Receive, DistinctIds, Filter, Authorised;
    CollectKeeps(y.landing, c.op.ticketId);
    ReceiveOnce(c.world, y.inbox, Of(y.landing.requests, c.op.ticketId), c.op.token, c.now);
  }

  lemma ReplyStep(y: System, c: Call)
    requires AllKeeps(y) && c.op.DoReply?
    ensures AllKeeps(Step(y, c)) && Step(y, c).inbox == y.inbox
  {
    hide Keeps, DistinctIds, Store;
    StoreKeeps(y.landing, c.world, c.op.request, c.now);
    StoreHolds(y.landing, c.world, c.op.request, c.now);
  }

  lemma PurgeStep(y: System, c: Call)
    requires AllKeeps(y) && c.op.DoPurge?
    ensures AllKeeps(Step(y, c)) && Step(y, c).inbox == y.inbox
  {
    hide Keeps, DistinctIds, Purge, Gone, Filter;
    PurgeKeeps(y.landing, c.now);
  }

  lemma StepKeeps(y: System, c: Call)
    requires AllKeeps(y)
    ensures AllKeeps(Step(y, c)) && forall r | r in y.inbox :: r in Step(y, c).inbox
  {
    hide Keeps, DistinctIds, Publish, Revoke, Open, Store, Purge, Receive, Gone, Filter, Collect;
    var s, w := y.landing, c.world;
    match c.op {
      case DoPublish(p) => PublishKeeps(s, w, p, c.now); PublishHolds(s, w, p, c.now);
      case DoRevoke(id, notice) => RevokeOpenKeep(s, w, id, notice, c.now);
      case DoCollect(_, _, _, _) => CollectStep(y, c);
      case DoReply(_) => ReplyStep(y, c);
      case DoPurge => PurgeStep(y, c);
      case DoOpen(id) => RevokeOpenKeep(s, w, id, "", c.now);
    }
  }

  lemma RevokeOpenKeep(s: Landing, w: World, id: string, notice: string, now: real)
    requires Keeps(s)
    ensures var d := Revoke(s, w, id, notice, now).0; Keeps(d) && d.requests == s.requests
    ensures var d := Open(s, w, id, now); Keeps(d) && d.requests == s.requests
  {
    hide Keeps;
    if id in s.tickets {
      TicketUpdateKeeps(s, id, s.tickets[id].(revokedAt := Some(now)));
      TicketUpdateKeeps(s, id, s.tickets[id].(openCount := s.tickets[id].openCount + 1));
    }
  }

  lemma PublishHolds(s: Landing, w: World, p: Publication, now: real)
    ensures Publish(s, w, p, now).0.requests == s.requests
  {
  }

  lemma StoreHolds(s: Landing, w: World, q: Request, now: real)
    ensures Store(s, w, q, now).1 != Delivered ==> Store(s, w, q, now).0.requests == s.requests
  {
  }

  /** In every run: human codes and held request ids are distinct, a ticket holds at most
      its limit (at most 20), every stored reply is held, handed out once or purged with
      its ticket, and no request id is twice in the inbox. */
  lemma {:induction false} RunKeeps(y: System, cs: seq<Call>)
    requires AllKeeps(y)
    ensures AllKeeps(Run(y, cs))
    ensures forall r | r in y.inbox :: r in Run(y, cs).inbox
    decreases |cs|
  {
    hide Step, AllKeeps;
    if cs != [] {
      StepKeeps(y, cs[0]);
      RunKeeps(Step(y, cs[0]), cs[1..]);
    }
  }

  /** A collected reply whose answer arrives and that still verifies is in the inbox, once
      by its id, from then on. */
  lemma CollectedIsReceived(y: System, c: Call, cs: seq<Call>, q: Request)
    requires AllKeeps(y) && c.op.DoCollect? && c.op.arrives && Authorised(y.landing, c.world, c.op.ticketId, c.op.key)
    requires q in y.landing.requests && q.ticketId == c.op.ticketId && c.world.requestOk(q, c.op.token, c.now)
    ensures var inbox := Run(Step(y, c), cs).inbox;
      DistinctIds(inbox) && exists i | 0 <= i < |inbox| :: inbox[i].requestId == q.requestId
    ensures q !in Step(y, c).landing.requests
  {
    hide Step, AllKeeps, Authorised;
    CollectDelivers(y, c, q);
    var z := Step(y, c);
    var p :| p in z.inbox && p.requestId == q.requestId;
    StepKeeps(y, c);
    RunKeeps(z, cs);
    assert p in Run(z, cs).inbox;
    InboxDistinct(Run(z, cs));
  }

  lemma InboxDistinct(y: System)
    requires AllKeeps(y)
    ensures DistinctIds(y.inbox)
  {
  }

  /** One collect whose answer arrives hands a verifying reply over. */
  lemma CollectDelivers(y: System, c: Call, q: Request)
    requires AllKeeps(y) && c.op.DoCollect? && c.op.arrives && Authorised(y.landing, c.world, c.op.ticketId, c.op.key)
    requires q in y.landing.requests && q.ticketId == c.op.ticketId && c.world.requestOk(q, c.op.token, c.now)
    ensures exists p :: p in Step(y, c).inbox && p.requestId == q.requestId
    ensures q !in Step(y, c).landing.requests
  {
    hide Filter, Keeps, DistinctIds, Receive, Conserves;
    var id := c.op.ticketId;
    FilterMembers(y.landing.requests, (r: Request) => r.ticketId == id);
    FilterMembers(y.landing.requests, (r: Request) => r.ticketId != id);
    ReceiveOnce(c.world, y.inbox, Of(y.landing.requests, id), c.op.token, c.now);
  }

  predicate SameTerms(t: Ticket, u: Ticket) {
    t.token == u.token && t.humanCode == u.humanCode && t.keyDigest == u.keyDigest
      && t.maxRequests == u.maxRequests && t.expiresAt == u.expiresAt
  }

  lemma UpdatesKeepTerms(s: Landing, w: World, p: Publication, q: Request, now: real, id: string)
    requires id in s.tickets
    ensures var after := Publish(s, w, p, now).0.tickets; id in after && SameTerms(s.tickets[id], after[id])
    ensures var after := Store(s, w, q, now).0.tickets; id in after && SameTerms(s.tickets[id], after[id])
  {
    hide Of, CodeInUse, Clamp;
  }

  /** One call keeps a ticket's terms or purges it, a day after it expired. */
  lemma TermsKept(y: System, c: Call, id: string)
    requires id in y.landing.tickets
    ensures var t, after := y.landing.tickets[id], Step(y, c).landing.tickets;
      || (id in after && SameTerms(t, after[id]))
      || (c.op.DoPurge? && t.expiresAt < c.now - GRACE && id !in after)
  {
    hide Filter, Receive, Publish, Store;
    match c.op {
      case DoPublish(p) => UpdatesKeepTerms(y.landing, c.world, p, Request("", "", None, ""), c.now, id);
      case DoReply(q) => UpdatesKeepTerms(y.landing, c.world, Publication("", "", "", "", 0), q, c.now, id);
      case _ =>
    }
  }

  /** Over any run a published ticket keeps its token, code, key, limit and expiry as long as
      no purge comes more than a day after that expiry. */
  lemma {:induction false} TokenIsFixed(y: System, cs: seq<Call>, id: string)
    requires id in y.landing.tickets
    requires forall c | c in cs && c.op.DoPurge? :: c.now - GRACE <= y.landing.tickets[id].expiresAt
    ensures id in Run(y, cs).landing.tickets && SameTerms(y.landing.tickets[id], Run(y, cs).landing.tickets[id])
    decreases |cs|
  {
    hide Step;
    if cs != [] {
      assert cs[0] in cs && forall c | c in cs[1..] :: c in cs;
      TermsKept(y, cs[0], id);
      TokenIsFixed(Step(y, cs[0]), cs[1..], id);
    }
  }

  // ---- what each call may do, from the tickets and replies alone ----

  lemma {:induction false} CountOf(rs: seq<Request>, keep: Request -> bool, r: Request)
    ensures multiset(Filter(rs, keep))[r] == if keep(r) then multiset(rs)[r] else 0
  {
    if rs != [] {
      CountOf(rs[1..], keep, r);
      assert rs == [rs[0]] + rs[1..];
    }
  }

  /** With a key whose digest is the ticket's, the issuer gets exactly the ticket's replies, and
      no other leaves the store; with any other key, or for an unknown ticket, nothing
      happens. */
  lemma CollectExactly(y: System, c: Call, r: Request)
    requires c.op.DoCollect?
    ensures var z, id := Step(y, c), c.op.ticketId;
      if id in y.landing.tickets && c.world.digest(c.op.key) == y.landing.tickets[id].keyDigest then
        && z.landing.tickets == y.landing.tickets && z.stored == y.stored && z.purged == y.purged
        && multiset(z.landing.requests)[r] == (if r.ticketId == id then 0 else multiset(y.landing.requests)[r])
        && z.received[r] == y.received[r]
             + (if c.op.arrives && r.ticketId == id then multiset(y.landing.requests)[r] else 0)
        && z.lost[r] == y.lost[r]
             + (if !c.op.arrives && r.ticketId == id then multiset(y.landing.requests)[r] else 0)
        && (!c.op.arrives ==> z.inbox == y.inbox)
      else z == y
  {
    hide Filter, Receive;
    var id := c.op.ticketId;
    CountOf(y.landing.requests, (q: Request) => q.ticketId == id, r);
    CountOf(y.landing.requests, (q: Request) => q.ticketId != id, r);
  }

  /** Publishing registers a ticket exactly if it is signed, not expired, not known, and its
      code is free; the ticket then has the terms that were published, between 1 and 20
      replies, and the digest of the status key. */
  lemma PublishExactly(y: System, c: Call)
    requires c.op.DoPublish?
    ensures var z, p, end := Step(y, c), c.op.publication, c.world.publicationExpiry(c.op.publication, c.now);
      if end.Some? && c.now <= end.value && p.ticketId !in y.landing.tickets
         && forall id | id in y.landing.tickets :: y.landing.tickets[id].humanCode != p.humanCode then
        && z == y.(landing := z.landing) && z.landing.requests == y.landing.requests
        && z.landing.tickets.Keys == y.landing.tickets.Keys + {p.ticketId}
        && (forall id | id in y.landing.tickets :: z.landing.tickets[id] == y.landing.tickets[id])
        && var t := z.landing.tickets[p.ticketId];
        && t.humanCode == p.humanCode && t.token == p.token && t.keyDigest == c.world.digest(p.statusKey)
        && t.expiresAt == end.value && t.openCount == 0 && t.respondedAt.None? && t.revokedAt.None?
        && 1 <= t.maxRequests <= 20 && (1 <= p.maxRequests <= 20 ==> t.maxRequests == p.maxRequests)
        && (p.maxRequests < 1 ==> t.maxRequests == 1) && (p.maxRequests > 20 ==> t.maxRequests == 20)
      else z == y
  {
  }

  /** A reply is stored exactly if its ticket is known, neither withdrawn nor expired, it
      verifies against the ticket, the ticket holds less than its limit, and no held reply
      has its id. */
  lemma ReplyExactly(y: System, c: Call)
    requires c.op.DoReply?
    ensures var z, q := Step(y, c), c.op.request;
      if q.ticketId in y.landing.tickets && y.landing.tickets[q.ticketId].revokedAt.None?
         && c.now <= y.landing.tickets[q.ticketId].expiresAt
         && c.world.requestOk(q, y.landing.tickets[q.ticketId].token, c.now)
         && |Of(y.landing.requests, q.ticketId)| < y.landing.tickets[q.ticketId].maxRequests
         && forall r | r in y.landing.requests :: r.requestId != q.requestId then
        && z.landing.requests == y.landing.requests + [q] && z.stored == y.stored + multiset{q}
        && z.received == y.received && z.lost == y.lost && z.purged == y.purged && z.inbox == y.inbox
        && z.landing.tickets == y.landing.tickets[q.ticketId := y.landing.tickets[q.ticketId].(
             respondedAt := Some(c.now), entityRef := q.entityRef)]
      else z == y
  {
    hide Filter;
  }

  /** A notice withdraws a ticket exactly if it verifies against it. */
  lemma RevokeExactly(y: System, c: Call)
    requires c.op.DoRevoke?
    ensures var z, id := Step(y, c), c.op.ticketId;
      if id in y.landing.tickets && c.world.noticeOk(c.op.notice, y.landing.tickets[id].token) then
        z == y.(landing := y.landing.(tickets :=
               y.landing.tickets[id := y.landing.tickets[id].(revokedAt := Some(c.now))]))
      else z == y
  {
  }

  /** Purging takes exactly the tickets that expired more than a day ago, and their replies. */
  lemma PurgeExactly(y: System, c: Call, r: Request)
    requires c.op.DoPurge?
    ensures var z := Step(y, c);
      && (forall id :: id in z.landing.tickets <==>
            id in y.landing.tickets && y.landing.tickets[id].expiresAt + 86400.0 >= c.now)
      && (forall id | id in z.landing.tickets :: z.landing.tickets[id] == y.landing.tickets[id])
      && multiset(z.landing.requests)[r]
         == (if r.ticketId in y.landing.tickets && r.ticketId !in z.landing.tickets then 0
             else multiset(y.landing.requests)[r])
      && z.purged[r] == y.purged[r] + multiset(y.landing.requests)[r] - multiset(z.landing.requests)[r]
      && z.received == y.received && z.lost == y.lost && z.stored == y.stored && z.inbox == y.inbox
  {
    hide Filter;
    CountOf(y.landing.requests, (q: Request) => q.ticketId !in Gone(y.landing, c.now), r);
    CountOf(y.landing.requests, (q: Request) => q.ticketId in Gone(y.landing, c.now), r);
  }

  // ---- who gets the replies ----

  /** Calls that collect this ticket with a wrong key only, and purge it not. */
  ghost predicate Foreign(c: Call, id: string, t: Ticket) {
    && (c.op.DoCollect? && c.op.ticketId == id ==> c.world.digest(c.op.key) != t.keyDigest)
    && (c.op.DoPurge? ==> c.now <= t.expiresAt + 86400.0)
  }

  lemma ForeignTakesNothing(y: System, c: Call, id: string, r: Request)
    requires id in y.landing.tickets && r.ticketId == id && Foreign(c, id, y.landing.tickets[id])
    ensures var z := Step(y, c);
      && z.received[r] == y.received[r] && z.lost[r] == y.lost[r] && z.purged[r] == y.purged[r]
      && multiset(z.landing.requests)[r] + y.stored[r] == multiset(y.landing.requests)[r] + z.stored[r]
      && z.stored[r] >= y.stored[r]
      && id in z.landing.tickets && SameTerms(y.landing.tickets[id], z.landing.tickets[id])
  {
    hide Step, Of;
    TermsKept(y, c, id);
    match c.op {
      case DoPublish(_) => PublishExactly(y, c);
      case DoRevoke(_, _) => RevokeExactly(y, c);
      case DoCollect(_, _, _, _) => CollectExactly(y, c, r);
      case DoReply(_) => ReplyExactly(y, c);
      case DoPurge => PurgeExactly(y, c, r);
      case DoOpen(_) => OpenExactly(y, c);
    }
  }

  /** Over any run without its key no reply to a ticket leaves the landing: what is stored
      stays, and nothing of it is handed out, lost or purged. */
  lemma {:induction false} WrongKeysTakeNothing(y: System, cs: seq<Call>, id: string, r: Request)
    requires id in y.landing.tickets && r.ticketId == id
    requires forall c | c in cs :: Foreign(c, id, y.landing.tickets[id])
    ensures var z := Run(y, cs);
      && z.received[r] == y.received[r] && z.lost[r] == y.lost[r] && z.purged[r] == y.purged[r]
      && multiset(z.landing.requests)[r] + y.stored[r] == multiset(y.landing.requests)[r] + z.stored[r]
      && z.stored[r] >= y.stored[r]
      && id in z.landing.tickets && SameTerms(y.landing.tickets[id], z.landing.tickets[id])
    decreases |cs|
  {
    hide Step;
    if cs != [] {
      assert cs[0] in cs && forall c | c in cs[1..] :: c in cs;
      ForeignTakesNothing(y, cs[0], id, r);
      WrongKeysTakeNothing(Step(y, cs[0]), cs[1..], id, r);
    }
  }

  /** The issuer that published a ticket gets, with its status key, all replies to it that were
      stored since then, whoever else tried other keys before. */
  lemma IssuerGetsAll(y: System, publish: Call, cs: seq<Call>, collect: Call, r: Request)
    requires publish.op.DoPublish? && publish.op.publication.ticketId == r.ticketId
    requires r.ticketId !in y.landing.tickets && r.ticketId in Step(y, publish).landing.tickets
    requires multiset(y.landing.requests)[r] == 0
    requires forall c | c in cs :: Foreign(c, r.ticketId, Step(y, publish).landing.tickets[r.ticketId])
    requires collect.op.DoCollect? && collect.op.ticketId == r.ticketId && collect.op.arrives
    requires collect.world.digest(collect.op.key) == publish.world.digest(publish.op.publication.statusKey)
    ensures var z := Run(Step(y, publish), cs);
      Step(z, collect).received[r] + y.stored[r] == y.received[r] + z.stored[r]
  {
    hide Step, Run;
    PublishExactly(y, publish);
    var y1 := Step(y, publish);
    WrongKeysTakeNothing(y1, cs, r.ticketId, r);
    CollectExactly(Run(y1, cs), collect, r);
  }

  /** Once a ticket is withdrawn no reply to it is stored, until it is purged. */
  lemma {:induction false} WithdrawnTakesNoReply(y: System, cs: seq<Call>, id: string, r: Request)
    requires id in y.landing.tickets && y.landing.tickets[id].revokedAt.Some? && r.ticketId == id
    requires forall c | c in cs && c.op.DoPurge? :: c.now <= y.landing.tickets[id].expiresAt + 86400.0
    ensures var z := Run(y, cs);
      z.stored[r] == y.stored[r] && id in z.landing.tickets && z.landing.tickets[id].revokedAt.Some?
    decreases |cs|
  {
    hide Step;
    if cs != [] {
      assert cs[0] in cs && forall c | c in cs[1..] :: c in cs;
      WithdrawnStep(y, cs[0], id, r);
      WithdrawnTakesNoReply(Step(y, cs[0]), cs[1..], id, r);
    }
  }

  lemma WithdrawnStep(y: System, c: Call, id: string, r: Request)
    requires id in y.landing.tickets && y.landing.tickets[id].revokedAt.Some? && r.ticketId == id
    requires c.op.DoPurge? ==> c.now <= y.landing.tickets[id].expiresAt + 86400.0
    ensures var z := Step(y, c);
      && z.stored[r] == y.stored[r] && id in z.landing.tickets && z.landing.tickets[id].revokedAt.Some?
      && z.landing.tickets[id].expiresAt == y.landing.tickets[id].expiresAt
  {
    hide Step, Of;
    TermsKept(y, c, id);
    match c.op {
      case DoPublish(_) => PublishExactly(y, c);
      case DoRevoke(_, _) => RevokeExactly(y, c);
      case DoCollect(_, _, _, _) => CollectExactly(y, c, r);
      case DoReply(_) => ReplyExactly(y, c);
      case DoPurge => PurgeExactly(y, c, r);
      case DoOpen(_) => OpenExactly(y, c);
    }
  }

  lemma {:induction false} RunSnoc(y: System, cs: seq<Call>, c: Call)
    ensures Run(y, []) == y && Run(y, cs + [c]) == Step(Run(y, cs), c)
    decreases |cs|
  {
    hide Step;
    if cs == [] {
      assert [c][1..] == [] && cs + [c] == [c];
      assert Run(Step(y, c), []) == Step(y, c);
    } else {
      assert (cs + [c])[1..] == cs[1..] + [c];
      RunSnoc(Step(y, cs[0]), cs[1..], c);
    }
  }

  /** What the caller of publish is told. */
  lemma PublishAnswers(s: Landing, w: World, p: Publication, now: real)
    ensures var answer, end, known := Publish(s, w, p, now).1, w.publicationExpiry(p, now), p.ticketId in s.tickets;
      && (answer == Rejected <==> end.None?)
      && (answer == Expired <==> end.Some? && end.value < now)
      && (answer == AlreadyRegistered <==>
            end.Some? && now <= end.value && known && s.tickets[p.ticketId].token == p.token)
      && (answer == AlreadyPublished <==>
            end.Some? && now <= end.value && known && s.tickets[p.ticketId].token != p.token)
      && (answer == CodeTaken <==>
            end.Some? && now <= end.value && !known
            && exists id | id in s.tickets :: s.tickets[id].humanCode == p.humanCode)
      && (answer == Registered <==> Publish(s, w, p, now).0 != s)
  {
    var d := Publish(s, w, p, now).0;
    assert p.ticketId in d.tickets || d == s;
  }

  /** ... of revoke ... */
  lemma RevokeAnswers(s: Landing, w: World, id: string, notice: string, now: real)
    ensures var answer := Revoke(s, w, id, notice, now).1;
      && (answer == NotFound <==> id !in s.tickets)
      && (answer == Rejected <==> id in s.tickets && !w.noticeOk(notice, s.tickets[id].token))
      && (answer == Withdrawn <==> id in s.tickets && w.noticeOk(notice, s.tickets[id].token))
  {
  }

  /** ... and of a reply: the first of these that applies. */
  lemma ReplyAnswers(s: Landing, w: World, q: Request, now: real)
    ensures var answer := Store(s, w, q, now).1;
      && (answer == NotFound <==> q.ticketId !in s.tickets)
      && (q.ticketId in s.tickets ==>
            var t := s.tickets[q.ticketId];
            var active := t.revokedAt.None? && now <= t.expiresAt;
            var good, full := w.requestOk(q, t.token, now), |Of(s.requests, q.ticketId)| >= t.maxRequests;
            var known := exists r | r in s.requests :: r.requestId == q.requestId;
            && (answer == NotActive <==> !active) && (answer == Rejected <==> active && !good)
            && (answer == InboxFull <==> active && good && full)
            && (answer == AlreadyReceived <==> active && good && !full && known)
            && (answer == Delivered <==> active && good && !full && !known))
  {
    hide Of;
  }

  /** A page that opens with a valid link counts, and changes nothing else. */
  lemma OpenExactly(y: System, c: Call)
    requires c.op.DoOpen?
    ensures var z, id := Step(y, c), c.op.ticketId;
      if id in y.landing.tickets
         && c.world.linkOk(y.landing.tickets[id].token, y.landing.tickets[id].revokedAt.Some?, c.now) then
        z == y.(landing := y.landing.(tickets :=
               y.landing.tickets[id := y.landing.tickets[id].(openCount := y.landing.tickets[id].openCount + 1)]))
      else z == y
  {
  }

  // ---- the store ----

  class InviteLanding {
    var tickets: map<string, Ticket>
    var requests: seq<Request>

    constructor ()
      ensures Snapshot() == Landing(map[], []) && Keeps(Snapshot())
    {
      tickets, requests := map[], [];
    }

    function Snapshot(): Landing
      reads this
    {
      Landing(tickets, requests)
    }

    method PublishTicket(w: World, p: Publication, now: real) returns (answer: Answer)
      modifies this
      ensures (Snapshot(), answer) == Publish(old(Snapshot()), w, p, now)
    {
      var expiry := w.publicationExpiry(p, now);
      if expiry.None? {
        return Rejected;
      }
      if now > expiry.value {
        return Expired;
      }
      if p.ticketId in tickets {
        return if tickets[p.ticketId].token != p.token then AlreadyPublished else AlreadyRegistered;
      }
      if CodeInUse(Snapshot(), p.humanCode) {
        return CodeTaken;
      }
      tickets := tickets[p.ticketId := Ticket(p.humanCode, p.token, w.digest(p.statusKey), expiry.value,
        Clamp(p.maxRequests), 0, None, None, None)];
      answer := Registered;
    }

    method RevokeTicket(w: World, ticketId: string, notice: string, now: real) returns (answer: Answer)
      modifies this
      ensures (Snapshot(), answer) == Revoke(old(Snapshot()), w, ticketId, notice, now)
    {
      if ticketId !in tickets {
        return NotFound;
      }
      if !w.noticeOk(notice, tickets[ticketId].token) {
        return Rejected;
      }
      tickets := tickets[ticketId := tickets[ticketId].(revokedAt := Some(now))];
      answer := Withdrawn;
    }

    method CollectReplies(w: World, ticketId: string, key: string) returns (mine: Option<seq<Request>>)
      modifies this
      ensures (Snapshot(), mine) == Collect(old(Snapshot()), w, ticketId, key)
    {
      if !Authorised(Snapshot(), w, ticketId, key) {
        return None;
      }
      var yes, no := Split(requests, (r: Request) => r.ticketId == ticketId, (r: Request) => r.ticketId != ticketId);
      requests := no;
      mine := Some(yes);
    }

    method StoreReply(w: World, q: Request, now: real) returns (answer: Answer)
      modifies this
      ensures (Snapshot(), answer) == Store(old(Snapshot()), w, q, now)
    {
      if q.ticketId !in tickets {
        return NotFound;
      }
      var record := tickets[q.ticketId];
      if record.revokedAt.Some? || now > record.expiresAt {
        return NotActive;
      }
      if !w.requestOk(q, record.token, now) {
        return Rejected;
      }
      if |Of(requests, q.ticketId)| >= record.maxRequests {
        return InboxFull;
      }
      if exists r | r in requests :: r.requestId == q.requestId {
        return AlreadyReceived;
      }
      requests := requests + [q];
      tickets := tickets[q.ticketId := record.(respondedAt := Some(now), entityRef := q.entityRef)];
      answer := Delivered;
    }

    method PurgeExpired(now: real) returns (droppedTickets: nat, droppedReplies: nat)
      modifies this
      ensures Snapshot() == Purge(old(Snapshot()), now)
      ensures droppedTickets == |Gone(old(Snapshot()), now)| && droppedReplies == |old(requests)| - |requests|
    {
      var gone := Gone(Snapshot(), now);
      var kept, dropped := Split(requests, (r: Request) => r.ticketId !in gone, (r: Request) => r.ticketId in gone);
      FilterMembers(requests, (r: Request) => r.ticketId !in gone);
      droppedReplies := |requests| - |kept|;
      requests := kept;
      droppedTickets := |gone|;
      var todo := gone;
      while todo != {}
        invariant todo <= gone && tickets == old(tickets) - (gone - todo) && requests == kept
        decreases |todo|
      {
        var id :| id in todo;
        todo := todo - {id};
        tickets := tickets - {id};
      }
      assert gone - {} == gone;
    }
  }

  /** Two comprehensions over one list. */
  method Split(rs: seq<Request>, keep: Request -> bool, drop: Request -> bool)
    returns (kept: seq<Request>, dropped: seq<Request>)
    ensures kept == Filter(rs, keep) && dropped == Filter(rs, drop)
  {
    kept, dropped := [], [];
    for i := 0 to |rs|
      invariant kept == Filter(rs[..i], keep) && dropped == Filter(rs[..i], drop)
    {
      assert rs[..i + 1] == rs[..i] + [rs[i]];
      FilterSnoc(rs[..i], rs[i], keep);
      FilterSnoc(rs[..i], rs[i], drop);
      if keep(rs[i]) { kept := kept + [rs[i]]; }
      if drop(rs[i]) { dropped := dropped + [rs[i]]; }
    }
    assert rs[..|rs|] == rs;
  }

  /** The inner loop of pull_contact_requests. */
  method Pull(w: World, inbox: seq<Request>, rows: seq<Request>, token: string, now: real) returns (after: seq<Request>)
    ensures after == Receive(w, inbox, rows, token, now)
  {
    after := inbox;
    for i := 0 to |rows|
      invariant Receive(w, after, rows[i..], token, now) == Receive(w, inbox, rows, token, now)
    {
      assert rows[i..][1..] == rows[i + 1..];
      if !w.requestOk(rows[i], token, now) {
        continue;
      }
      if exists r | r in after :: r.requestId == rows[i].requestId {
        continue;
      }
      after := [rows[i]] + after;
    }
  }
}
