/** The contracts a cell keeps: signing, revoking, and what that means over a whole run. */
module ContractStore {
  import opened Basics
  import opened PyText
  import opened Contracts

  const MAX_DURATION := 60 * 60 * 24 * 365
  const TICK := 0.000001

  /** AgreementRequest; owner is None where the wire identity does not read. */
  datatype Request =
    Request(owner: Option<Identity>, grants: seq<Grant>, conditions: seq<Condition>, duration: int, state: string)

  predicate Enforcing(cond: Condition) {
    "target." <= Strip(cond.keypath) || "resolve." <= Strip(cond.keypath)
  }

  /** The request stays inside the template. */
  predicate Inside(c: Cell, w: World, q: Request) {
    && q.owner.Some? && c.owner.Some? && SameReference(q.owner.value, c.owner.value)
    && q.state == "template"
    && 0 < q.duration <= c.template.duration && q.duration <= MAX_DURATION
    && q.grants != [] && (forall g | g in q.grants :: CheckGrant(c.template, g))
    && ConditionsMatch(w, c.template, q.conditions)
  }

  predicate PolicyAdmits(c: Cell, q: Request) {
    match c.policy
    case AutomaticWhenConditionsMet => exists cond | cond in c.template.conditions :: Enforcing(cond)
    case OwnerPublishedRead => forall g | g in q.grants :: BitsOf(g) == (READ, 0)
    case OwnerApprovalRequired => false
  }

  /** add_agreement answers "signed". */
  predicate Admissible(
    c: Cell, w: World, q: Option<Request>, identity: Option<Identity>, authorizedBy: Option<Identity>, now: real
  ) {
    && q.Some? && identity.Some? && c.owner.Some?
    && (w.hasVault(identity.value) ==> Proves(w, identity.value, identity.value))
    && Inside(c, w, q.value)
    && ((authorizedBy.Some? && Proves(w, authorizedBy.value, c.owner.value)) || PolicyAdmits(c, q.value))
    && ConditionsHold(c, w, c.template.conditions, identity.value, now)
  }

  function IssuedAt(c: Cell, uuid: string, now: real): real {
    if uuid in c.revokedBefore && c.revokedBefore[uuid] + TICK > now then c.revokedBefore[uuid] + TICK else now
  }

  function Sign(c: Cell, q: Request, identity: Identity, now: real): Cell {
    c.(contracts := c.contracts
      + [Contract(identity, q.grants, c.template.conditions, q.duration, IssuedAt(c, identity.uuid, now))])
  }

  /** The contracts of everyone else, in order. */
  function Others(xs: seq<Contract>, uuid: string): seq<Contract> {
    if xs == [] then []
    else if xs[0].subject.uuid != uuid then [xs[0]] + Others(xs[1..], uuid)
    else Others(xs[1..], uuid)
  }

  function Of(xs: seq<Contract>, uuid: string): seq<Contract> {
    if xs == [] then []
    else if xs[0].subject.uuid == uuid then [xs[0]] + Of(xs[1..], uuid)
    else Of(xs[1..], uuid)
  }

  /** remove_contracts. */
  function Remove(c: Cell, uuid: string, now: real): Cell {
    c.(revokedBefore := c.revokedBefore[uuid := now], contracts := Others(c.contracts, uuid))
  }

  datatype Event =
    | Agree(request: Option<Request>, identity: Option<Identity>, authorizedBy: Option<Identity>)
    | Revoke(uuid: string)
    | Republish(template: Template, policy: Policy)

  /** An event, with the clock and the world as they are then. */
  datatype Moment = Moment(event: Event, now: real, world: World)

  function After(c: Cell, m: Moment): Cell {
    match m.event
    case Agree(q, identity, sponsor) =>
      if Admissible(c, m.world, q, identity, sponsor, m.now) then Sign(c, q.value, identity.value, m.now) else c
    case Revoke(uuid) => Remove(c, uuid, m.now)
    case Republish(template, policy) => c.(template := template, policy := policy)
  }

  function Run(c: Cell, ms: seq<Moment>): Cell
    decreases |ms|
  {
    if ms == [] then c else Run(After(c, ms[0]), ms[1..])
  }

  // ---- contracts outlive no revocation ----

  /** Every contract kept is later than its subject's last revocation. */
  ghost predicate Standing(c: Cell) {
    forall x | x in c.contracts && x.subject.uuid in c.revokedBefore :: x.issuedAt > c.revokedBefore[x.subject.uuid]
  }

  lemma OthersHead(xs: seq<Contract>, i: nat, uuid: string)
    requires i < |xs|
    ensures Others(xs[i..], uuid)
         == if xs[i].subject.uuid != uuid then [xs[i]] + Others(xs[i + 1..], uuid) else Others(xs[i + 1..], uuid)
  {
    assert xs[i..][1..] == xs[i + 1..];
  }

  lemma OthersNone(xs: seq<Contract>, uuid: string)
    ensures Others(xs[|xs|..], uuid) == []
  {
  }

  lemma OfCons(x: Contract, xs: seq<Contract>, uuid: string)
    ensures Of([x] + xs, uuid) == if x.subject.uuid == uuid then [x] + Of(xs, uuid) else Of(xs, uuid)
  {
    assert ([x] + xs)[1..] == xs;
  }

  lemma {:induction false} OthersAre(xs: seq<Contract>, uuid: string)
    ensures forall x :: x in Others(xs, uuid) <==> x in xs && x.subject.uuid != uuid
    ensures Of(Others(xs, uuid), uuid) == []
  {
    if xs != [] {
      OthersAre(xs[1..], uuid);
      assert xs == [xs[0]] + xs[1..];
      if xs[0].subject.uuid != uuid {
        OfCons(xs[0], Others(xs[1..], uuid), uuid);
      }
    }
  }

  lemma {:induction false} RunStanding(c: Cell, ms: seq<Moment>)
    requires Standing(c)
    ensures Standing(Run(c, ms))
    decreases |ms|
  {
    hide Admissible;
    if ms != [] {
      if ms[0].event.Revoke? {
        OthersAre(c.contracts, ms[0].event.uuid);
      }
      assert Standing(After(c, ms[0]));
      RunStanding(After(c, ms[0]), ms[1..]);
    }
  }

  lemma {:induction false} OfAppend(xs: seq<Contract>, x: Contract, uuid: string)
    ensures Of(xs + [x], uuid) == if x.subject.uuid == uuid then Of(xs, uuid) + [x] else Of(xs, uuid)
  {
    if xs == [] {
      assert [x][1..] == [];
    } else {
      assert (xs + [x])[1..] == xs[1..] + [x];
      OfAppend(xs[1..], x, uuid);
    }
  }

  lemma {:induction false} OfAre(xs: seq<Contract>, uuid: string)
    ensures forall x :: x in Of(xs, uuid) <==> x in xs && x.subject.uuid == uuid
  {
    if xs != [] {
      OfAre(xs[1..], uuid);
      assert xs == [xs[0]] + xs[1..];
    }
  }

  lemma {:induction false} OfOthers(xs: seq<Contract>, uuid: string, other: string)
    requires uuid != other
    ensures Of(Others(xs, other), uuid) == Of(xs, uuid)
  {
    if xs != [] {
      OfOthers(xs[1..], uuid, other);
      if xs[0].subject.uuid != other {
        OfCons(xs[0], Others(xs[1..], other), uuid);
      }
    }
  }

  /** Alike but for the contracts of other subjects. */
  ghost predicate AlikeFor(c: Cell, d: Cell, uuid: string) {
    d == c.(contracts := d.contracts) && Of(c.contracts, uuid) == Of(d.contracts, uuid)
  }

  /** Signing consults no contract: conditions are met outright or not at all. */
  lemma AdmissibleIgnoresContracts(
    c: Cell, d: Cell, w: World, q: Option<Request>, identity: Option<Identity>, sponsor: Option<Identity>, now: real
  )
    requires d == c.(contracts := d.contracts)
    ensures Admissible(c, w, q, identity, sponsor, now) <==> Admissible(d, w, q, identity, sponsor, now)
  {
    hide Met, ConditionsHold, ConditionsMatch, CheckGrant;
    if identity.Some? {
      ConditionsExactly(c, w, c.template.conditions, identity.value, now);
      ConditionsExactly(d, w, c.template.conditions, identity.value, now);
      forall cond | cond in c.template.conditions
        ensures Met(c, w, cond, identity.value) <==> Met(d, w, cond, identity.value)
      {
        MetIgnoresContracts(c, d, w, cond, identity.value);
      }
    }
  }

  lemma MetIgnoresContracts(c: Cell, d: Cell, w: World, cond: Condition, r: Identity)
    requires d == c.(contracts := d.contracts)
    ensures Met(c, w, cond, r) <==> Met(d, w, cond, r)
  {
  }

  lemma {:induction false} RunAlike(c: Cell, d: Cell, uuid: string, ms: seq<Moment>)
    requires AlikeFor(c, d, uuid)
    ensures AlikeFor(Run(c, ms), Run(d, ms), uuid)
    decreases |ms|
  {
    hide Inside, PolicyAdmits, ConditionsHold;
    if ms != [] {
      var m := ms[0];
      match m.event {
        case Agree(q, identity, sponsor) =>
          AdmissibleIgnoresContracts(c, d, m.world, q, identity, sponsor, m.now);
          if Admissible(c, m.world, q, identity, sponsor, m.now) {
            var x := Contract(identity.value, q.value.grants, c.template.conditions, q.value.duration,
              IssuedAt(c, identity.value.uuid, m.now));
            assert IssuedAt(d, identity.value.uuid, m.now) == x.issuedAt;
            OfAppend(c.contracts, x, uuid);
            OfAppend(d.contracts, x, uuid);
          }
        case Revoke(other) =>
          OthersAre(c.contracts, other);
          OthersAre(d.contracts, other);
          if other != uuid {
            OfOthers(c.contracts, uuid, other);
            OfOthers(d.contracts, uuid, other);
          }
        case Republish(_, _) =>
      }
      RunAlike(After(c, m), After(d, m), uuid, ms[1..]);
    }
  }

  /** Only a subject's own contracts decide for it. */
  lemma PermittedAlike(c: Cell, d: Cell, w: World, permission: string, keypath: string, r: Identity, now: real)
    requires AlikeFor(c, d, r.uuid) && Permitted(c, w, permission, keypath, Some(r), now)
    ensures Permitted(d, w, permission, keypath, Some(r), now)
  {
    hide Met, Current, Resolved;
    var requested := Grant(keypath, permission);
    var i :| 0 <= i < |c.contracts| && Covers(c, w, c.contracts[i], requested, r, now)
      && forall cond | cond in c.contracts[i].conditions :: Met(c, w, cond, r);
    var x := c.contracts[i];
    OfAre(c.contracts, r.uuid);
    OfAre(d.contracts, r.uuid);
    assert x in d.contracts;
    var j :| 0 <= j < |d.contracts| && d.contracts[j] == x;
    CurrentIgnoresContracts(c, d, w, x, now);
    assert Covers(d, w, d.contracts[j], requested, r, now);
    forall cond | cond in x.conditions ensures Met(d, w, cond, r) {
      MetIgnoresContracts(c, d, w, cond, r);
    }
  }

  lemma CurrentIgnoresContracts(c: Cell, d: Cell, w: World, x: Contract, now: real)
    requires d == c.(contracts := d.contracts)
    ensures Current(c, w, x, now) <==> Current(d, w, x, now)
  {
  }

  /** After remove_contracts, and whatever happens next, the subject's access is what it
      would be if no contract had been signed before: earlier contracts never count again. */
  lemma RevocationForgets(
    c: Cell, uuid: string, at: real, ms: seq<Moment>, w: World, permission: string, keypath: string, r: Identity,
    now: real
  )
    requires r.uuid == uuid
    ensures Allows(Run(Remove(c, uuid, at), ms), w, permission, keypath, Some(r), false, now)
       <==> Allows(Run(Remove(c.(contracts := []), uuid, at), ms), w, permission, keypath, Some(r), false, now)
  {
    hide Allows, Permitted, Run, Others;
    var a, b := Remove(c, uuid, at), Remove(c.(contracts := []), uuid, at);
    OthersAre(c.contracts, uuid);
    OthersAre([], uuid);
    var x, y := Run(a, ms), Run(b, ms);
    RunAlike(a, b, uuid, ms);
    AllowsExactly(x, w, permission, keypath, Some(r), now);
    AllowsExactly(y, w, permission, keypath, Some(r), now);
    if Permitted(x, w, permission, keypath, Some(r), now) {
      PermittedAlike(x, y, w, permission, keypath, r, now);
    }
    if Permitted(y, w, permission, keypath, Some(r), now) {
      PermittedAlike(y, x, w, permission, keypath, r, now);
    }
  }

  /** A contract just signed does count, from its issue to its end, for exactly what it
      grants, while the conditions hold: also when its subject was revoked before. */
  lemma SignedCounts(
    c: Cell, w: World, q: Request, identity: Identity, sponsor: Option<Identity>, at: real, v: World,
    permission: string, keypath: string, now: real
  )
    requires Admissible(c, w, Some(q), Some(identity), sponsor, at)
    requires identity.key.Some? && v.policyText == w.policyText
    requires IssuedAt(c, identity.uuid, at) <= now < IssuedAt(c, identity.uuid, at) + q.duration as real
    requires ConditionsHold(c, v, c.template.conditions, identity, now)
    requires exists g | g in q.grants :: Grants(g, Grant(keypath, permission))
    ensures at <= IssuedAt(c, identity.uuid, at)
    ensures Allows(Sign(c, q, identity, at), v, permission, keypath, Some(identity), false, now)
  {
    hide Resolved, ConditionsHold, Grants, Met;
    var d := Sign(c, q, identity, at);
    var i := |c.contracts|;
    var x := d.contracts[i];
    assert ConditionsMatch(v, d.template, x.conditions);
    assert Covers(d, v, x, Grant(keypath, permission), identity, now);
    ConditionsExactly(c, v, c.template.conditions, identity, now);
    forall cond | cond in x.conditions ensures Met(d, v, cond, identity) {
      MetIgnoresContracts(c, d, v, cond, identity);
    }
    AllowsExactly(d, v, permission, keypath, Some(identity), now);
  }

  // ---- a signing, from its parts ----

  /** The request is made to this cell and keeps within its template, who signs holds the own
      key, every condition of the template is met, and the owner approves with its own key,
      or else the policy lets conditions decide and one of them reads a cell, or lets reading
      be granted and nothing else is asked for. */
  predicate Signable(c: Cell, w: World, q: Request, identity: Identity, sponsor: Option<Identity>) {
    && c.owner.Some? && q.owner.Some?
    && q.owner.value.uuid == c.owner.value.uuid && q.owner.value.key.Some? && q.owner.value.key == c.owner.value.key
    && q.state == "template" && 0 < q.duration <= c.template.duration && q.duration <= 31536000
    && q.grants != []
    && (forall g | g in q.grants :: exists t | t in c.template.grants :: Includes(t, g.keypath, g.permission))
    && multiset(Policies(w, q.conditions)) == multiset(Policies(w, c.template.conditions))
    && (w.hasVault(identity) ==> identity.key.Some? && w.signs(identity))
    && (forall cond | cond in c.template.conditions :: Met(c, w, cond, identity))
    && (|| (sponsor.Some? && sponsor.value.uuid == c.owner.value.uuid && sponsor.value.key.Some?
            && sponsor.value.key == c.owner.value.key && w.signs(sponsor.value))
        || (c.policy.AutomaticWhenConditionsMet? && exists cond | cond in c.template.conditions ::
              "target." <= Strip(cond.keypath) || "resolve." <= Strip(cond.keypath))
        || (c.policy.OwnerPublishedRead? && forall g | g in q.grants :: PermissionBits(g.permission) == Some((4, 0))))
  }

  lemma AdmissibleExactly(
    c: Cell, w: World, q: Request, identity: Identity, sponsor: Option<Identity>, now: real
  )
    ensures Admissible(c, w, Some(q), Some(identity), sponsor, now) <==> Signable(c, w, q, identity, sponsor)
  {
    hide Met, Grants, Includes, Strip, Policies, PermissionBits, ConditionsHold;
    ConditionsExactly(c, w, c.template.conditions, identity, now);
    forall g: Grant, t ensures Grants(t, g) <==> Includes(t, g.keypath, g.permission) {
      GrantsExactly(t, g.keypath, g.permission);
    }
    forall g: Grant ensures CheckGrant(c.template, g)
      <==> exists t | t in c.template.grants :: Includes(t, g.keypath, g.permission)
    {
    }
  }

  /** An agreement is signed exactly if it is signable: then one contract is added, with the
      grants and duration asked for and the conditions of the template, issued now or just
      after the last removal of its subject. */
  lemma AgreeExactly(c: Cell, m: Moment)
    requires m.event.Agree?
    ensures var q, identity := m.event.request, m.event.identity;
      After(c, m) ==
        if q.Some? && identity.Some? && Signable(c, m.world, q.value, identity.value, m.event.authorizedBy) then
          c.(contracts := c.contracts + [Contract(identity.value, q.value.grants, c.template.conditions,
            q.value.duration,
            if identity.value.uuid in c.revokedBefore && c.revokedBefore[identity.value.uuid] + 0.000001 > m.now
            then c.revokedBefore[identity.value.uuid] + 0.000001 else m.now)])
        else c
  {
    hide Admissible, Signable;
    if m.event.request.Some? && m.event.identity.Some? {
      AdmissibleExactly(c, m.world, m.event.request.value, m.event.identity.value, m.event.authorizedBy, m.now);
    } else {
      NothingToSign(c, m.world, m.event.request, m.event.identity, m.event.authorizedBy, m.now);
    }
  }

  /** Removing takes exactly the subject's contracts, and its later ones start after it. */
  lemma RevokeExactly(c: Cell, m: Moment, x: Contract)
    requires m.event.Revoke?
    ensures var d := After(c, m);
      && d == c.(contracts := d.contracts, revokedBefore := c.revokedBefore[m.event.uuid := m.now])
      && (x in d.contracts <==> x in c.contracts && x.subject.uuid != m.event.uuid)
  {
    OthersAre(c.contracts, m.event.uuid);
  }

  lemma {:induction false} RunSnoc(c: Cell, ms: seq<Moment>, m: Moment)
    ensures Run(c, []) == c && Run(c, ms + [m]) == After(Run(c, ms), m)
    decreases |ms|
  {
    hide After;
    if ms == [] {
      assert [m][1..] == [] && ms + [m] == [m];
      assert Run(After(c, m), []) == After(c, m);
    } else {
      assert (ms + [m])[1..] == ms[1..] + [m];
      RunSnoc(After(c, ms[0]), ms[1..], m);
    }
  }

  /** The contract was signed at the moment i, for the request and by the identity there, and
      its subject has not been removed since. */
  ghost predicate SignedAt(c: Cell, ms: seq<Moment>, i: int, x: Contract)
    requires 0 <= i < |ms|
  {
    var before, m := Run(c, ms[..i]), ms[i];
    && m.event.Agree? && m.event.request.Some? && m.event.identity == Some(x.subject)
    && Signable(before, m.world, m.event.request.value, x.subject, m.event.authorizedBy)
    && x.grants == m.event.request.value.grants && x.duration == m.event.request.value.duration
    && x.conditions == before.template.conditions
    && (if x.subject.uuid in before.revokedBefore && before.revokedBefore[x.subject.uuid] + 0.000001 > m.now
        then x.issuedAt == before.revokedBefore[x.subject.uuid] + 0.000001
        else x.issuedAt == m.now)
    && forall j | i < j < |ms| :: ms[j].event != Revoke(x.subject.uuid)
  }

  lemma FirstSigned(c: Cell, ms: seq<Moment>, x: Contract)
    requires ms != [] && x in After(c, ms[0]).contracts && x !in c.contracts
    requires forall j | 0 < j < |ms| :: ms[j].event != Revoke(x.subject.uuid)
    ensures SignedAt(c, ms, 0, x)
  {
    hide Admissible, Signable;
    var m := ms[0];
    assert ms[..0] == [];
    if m.event.Revoke? { OthersAre(c.contracts, m.event.uuid); }
    if m.event.Agree? && m.event.request.Some? && m.event.identity.Some? {
      AdmissibleExactly(c, m.world, m.event.request.value, m.event.identity.value, m.event.authorizedBy, m.now);
    } else if m.event.Agree? {
      NothingToSign(c, m.world, m.event.request, m.event.identity, m.event.authorizedBy, m.now);
    }
  }

  lemma NothingToSign(
    c: Cell, w: World, q: Option<Request>, identity: Option<Identity>, sponsor: Option<Identity>, now: real
  )
    requires q.None? || identity.None?
    ensures !Admissible(c, w, q, identity, sponsor, now)
  {
  }

  /** Every contract kept was there at first or was signed in the run, and its subject has not
      been removed since. */
  lemma {:induction false} ContractsWereSigned(c: Cell, ms: seq<Moment>, x: Contract)
    requires x in Run(c, ms).contracts
    ensures (x in c.contracts && forall m | m in ms :: m.event != Revoke(x.subject.uuid))
      || exists i | 0 <= i < |ms| :: SignedAt(c, ms, i, x)
    decreases |ms|
  {
    hide After, SignedAt;
    if ms != [] {
      var d, rest := After(c, ms[0]), ms[1..];
      ContractsWereSigned(d, rest, x);
      if x in d.contracts && forall m | m in rest :: m.event != Revoke(x.subject.uuid) {
        forall j | 0 < j < |ms| ensures ms[j].event != Revoke(x.subject.uuid) { assert ms[j] == rest[j - 1]; }
        if x in c.contracts {
          if ms[0].event == Revoke(x.subject.uuid) { RevokedIsGone(c, ms[0], x); }
        } else {
          FirstSigned(c, ms, x);
        }
      } else {
        var i :| 0 <= i < |rest| && SignedAt(d, rest, i, x);
        SignedLater(c, ms, i, x);
      }
    }
  }

  lemma RevokedIsGone(c: Cell, m: Moment, x: Contract)
    requires m.event == Revoke(x.subject.uuid)
    ensures x !in After(c, m).contracts
  {
    OthersAre(c.contracts, x.subject.uuid);
  }

  lemma SignedLater(c: Cell, ms: seq<Moment>, i: int, x: Contract)
    requires ms != [] && 0 <= i < |ms| - 1 && SignedAt(After(c, ms[0]), ms[1..], i, x)
    ensures SignedAt(c, ms, i + 1, x)
  {
    hide After, Signable;
    assert ms[..i + 1][1..] == ms[1..][..i] && ms[..i + 1][0] == ms[0];
    forall j | i + 1 < j < |ms| ensures ms[j].event != Revoke(x.subject.uuid) { assert ms[j] == ms[1..][j - 1]; }
  }

  /** Over any run of a cell that starts without contracts: access by contract goes back to a
      signing in the run for the same uuid and key, after which the subject was not removed,
      and lies in the term of that contract. */
  lemma AccessWasSigned(
    c: Cell, ms: seq<Moment>, w: World, permission: string, keypath: string, r: Identity, now: real
  )
    requires c.contracts == [] && Allows(Run(c, ms), w, permission, keypath, Some(r), false, now)
    ensures exists i, x | 0 <= i < |ms| && x in Run(c, ms).contracts ::
      SignedAt(c, ms, i, x) && Entitles(Run(c, ms), w, x, permission, keypath, r, now)
  {
    hide Allows, Entitles, SignedAt, Run;
    AllowsByContract(Run(c, ms), w, permission, keypath, Some(r), now);
    var x :| x in Run(c, ms).contracts && Entitles(Run(c, ms), w, x, permission, keypath, r, now);
    ContractsWereSigned(c, ms, x);
    var i :| 0 <= i < |ms| && SignedAt(c, ms, i, x);
  }

  /** Without another signing for the subject nothing is left of its access once the term of
      its contract is over. */
  lemma TermEnds(
    c: Cell, q: Request, identity: Identity, at: real, ms: seq<Moment>, w: World, permission: string,
    keypath: string, now: real
  )
    requires forall x | x in c.contracts :: x.subject.uuid != identity.uuid
    requires forall m | m in ms && m.event.Agree? && m.event.identity.Some? ::
      m.event.identity.value.uuid != identity.uuid
    requires var x := Sign(c, q, identity, at).contracts[|c.contracts|]; now >= x.issuedAt + q.duration as real
    ensures !Allows(Run(Sign(c, q, identity, at), ms), w, permission, keypath, Some(identity), false, now)
  {
    hide Allows, SignedAt, Run, Includes, Met;
    var d := Sign(c, q, identity, at);
    AllowsByContract(Run(d, ms), w, permission, keypath, Some(identity), now);
    forall x | x in Run(d, ms).contracts ensures !Entitles(Run(d, ms), w, x, permission, keypath, identity, now) {
      ContractsWereSigned(d, ms, x);
      if exists i | 0 <= i < |ms| :: SignedAt(d, ms, i, x) {
        var i :| 0 <= i < |ms| && SignedAt(d, ms, i, x);
        SignedFor(d, ms, i, x);
        assert ms[i] in ms;
      } else {
        assert x in c.contracts || x == d.contracts[|c.contracts|];
      }
    }
  }

  lemma SignedFor(c: Cell, ms: seq<Moment>, i: int, x: Contract)
    requires 0 <= i < |ms| && SignedAt(c, ms, i, x)
    ensures ms[i].event.Agree? && ms[i].event.identity == Some(x.subject)
  {
  }

  // ---- the cell ----

  class GeneralCell {
    const uuid: string
    const owner: Option<Identity>
    const rules: Rules
    var template: Template
    var policy: Policy
    var contracts: seq<Contract>
    var revokedBefore: map<string, real>

    constructor (uuid: string, owner: Option<Identity>, rules: Rules, template: Template)
      ensures Snapshot() == Cell(uuid, owner, rules, template, OwnerApprovalRequired, [], map[])
      ensures Standing(Snapshot())
    {
      this.uuid, this.owner, this.rules, this.template := uuid, owner, rules, template;
      policy, contracts, revokedBefore := OwnerApprovalRequired, [], map[];
    }

    function Snapshot(): Cell
      reads this
    {
      Cell(uuid, owner, rules, template, policy, contracts, revokedBefore)
    }

    method AddAgreement(
      w: World, q: Option<Request>, identity: Option<Identity>, authorizedBy: Option<Identity>, now: real
    ) returns (signed: bool)
      modifies this
      ensures Snapshot() == After(old(Snapshot()), Moment(Agree(q, identity, authorizedBy), now, w))
      ensures signed <==> Admissible(old(Snapshot()), w, q, identity, authorizedBy, now)
    {
      hide ConditionsHold, PolicyAdmits, Inside;
      if q.None? || identity.None? || owner.None? {
        return false;
      }
      if w.hasVault(identity.value) && !Proves(w, identity.value, identity.value) {
        return false;
      }
      var ownerAuthorized := authorizedBy.Some? && Proves(w, authorizedBy.value, owner.value);
      if !Inside(Snapshot(), w, q.value) {
        return false;
      }
      if !ownerAuthorized && !PolicyAdmits(Snapshot(), q.value) {
        return false;
      }
      var hold := HoldAll(w, template.conditions, identity.value, now);
      if !hold {
        return false;
      }
      var issuedAt := now;
      if identity.value.uuid in revokedBefore && revokedBefore[identity.value.uuid] + TICK > now {
        issuedAt := revokedBefore[identity.value.uuid] + TICK;
      }
      contracts := contracts + [Contract(identity.value, q.value.grants, template.conditions, q.value.duration,
        issuedAt)];
      signed := true;
    }

    /** _conditions_hold. */
    method HoldAll(w: World, conditions: seq<Condition>, identity: Identity, now: real) returns (hold: bool)
      ensures hold <==> ConditionsHold(Snapshot(), w, conditions, identity, now)
    {
      for i := 0 to |conditions|
        invariant ConditionsHold(Snapshot(), w, conditions, identity, now)
             <==> ConditionsHold(Snapshot(), w, conditions[i..], identity, now)
      {
        assert conditions[i..][1..] == conditions[i + 1..];
        if !IsMet(Snapshot(), w, conditions[i], identity, now) {
          return false;
        }
      }
      hold := true;
    }

    method ContractAllows(
      w: World, permission: string, keypath: string, requester: Option<Identity>, evaluating: bool, now: real
    ) returns (allowed: bool)
      ensures allowed <==> Allows(Snapshot(), w, permission, keypath, requester, evaluating, now)
    {
      hide ConditionsHold, Current, Grants;
      if requester.None? || evaluating {
        return false;
      }
      ghost var c := Snapshot();
      var requested := Grant(keypath, permission);
      for i := 0 to |contracts|
        invariant forall j | 0 <= j < i ::
          !(Covers(c, w, c.contracts[j], requested, requester.value, now)
            && ConditionsHold(c, w, c.contracts[j].conditions, requester.value, now))
      {
        var x := contracts[i];
        if SameReference(requester.value, x.subject) && Current(Snapshot(), w, x, now)
           && exists g | g in x.grants :: Grants(g, requested) {
          var hold := HoldAll(w, x.conditions, requester.value, now);
          if hold {
            return true;
          }
        }
      }
      allowed := false;
    }

    method RemoveContracts(subject: string, now: real)
      modifies this
      ensures Snapshot() == Remove(old(Snapshot()), subject, now)
    {
      hide Others;
      revokedBefore := revokedBefore[subject := now];
      var kept: seq<Contract> := [];
      for i := 0 to |contracts|
        invariant contracts == old(contracts) && contracts[0..] == contracts
        invariant revokedBefore == old(revokedBefore)[subject := now]
        invariant template == old(template) && policy == old(policy)
        invariant kept + Others(contracts[i..], subject) == Others(contracts, subject)
      {
        OthersHead(contracts, i, subject);
        if contracts[i].subject.uuid != subject {
          kept := kept + [contracts[i]];
        }
      }
      OthersNone(contracts, subject);
      assert kept + [] == kept;
      contracts := kept;
    }
  }
}
