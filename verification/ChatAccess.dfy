/** Who gets into the chat, and what a revocation means for the rest of a run. */
module ChatAccess {
  import opened Basics
  import opened PyText
  import opened Contracts
  import opened ContractStore
  import opened Chat
  import Base64

  // ---- an admission condition asks the chat itself ----

  lemma ResolvedAdmission(c: Cell, key: string, r: Identity)
    requires key == MEMBER || key == INVITATION_ACCEPTED
    ensures Resolved(c, "target." + key, r) == ("target", key)
  {
    hide Replace, Partition;
    var s := "target." + key;
    NoDollar(key);
    ReplaceAbsent(s, "$identity", r.uuid);
    ReplaceAbsent(s, "$target", c.uuid);
    assert s == "target" + "." + key;
    PartitionJoin("target", key);
  }

  lemma NoDollar(key: string)
    requires key == MEMBER || key == INVITATION_ACCEPTED
    ensures '$' !in "target." + key
  {
  }

  /** Its key is open to everyone, so it is met exactly when the chat says so. */
  lemma MetAdmission(c: Room, w: World, p: Proofs, key: string, r: Identity, now: real)
    requires c.cell.rules == RULES && Serves(w, c, p, now)
    requires key == MEMBER || key == INVITATION_ACCEPTED
    ensures Met(c.cell, w, AdmissionCondition(key), r) <==> AdmissionHolds(c, p, key, r, now)
  {
    hide Resolved, AdmissionHolds;
    ResolvedAdmission(c.cell, key, r);
    assert Outright(c.cell, w, "r---", key, Some(r));
    assert key != "";
  }

  /** The accepted invitee with this uuid, by the key that was invited. */
  predicate AcceptedInvitee(c: Room, r: Identity) {
    && r.uuid in c.invitations && c.invitations[r.uuid].status == Accepted
    && var person := c.invitations[r.uuid].person;
    person.uuid == r.uuid && person.key.Some? && r.key.Some? && Base64.Decode(r.key.value) == person.key
  }

  lemma MemberExactly(c: Room, r: Identity)
    ensures IsMember(c, r) <==> AcceptedInvitee(c, r)
  {
    hide Base64.Decode;
  }

  lemma SoundRules(c: Room)
    requires Sound(c)
    ensures c.cell.rules == RULES
  {
  }

  /** What is open before admission: everything to the owner, and four keys to everyone. */
  predicate OpenTo(c: Room, w: World, permission: string, keypath: string, r: Identity) {
    || IsOwner(c.cell, w, Some(r))
    || (permission == "r---"
        && (keypath == "audience.admission.member" || keypath == "audience.admission.invitationAccepted"))
    || (permission == "-w--"
        && (keypath == "audience.acceptInvitationArtifact" || keypath == "audience.inspectInvitationArtifact"))
  }

  lemma OutrightSays(c: Room, w: World, permission: string, keypath: string, r: Identity)
    requires c.cell.rules == RULES
    ensures Outright(c.cell, w, permission, keypath, Some(r)) <==> OpenTo(c, w, permission, keypath, r)
  {
  }

  /** Only the owner sets the admission conditions, whatever the contracts grant. */
  lemma OwnersConditions(c: Room, w: World, r: Identity, now: real)
    requires Sound(c) && Access(c.cell, w, "-w--", "audience.admissionConditions", Some(r), false, now)
    ensures IsOwner(c.cell, w, Some(r))
  {
    hide Sound, Entitled, Partition, IsOwner;
    SoundRules(c);
    AccessByParts(c.cell, w, "-w--", "audience.admissionConditions", Some(r), now);
  }

  lemma PermittedIsMember(c: Room, w: World, p: Proofs, permission: string, keypath: string, r: Identity, now: real)
    requires Sound(c) && Serves(w, c, p, now) && c.cell.template.conditions != []
    requires Permitted(c.cell, w, permission, keypath, Some(r), now)
    ensures IsMember(c, r)
  {
    hide Met, Grants, CheckGrant, IsMember, Serves, Resolved;
    var i :| 0 <= i < |c.cell.contracts| && Covers(c.cell, w, c.cell.contracts[i], Grant(keypath, permission), r, now)
      && forall cond | cond in c.cell.contracts[i].conditions :: Met(c.cell, w, cond, r);
    var x := c.cell.contracts[i];
    assert |x.conditions| == |multiset(Policies(w, x.conditions))| == |c.cell.template.conditions|;
    var cond := x.conditions[0];
    assert IsAdmissionCondition(cond);
    var key := if cond == AdmissionCondition(MEMBER) then MEMBER else INVITATION_ACCEPTED;
    MetAdmission(c, w, p, key, r, now);
  }

  /** While there are admission conditions, whoever is let in beyond the owner and the
      open keys is an accepted invitee with the invited signing key. */
  lemma OnlyMembersGetIn(c: Room, w: World, p: Proofs, permission: string, keypath: string, r: Identity, now: real)
    requires Sound(c) && Serves(w, c, p, now) && c.cell.template.conditions != []
    requires Access(c.cell, w, permission, keypath, Some(r), false, now)
    ensures OpenTo(c, w, permission, keypath, r) || AcceptedInvitee(c, r)
  {
    hide Access, Permitted, Outright, OpenTo, Partition, Sound, Serves, IsMember, AcceptedInvitee;
    MemberExactly(c, r);
    SoundRules(c);
    OutrightSays(c, w, permission, keypath, r);
    AccessExactly(c.cell, w, permission, keypath, Some(r), now);
    if Permitted(c.cell, w, permission, keypath, Some(r), now) {
      PermittedIsMember(c, w, p, permission, keypath, r, now);
    } else if Permitted(c.cell, w, permission, "chat", Some(r), now) {
      PermittedIsMember(c, w, p, permission, "chat", r, now);
    }
  }

  /** The stored proof is always the consumed one: acceptance by invitation means an
      accepted member with a stored acceptance of an unexpired artifact. */
  lemma ProofBackedExactly(c: Room, p: Proofs, r: Identity, now: real)
    requires Sound(c)
    ensures AdmissionHolds(c, p, INVITATION_ACCEPTED, r, now)
       <==> && AcceptedInvitee(c, r) && c.invitations[r.uuid].acceptance.Some?
            && c.invitations[r.uuid].artifact.Some? && p.validInvitation(c.invitations[r.uuid].artifact.value, now)
  {
    hide Base64.Decode;
    assert RecordKeeps(c, r.uuid);
    assert INVITATION_ACCEPTED != MEMBER;
  }

  /** Once the admission conditions are set, whoever gets a contract meets all of them; without
      the owner's word that is enough exactly if there are any. */
  lemma SignsAloneExactly(
    c: Room, keys: seq<string>, w: World, p: Proofs, q: Request, identity: Identity, owner: Identity, now: real
  )
    requires c.cell.rules == RULES && Serves(w, c, p, now)
    requires forall k | k in keys :: k == MEMBER || k == INVITATION_ACCEPTED
    requires c.cell.owner.Some? && owner.uuid == c.cell.owner.value.uuid && owner.key == c.cell.owner.value.key
    requires owner.key.Some? && w.signs(owner)
    ensures var d := Step(c, Call(Conditions(keys), now, p)).cell;
      && (Admissible(d, w, Some(q), Some(identity), None, now)
          <==> keys != [] && Admissible(d, w, Some(q), Some(identity), Some(owner), now))
      && (Admissible(d, w, Some(q), Some(identity), Some(owner), now) ==>
            forall k | k in keys :: AdmissionHolds(c, p, k, identity, now))
  {
    hide Met, Serves, Includes, Policies, AdmissionHolds, Admissible, Strip;
    var room := Step(c, Call(Conditions(keys), now, p));
    var d := room.cell;
    AdmissibleExactly(d, w, q, identity, None, now);
    AdmissibleExactly(d, w, q, identity, Some(owner), now);
    assert Serves(w, room, p, now) by { SameAnswers(c, room, w, p, now); }
    forall k | k in keys
      ensures Met(d, w, AdmissionCondition(k), identity) <==> AdmissionHolds(c, p, k, identity, now)
    {
      MetAdmission(room, w, p, k, identity, now);
      SameAnswers(c, room, w, p, now);
    }
    if keys != [] {
      assert keys[0] in keys;
      TargetFirst(keys[0]);
      assert d.template.conditions[0] == AdmissionCondition(keys[0]);
    }
    forall k | k in keys ensures AdmissionCondition(k) in d.template.conditions {
      var i :| 0 <= i < |keys| && keys[i] == k;
      assert d.template.conditions[i] == AdmissionCondition(k);
    }
  }

  lemma SameAnswers(c: Room, d: Room, w: World, p: Proofs, now: real)
    requires d.invitations == c.invitations && d.consumed == c.consumed
    ensures forall k, r :: AdmissionHolds(d, p, k, r, now) == AdmissionHolds(c, p, k, r, now)
    ensures Serves(w, c, p, now) <==> Serves(w, d, p, now)
  {
    hide IsMember;
    assert forall r :: IsMember(d, r) == IsMember(c, r) by { SameMembers(c, d); }
  }

  lemma SameMembers(c: Room, d: Room)
    requires d.invitations == c.invitations
    ensures forall r :: IsMember(d, r) == IsMember(c, r)
  {
  }

  lemma TargetFirst(key: string)
    requires key == MEMBER || key == INVITATION_ACCEPTED
    ensures "target." <= Strip("target." + key)
  {
    var s := "target." + key;
    assert s[|s| - 1] == 'r' || s[|s| - 1] == 'd';
    StripKeeps(s);
  }

  // ---- revocation over whole runs ----

  predicate Barred(c: Room, u: string) {
    u in c.invitations ==> c.invitations[u].status == Revoked
  }

  /** The calls that take a barred identity out of it: accepting, declining or setting
      pending a list of known targets that names it, or inviting it (with a key, and not
      the owner). */
  predicate Lifts(c: Room, op: Op, u: string) {
    match op
    case Update(v, status) =>
      var targets := TargetSet(c, v, false);
      status != Revoked && targets.Some? && targets.value <= c.invitations.Keys && u in targets.value
    case Invite(items) => exists person | person in PeopleFrom(c, items) :: person.uuid == u && Invitable(c, person)
    case _ => false
  }

  lemma {:induction false} InvitedUnbars(c: Room, people: seq<Person>, u: string)
    ensures var d := InviteAll(c, people);
      if exists person | person in people :: person.uuid == u && Invitable(c, person)
      then u in d.invitations && d.invitations[u].status != Revoked
      else (u in d.invitations <==> u in c.invitations) && (u in c.invitations ==> d.invitations[u] == c.invitations[u])
    decreases |people|
  {
    if people != [] {
      var d := InviteOne(c, people[0]);
      assert d.cell == c.cell;
      assert forall person :: Invitable(c, person) == Invitable(d, person);
      InvitedUnbars(d, people[1..], u);
      assert people == [people[0]] + people[1..];
      if u in d.invitations && d.invitations[u].status != Revoked {
        InviteKeepsUnbarred(d, people[1..], u);
      }
    }
  }

  lemma {:induction false} InviteKeepsUnbarred(c: Room, people: seq<Person>, u: string)
    requires u in c.invitations && c.invitations[u].status != Revoked
    ensures u in InviteAll(c, people).invitations && InviteAll(c, people).invitations[u].status != Revoked
    decreases |people|
  {
    if people != [] {
      InviteKeepsUnbarred(InviteOne(c, people[0]), people[1..], u);
    }
  }

  /** A barred identity stays barred through a call exactly when the call does not lift it. */
  lemma StepBarred(c: Room, call: Call, u: string)
    requires Barred(c, u) && CanHappen(c, call)
    ensures Barred(Step(c, call), u) <==> !Lifts(c, call.op, u)
  {
    hide InviteAll, TargetSet, Invitable, After;
    match call.op {
      case Invite(items) =>
        InvitedUnbars(c, PeopleFrom(c, items), u);
      case _ =>
    }
  }

  ghost predicate NeverLifts(c: Room, calls: seq<Call>, u: string)
    decreases |calls|
  {
    calls == [] || (!Lifts(c, calls[0].op, u) && NeverLifts(Step(c, calls[0]), calls[1..], u))
  }

  lemma {:induction false} RunBarred(c: Room, calls: seq<Call>, u: string)
    requires Barred(c, u) && Runs(c, calls) && NeverLifts(c, calls, u)
    ensures Barred(Final(c, calls), u)
    decreases |calls|
  {
    hide Step, CanHappen, Lifts, Barred;
    if calls != [] {
      StepBarred(c, calls[0], u);
      RunBarred(Step(c, calls[0]), calls[1..], u);
    }
  }

  /** After revokeInvites names u, and as long as nobody accepts, declines or invites u
      again, no get or set by u succeeds outside the open keys in any later state that
      has admission conditions: whatever else is called, by whomever, in any order. */
  lemma RevokedStaysOut(
    c: Room, v: Targets, at: real, calls: seq<Call>, w: World, p: Proofs, permission: string, keypath: string,
    r: Identity, now: real
  )
    requires Sound(c) && TargetSet(c, v, false).Some? && TargetSet(c, v, false).value <= c.invitations.Keys
    requires r.uuid in TargetSet(c, v, false).value
    requires var d := UpdateStatuses(c, v, Revoked);
      && Runs(d, calls) && NeverLifts(d, calls, r.uuid)
      && Final(d, calls).cell.template.conditions != [] && Serves(w, Final(d, calls), p, now)
      && !OpenTo(Final(d, calls), w, permission, keypath, r)
    ensures !Access(Final(UpdateStatuses(c, v, Revoked), calls).cell, w, permission, keypath, Some(r), false, now)
  {
    hide Access, Serves, OpenTo, TargetSet, Final, Runs, NeverLifts, Sound;
    var d := UpdateStatuses(c, v, Revoked);
    UpdateSound(c, v, Revoked);
    RunSound(d, calls);
    RunBarred(d, calls, r.uuid);
    var e := Final(d, calls);
    if Access(e.cell, w, permission, keypath, Some(r), false, now) {
      OnlyMembersGetIn(e, w, p, permission, keypath, r, now);
    }
  }

  lemma OneTarget(c: Room, u: string)
    ensures TargetSet(c, Items([Some(u)]), false) == Some({u}) && TargetSet(c, Items([Some(u)]), true) == Some({u})
  {
    var items := [Some(u)];
    assert items[0] == Some(u);
    assert (set i | 0 <= i < |items| && items[i].Some? :: items[i].value) == {u};
  }

  lemma DeclineOne(c: Room, u: string)
    requires u in c.invitations
    ensures UpdateStatuses(c, Items([Some(u)]), Declined)
         == c.(invitations := c.invitations[u := c.invitations[u].(status := Declined)])
  {
    hide TargetSet;
    OneTarget(c, u);
    assert UpdateStatuses(c, Items([Some(u)]), Declined).invitations
      == c.invitations[u := c.invitations[u].(status := Declined)];
  }

  lemma MintOne(c: Room, p: Proofs, u: string, artifact: Artifact, now: real)
    requires u in c.invitations && c.invitations[u].status == Declined
    ensures Reissued(c, p, Items([Some(u)]), now) == {u}
    ensures var d := Generate(c, p, Items([Some(u)]), now, map[u := artifact]);
      && d.cell == c.cell && d.consumed.Keys <= c.consumed.Keys && d.consumed.Values <= c.consumed.Values
      && u in d.invitations
      && d.invitations[u] == c.invitations[u].(status := Pending, artifact := Some(artifact), acceptance := None)
  {
    hide TargetSet;
    OneTarget(c, u);
    assert Reissued(c, p, Items([Some(u)]), now) == {u};
  }

  /** Declining is not harmless: for any revoked invitee with a readable key, a decline, a
      new artifact and its acceptance make it a member again, though nobody accepted or
      invited it; both admission conditions hold once more. */
  lemma DeclineReadmits(c: Room, p: Proofs, r: Identity, artifact: Artifact, acceptance: Acceptance, now: real)
    requires Sound(c) && r.uuid in c.invitations && c.invitations[r.uuid].status == Revoked
    requires MatchesPerson(c.invitations[r.uuid].person, r)
    requires p.validInvitation(artifact, now) && p.forThisChat(artifact) && p.validAcceptance(acceptance, artifact, now)
    requires artifact.invitee == r.uuid && artifact.invitationId !in c.consumed
    requires acceptance.acceptanceId !in c.consumed.Values
    requires forall u | u in c.invitations && c.invitations[u].artifact.Some? ::
      c.invitations[u].artifact.value.invitationId != artifact.invitationId
    ensures var decline := Call(Update(Items([Some(r.uuid)]), Declined), now, p);
      var mint := Call(Mint(Items([Some(r.uuid)]), map[r.uuid := artifact]), now, p);
      var present := Call(Present(artifact, acceptance), now, p);
      && Runs(c, [decline, mint, present])
      && var d := Final(c, [decline, mint, present]);
      && AdmissionHolds(d, p, MEMBER, r, now) && AdmissionHolds(d, p, INVITATION_ACCEPTED, r, now)
  {
    hide UpdateStatuses, Generate, Reissued, TargetSet, Final, Runs, MatchesPerson, Sound;
    var u := r.uuid;
    var one := Items([Some(u)]);
    var decline, mint, present := Call(Update(one, Declined), now, p), Call(Mint(one, map[u := artifact]), now, p),
      Call(Present(artifact, acceptance), now, p);
    DeclineOne(c, u);
    var c1 := Step(c, decline);
    MintOne(c1, p, u, artifact, now);
    var c2 := Step(c1, mint);
    assert c2.invitations[u] == c.invitations[u].(status := Pending, artifact := Some(artifact), acceptance := None);
    assert CanHappen(c1, mint);
    FinalOfThree(c, decline, mint, present);
  }

  /** An artifact that u can get, the one still issued or a new one, and an unused acceptance. */
  ghost predicate Obtainable(c: Room, p: Proofs, u: string, artifact: Artifact, acceptance: Acceptance, now: real)
    requires u in c.invitations
  {
    && p.validInvitation(artifact, now) && p.forThisChat(artifact) && p.validAcceptance(acceptance, artifact, now)
    && artifact.invitee == u && artifact.invitationId !in c.consumed
    && acceptance.acceptanceId !in c.consumed.Values
    && if StillIssued(c.invitations[u], p, now) then c.invitations[u].artifact == Some(artifact)
       else forall v | v in c.invitations && c.invitations[v].artifact.Some? ::
         c.invitations[v].artifact.value.invitationId != artifact.invitationId
  }

  /** A run in which nobody accepts, declines or invites r, and that makes both admission
      conditions hold for r. */
  ghost predicate Readmits(c: Room, calls: seq<Call>, p: Proofs, r: Identity, now: real) {
    && Runs(c, calls) && NeverLifts(c, calls, r.uuid)
    && AdmissionHolds(Final(c, calls), p, MEMBER, r, now)
    && AdmissionHolds(Final(c, calls), p, INVITATION_ACCEPTED, r, now)
  }

  lemma MintForOne(c: Room, p: Proofs, u: string, artifact: Artifact, acceptance: Acceptance, now: real)
    requires u in c.invitations && c.invitations[u].status != Revoked && Obtainable(c, p, u, artifact, acceptance, now)
    ensures var mint := Call(Mint(Items([Some(u)]), map[u := artifact]), now, p);
      && CanHappen(c, mint)
      && var d := Step(c, mint);
      && d.consumed.Keys <= c.consumed.Keys && d.consumed.Values <= c.consumed.Values && u in d.invitations
      && d.invitations[u].person == c.invitations[u].person && d.invitations[u].artifact == Some(artifact)
      && d.invitations[u].status != Revoked && d.invitations[u].status != Declined
  {
    hide TargetSet;
    OneTarget(c, u);
    var v := Items([Some(u)]);
    assert Reissued(c, p, v, now) == if StillIssued(c.invitations[u], p, now) then {} else {u};
  }

  /** After a revocation, or at any other moment, an invitee with a readable key can come
      back without anyone accepting, declining or inviting it exactly if it is not barred:
      so exactly if some call has lifted the bar. */
  lemma ReadmittedExactly(c: Room, p: Proofs, r: Identity, artifact: Artifact, acceptance: Acceptance, now: real)
    requires Sound(c) && r.uuid in c.invitations && MatchesPerson(c.invitations[r.uuid].person, r)
    requires Obtainable(c, p, r.uuid, artifact, acceptance, now)
    ensures !Barred(c, r.uuid) <==> exists calls :: Readmits(c, calls, p, r, now)
  {
    hide Obtainable, MatchesPerson, Sound, Final, Runs, NeverLifts, Lifts, Reissued, Generate, TargetSet;
    if Barred(c, r.uuid) {
      forall calls ensures !Readmits(c, calls, p, r, now) {
        if Runs(c, calls) && NeverLifts(c, calls, r.uuid) {
          RunBarred(c, calls, r.uuid);
        }
      }
    } else {
      MintAndPresent(c, p, r, artifact, acceptance, now);
      var mint := Call(Mint(Items([Some(r.uuid)]), map[r.uuid := artifact]), now, p);
      assert Readmits(c, [mint, Call(Present(artifact, acceptance), now, p)], p, r, now);
    }
  }

  lemma MintAndPresent(c: Room, p: Proofs, r: Identity, artifact: Artifact, acceptance: Acceptance, now: real)
    requires r.uuid in c.invitations && MatchesPerson(c.invitations[r.uuid].person, r) && !Barred(c, r.uuid)
    requires Obtainable(c, p, r.uuid, artifact, acceptance, now)
    ensures var mint := Call(Mint(Items([Some(r.uuid)]), map[r.uuid := artifact]), now, p);
      Readmits(c, [mint, Call(Present(artifact, acceptance), now, p)], p, r, now)
  {
    hide MatchesPerson, Final, Runs, NeverLifts, Reissued, Generate, TargetSet, StillIssued;
    var u := r.uuid;
    var mint, present := Call(Mint(Items([Some(u)]), map[u := artifact]), now, p),
      Call(Present(artifact, acceptance), now, p);
    MintForOne(c, p, u, artifact, acceptance, now);
    FinalOfTwo(c, mint, present, u);
  }

  lemma FinalOfTwo(c: Room, a: Call, b: Call, u: string)
    requires CanHappen(c, a) && CanHappen(Step(c, a), b)
    ensures Runs(c, [a, b]) && Final(c, [a, b]) == Step(Step(c, a), b)
    ensures !Lifts(c, a.op, u) && !Lifts(Step(c, a), b.op, u) ==> NeverLifts(c, [a, b], u)
  {
    hide Step, CanHappen, Lifts;
    var c1 := Step(c, a);
    assert [a, b][1..] == [b] && [b][1..] == [];
    assert Final(Step(c1, b), []) == Step(c1, b);
    assert Runs(c1, [b]) && Final(c1, [b]) == Final(Step(c1, b), []);
    assert NeverLifts(Step(c1, b), [], u);
    assert !Lifts(c1, b.op, u) ==> NeverLifts(c1, [b], u);
  }

  /** ... and an old contract then opens the chat again. */
  lemma MembersContractCounts(
    c: Room, w: World, p: Proofs, permission: string, keypath: string, r: Identity, now: real, i: nat
  )
    requires Sound(c) && Serves(w, c, p, now) && keypath !in RULES.ownersWrite
    requires AdmissionHolds(c, p, MEMBER, r, now) && AdmissionHolds(c, p, INVITATION_ACCEPTED, r, now)
    requires i < |c.cell.contracts| && Covers(c.cell, w, c.cell.contracts[i], Grant(keypath, permission), r, now)
    ensures Access(c.cell, w, permission, keypath, Some(r), false, now)
  {
    hide Access, Serves, Met, Covers, AdmissionHolds, Outright, Partition;
    forall cond | cond in c.cell.contracts[i].conditions ensures Met(c.cell, w, cond, r) {
      assert IsAdmissionCondition(cond);
      MetAdmission(c, w, p, if cond == AdmissionCondition(MEMBER) then MEMBER else INVITATION_ACCEPTED, r, now);
    }
    AccessExactly(c.cell, w, permission, keypath, Some(r), now);
  }

  lemma FinalOfThree(c: Room, a: Call, b: Call, d: Call)
    requires CanHappen(c, a) && CanHappen(Step(c, a), b) && CanHappen(Step(Step(c, a), b), d)
    ensures Runs(c, [a, b, d]) && Final(c, [a, b, d]) == Step(Step(Step(c, a), b), d)
  {
    hide Step, CanHappen;
    var c1 := Step(c, a);
    var c2 := Step(c1, b);
    assert [a, b, d][1..] == [b, d] && [b, d][1..] == [d] && [d][1..] == [];
    assert Final(Step(c2, d), []) == Step(c2, d);
    assert Runs(c2, [d]) && Final(c2, [d]) == Final(Step(c2, d), []);
    assert Runs(c1, [b, d]) && Final(c1, [b, d]) == Final(c2, [d]);
  }
}
