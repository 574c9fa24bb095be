/** ChatCell's handlers, which update invitations and consumed in place. */
module ChatCell {
  import opened Basics
  import opened Contracts
  import opened Chat

  class ChatRoom {
    var base: Cell
    var invitations: map<string, Record>
    var consumed: map<string, string>

    constructor (base: Cell)
      requires base.rules == RULES && base.template.conditions == [] && base.contracts == []
      ensures Snapshot() == Room(base, map[], map[]) && Sound(Snapshot())
    {
      this.base := base;
      invitations, consumed := map[], map[];
    }

    function Snapshot(): Room
      reads this
    {
      Room(base, invitations, consumed)
    }

    method InviteIdentities(items: seq<Invitee>)
      modifies this
      ensures Snapshot() == InviteAll(old(Snapshot()), PeopleFrom(old(Snapshot()), items))
    {
      var people := PeopleFrom(Snapshot(), items);
      for i := 0 to |people|
        invariant InviteAll(Snapshot(), people[i..]) == InviteAll(old(Snapshot()), people)
      {
        assert people[i..][1..] == people[i + 1..];
        var person := people[i];
        if person.key.None? || (base.owner.Some? && person.uuid == base.owner.value.uuid) {
          continue;
        }
        if person.uuid in invitations {
          var existing := invitations[person.uuid].(person := person);
          if existing.status != Accepted {
            existing := existing.(status := Pending);
          }
          existing := existing.(acceptance := None);
          invitations := invitations[person.uuid := existing];
        } else {
          invitations := invitations[person.uuid := Record(person, Pending, None, None)];
        }
      }
    }

    method SetStatuses(v: Targets, status: Status) returns (ok: bool)
      modifies this
      ensures Snapshot() == UpdateStatuses(old(Snapshot()), v, status)
      ensures ok <==>
        TargetSet(old(Snapshot()), v, false).Some?
        && TargetSet(old(Snapshot()), v, false).value <= old(invitations).Keys
    {
      hide TargetSet, Marked;
      var targets := TargetSet(Snapshot(), v, false);
      if targets.None? || !(targets.value <= invitations.Keys) {
        return false;
      }
      var todo := targets.value;
      MarkedNone(invitations, status);
      assert targets.value - todo == {};
      while todo != {}
        invariant todo <= targets.value && base == old(base) && consumed == old(consumed)
        invariant invitations == Marked(old(invitations), targets.value - todo, status)
        decreases |todo|
      {
        var u :| u in todo;
        MarkedMore(old(invitations), targets.value - todo, u, status);
        assert targets.value - (todo - {u}) == targets.value - todo + {u};
        todo := todo - {u};
        invitations := invitations[u := invitations[u].(status := status)];
      }
      assert targets.value - {} == targets.value;
      ok := true;
    }

    /** One turn of the loop below: the prior artifact's consumption goes with it. */
    method Replace(u: string, artifact: Artifact)
      requires u in invitations
      modifies this
      ensures base == old(base) && invitations == old(invitations)[u := Reissue(old(invitations)[u], artifact)]
      ensures consumed == old(consumed) - SpentBy(old(invitations)[u])
    {
      var record := invitations[u];
      if record.status == Declined {
        record := record.(status := Pending);
      }
      if record.artifact.Some? {
        consumed := consumed - {record.artifact.value.invitationId};
      }
      invitations := invitations[u := record.(artifact := Some(artifact), acceptance := None)];
    }

    /** The loop over the eligible targets, in any order. */
    method ReissueAll(
      p: Proofs, targets: set<string>, now: real, minted: map<string, Artifact>, ghost chosen: set<string>
    )
      requires targets <= invitations.Keys && chosen <= targets && chosen <= minted.Keys
      requires forall u | u in targets :: u in chosen <==> !StillIssued(invitations[u], p, now)
      modifies this
      ensures base == old(base) && invitations == Reminted(old(invitations), chosen, minted)
      ensures consumed == old(consumed) - Spent(old(Snapshot()), chosen)
    {
      hide Reminted, Spent, StillIssued, SpentBy, Reissue;
      ghost var before := Snapshot();
      ghost var done: set<string> := {};
      var todo := targets;
      RemintedNone(before, minted);
      while todo != {}
        invariant todo <= targets && done <= chosen && base == before.cell
        invariant forall u | u in chosen :: u in done <==> u !in todo
        invariant invitations == Reminted(before.invitations, done, minted)
        invariant consumed == before.consumed - Spent(before, done)
        decreases |todo|
      {
        var u :| u in todo;
        RemintedMore(before.invitations, done, u, minted);
        todo := todo - {u};
        if StillIssued(invitations[u], p, now) {
          continue;
        }
        SpentMore(before, done, u);
        Replace(u, minted[u]);
        done := done + {u};
      }
      assert done == chosen;
    }

    method GenerateInvitationArtifacts(p: Proofs, v: Targets, now: real, minted: map<string, Artifact>)
      returns (ok: bool)
      requires Reissued(Snapshot(), p, v, now) <= minted.Keys
      modifies this
      ensures Snapshot() == Generate(old(Snapshot()), p, v, now, minted)
    {
      hide TargetSet, Reissued, Reminted, Spent, StillIssued;
      ghost var chosen := Reissued(Snapshot(), p, v, now);
      var eligible := set u | u in invitations && invitations[u].status != Revoked;
      var targets := TargetSet(Snapshot(), v, true);
      ReissuedIs(Snapshot(), p, v, now);
      if targets.None? || (v.Items? && v.items != [] && !(targets.value <= eligible)) {
        SameAfter(Snapshot(), p, v, now, minted);
        return false;
      }
      ReissueAll(p, targets.value * eligible, now, minted, chosen);
      ok := true;
    }

    method AcceptInvitationArtifact(p: Proofs, artifact: Artifact, acceptance: Acceptance, now: real) returns (ok: bool)
      modifies this
      ensures var done := AcceptArtifact(old(Snapshot()), p, artifact, acceptance, now);
        ok == done.Some? && Snapshot() == if ok then done.value else old(Snapshot())
    {
      if !p.validInvitation(artifact, now) || !p.forThisChat(artifact)
        || !p.validAcceptance(acceptance, artifact, now) {
        return false;
      }
      if artifact.invitee !in invitations {
        return false;
      }
      var record := invitations[artifact.invitee];
      if record.artifact.None? {
        return false;
      }
      if record.artifact.value.invitationId != artifact.invitationId
        || p.hash(record.artifact.value) != p.hash(artifact) {
        return false;
      }
      if record.status == Revoked || record.status == Declined {
        return false;
      }
      if artifact.invitationId in consumed {
        if consumed[artifact.invitationId] != acceptance.acceptanceId {
          return false;
        }
      } else if acceptance.acceptanceId in consumed.Values {
        return false;
      }
      invitations := invitations[artifact.invitee :=
        record.(status := Accepted, artifact := Some(artifact), acceptance := Some(acceptance))];
      consumed := consumed[artifact.invitationId := acceptance.acceptanceId];
      ok := true;
    }

    method ClearInvites()
      modifies this
      ensures Snapshot() == old(Snapshot()).(invitations := map[], consumed := map[])
    {
      invitations := map[];
      consumed := map[];
    }
  }

  function SpentBy(r: Record): set<string> {
    if r.artifact.Some? then {r.artifact.value.invitationId} else {}
  }

  lemma MarkedNone(invitations: map<string, Record>, status: Status)
    ensures Marked(invitations, {}, status) == invitations
  {
  }

  lemma MarkedMore(invitations: map<string, Record>, done: set<string>, u: string, status: Status)
    requires u in invitations && u !in done
    ensures u in Marked(invitations, done, status) && Marked(invitations, done, status)[u] == invitations[u]
    ensures Marked(invitations, done + {u}, status)
      == Marked(invitations, done, status)[u := invitations[u].(status := status)]
  {
  }

  lemma RemintedNone(c: Room, minted: map<string, Artifact>)
    ensures Reminted(c.invitations, {}, minted) == c.invitations
    ensures c.consumed - Spent(c, {}) == c.consumed
  {
    assert Spent(c, {}) == {};
  }

  lemma RemintedMore(invitations: map<string, Record>, done: set<string>, u: string, minted: map<string, Artifact>)
    requires u in invitations && u !in done && done <= minted.Keys
    ensures u in Reminted(invitations, done, minted) && Reminted(invitations, done, minted)[u] == invitations[u]
    ensures u in minted ==>
      Reminted(invitations, done + {u}, minted)
      == Reminted(invitations, done, minted)[u := Reissue(invitations[u], minted[u])]
  {
  }

  lemma ReissuedIs(c: Room, p: Proofs, v: Targets, now: real)
    ensures
      var eligible := set u | u in c.invitations && c.invitations[u].status != Revoked;
      var targets := TargetSet(c, v, true);
      Reissued(c, p, v, now) ==
        if targets.None? || (v.Items? && v.items != [] && !(targets.value <= eligible)) then {}
        else set u | u in targets.value * eligible && !StillIssued(c.invitations[u], p, now)
  {
    hide TargetSet, StillIssued;
    var eligible, targets := (set u | u in c.invitations && c.invitations[u].status != Revoked), TargetSet(c, v, true);
    if !(targets.None? || (v.Items? && v.items != [] && !(targets.value <= eligible))) {
      assert Reissued(c, p, v, now) == set u | u in targets.value * eligible && !StillIssued(c.invitations[u], p, now);
    }
  }

  lemma SpentMore(c: Room, done: set<string>, u: string)
    requires u in c.invitations
    ensures Spent(c, done + {u}) == Spent(c, done) + SpentBy(c.invitations[u])
    ensures c.consumed - Spent(c, done) - SpentBy(c.invitations[u]) == c.consumed - Spent(c, done + {u})
  {
  }

  lemma SameAfter(c: Room, p: Proofs, v: Targets, now: real, minted: map<string, Artifact>)
    requires Reissued(c, p, v, now) == {}
    ensures Generate(c, p, v, now, minted) == c
  {
    hide Reissued;
    RemintedNone(c, minted);
  }
}
