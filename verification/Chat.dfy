/** The chat cell: invitations, their acceptance, and who is admitted because of them. */
module Chat {
  import opened Basics
  import opened Json
  import opened Contracts
  import opened ContractStore
  import Base64

  datatype Person = Person(uuid: string, key: Option<seq<Byte>>)

  datatype Status = Pending | Accepted | Declined | Revoked

  datatype Artifact = Artifact(invitationId: string, invitee: string, content: string)

  datatype Acceptance = Acceptance(acceptanceId: string, content: string)

  datatype Record = Record(person: Person, status: Status, artifact: Option<Artifact>, acceptance: Option<Acceptance>)

  /** invitations by identity uuid; consumed from invitation id to acceptance id. */
  datatype Room = Room(cell: Cell, invitations: map<string, Record>, consumed: map<string, string>)

  /** The signature and expiry checks of the interop module, and the invitation hash. */
  datatype Proofs = Proofs(
    validInvitation: (Artifact, real) -> bool,
    forThisChat: Artifact -> bool,
    validAcceptance: (Acceptance, Artifact, real) -> bool,
    hash: Artifact -> string)

  // ---- access ----

  const INVITATION_ACCEPTED := "audience.admission.invitationAccepted"
  const MEMBER := "audience.admission.member"

  const RULES := Rules(
    map[INVITATION_ACCEPTED := "r---", MEMBER := "r---",
        "audience.acceptInvitationArtifact" := "-w--", "audience.inspectInvitationArtifact" := "-w--"],
    {"audience.admissionConditions"}, true)

  /** _Person.matches. */
  predicate MatchesPerson(p: Person, r: Identity) {
    p.key.Some? && r.uuid == p.uuid && r.key.Some? && Base64.Decode(r.key.value) == p.key
  }

  /** member_for. */
  predicate IsMember(c: Room, r: Identity) {
    r.uuid in c.invitations && c.invitations[r.uuid].status == Accepted
      && MatchesPerson(c.invitations[r.uuid].person, r)
  }

  /** admission_condition_holds. */
  predicate AdmissionHolds(c: Room, p: Proofs, key: string, r: Identity, now: real) {
    IsMember(c, r) &&
    (key == MEMBER ||
      var record := c.invitations[r.uuid];
      && record.artifact.Some? && record.acceptance.Some?
      && record.artifact.value.invitationId in c.consumed
      && c.consumed[record.artifact.value.invitationId] == record.acceptance.value.acceptanceId
      && p.validInvitation(record.artifact.value, now))
  }

  function AdmissionCondition(key: string): Condition {
    Lookup("target." + key, Bool(true), "Lookup condition")
  }

  predicate IsAdmissionCondition(cond: Condition) {
    cond == AdmissionCondition(MEMBER) || cond == AdmissionCondition(INVITATION_ACCEPTED)
  }

  /** The cell's own get handlers answer the admission keys from the chat's state, and
      Python tells True from False. */
  ghost predicate Serves(w: World, c: Room, p: Proofs, now: real) {
    && (forall r, key | key == MEMBER || key == INVITATION_ACCEPTED ::
        w.read(key, Some(r)) == Some(Bool(AdmissionHolds(c, p, key, r, now))))
    && (forall a, b :: w.same(Bool(a), Bool(b)) == (a == b))
  }

  // ---- what the handlers do ----

  /** A target payload: nothing or [] , True, a list whose items name an identity or not, or something else. */
  datatype Targets = Nothing | Yes | Items(items: seq<Option<string>>) | Junk

  /** _targets; None is invalid. */
  function TargetSet(c: Room, v: Targets, allowTrue: bool): Option<set<string>> {
    match v
    case Nothing => Some(c.invitations.Keys)
    case Yes => if allowTrue then Some(c.invitations.Keys) else None
    case Items(items) =>
      if items == [] then Some(c.invitations.Keys)
      else if None in items then None
      else Some(set i | 0 <= i < |items| && items[i].Some? :: items[i].value)
    case Junk => None
  }

  datatype Invitee = Known(uuid: string) | Described(person: Person) | Unreadable

  function PeopleFrom(c: Room, items: seq<Invitee>): seq<Person> {
    if items == [] then []
    else
      var rest := PeopleFrom(c, items[1..]);
      match items[0]
      case Known(uuid) => if uuid in c.invitations then [c.invitations[uuid].person] + rest else rest
      case Described(person) => [person] + rest
      case Unreadable => rest
  }

  predicate Invitable(c: Room, person: Person) {
    person.key.Some? && !(c.cell.owner.Some? && person.uuid == c.cell.owner.value.uuid)
  }

  function Invited(before: Option<Record>, person: Person): Record {
    match before
    case None => Record(person, Pending, None, None)
    case Some(r) => Record(person, if r.status == Accepted then Accepted else Pending, r.artifact, None)
  }

  function InviteOne(c: Room, person: Person): Room {
    if !Invitable(c, person) then c else
      var before := if person.uuid in c.invitations then Some(c.invitations[person.uuid]) else None;
      c.(invitations := c.invitations[person.uuid := Invited(before, person)])
  }

  function InviteAll(c: Room, people: seq<Person>): Room
    decreases |people|
  {
    if people == [] then c else InviteAll(InviteOne(c, people[0]), people[1..])
  }

  function Marked(invitations: map<string, Record>, targets: set<string>, status: Status): map<string, Record> {
    map u | u in invitations :: if u in targets then invitations[u].(status := status) else invitations[u]
  }

  /** update_statuses; an invalid or unknown target changes nothing. */
  function UpdateStatuses(c: Room, v: Targets, status: Status): Room {
    var targets := TargetSet(c, v, false);
    if targets.None? || !(targets.value <= c.invitations.Keys) then c
    else c.(invitations := Marked(c.invitations, targets.value, status))
  }

  /** _artifact_state is "issued". */
  predicate StillIssued(r: Record, p: Proofs, now: real) {
    r.status != Revoked && r.status != Declined && r.artifact.Some? && r.acceptance.None?
      && p.validInvitation(r.artifact.value, now)
  }

  /** The records generate_invitation_artifacts writes a new artifact for. */
  function Reissued(c: Room, p: Proofs, v: Targets, now: real): set<string> {
    var eligible := set u | u in c.invitations && c.invitations[u].status != Revoked;
    var targets := TargetSet(c, v, true);
    if targets.None? || (v.Items? && v.items != [] && !(targets.value <= eligible)) then {}
    else set u | u in eligible && u in targets.value && !StillIssued(c.invitations[u], p, now)
  }

  function Reissue(r: Record, artifact: Artifact): Record {
    r.(status := if r.status == Declined then Pending else r.status, artifact := Some(artifact), acceptance := None)
  }

  /** The invitation ids of the artifacts that are replaced. */
  function Spent(c: Room, chosen: set<string>): set<string> {
    set u | u in chosen && u in c.invitations && c.invitations[u].artifact.Some? ::
      c.invitations[u].artifact.value.invitationId
  }

  function Reminted(
    invitations: map<string, Record>, chosen: set<string>, minted: map<string, Artifact>
  ): map<string, Record>
    requires chosen <= minted.Keys
  {
    map u | u in invitations :: if u in chosen then Reissue(invitations[u], minted[u]) else invitations[u]
  }

  function Generate(c: Room, p: Proofs, v: Targets, now: real, minted: map<string, Artifact>): Room
    requires Reissued(c, p, v, now) <= minted.Keys
  {
    var chosen := Reissued(c, p, v, now);
    Room(c.cell, Reminted(c.invitations, chosen, minted), c.consumed - Spent(c, chosen))
  }

  /** accept_invitation_artifact; None where it answers an error. */
  function AcceptArtifact(c: Room, p: Proofs, artifact: Artifact, acceptance: Acceptance, now: real): Option<Room> {
    if !p.validInvitation(artifact, now) || !p.forThisChat(artifact)
      || !p.validAcceptance(acceptance, artifact, now) then None
    else if artifact.invitee !in c.invitations then None
    else
      var record := c.invitations[artifact.invitee];
      if record.artifact.None? then None
      else if record.artifact.value.invitationId != artifact.invitationId
        || p.hash(record.artifact.value) != p.hash(artifact) then None
      else if record.status == Revoked || record.status == Declined then None
      else if artifact.invitationId in c.consumed && c.consumed[artifact.invitationId] != acceptance.acceptanceId then
        None
      else if artifact.invitationId !in c.consumed && acceptance.acceptanceId in c.consumed.Values then None
      else Some(Room(c.cell,
        c.invitations[artifact.invitee :=
          record.(status := Accepted, artifact := Some(artifact), acceptance := Some(acceptance))],
        c.consumed[artifact.invitationId := acceptance.acceptanceId]))
  }

  /** apply_admission_conditions, with the names as read keys. */
  function SetConditions(c: Room, keys: seq<string>): Room {
    c.(cell := c.cell.(
      template := c.cell.template.(conditions := seq(|keys|,
        i requires 0 <= i < |keys| => AdmissionCondition(keys[i]))),
      policy := if keys != [] then AutomaticWhenConditionsMet else OwnerApprovalRequired))
  }

  datatype Op =
    | Invite(items: seq<Invitee>)
    | Update(targets: Targets, status: Status)
    | Mint(targets: Targets, minted: map<string, Artifact>)
    | Present(artifact: Artifact, acceptance: Acceptance)
    | Clear
    | Conditions(keys: seq<string>)
    | Contractual(moment: Moment)
    | Talk

  datatype Call = Call(op: Op, now: real, proofs: Proofs)

  /** New artifacts are for the record they are minted for and carry unused ids. */
  ghost predicate MintedWell(c: Room, chosen: set<string>, minted: map<string, Artifact>) {
    && chosen <= minted.Keys
    && (forall u | u in chosen :: minted[u].invitee == u && minted[u].invitationId !in c.consumed)
    && (forall u, v | u in chosen && v in chosen && u != v :: minted[u].invitationId != minted[v].invitationId)
    && (forall u, v | u in chosen && v in c.invitations && c.invitations[v].artifact.Some? ::
        minted[u].invitationId != c.invitations[v].artifact.value.invitationId)
  }

  ghost predicate CanHappen(c: Room, call: Call) {
    match call.op
    case Mint(v, minted) => MintedWell(c, Reissued(c, call.proofs, v, call.now), minted)
    case Conditions(keys) => forall k | k in keys :: k == MEMBER || k == INVITATION_ACCEPTED
    case Contractual(m) => !m.event.Republish?
    case _ => true
  }

  function Step(c: Room, call: Call): Room {
    match call.op
    case Invite(items) => InviteAll(c, PeopleFrom(c, items))
    case Update(v, status) => UpdateStatuses(c, v, status)
    case Mint(v, minted) =>
      if Reissued(c, call.proofs, v, call.now) <= minted.Keys then Generate(c, call.proofs, v, call.now, minted) else c
    case Present(artifact, acceptance) =>
      var done := AcceptArtifact(c, call.proofs, artifact, acceptance, call.now);
      if done.Some? then done.value else c
    case Clear => c.(invitations := map[], consumed := map[])
    case Conditions(keys) => SetConditions(c, keys)
    case Contractual(m) => c.(cell := After(c.cell, m))
    case Talk => c
  }

  // ---- what every call keeps ----

  ghost predicate RecordKeeps(c: Room, u: string) {
    u in c.invitations ==>
      var r := c.invitations[u];
      && r.person.uuid == u && r.person.key.Some?
      && (r.acceptance.Some? ==>
          && r.artifact.Some? && r.artifact.value.invitationId in c.consumed
          && c.consumed[r.artifact.value.invitationId] == r.acceptance.value.acceptanceId)
  }

  ghost predicate Apart(c: Room, u: string, v: string) {
    u in c.invitations && v in c.invitations && u != v && c.invitations[u].artifact.Some?
      && c.invitations[v].artifact.Some? ==>
      c.invitations[u].artifact.value.invitationId != c.invitations[v].artifact.value.invitationId
  }

  /** Different invitations are consumed by different acceptances. */
  ghost predicate Injective(consumed: map<string, string>) {
    forall i, j | i in consumed && j in consumed && i != j :: consumed[i] != consumed[j]
  }

  ghost predicate AdmissionOnly(cell: Cell) {
    && cell.rules == RULES
    && (forall cond | cond in cell.template.conditions :: IsAdmissionCondition(cond))
    && (forall x, cond | x in cell.contracts && cond in x.conditions :: IsAdmissionCondition(cond))
  }

  ghost predicate Sound(c: Room) {
    && (forall u :: RecordKeeps(c, u))
    && (forall u, v :: Apart(c, u, v))
    && Injective(c.consumed)
    && AdmissionOnly(c.cell)
  }

  lemma InviteOneSound(c: Room, person: Person)
    requires Sound(c)
    ensures Sound(InviteOne(c, person))
  {
    var d := InviteOne(c, person);
    forall u ensures RecordKeeps(d, u) { assert RecordKeeps(c, u); }
    forall u, v ensures Apart(d, u, v) { assert Apart(c, u, v); }
  }

  lemma {:induction false} InviteAllSound(c: Room, people: seq<Person>)
    requires Sound(c)
    ensures Sound(InviteAll(c, people))
    decreases |people|
  {
    hide Sound, InviteOne;
    if people != [] {
      InviteOneSound(c, people[0]);
      InviteAllSound(InviteOne(c, people[0]), people[1..]);
    }
  }

  lemma UpdateSound(c: Room, v: Targets, status: Status)
    requires Sound(c)
    ensures Sound(UpdateStatuses(c, v, status))
  {
    hide TargetSet;
    var d := UpdateStatuses(c, v, status);
    forall u ensures RecordKeeps(d, u) { assert RecordKeeps(c, u); }
    forall u, x ensures Apart(d, u, x) { assert Apart(c, u, x); }
  }

  lemma GenerateSound(c: Room, p: Proofs, v: Targets, now: real, minted: map<string, Artifact>)
    requires Sound(c) && MintedWell(c, Reissued(c, p, v, now), minted)
    ensures Sound(Generate(c, p, v, now, minted))
  {
    hide Reissued, AdmissionOnly;
    var d, chosen := Generate(c, p, v, now, minted), Reissued(c, p, v, now);
    forall u ensures RecordKeeps(d, u) {
      assert RecordKeeps(c, u);
      if u in c.invitations && u !in chosen && c.invitations[u].artifact.Some? {
        var id := c.invitations[u].artifact.value.invitationId;
        forall x | x in chosen && x in c.invitations && c.invitations[x].artifact.Some?
          ensures c.invitations[x].artifact.value.invitationId != id
        {
          assert Apart(c, u, x);
        }
        assert id !in Spent(c, chosen);
      }
    }
    forall u, x ensures Apart(d, u, x) { assert Apart(c, u, x); }
  }

  lemma AcceptSound(c: Room, p: Proofs, artifact: Artifact, acceptance: Acceptance, now: real)
    requires Sound(c) && AcceptArtifact(c, p, artifact, acceptance, now).Some?
    ensures Sound(AcceptArtifact(c, p, artifact, acceptance, now).value)
  {
    hide AdmissionOnly;
    var d := AcceptArtifact(c, p, artifact, acceptance, now).value;
    assert RecordKeeps(c, artifact.invitee);
    forall u ensures RecordKeeps(d, u) {
      assert RecordKeeps(c, u) && Apart(c, u, artifact.invitee);
    }
    forall u, x ensures Apart(d, u, x) { assert Apart(c, u, x); }
    forall i, j | i in d.consumed && j in d.consumed && i != j ensures d.consumed[i] != d.consumed[j] {
      if artifact.invitationId in c.consumed {
        assert d.consumed == c.consumed;
      }
    }
  }

  lemma ContractualSound(c: Room, m: Moment)
    requires Sound(c) && !m.event.Republish?
    ensures Sound(c.(cell := After(c.cell, m)))
  {
    hide Admissible;
    var d := c.(cell := After(c.cell, m));
    forall u ensures RecordKeeps(d, u) { assert RecordKeeps(c, u); }
    forall u, x ensures Apart(d, u, x) { assert Apart(c, u, x); }
    if m.event.Revoke? {
      OthersAre(c.cell.contracts, m.event.uuid);
    }
  }

  lemma ConditionsSound(c: Room, keys: seq<string>)
    requires Sound(c) && forall k | k in keys :: k == MEMBER || k == INVITATION_ACCEPTED
    ensures Sound(SetConditions(c, keys))
  {
    var d := SetConditions(c, keys);
    forall u ensures RecordKeeps(d, u) { assert RecordKeeps(c, u); }
    forall u, x ensures Apart(d, u, x) { assert Apart(c, u, x); }
    forall i | 0 <= i < |keys| ensures IsAdmissionCondition(d.cell.template.conditions[i]) {
      assert keys[i] in keys;
    }
  }

  lemma StepSound(c: Room, call: Call)
    requires Sound(c) && CanHappen(c, call)
    ensures Sound(Step(c, call))
  {
    hide InviteAll, UpdateStatuses, Generate, AcceptArtifact, After, Reissued;
    match call.op {
      case Invite(items) => InviteAllSound(c, PeopleFrom(c, items));
      case Update(v, status) => UpdateSound(c, v, status);
      case Mint(v, minted) => GenerateSound(c, call.proofs, v, call.now, minted);
      case Present(artifact, acceptance) =>
        if AcceptArtifact(c, call.proofs, artifact, acceptance, call.now).Some? {
          AcceptSound(c, call.proofs, artifact, acceptance, call.now);
        }
      case Clear | Talk =>
      case Conditions(keys) => ConditionsSound(c, keys);
      case Contractual(m) => ContractualSound(c, m);
    }
  }

  /** A run: every call can happen when it does. */
  ghost predicate Runs(c: Room, calls: seq<Call>)
    decreases |calls|
  {
    calls == [] || (CanHappen(c, calls[0]) && Runs(Step(c, calls[0]), calls[1..]))
  }

  function Final(c: Room, calls: seq<Call>): Room
    requires Runs(c, calls)
    decreases |calls|
  {
    if calls == [] then c else Final(Step(c, calls[0]), calls[1..])
  }

  /** In every reachable state invitation ids are consumed by distinct acceptances. */
  lemma {:induction false} RunSound(c: Room, calls: seq<Call>)
    requires Sound(c) && Runs(c, calls)
    ensures Sound(Final(c, calls)) && Injective(Final(c, calls).consumed)
    decreases |calls|
  {
    hide Step, CanHappen;
    if calls != [] {
      StepSound(c, calls[0]);
      RunSound(Step(c, calls[0]), calls[1..]);
    }
  }

  // ---- what makes a member, and what is stored as its proof ----

  /** An acceptance is presented that verifies against an invitation to this chat that
      verifies, for the current artifact of a record that is neither revoked nor declined. */
  predicate ProvenFor(c: Room, call: Call, u: string) {
    && call.op.Present? && call.op.artifact.invitee == u
    && call.proofs.validInvitation(call.op.artifact, call.now) && call.proofs.forThisChat(call.op.artifact)
    && call.proofs.validAcceptance(call.op.acceptance, call.op.artifact, call.now)
    && u in c.invitations && c.invitations[u].status != Revoked && c.invitations[u].status != Declined
    && c.invitations[u].artifact.Some?
    && c.invitations[u].artifact.value.invitationId == call.op.artifact.invitationId
    && call.proofs.hash(c.invitations[u].artifact.value) == call.proofs.hash(call.op.artifact)
  }

  /** ... and the invitation was not consumed by another acceptance, nor this acceptance by
      another invitation. */
  predicate Unspent(c: Room, artifact: Artifact, acceptance: Acceptance) {
    && (artifact.invitationId in c.consumed ==> c.consumed[artifact.invitationId] == acceptance.acceptanceId)
    && (forall id | id in c.consumed && c.consumed[id] == acceptance.acceptanceId ::
          id == artifact.invitationId || artifact.invitationId in c.consumed)
  }

  /** Presenting changes the chat only so: exactly then the record is accepted with what was
      presented, and the invitation consumed by it. */
  lemma PresentExactly(c: Room, artifact: Artifact, acceptance: Acceptance, now: real, p: Proofs)
    ensures var call, u := Call(Present(artifact, acceptance), now, p), artifact.invitee;
      Step(c, call) ==
        if ProvenFor(c, call, u) && Unspent(c, artifact, acceptance) then
          c.(invitations := c.invitations[u := c.invitations[u].(status := Accepted, artifact := Some(artifact),
               acceptance := Some(acceptance))],
             consumed := c.consumed[artifact.invitationId := acceptance.acceptanceId])
        else c
  {
    if artifact.invitationId !in c.consumed && acceptance.acceptanceId in c.consumed.Values {
      var id :| id in c.consumed && c.consumed[id] == acceptance.acceptanceId;
    }
  }

  /** The call gives u this status by naming it, or by naming nobody, which means all. */
  predicate SetTo(c: Room, call: Call, u: string, status: Status) {
    && call.op.Update? && call.op.status == status && u in c.invitations
    && (call.op.targets.Nothing? || (call.op.targets.Items? &&
          (call.op.targets.items == []
           || (Some(u) in call.op.targets.items
               && forall x | x in call.op.targets.items :: x.Some? && x.value in c.invitations))))
  }

  /** update_statuses changes exactly the named records, or none if a target is unknown. */
  lemma UpdateExactly(c: Room, call: Call, u: string)
    requires call.op.Update?
    ensures var d := Step(c, call);
      && d.invitations.Keys == c.invitations.Keys && d == c.(invitations := d.invitations)
      && (u in c.invitations ==>
            d.invitations[u] == if SetTo(c, call, u, call.op.status) then c.invitations[u].(status := call.op.status)
                                else c.invitations[u])
  {
    if call.op.targets.Items? {
      var items := call.op.targets.items;
      if TargetSet(c, call.op.targets, false).Some? && items != [] {
        var ts := TargetSet(c, call.op.targets, false).value;
        assert u in ts <==> Some(u) in items;
        forall x | x in items ensures x.Some? && x.value in ts {
          var i :| 0 <= i < |items| && items[i] == x;
        }
      }
    }
  }

  /** A new artifact is written exactly for the named records, or all, that are not revoked
      and do not hold a valid artifact that is still waiting for an answer. */
  predicate Chosen(c: Room, call: Call, u: string) {
    && call.op.Mint? && u in c.invitations && c.invitations[u].status != Revoked
    && (|| call.op.targets.Nothing? || call.op.targets.Yes?
        || (call.op.targets.Items? && call.op.targets.items == [])
        || (call.op.targets.Items? && Some(u) in call.op.targets.items
            && forall x | x in call.op.targets.items ::
                 x.Some? && x.value in c.invitations && c.invitations[x.value].status != Revoked))
    && !(c.invitations[u].status != Declined && c.invitations[u].artifact.Some? && c.invitations[u].acceptance.None?
         && call.proofs.validInvitation(c.invitations[u].artifact.value, call.now))
  }

  lemma ChosenExactly(c: Room, call: Call, u: string)
    requires call.op.Mint?
    ensures u in Reissued(c, call.proofs, call.op.targets, call.now) <==> Chosen(c, call, u)
  {
    if call.op.targets.Items? && call.op.targets.items != [] {
      var items := call.op.targets.items;
      if TargetSet(c, call.op.targets, true).Some? {
        var ts := TargetSet(c, call.op.targets, true).value;
        assert u in ts <==> Some(u) in items;
        forall x | x in items ensures x.Some? && x.value in ts {
          var i :| 0 <= i < |items| && items[i] == x;
        }
      }
    }
  }

  /** ... then declined records wait again, an old acceptance is dropped, and what the old
      artifact consumed may be consumed again. */
  lemma MintExactly(c: Room, call: Call)
    requires call.op.Mint? && CanHappen(c, call)
    ensures var d := Step(c, call);
      && d.cell == c.cell && d.invitations.Keys == c.invitations.Keys
      && (forall u | u in c.invitations ::
            d.invitations[u] ==
              if !Chosen(c, call, u) then c.invitations[u]
              else Record(c.invitations[u].person,
                if c.invitations[u].status == Declined then Pending else c.invitations[u].status,
                Some(call.op.minted[u]), None))
      && (forall id :: id in d.consumed <==>
            && id in c.consumed
            && !exists u | u in c.invitations && Chosen(c, call, u) && c.invitations[u].artifact.Some? ::
                 c.invitations[u].artifact.value.invitationId == id)
      && (forall id | id in d.consumed :: d.consumed[id] == c.consumed[id])
  {
    hide TargetSet, Chosen, Reissued, StillIssued;
    forall u ensures u in Reissued(c, call.proofs, call.op.targets, call.now) <==> Chosen(c, call, u) {
      ChosenExactly(c, call, u);
    }
  }

  /** Inviting keeps members, makes everyone else pending, keeps artifacts and drops
      acceptances; it is for people with a key, and not for the owner. */
  lemma {:induction false} InviteExactly(c: Room, people: seq<Person>, u: string)
    ensures var d := InviteAll(c, people);
      && d.cell == c.cell && d.consumed == c.consumed
      && (if exists person | person in people :: person.uuid == u && Invites(c, person) then
            && u in d.invitations
            && d.invitations[u].person.uuid == u && d.invitations[u].person in people
            && d.invitations[u].acceptance.None?
            && d.invitations[u].status == (if u in c.invitations && c.invitations[u].status == Accepted then Accepted
                                           else Pending)
            && d.invitations[u].artifact == (if u in c.invitations then c.invitations[u].artifact else None)
          else
            && (u in d.invitations <==> u in c.invitations)
            && (u in c.invitations ==> d.invitations[u] == c.invitations[u]))
    decreases |people|
  {
    if people != [] {
      var d := InviteOne(c, people[0]);
      assert forall person :: Invites(c, person) == Invites(d, person);
      InviteExactly(d, people[1..], u);
      assert people == [people[0]] + people[1..];
    }
  }

  predicate Invites(c: Room, person: Person) {
    person.key.Some? && (c.cell.owner.None? || person.uuid != c.cell.owner.value.uuid)
  }

  lemma {:induction false} InviteAllGives(c: Room, people: seq<Person>, u: string)
    ensures var d := InviteAll(c, people);
      && d.consumed == c.consumed && d.cell == c.cell && c.invitations.Keys <= d.invitations.Keys
      && (u in d.invitations && d.invitations[u].status == Accepted ==>
            u in c.invitations && c.invitations[u].status == Accepted)
      && (u in d.invitations && d.invitations[u].acceptance.Some? ==>
            u in c.invitations && c.invitations[u].acceptance == d.invitations[u].acceptance
            && c.invitations[u].artifact == d.invitations[u].artifact)
    decreases |people|
  {
    hide Invitable;
    if people != [] {
      InviteAllGives(InviteOne(c, people[0]), people[1..], u);
    }
  }

  /** One call makes a member, stores an acceptance or consumes an invitation only where an
      acceptance is proven, but for the call that sets chosen records to accepted. */
  lemma StepGives(c: Room, call: Call, u: string, id: string)
    ensures var d := Step(c, call);
      && (u in d.invitations && d.invitations[u].status == Accepted ==>
            || (u in c.invitations && c.invitations[u].status == Accepted)
            || SetTo(c, call, u, Accepted)
            || ProvenFor(c, call, u))
      && (u in d.invitations && d.invitations[u].acceptance.Some? ==>
            || (u in c.invitations && c.invitations[u].acceptance == d.invitations[u].acceptance
                && c.invitations[u].artifact == d.invitations[u].artifact)
            || (ProvenFor(c, call, u) && call.op.Present? && d.invitations[u].acceptance == Some(call.op.acceptance)
                && d.invitations[u].artifact == Some(call.op.artifact)))
      && (id in d.consumed ==>
            || (id in c.consumed && c.consumed[id] == d.consumed[id])
            || (call.op.Present? && call.op.artifact.invitationId == id
                && d.consumed[id] == call.op.acceptance.acceptanceId && ProvenFor(c, call, call.op.artifact.invitee)))
  {
    hide InviteAll, TargetSet, After, AcceptArtifact, Reissued, ProvenFor, Unspent, SetTo, UpdateStatuses;
    match call.op {
      case Invite(items) => InviteAllGives(c, PeopleFrom(c, items), u);
      case Update(_, _) => UpdateExactly(c, call, u);
      case Present(artifact, acceptance) => PresentExactly(c, artifact, acceptance, call.now, call.proofs);
      case _ =>
    }
  }

  /** The i-th call of the run proves the acceptance of u in the state it meets. */
  ghost predicate ProvenAt(c: Room, calls: seq<Call>, i: int, u: string)
    requires 0 <= i < |calls| && Runs(c, calls)
    decreases i
  {
    if i == 0 then ProvenFor(c, calls[0], u) else ProvenAt(Step(c, calls[0]), calls[1..], i - 1, u)
  }

  lemma ProvenFirst(c: Room, calls: seq<Call>, u: string)
    requires calls != [] && Runs(c, calls) && ProvenFor(c, calls[0], u)
    ensures exists i | 0 <= i < |calls| :: i == 0 && ProvenAt(c, calls, i, u)
  {
    hide ProvenFor, Runs;
    assert ProvenAt(c, calls, 0, u);
  }

  /** Over any run every stored acceptance was stored before, or verified against its artifact
      by one of the calls, at that call's time. */
  lemma {:induction false} StoredWasVerified(c: Room, calls: seq<Call>, u: string)
    requires Runs(c, calls) && u in Final(c, calls).invitations && Final(c, calls).invitations[u].acceptance.Some?
    ensures var r := Final(c, calls).invitations[u];
      || (u in c.invitations && c.invitations[u].acceptance == r.acceptance && c.invitations[u].artifact == r.artifact)
      || exists i | 0 <= i < |calls| ::
           ProvenAt(c, calls, i, u) && calls[i].op.Present? && r.acceptance == Some(calls[i].op.acceptance)
           && r.artifact == Some(calls[i].op.artifact)
    decreases |calls|
  {
    hide Step, CanHappen, ProvenFor;
    if calls != [] {
      var d, rest := Step(c, calls[0]), calls[1..];
      StoredWasVerified(d, rest, u);
      var r := Final(c, calls).invitations[u];
      if u in d.invitations && d.invitations[u].acceptance == r.acceptance && d.invitations[u].artifact == r.artifact {
        StepGives(c, calls[0], u, "");
        if ProvenFor(c, calls[0], u) { ProvenFirst(c, calls, u); }
      } else {
        var i :| 0 <= i < |rest| && ProvenAt(d, rest, i, u) && rest[i].op.Present?
          && r.acceptance == Some(rest[i].op.acceptance) && r.artifact == Some(rest[i].op.artifact);
        assert ProvenAt(c, calls, i + 1, u) && calls[i + 1] == rest[i];
      }
    }
  }

  /** The i-th call of the run proves the acceptance of u or sets u to accepted, in the state
      it meets. */
  ghost predicate CausedAt(c: Room, calls: seq<Call>, i: int, u: string)
    requires 0 <= i < |calls| && Runs(c, calls)
    decreases i
  {
    if i == 0 then ProvenFor(c, calls[0], u) || SetTo(c, calls[0], u, Accepted)
    else CausedAt(Step(c, calls[0]), calls[1..], i - 1, u)
  }

  lemma CausedLater(c: Room, calls: seq<Call>, i: int, u: string)
    requires calls != [] && Runs(c, calls) && 0 <= i < |calls| - 1 && CausedAt(Step(c, calls[0]), calls[1..], i, u)
    ensures exists j | 0 <= j < |calls| :: CausedAt(c, calls, j, u)
  {
    hide ProvenFor, SetTo, Step;
    var j := i + 1;
    assert CausedAt(c, calls, j, u);
  }

  lemma CausedFirst(c: Room, calls: seq<Call>, u: string)
    requires calls != [] && Runs(c, calls)
    requires ProvenFor(c, calls[0], u) || SetTo(c, calls[0], u, Accepted)
    ensures exists i | 0 <= i < |calls| :: CausedAt(c, calls, i, u)
  {
    hide ProvenFor, SetTo, Runs;
    assert CausedAt(c, calls, 0, u);
  }

  /** ... and every member was one before, was set to accepted, or was proven. */
  lemma {:induction false} MembershipHasCause(c: Room, calls: seq<Call>, u: string)
    requires Runs(c, calls) && u in Final(c, calls).invitations && Final(c, calls).invitations[u].status == Accepted
    ensures
      || (u in c.invitations && c.invitations[u].status == Accepted)
      || exists i | 0 <= i < |calls| :: CausedAt(c, calls, i, u)
    decreases |calls|
  {
    hide Step, CanHappen, ProvenFor, SetTo;
    if calls != [] {
      var d, rest := Step(c, calls[0]), calls[1..];
      MembershipHasCause(d, rest, u);
      if u in d.invitations && d.invitations[u].status == Accepted {
        StepGives(c, calls[0], u, "");
        if !(u in c.invitations && c.invitations[u].status == Accepted) {
          CausedFirst(c, calls, u);
        }
      } else {
        var i :| 0 <= i < |rest| && CausedAt(d, rest, i, u);
        CausedLater(c, calls, i, u);
      }
    }
  }
}
