/** EntityAnchorCell's identityLinks actions, which write its storage in place. */
module AnchorCell {
  import opened Basics
  import opened Json
  import opened KeyPath
  import opened PyText
  import opened Anchor
  import Base64
  import Enrollment
  import LinkModels
  import Wire

  // ---- a completion as it arrives ----

  /** What verify_completion is told of the ids that were used. */
  function UsedIds(t: Json): (ids: set<string>)
    ensures forall jti :: jti in ids <==> IsUsed(t, jti)
  {
    if !Used(t).Obj? then {} else
      set m | m in Used(t).members :: if m.value.Str? then m.value.s else m.key
  }

  function RecordWire(r: LinkModels.Record): seq<Member> {
    var ms := Wire.ToWire(LinkModels.RECORD, LinkModels.RecordFields(r));
    if ms.Some? then ms.value else []
  }

  function ProofWire(we: Enrollment.World, e: LinkModels.Completion, r: LinkModels.Record): seq<Member> {
    [
      Member("record", Obj(RecordWire(r))),
      Member("requestHash", Str(Base64.Encode(Enrollment.RequestHash(we, e.request)))),
      Member("approvalJTI", Str(e.approval.jti)), Member("credentialID", Str(e.claim.id)),
      Member("presentationID", Str(e.presentation.id)), Member("completedAt", Str(r.linkedAt))]
  }

  /** The action for an envelope: verified means all but the used ids. */
  function CompletionOp(we: Enrollment.World, e: LinkModels.Completion, now: real): Op {
    var result := Enrollment.VerifyCompletion(we, e, now, {}, None);
    if result.Err? then Complete(false, e.approval.jti, e.approval.approvalId, [], [])
    else Complete(true, e.approval.jti, result.value.linkId, RecordWire(result.value), ProofWire(we, e, result.value))
  }

  /** The used ids only add a refusal. */
  lemma UsedOnlyRefuses(we: Enrollment.World, e: LinkModels.Completion, now: real, used: set<string>)
    ensures
      var with := Enrollment.VerifyCompletion(we, e, now, used, None);
      var bare := Enrollment.VerifyCompletion(we, e, now, {}, None);
      && (with.Ok? <==> bare.Ok? && e.approval.jti !in used)
      && (with.Ok? ==> with == bare)
  {
    hide Enrollment.RequestProblem, Enrollment.ClaimProblem, Enrollment.PresentationProblem, Enrollment.RequestHash,
      Enrollment.ReadSubject, Enrollment.ApprovalMismatch, Enrollment.EvidenceProblem, Enrollment.Expiry,
      Enrollment.ApprovalProofProblem, Enrollment.Within;
  }

  // ---- the record as it is stored ----

  /** IdentityLinkRecord.from_wire. */
  function ReadRecord(j: Json): Option<LinkModels.Record> {
    if !j.Obj? then None else
      var fs := Wire.FromWire(LinkModels.RECORD, j.members);
      if fs.None? then None else Some(LinkModels.RecordOf(fs.value))
  }

  lemma RecordReadsBack(r: LinkModels.Record)
    ensures ReadRecord(Obj(RecordWire(r))) == Some(r)
  {
    hide Wire.ToWire, Wire.FromWire, Wire.TypedFields, LinkModels.RecordFields, LinkModels.RecordOf;
    LinkModels.RecordTyped(r);
    Wire.ModelBack(LinkModels.RECORD, LinkModels.RecordFields(r));
    LinkModels.RecordBack(r);
  }

  function Revocation(we: Enrollment.World, r: LinkModels.Record, now: real): LinkModels.Record {
    r.(status := "revoked", revokedAt := Some(we.iso(now.Floor)))
  }

  /** The anchor reads and revokes records as their wire model does. */
  ghost predicate ReadsRecords(w: World, we: Enrollment.World) {
    && (forall j :: w.readsRecord(j) <==> ReadRecord(j).Some?)
    && (forall j, now | ReadRecord(j).Some? ::
          w.revoked(j, now) == RecordWire(Revocation(we, ReadRecord(j).value, now)))
  }

  /** A link whose completion went through reads as the record that verify_completion gave,
      can then be revoked unless it is the genesis link, and reads as that record revoked. */
  lemma CompletedThenRevoked(
    w: World, we: Enrollment.World, t: Json, e: LinkModels.Completion, now: real, later: real
  )
    requires Tidy(t) && (forall x :: w.same(x, x)) && ReadsRecords(w, we)
    requires Act(w, t, CompletionOp(we, e, now)).1 && e.approval.approvalId != ""
    requires !IsGenesisLink(e.approval.approvalId)
    ensures var id, t1 := e.approval.approvalId, Act(w, t, CompletionOp(we, e, now)).0;
      var t2 := Act(w, t1, Revoke(id, later));
      var r := Enrollment.VerifyCompletion(we, e, now, {}, None);
      && r.Ok? && r.value.linkId == id && r.value.status == "active"
      && RecordOf(w, t1, id).Some? && ReadRecord(RecordOf(w, t1, id).value) == Some(r.value)
      && t2.1 && RecordOf(w, t2.0, id).Some?
      && ReadRecord(RecordOf(w, t2.0, id).value)
         == Some(r.value.(status := "revoked", revokedAt := Some(we.iso(later.Floor))))
  {
    hide Tidy, Plan, Act, RecordOf, Enrollment.VerifyCompletion, ReadRecord, RecordWire, ProofWire, ProofPath;
    var op, id := CompletionOp(we, e, now), e.approval.approvalId;
    if Enrollment.VerifyCompletion(we, e, now, {}, None).Err? { Unverified(w, we, t, e, now); }
    VerifiedRecord(we, e, now);
    var r := Enrollment.VerifyCompletion(we, e, now, {}, None).value;
    CompletedStores(w, t, op);
    ActTidy(w, t, op);
    var t1, revoke := Act(w, t, op).0, Revoke(id, later);
    RecordReadsBack(r);
    RevokeGoesThrough(w, t1, revoke);
    if Plan(w, t1, revoke).None? { RefusedPlan(w, t1, revoke); }
    RevokeWrites(w, t1, revoke, id);
    RecordReadsBack(Revocation(we, r, later));
  }

  /** The proof that is stored with a record. */
  lemma ProofReads(we: Enrollment.World, e: LinkModels.Completion, r: LinkModels.Record)
    ensures var proof := Obj(ProofWire(we, e, r));
      && ReadRecord(At(proof, "record")) == Some(r)
      && At(proof, "requestHash") == Str(Base64.Encode(we.hash(Enrollment.SignedRequest(e.request))))
      && At(proof, "approvalJTI") == Str(e.approval.jti) && At(proof, "credentialID") == Str(e.claim.id)
      && At(proof, "presentationID") == Str(e.presentation.id) && At(proof, "completedAt") == Str(r.linkedAt)
  {
    hide RecordWire, ReadRecord, Enrollment.SignedRequest, Base64.Encode, At;
    RecordReadsBack(r);
    var ms := ProofWire(we, e, r);
    DistinctAt(ms, 0);
    DistinctAt(ms, 1);
    DistinctAt(ms, 2);
    DistinctAt(ms, 3);
    DistinctAt(ms, 4);
    DistinctAt(ms, 5);
  }

  lemma Unverified(w: World, we: Enrollment.World, t: Json, e: LinkModels.Completion, now: real)
    requires Enrollment.VerifyCompletion(we, e, now, {}, None).Err?
    ensures !Act(w, t, CompletionOp(we, e, now)).1
  {
    hide Enrollment.VerifyCompletion;
  }

  lemma VerifiedRecord(we: Enrollment.World, e: LinkModels.Completion, now: real)
    ensures var r := Enrollment.VerifyCompletion(we, e, now, {}, None);
      r.Ok? ==> r.value.linkId == e.approval.approvalId && r.value.status == "active"
  {
    hide Enrollment.RequestProblem, Enrollment.ApprovalProblem, Enrollment.ClaimProblem,
      Enrollment.PresentationProblem, Enrollment.RequestHash, Enrollment.ReadSubject;
  }

  // ---- the empty link id ----

  lemma RecordNeedsId(ms: seq<Member>)
    requires "linkID" !in KeysOf(ms)
    ensures ReadRecord(Obj(ms)).None?
  {
    assert LinkModels.RECORD[0] == Wire.Required("linkID", Wire.KStr);
    assert Wire.ReadField(LinkModels.RECORD[0], ms).None?;
  }

  /** No member of a stored record reads as a record. */
  lemma NoMemberReads(r: LinkModels.Record, m: Member)
    requires m in RecordWire(r)
    ensures ReadRecord(m.value).None?
  {
    hide Wire.ToWire, Wire.FromWire, Wire.Written, LinkModels.BindingFields, LinkModels.DescriptorFields;
    var fs := LinkModels.RecordFields(r);
    Wire.MemberFrom(LinkModels.RECORD, fs, m);
    var i :| Wire.From(LinkModels.RECORD, fs, i, m);
    Wire.ObjectsAreModels(fs[i], LinkModels.RECORD[i]);
    if m.value.Obj? {
      ModelsOfRecord(r, i);
      NestedNeedsId(LinkModels.RECORD[i].kind.specs, fs[i].value.fields, m.value);
    }
  }

  lemma ModelsOfRecord(r: LinkModels.Record, i: int)
    requires 0 <= i < |LinkModels.RECORD| && LinkModels.RECORD[i].kind.KModel?
    ensures forall spec | spec in LinkModels.RECORD[i].kind.specs :: spec.key != "linkID"
  {
    assert LinkModels.RECORD[i].kind == Wire.KModel(LinkModels.BINDING)
      || LinkModels.RECORD[i].kind == Wire.KModel(LinkModels.DESCRIPTOR);
  }

  lemma NestedNeedsId(specs: seq<Wire.Spec>, fs: LinkModels.Fields, j: Json)
    requires forall spec | spec in specs :: spec.key != "linkID"
    requires Wire.ToWire(specs, fs).Some? && j == Obj(Wire.ToWire(specs, fs).value)
    ensures ReadRecord(j).None?
  {
    hide Wire.ToWire, Wire.FromWire, ReadRecord;
    forall i | 0 <= i < |j.members| ensures KeysOf(j.members)[i] != "linkID" {
      Wire.MemberFrom(specs, fs, j.members[i]);
    }
    RecordNeedsId(j.members);
  }

  /** What a completion of another link leaves of a link with a readable record: it still
      reads as a record, and is then the same, exactly if the other link's id is not empty. */
  lemma OtherRecordExactly(
    w: World, we: Enrollment.World, t: Json, e: LinkModels.Completion, now: real, id: string
  )
    requires Tidy(t) && (forall x :: w.same(x, x)) && Act(w, t, CompletionOp(we, e, now)).1
    requires id != "" && SafeKey(e.approval.approvalId) != SafeKey(id)
    requires RecordOf(w, t, id).Some? && ReadRecord(RecordOf(w, t, id).value).Some?
    ensures var after := RecordOf(w, Act(w, t, CompletionOp(we, e, now)).0, id);
      && (after.Some? && ReadRecord(after.value).Some? <==> e.approval.approvalId != "")
      && (e.approval.approvalId != "" ==> after == RecordOf(w, t, id))
  {
    hide Tidy, Plan, Act, RecordOf, Enrollment.VerifyCompletion, ReadRecord, RecordWire, ProofWire, SafeKey;
    var op := CompletionOp(we, e, now);
    if Enrollment.VerifyCompletion(we, e, now, {}, None).Err? { Unverified(w, we, t, e, now); }
    VerifiedRecord(we, e, now);
    if op.linkId != "" {
      RecordStays(w, t, op, id);
    } else {
      EmptyIdReplacesAll(w, t, op, id);
      MemberOnly(w, op.record, SafeKey(id));
      var r := Enrollment.VerifyCompletion(we, e, now, {}, None).value;
      forall m | m in RecordWire(r) ensures ReadRecord(m.value).None? { NoMemberReads(r, m); }
    }
  }

  lemma MemberOnly(w: World, ms: seq<Member>, k: string)
    ensures var v := GetPath(w.same, Obj(ms), [Key(k)]); v.Some? ==> exists m :: m in ms && m.value == v.value
  {
    assert [Key(k)][1..] == [];
    if k in KeysOf(ms) { assert ms[IndexOf(ms, k)] in ms; }
  }

  class EntityAnchor {
    const w: World
    var storage: Json

    constructor (w: World)
      ensures this.w == w && Tidy(storage) && SealOf(w, storage).None? && Used(storage) == Null
    {
      this.w := w;
      storage := Obj([Member("proofs", Obj([])), Member("identityLinks", Obj([]))]);
      new;
      EmptyAnchor(w);
    }

    method Store(p: Path, v: Json) returns (ok: bool)
      modifies this`storage
      ensures (storage, ok) == Set(w, old(storage), p, v)
    {
      var done := Set(w, storage, p, v);
      storage, ok := done.0, done.1;
    }

    method SealGenesis(proven: bool, seal: seq<Member>, record: seq<Member>, linkId: string) returns (ok: bool)
      modifies this`storage
      ensures (storage, ok) == Act(w, old(storage), Genesis(proven, seal, record, linkId))
    {
      hide SetPath, GetPath;
      if SealOf(w, storage).Some? || !proven {
        return false;
      }
      ghost var t := storage;
      ghost var both := Obj([Member("record", Obj(record)), Member("seal", Obj(seal))]);
      ThreeWrites(w, t, (SEAL, Obj(seal)), (RecordPath(linkId), Obj(record)), (ProofPath(linkId), both));
      ok := Store(SEAL, Obj(seal));
      if !ok { return; }
      ok := Store(RecordPath(linkId), Obj(record));
      if !ok { return; }
      ok := Store(ProofPath(linkId), Obj([Member("record", Obj(record)), Member("seal", Obj(seal))]));
    }

    method ApproveEnrollment(accepted: bool, approvalId: string, package: seq<Member>) returns (ok: bool)
      modifies this`storage
      ensures (storage, ok) == Act(w, old(storage), Approve(accepted, approvalId, package))
    {
      hide SetPath, GetPath;
      if !accepted {
        return false;
      }
      OneWrite(w, storage, (ApprovalPath(approvalId), Obj(package)));
      ok := Store(ApprovalPath(approvalId), Obj(package));
    }

    method CompleteEnrollment(
      verified: bool, jti: string, linkId: string, record: seq<Member>, proof: seq<Member>
    ) returns (ok: bool)
      modifies this`storage
      ensures (storage, ok) == Act(w, old(storage), Complete(verified, jti, linkId, record, proof))
    {
      hide SetPath, GetPath, IsUsed;
      if !verified || Strip(jti) == "" || IsUsed(storage, jti) {
        return false;
      }
      ThreeWrites(w, storage, (RecordPath(linkId), Obj(record)), (ProofPath(linkId), Obj(proof)),
        (UsedPath(jti), Str(jti)));
      ok := Store(RecordPath(linkId), Obj(record));
      if !ok { return; }
      ok := Store(ProofPath(linkId), Obj(proof));
      if !ok { return; }
      ok := Store(UsedPath(jti), Str(jti));
    }

    /** identityLinks.completeEnrollment: the envelope is read, checked against the ids in the
        storage, and recorded; None where it answers with an error. */
    method CompleteFromWire(we: Enrollment.World, payload: seq<Member>, now: real)
      returns (record: Option<LinkModels.Record>)
      modifies this`storage
      ensures var read := Enrollment.ReadCompletion(we, payload);
        if read.None? then storage == old(storage) && record.None?
        else
          && (storage, record.Some?) == Act(w, old(storage), CompletionOp(we, read.value, now))
          && (record.Some? ==> Enrollment.VerifyCompletion(we, read.value, now, {}, None) == Ok(record.value))
    {
      hide Enrollment.VerifyCompletion, Enrollment.ReadCompletion, IsUsed, Act, ProofWire, RecordWire;
      var read := Enrollment.ReadCompletion(we, payload);
      if read.None? {
        return None;
      }
      var e := read.value;
      var result := Enrollment.VerifyCompletion(we, e, now, UsedIds(storage), None);
      UsedOnlyRefuses(we, e, now, UsedIds(storage));
      if result.Err? {
        RefusedAct(w, storage, CompletionOp(we, e, now));
        return None;
      }
      var r := result.value;
      var ok := CompleteEnrollment(true, e.approval.jti, r.linkId, RecordWire(r), ProofWire(we, e, r));
      record := if ok then Some(r) else None;
    }

    method RevokeLink(linkId: string, now: real) returns (ok: bool)
      modifies this`storage
      ensures (storage, ok) == Act(w, old(storage), Revoke(linkId, now))
    {
      hide SetPath, GetPath;
      if IsGenesisLink(linkId) {
        return false;
      }
      var stored := GetPath(w.same, storage, RecordPath(linkId));
      if stored.None? || !stored.value.Obj? || !w.readsRecord(stored.value) {
        return false;
      }
      var after := Obj(w.revoked(stored.value, now));
      TwoWrites(w, storage, (RecordPath(linkId), after), (ProofPath(linkId) + [Key("record")], after));
      ok := Store(RecordPath(linkId), after);
      if !ok { return; }
      ok := Store(ProofPath(linkId) + [Key("record")], after);
    }
  }

  lemma RefusedAct(w: World, t: Json, op: Op)
    requires op.Complete? && (!op.verified || IsUsed(t, op.jti))
    ensures Act(w, t, op) == (t, false)
  {
  }

  lemma EmptyAnchor(w: World)
    ensures
      var t := Obj([Member("proofs", Obj([])), Member("identityLinks", Obj([]))]);
      Tidy(t) && SealOf(w, t).None? && Used(t) == Null
  {
    var ms := [Member("proofs", Obj([])), Member("identityLinks", Obj([]))];
    assert KeysOf(ms)[0] == "proofs" && KeysOf(ms)[1] == "identityLinks";
    assert At(Obj(ms), "proofs") == Obj([]);
    var i := IndexOf(ms, "identityLinks");
    assert i == 1;
    assert SEAL[1..] == Keys(["genesis"]);
    assert GetPath(w.same, Obj(ms), SEAL) == GetPath(w.same, Obj([]), Keys(["genesis"]));
  }

  lemma OneWrite(w: World, t: Json, a: (Path, Json))
    ensures Writes(w, t, [a]) == Set(w, t, a.0, a.1)
  {
    hide SetPath;
    assert [a][1..] == [];
  }

  lemma TwoWrites(w: World, t: Json, a: (Path, Json), b: (Path, Json))
    ensures var one := Set(w, t, a.0, a.1);
      Writes(w, t, [a, b]) == if !one.1 then one else Set(w, one.0, b.0, b.1)
  {
    hide SetPath;
    assert [a, b][1..] == [b];
    OneWrite(w, Set(w, t, a.0, a.1).0, b);
  }

  lemma ThreeWrites(w: World, t: Json, a: (Path, Json), b: (Path, Json), c: (Path, Json))
    ensures var one := Set(w, t, a.0, a.1);
      var two := Set(w, one.0, b.0, b.1);
      Writes(w, t, [a, b, c]) == if !one.1 then one else if !two.1 then two else Set(w, two.0, c.0, c.1)
  {
    hide SetPath;
    assert [a, b, c][1..] == [b, c];
    TwoWrites(w, Set(w, t, a.0, a.1).0, b, c);
  }
}
