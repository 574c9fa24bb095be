/** The entity anchor's identityLinks actions as writes to its storage tree. */
module Anchor {
  import opened Basics
  import opened Json
  import opened PyText
  import opened KeyPath
  import KeyPathText

  // ---- key paths below the anchor's roots ----

  predicate SafeChar(c: char) {
    'A' <= c <= 'Z' || 'a' <= c <= 'z' || '0' <= c <= '9' || c == '_' || c == '-'
  }

  predicate Safe(s: string) {
    forall c | c in s :: SafeChar(c)
  }

  /** safe_record_key. */
  function SafeKey(id: string): (k: string)
    ensures |k| == |id| && Safe(k)
  {
    if id == "" then "" else [if SafeChar(id[0]) then id[0] else '_'] + SafeKey(id[1..])
  }

  /** Letters, digits, _ and - stay, and any other character becomes _. */
  lemma {:induction false} SafeKeySays(id: string, i: nat)
    requires i < |id|
    ensures var c := id[i];
      SafeKey(id)[i] ==
        if 'A' <= c <= 'Z' || 'a' <= c <= 'z' || '0' <= c <= '9' || c == '_' || c == '-' then c else '_'
  {
    if i > 0 {
      SafeKeySays(id[1..], i - 1);
    }
  }

  lemma {:induction false} SafeIsItself(id: string)
    requires Safe(id)
    ensures SafeKey(id) == id
  {
    if id != "" {
      assert id[0] in id && forall c | c in id[1..] :: c in id;
      SafeIsItself(id[1..]);
      assert id == [id[0]] + id[1..];
    }
  }

  function Keys(ks: seq<string>): (p: Path)
    ensures |p| == |ks| && forall i | 0 <= i < |ks| :: p[i] == Key(ks[i])
  {
    seq(|ks|, i requires 0 <= i < |ks| => Key(ks[i]))
  }

  function Dotted(ks: seq<string>): string {
    if ks == [] then "" else if |ks| == 1 then ks[0] else ks[0] + "." + Dotted(ks[1..])
  }

  lemma {:induction false} DottedFrom(ks: seq<string>)
    requires ks != [] && forall k | k in ks :: KeyPathText.PlainName(k)
    ensures KeyPathText.ParseFrom(Dotted(ks), "") == Some(Keys(ks))
    decreases |ks|
  {
    assert ks[0] in ks && forall k | k in ks[1..] :: k in ks;
    if |ks| == 1 {
      DottedLast(ks[0]);
      assert Keys(ks) == [Key(ks[0])];
    } else {
      DottedFrom(ks[1..]);
      DottedNext(ks[0], Dotted(ks[1..]));
      assert Keys(ks) == [Key(ks[0])] + Keys(ks[1..]);
    }
  }

  lemma DottedLast(k: string)
    requires KeyPathText.PlainName(k)
    ensures KeyPathText.ParseFrom(k, "") == Some([Key(k)])
  {
    KeyPathText.ReadKey(k, "", "");
    assert k + "" == k && "" + k == k;
  }

  lemma DottedNext(k: string, rest: string)
    requires KeyPathText.PlainName(k)
    ensures KeyPathText.ParseFrom(k + "." + rest, "") == KeyPathText.Prepend([Key(k)], KeyPathText.ParseFrom(rest, ""))
  {
    assert k + "." + rest == k + ("." + rest);
    KeyPathText.ReadKey(k, "." + rest, "");
    assert "" + k == k && ("." + rest)[1..] == rest;
  }

  lemma {:induction false} DottedEnds(ks: seq<string>)
    requires ks != [] && forall k | k in ks :: KeyPathText.PlainName(k)
    ensures var s := Dotted(ks); s != "" && !IsWhite(s[0]) && !IsWhite(s[|s| - 1])
    decreases |ks|
  {
    assert ks[0] in ks && forall k | k in ks[1..] :: k in ks;
    if |ks| > 1 {
      DottedEnds(ks[1..]);
    }
  }

  /** The key path texts the actions build mean what they say. */
  lemma ParseDotted(ks: seq<string>)
    requires ks != [] && forall k | k in ks :: KeyPathText.PlainName(k)
    ensures KeyPathText.Parse(Dotted(ks)) == Some(Keys(ks)) && Plain(Keys(ks))
  {
    DottedFrom(ks);
    DottedEnds(ks);
    StripKeeps(Dotted(ks));
  }

  lemma SafeIsPlainName(k: string)
    requires k != "" && Safe(k)
    ensures KeyPathText.PlainName(k)
  {
    assert k[0] in k && k[|k| - 1] in k;
  }

  /** A text that ends in an open last name is the path without it. */
  lemma {:induction false} DottedOpen(ks: seq<string>)
    requires ks != [] && forall k | k in ks :: KeyPathText.PlainName(k)
    ensures KeyPathText.ParseFrom(Dotted(ks) + ".", "") == Some(Keys(ks))
    decreases |ks|
  {
    assert ks[0] in ks && forall k | k in ks[1..] :: k in ks;
    if |ks| == 1 {
      DottedNext(ks[0], "");
      assert ks[0] + "." + "" == Dotted(ks) + ".";
      assert Keys(ks) == [Key(ks[0])] + [];
    } else {
      DottedOpen(ks[1..]);
      DottedNext(ks[0], Dotted(ks[1..]) + ".");
      assert ks[0] + "." + (Dotted(ks[1..]) + ".") == Dotted(ks) + ".";
      assert Keys(ks) == [Key(ks[0])] + Keys(ks[1..]);
    }
  }

  lemma ParseOpen(ks: seq<string>)
    requires ks != [] && forall k | k in ks :: KeyPathText.PlainName(k)
    ensures KeyPathText.Parse(Dotted(ks) + ".") == Some(Keys(ks))
  {
    DottedOpen(ks);
    DottedEnds(ks);
    StripKeeps(Dotted(ks) + ".");
  }

  lemma ParseBelow(a: string, b: string, id: string)
    requires KeyPathText.PlainName(a) && KeyPathText.PlainName(b)
    ensures KeyPathText.Parse(Dotted([a, b, SafeKey(id)])) == Some(Below(a, b, id))
    ensures KeyPathText.Parse(Dotted([a, b, SafeKey(id), "record"])) == Some(Below(a, b, id) + [Key("record")])
  {
    hide KeyPathText.Parse, KeyPathText.PlainName, SafeKey;
    assert KeyPathText.PlainName("record") by { SafeIsPlainName("record"); }
    if id == "" {
      assert SafeKey(id) == "" && Keys([a, b]) == Below(a, b, id);
      ParseOpen([a, b]);
      assert Dotted([a, b, ""]) == Dotted([a, b]) + "." by { DottedEmpty(a, b); }
      ParseGap(a, b);
      assert [a, b, SafeKey(id), "record"] == [a, b, "", "record"] && Below(a, b, id) == [Key(a), Key(b)];
    } else {
      SafeIsPlainName(SafeKey(id));
      ParseDotted([a, b, SafeKey(id)]);
      ParseDotted([a, b, SafeKey(id), "record"]);
      assert Keys([a, b, SafeKey(id)]) == Below(a, b, id);
      assert Keys([a, b, SafeKey(id), "record"]) == Below(a, b, id) + [Key("record")];
    }
  }

  lemma DottedEmpty(a: string, b: string)
    ensures Dotted([a, b]) == a + "." + b
    ensures Dotted([a, b, ""]) == Dotted([a, b]) + "."
    ensures Dotted([a, b, "", "record"]) == a + "." + (b + "." + ".record")
  {
    assert [a, b, ""][1..] == [b, ""] && [b, ""][1..] == [""] && [a, b][1..] == [b];
    assert Dotted([b, ""]) == b + "." + "" && Dotted([b]) == b;
    assert a + "." + (b + "." + "") == a + "." + b + ".";
    assert [a, b, "", "record"][1..] == [b, "", "record"] && [b, "", "record"][1..] == ["", "record"];
    assert ["", "record"][1..] == ["record"];
    assert Dotted(["", "record"]) == ".record";
    assert Dotted([b, "", "record"]) == b + "." + ".record";
  }

  lemma ParseRecord()
    ensures KeyPathText.ParseFrom(".record", "") == Some([Key("record")])
  {
    SafeIsPlainName("record");
    DottedLast("record");
    assert ".record"[0] == '.' && ".record"[1..] == "record";
    assert KeyPathText.ParseFrom(".record", "") == KeyPathText.Prepend([], KeyPathText.ParseFrom("record", ""));
    assert [] + [Key("record")] == [Key("record")];
  }

  /** An empty name in between is passed over. */
  lemma ParseGap(a: string, b: string)
    requires KeyPathText.PlainName(a) && KeyPathText.PlainName(b)
    ensures KeyPathText.Parse(Dotted([a, b, "", "record"])) == Some([Key(a), Key(b)] + [Key("record")])
  {
    hide KeyPathText.PlainName, KeyPathText.ParseFrom;
    DottedEmpty(a, b);
    ParseRecord();
    DottedNext(b, ".record");
    DottedNext(a, b + "." + ".record");
    var s := Dotted([a, b, "", "record"]);
    assert [Key(a)] + ([Key(b)] + [Key("record")]) == [Key(a), Key(b)] + [Key("record")];
    DottedEnds([a]);
    assert Dotted([a]) == a && s[0] == a[0] && s[|s| - 1] == 'd';
    StripKeeps(s);
  }

  /** The texts of the source parse to the paths used here, for every id. */
  lemma ActionPathsParse(id: string)
    ensures KeyPathText.Parse(Dotted(["identityLinks", "records", SafeKey(id)])) == Some(RecordPath(id))
    ensures KeyPathText.Parse(Dotted(["proofs", "identityLinks", SafeKey(id)])) == Some(ProofPath(id))
    ensures KeyPathText.Parse(Dotted(["identityLinks", "approvals", SafeKey(id)])) == Some(ApprovalPath(id))
    ensures KeyPathText.Parse(Dotted(["identityLinks", "usedApprovalJTIs", SafeKey(id)])) == Some(UsedPath(id))
    ensures KeyPathText.Parse(Dotted(["proofs", "identityLinks", SafeKey(id), "record"]))
         == Some(ProofPath(id) + [Key("record")])
  {
    hide KeyPathText.Parse, KeyPathText.PlainName, Dotted, SafeKey, Below;
    RootsArePlain();
    ParseBelow("identityLinks", "records", id);
    ParseBelow("proofs", "identityLinks", id);
    ParseBelow("identityLinks", "approvals", id);
    ParseBelow("identityLinks", "usedApprovalJTIs", id);
  }

  lemma RootsArePlain()
    ensures KeyPathText.PlainName("identityLinks") && KeyPathText.PlainName("records")
    ensures KeyPathText.PlainName("approvals") && KeyPathText.PlainName("proofs")
    ensures KeyPathText.PlainName("usedApprovalJTIs")
  {
    hide KeyPathText.PlainName;
    SafeIsPlainName("identityLinks");
    SafeIsPlainName("records");
    SafeIsPlainName("approvals");
    SafeIsPlainName("proofs");
    SafeIsPlainName("usedApprovalJTIs");
  }

  // ---- the storage ----

  /** Python's ==, the wire models that read a seal and a record, and a revoked record. */
  datatype World = World(
    same: Equality,
    readsSeal: Json -> bool,
    readsRecord: Json -> bool,
    revoked: (Json, real) -> seq<Member>)

  /** The last name of a path text for an id; a text drops it where it is empty, and the path
      is then the one of the whole dict. */
  function Tail(id: string): Path {
    if id == "" then [] else [Key(SafeKey(id))]
  }

  function Below(a: string, b: string, id: string): Path {
    [Key(a), Key(b)] + Tail(id)
  }

  const SEAL := Keys(["identityLinks", "genesis"])

  function RecordPath(id: string): Path { Below("identityLinks", "records", id) }

  function ProofPath(id: string): Path { Below("proofs", "identityLinks", id) }

  function ApprovalPath(id: string): Path { Below("identityLinks", "approvals", id) }

  function UsedPath(jti: string): Path { Below("identityLinks", "usedApprovalJTIs", jti) }

  function Set(w: World, t: Json, p: Path, v: Json): (Json, bool) {
    SetPath(w.same, t, p, v)
  }

  /** genesis_seal: the stored seal, if there is one that reads as a seal. */
  function SealOf(w: World, t: Json): Option<Json> {
    var v := GetPath(w.same, t, SEAL);
    if v.Some? && v.value.Obj? && w.readsSeal(v.value) then v else None
  }

  /** _used_approval_jtis: texts stand for themselves, other values for their key. */
  predicate IsUsed(t: Json, jti: string) {
    var used := At(At(t, "identityLinks"), "usedApprovalJTIs");
    used.Obj? && exists m | m in used.members :: (if m.value.Str? then m.value.s else m.key) == jti
  }

  /** A completion is refused when its id is among the used ones, and notes it under a key
      made from it; the seal of the genesis is written once. */
  datatype Op =
    | Genesis(proven: bool, seal: seq<Member>, record: seq<Member>, linkId: string)
    | Approve(accepted: bool, approvalId: string, package: seq<Member>)
    | Complete(verified: bool, jti: string, linkId: string, record: seq<Member>, proof: seq<Member>)
    | Revoke(linkId: string, now: real)

  /** The writes of one action in turn, up to the first that raises. */
  function Writes(w: World, t: Json, ws: seq<(Path, Json)>): (Json, bool)
    decreases |ws|
  {
    if ws == [] then (t, true) else
      var (u, ok) := Set(w, t, ws[0].0, ws[0].1);
      if !ok then (u, false) else Writes(w, u, ws[1..])
  }

  predicate IsGenesisLink(id: string) {
    "genesis-" <= id
  }

  /** What an action writes; None where it refuses. `verified` stands for every check of
      verify_completion but those of the approval's id. */
  function Plan(w: World, t: Json, op: Op): Option<seq<(Path, Json)>> {
    match op
    case Genesis(proven, seal, record, linkId) =>
      if SealOf(w, t).Some? || !proven then None
      else Some([(SEAL, Obj(seal)), (RecordPath(linkId), Obj(record)),
        (ProofPath(linkId), Obj([Member("record", Obj(record)), Member("seal", Obj(seal))]))])
    case Approve(accepted, id, package) => if !accepted then None else Some([(ApprovalPath(id), Obj(package))])
    case Complete(verified, jti, linkId, record, proof) =>
      if !verified || Strip(jti) == "" || IsUsed(t, jti) then None
      else Some([(RecordPath(linkId), Obj(record)), (ProofPath(linkId), Obj(proof)), (UsedPath(jti), Str(jti))])
    case Revoke(linkId, now) =>
      var stored := GetPath(w.same, t, RecordPath(linkId));
      if IsGenesisLink(linkId) || stored.None? || !stored.value.Obj? || !w.readsRecord(stored.value) then None
      else
        var after := Obj(w.revoked(stored.value, now));
        Some([(RecordPath(linkId), after), (ProofPath(linkId) + [Key("record")], after)])
  }

  /** One action: the storage afterwards, and whether it answered other than an error. */
  function Act(w: World, t: Json, op: Op): (Json, bool) {
    var plan := Plan(w, t, op);
    if plan.None? then (t, false) else Writes(w, t, plan.value)
  }

  function Run(w: World, t: Json, ops: seq<Op>): Json
    decreases |ops|
  {
    if ops == [] then t else Run(w, Act(w, t, ops[0]).0, ops[1..])
  }

  /** An approval's id is over [A-Za-z0-9_-]. */
  predicate ProperIds(op: Op) {
    op.Complete? ==> Safe(op.jti)
  }

  /** Another approval id that is noted under the same key. */
  predicate Collides(a: string, b: string) {
    a != b && SafeKey(a) == SafeKey(b)
  }

  // ---- what the writes leave alone ----

  ghost predicate Elsewhere(p: Path, q: Path) {
    Plain(p) && Plain(q) && Diverge(p, q)
  }

  lemma {:induction false} WritesElsewhere(w: World, t: Json, ws: seq<(Path, Json)>, q: Path)
    requires forall x | x in ws :: Elsewhere(x.0, q)
    requires GetPath(w.same, t, q).Some?
    ensures GetPath(w.same, Writes(w, t, ws).0, q) == GetPath(w.same, t, q)
    decreases |ws|
  {
    hide SetPath, GetPath, Diverge, Plain;
    if ws != [] {
      assert ws[0] in ws && forall x | x in ws[1..] :: x in ws;
      SetElsewhere(w, t, ws[0].0, ws[0].1, q);
      WritesElsewhere(w, Set(w, t, ws[0].0, ws[0].1).0, ws[1..], q);
    }
  }

  lemma SetElsewhere(w: World, t: Json, p: Path, v: Json, q: Path)
    requires Elsewhere(p, q) && GetPath(w.same, t, q).Some?
    ensures GetPath(w.same, Set(w, t, p, v).0, q) == GetPath(w.same, t, q)
  {
    hide SetPath, GetPath, Diverge, Plain;
    if SetPath(w.same, t, p, v).1 {
      SetLeavesOthers(w.same, t, p, v, q);
    } else {
      PlainIsSure(p);
      FailureChangesNothing(w.same, t, p, v);
    }
  }

  lemma SealIsPlain()
    ensures Plain(SEAL) && |SEAL| == 2 && SEAL[0] == Key("identityLinks") && SEAL[1] == Key("genesis")
  {
  }

  lemma BelowIsPlain(a: string, b: string, id: string)
    ensures var p := Below(a, b, id); |p| > 1 && p[0] == Key(a) && p[1] == Key(b) && Plain(p)
    ensures Plain(Below(a, b, id) + [Key("record")])
  {
  }

  lemma PartAt0(p: Path, q: Path)
    requires p != [] && q != [] && p[0] != q[0]
    ensures Diverge(p, q)
  {
  }

  lemma PartAt1(p: Path, q: Path)
    requires |p| > 1 && |q| > 1 && p[1] != q[1]
    ensures Diverge(p, q)
  {
    assert p[1..][0] == p[1] && q[1..][0] == q[1];
  }

  lemma PartAt2(p: Path, q: Path)
    requires |p| > 2 && |q| > 2 && p[2] != q[2]
    ensures Diverge(p, q)
  {
    PartAt1(p[1..], q[1..]);
  }

  // ---- the seal never changes ----

  lemma SealApart(id: string)
    ensures forall p |
      p in [RecordPath(id), ProofPath(id), ApprovalPath(id), UsedPath(id), ProofPath(id) + [Key("record")]] ::
      Elsewhere(p, SEAL)
  {
    SealIsPlain();
    BelowIsPlain("identityLinks", "records", id);
    BelowIsPlain("proofs", "identityLinks", id);
    BelowIsPlain("identityLinks", "approvals", id);
    BelowIsPlain("identityLinks", "usedApprovalJTIs", id);
    PartAt1(RecordPath(id), SEAL);
    PartAt0(ProofPath(id), SEAL);
    PartAt1(ApprovalPath(id), SEAL);
    PartAt1(UsedPath(id), SEAL);
    PartAt0(ProofPath(id) + [Key("record")], SEAL);
  }

  lemma ActKeepsSeal(w: World, t: Json, op: Op)
    requires SealOf(w, t).Some?
    ensures SealOf(w, Act(w, t, op).0) == SealOf(w, t)
  {
    hide SetPath, GetPath, Diverge, Plain, Writes, RecordPath, ProofPath, ApprovalPath, UsedPath, IsUsed;
    var plan := Plan(w, t, op);
    if plan.Some? {
      SealApart(if op.Approve? then op.approvalId else op.linkId);
      if op.Complete? { SealApart(op.jti); }
      WritesElsewhere(w, t, plan.value, SEAL);
    }
  }

  /** The stored genesis seal is the same after any run, and no second genesis happens. */
  lemma {:induction false} SealIsForever(w: World, t: Json, ops: seq<Op>)
    requires SealOf(w, t).Some?
    ensures SealOf(w, Run(w, t, ops)) == SealOf(w, t)
    ensures forall proven, seal, record, id :: !Act(w, Run(w, t, ops), Genesis(proven, seal, record, id)).1
    decreases |ops|
  {
    hide Act, SealOf, Writes;
    if ops == [] {
      forall proven, seal, record, id ensures !Act(w, t, Genesis(proven, seal, record, id)).1 {
        SealedRefuses(w, t, Genesis(proven, seal, record, id));
      }
    } else {
      ActKeepsSeal(w, t, ops[0]);
      SealIsForever(w, Act(w, t, ops[0]).0, ops[1..]);
    }
  }

  lemma SealedRefuses(w: World, t: Json, op: Op)
    requires SealOf(w, t).Some? && op.Genesis?
    ensures Act(w, t, op) == (t, false)
  {
  }

  // ---- an approval completes once ----

  /** The entry of an approval id stands under its own key. */
  ghost predicate Noted(w: World, t: Json, jti: string) {
    jti != "" && GetPath(w.same, t, UsedPath(jti)) == Some(Str(jti))
  }

  lemma NotedIsUsed(w: World, t: Json, jti: string)
    requires Noted(w, t, jti)
    ensures IsUsed(t, jti)
  {
    var p := UsedPath(jti);
    var links := At(t, "identityLinks");
    var used := At(links, "usedApprovalJTIs");
    assert p[1..] == [Key("usedApprovalJTIs"), Key(SafeKey(jti))] && p[1..][1..] == [Key(SafeKey(jti))]
      && p[1..][1..][1..] == [];
    assert GetPath(w.same, t, p) == GetPath(w.same, links, p[1..]);
    assert GetPath(w.same, links, p[1..]) == GetPath(w.same, used, p[1..][1..]);
    var i := IndexOf(used.members, SafeKey(jti));
    assert GetPath(w.same, used, p[1..][1..]) == GetPath(w.same, At(used, SafeKey(jti)), []);
    assert used.members[i] in used.members;
  }

  lemma UsedApart(jti: string, id: string)
    ensures forall p | p in [SEAL, RecordPath(id), ProofPath(id), ApprovalPath(id), ProofPath(id) + [Key("record")]] ::
      Elsewhere(p, UsedPath(jti))
  {
    SealIsPlain();
    BelowIsPlain("identityLinks", "records", id);
    BelowIsPlain("proofs", "identityLinks", id);
    BelowIsPlain("identityLinks", "approvals", id);
    BelowIsPlain("identityLinks", "usedApprovalJTIs", jti);
    PartAt1(SEAL, UsedPath(jti));
    PartAt1(RecordPath(id), UsedPath(jti));
    PartAt0(ProofPath(id), UsedPath(jti));
    PartAt1(ApprovalPath(id), UsedPath(jti));
    PartAt0(ProofPath(id) + [Key("record")], UsedPath(jti));
  }

  lemma OtherJtiApart(jti: string, other: string)
    requires SafeKey(jti) != SafeKey(other) && jti != "" && other != ""
    ensures Elsewhere(UsedPath(other), UsedPath(jti))
  {
    BelowIsPlain("identityLinks", "usedApprovalJTIs", jti);
    BelowIsPlain("identityLinks", "usedApprovalJTIs", other);
    PartAt2(UsedPath(other), UsedPath(jti));
  }

  lemma SafeIdsApart(a: string, b: string)
    requires Safe(a) && Safe(b)
    ensures !Collides(a, b)
  {
    SafeIsItself(a);
    SafeIsItself(b);
  }

  lemma ActKeepsNote(w: World, t: Json, op: Op, jti: string)
    requires Noted(w, t, jti) && !(op.Complete? && Collides(op.jti, jti))
    ensures Noted(w, Act(w, t, op).0, jti)
  {
    hide SetPath, GetPath, Diverge, Plain, Writes, RecordPath, ProofPath, ApprovalPath, UsedPath, IsUsed, SealOf,
      SafeKey;
    var plan := Plan(w, t, op);
    if plan.Some? {
      UsedApart(jti, if op.Approve? then op.approvalId else op.linkId);
      if op.Complete? {
        NotedIsUsed(w, t, jti);
        BlankIsBlank();
        OtherJtiApart(jti, op.jti);
      }
      WritesElsewhere(w, t, plan.value, UsedPath(jti));
    }
  }

  lemma BlankIsBlank()
    ensures Strip("") == ""
  {
  }

  /** The last write of a plan is there afterwards. */
  lemma CompletedIsNoted(w: World, t: Json, op: Op)
    requires op.Complete? && Act(w, t, op).1 && forall x :: w.same(x, x)
    ensures Noted(w, Act(w, t, op).0, op.jti)
  {
    hide SetPath, GetPath, RecordPath, ProofPath, IsUsed;
    var ws := Plan(w, t, op).value;
    var t1 := Set(w, t, ws[0].0, ws[0].1).0;
    assert ws[1..][0] == ws[1] && ws[1..][1..] == [ws[2]];
    var t2 := Set(w, t1, ws[1].0, ws[1].1).0;
    assert Writes(w, t, ws) == Writes(w, t1, ws[1..]);
    assert Writes(w, t1, ws[1..]) == Writes(w, t2, [ws[2]]);
    var t3 := Set(w, t2, ws[2].0, ws[2].1);
    assert [ws[2]][1..] == [];
    assert Writes(w, t2, [ws[2]]) == t3;
    BlankIsBlank();
    PlainIsLookups(UsedPath(op.jti));
    GetAfterSet(w.same, t2, ws[2].0, ws[2].1);
  }

  lemma PlainIsLookups(p: Path)
    requires Plain(p)
    ensures Lookups(p)
  {
  }

  lemma {:induction false} NoteIsForever(w: World, t: Json, ops: seq<Op>, jti: string)
    requires Noted(w, t, jti) && forall op | op in ops && op.Complete? :: !Collides(op.jti, jti)
    ensures Noted(w, Run(w, t, ops), jti)
    decreases |ops|
  {
    hide Act, Noted, Collides;
    if ops != [] {
      assert ops[0] in ops && forall op | op in ops[1..] :: op in ops;
      ActKeepsNote(w, t, ops[0], jti);
      NoteIsForever(w, Act(w, t, ops[0]).0, ops[1..], jti);
    }
  }

  /** Once an approval has completed, every later completion with its id is refused and
      writes nothing, whatever it carries, as long as no id that collides with it comes in
      between: a revoked link is not brought back that way. */
  lemma CompletesOnce(w: World, t: Json, first: Op, ops: seq<Op>, again: Op)
    requires first.Complete? && again.Complete? && again.jti == first.jti
    requires Act(w, t, first).1 && (forall x :: w.same(x, x))
    requires forall op | op in ops && op.Complete? :: !Collides(op.jti, first.jti)
    ensures var later := Run(w, Act(w, t, first).0, ops);
      Act(w, later, again) == (later, false)
  {
    hide Noted, Collides, Writes, IsUsed, Run;
    CompletedIsNoted(w, t, first);
    NoteIsForever(w, Act(w, t, first).0, ops, first.jti);
    NotedIsUsed(w, Run(w, Act(w, t, first).0, ops), first.jti);
  }

  /** Ids over [A-Za-z0-9_-] never collide. */
  lemma SafeCompletesOnce(w: World, t: Json, first: Op, ops: seq<Op>, again: Op)
    requires first.Complete? && again.Complete? && again.jti == first.jti && ProperIds(first)
    requires Act(w, t, first).1 && (forall x :: w.same(x, x)) && forall op | op in ops :: ProperIds(op)
    ensures var later := Run(w, Act(w, t, first).0, ops);
      Act(w, later, again) == (later, false)
  {
    hide Act, Run, Safe, Collides;
    forall op | op in ops && op.Complete? ensures !Collides(op.jti, first.jti) {
      SafeIdsApart(op.jti, first.jti);
    }
    CompletesOnce(w, t, first, ops, again);
  }

  // ---- ids outside the alphabet ----

  function Used(t: Json): Json {
    At(At(t, "identityLinks"), "usedApprovalJTIs")
  }

  lemma UsedAfterSet(w: World, t: Json, k: string, v: Json)
    requires t.Obj? && At(t, "identityLinks").Obj? && (Used(t) == Null || Used(t).Obj?)
    ensures var (u, ok) := Set(w, t, [Key("identityLinks"), Key("usedApprovalJTIs"), Key(k)], v);
      ok && u.Obj? && At(u, "identityLinks").Obj?
      && Used(u) == Obj(Put(if Used(t).Obj? then Used(t).members else [], k, v))
  {
    var p := [Key("identityLinks"), Key("usedApprovalJTIs"), Key(k)];
    var links := At(t, "identityLinks");
    var used := OrEmpty(Used(t), p[2..]);
    assert p[1..][1..] == p[2..];
    var inner := Obj(Put(used.members, k, v));
    assert SetPath(w.same, used, p[2..], v) == (inner, true);
    var middle := Obj(Put(links.members, "usedApprovalJTIs", inner));
    assert SetPath(w.same, links, p[1..], v) == (middle, true);
    PutMember(links.members, "usedApprovalJTIs", inner, "");
    PutMember(t.members, "identityLinks", middle, "");
    assert SetPath(w.same, t, p, v) == (Obj(Put(t.members, "identityLinks", middle)), true);
  }

  // ---- a completion is whole ----

  predicate Room(v: Json) {
    v == Null || v.Obj?
  }

  /** The shape the constructor gives the storage and every action keeps. */
  predicate Tidy(t: Json) {
    && t.Obj? && At(t, "identityLinks").Obj? && At(t, "proofs").Obj?
    && Room(At(At(t, "identityLinks"), "records")) && Room(At(At(t, "identityLinks"), "approvals")) && Room(Used(t))
    && Room(At(At(t, "proofs"), "identityLinks"))
  }

  lemma SetBelow(w: World, t: Json, a: string, b: string, rest: Path, v: Json, other: string, sibling: string)
    requires t.Obj? && At(t, a).Obj? && Room(At(At(t, a), b))
    requires Plain(rest) && if rest == [] then v.Obj? else rest[0].Key?
    ensures var (u, ok) := Set(w, t, [Key(a), Key(b)] + rest, v);
      && u.Obj? && At(u, a).Obj? && Room(At(At(u, a), b))
      && (other != a ==> At(u, other) == At(t, other))
      && (sibling != b ==> At(At(u, a), sibling) == At(At(t, a), sibling))
      && (|rest| <= 1 ==> ok)
  {
    var p := [Key(a), Key(b)] + rest;
    var links := At(t, a);
    assert p[1..] == [Key(b)] + rest && p[1..][1..] == rest;
    var done := if rest == [] then (v, true) else SetPath(w.same, OrEmpty(At(links, b), rest), rest, v);
    var middle := Obj(Put(links.members, b, done.0));
    assert SetPath(w.same, links, p[1..], v) == (middle, done.1);
    assert SetPath(w.same, t, p, v) == (Obj(Put(t.members, a, middle)), done.1);
    PutMember(links.members, b, done.0, sibling);
    PutMember(t.members, a, middle, other);
  }

  lemma SetTidy(w: World, t: Json, a: string, b: string, rest: Path, v: Json)
    requires Tidy(t) && Plain(rest) && if rest == [] then v.Obj? else rest[0].Key?
    requires (a == "identityLinks" && b in ["records", "approvals", "usedApprovalJTIs"])
      || (a == "proofs" && b == "identityLinks")
    ensures var (u, ok) := Set(w, t, [Key(a), Key(b)] + rest, v); Tidy(u) && (|rest| <= 1 ==> ok)
  {
    hide SetPath, At, Plain;
    forall other, sibling
      ensures var (u, ok) := Set(w, t, [Key(a), Key(b)] + rest, v);
        && u.Obj? && At(u, a).Obj? && Room(At(At(u, a), b))
        && (other != a ==> At(u, other) == At(t, other))
        && (sibling != b ==> At(At(u, a), sibling) == At(At(t, a), sibling))
        && (|rest| <= 1 ==> ok)
    {
      SetBelow(w, t, a, b, rest, v, other, sibling);
    }
  }

  lemma TailsArePlain(id: string)
    ensures Plain(Tail(id)) && |Tail(id)| <= 1 && (Tail(id) != [] ==> Tail(id)[0].Key?)
    ensures Tail(id) == [] <==> id == ""
    ensures var two := Tail(id) + [Key("record")];
      && Plain(two) && two[0].Key?
      && ProofPath(id) + [Key("record")] == [Key("proofs"), Key("identityLinks")] + two
  {
  }

  /** Any one write of an action. */
  lemma WriteTidy(w: World, t: Json, p: Path, v: Json, id: string)
    requires Tidy(t) && (v.Obj? || id != "")
    requires p in [SEAL, RecordPath(id), ProofPath(id), ApprovalPath(id), UsedPath(id), ProofPath(id) + [Key("record")]]
    ensures Tidy(Set(w, t, p, v).0)
    ensures p in [SEAL, RecordPath(id), ProofPath(id), ApprovalPath(id), UsedPath(id)] ==> Set(w, t, p, v).1
  {
    hide SetPath, At, Tidy, Tail, Plain;
    TailsArePlain(id);
    var one, two := Tail(id), Tail(id) + [Key("record")];
    if p == SEAL {
      SealTidy(w, t, v);
    } else if p == RecordPath(id) {
      SetTidy(w, t, "identityLinks", "records", one, v);
    } else if p == ProofPath(id) {
      SetTidy(w, t, "proofs", "identityLinks", one, v);
    } else if p == ApprovalPath(id) {
      SetTidy(w, t, "identityLinks", "approvals", one, v);
    } else if p == UsedPath(id) {
      SetTidy(w, t, "identityLinks", "usedApprovalJTIs", one, v);
    } else {
      SetTidy(w, t, "proofs", "identityLinks", two, v);
    }
  }

  lemma SealTidy(w: World, t: Json, v: Json)
    requires Tidy(t)
    ensures Tidy(Set(w, t, SEAL, v).0) && Set(w, t, SEAL, v).1
  {
    var links := At(t, "identityLinks");
    assert SEAL[1..] == Keys(["genesis"]);
    var middle := Obj(Put(links.members, "genesis", v));
    assert SetPath(w.same, links, SEAL[1..], v) == (middle, true);
    assert SetPath(w.same, t, SEAL, v) == (Obj(Put(t.members, "identityLinks", middle)), true);
    PutMember(links.members, "genesis", v, "records");
    PutMember(links.members, "genesis", v, "approvals");
    PutMember(links.members, "genesis", v, "usedApprovalJTIs");
    PutMember(t.members, "identityLinks", middle, "proofs");
  }

  ghost predicate Own(p: Path, v: Json) {
    exists id :: OwnBy(p, id) && (v.Obj? || id != "")
  }

  ghost predicate OwnBy(p: Path, id: string) {
    p in [SEAL, RecordPath(id), ProofPath(id), ApprovalPath(id), UsedPath(id), ProofPath(id) + [Key("record")]]
  }

  lemma {:induction false} WritesTidy(w: World, t: Json, ws: seq<(Path, Json)>)
    requires Tidy(t) && forall x | x in ws :: Own(x.0, x.1)
    ensures Tidy(Writes(w, t, ws).0)
    decreases |ws|
  {
    hide SetPath, Tidy, RecordPath, ProofPath, ApprovalPath, UsedPath;
    if ws != [] {
      assert ws[0] in ws && forall x | x in ws[1..] :: x in ws;
      var id :| OwnBy(ws[0].0, id) && (ws[0].1.Obj? || id != "");
      WriteTidy(w, t, ws[0].0, ws[0].1, id);
      WritesTidy(w, Set(w, t, ws[0].0, ws[0].1).0, ws[1..]);
    }
  }

  lemma ActTidy(w: World, t: Json, op: Op)
    requires Tidy(t)
    ensures Tidy(Act(w, t, op).0)
  {
    hide SetPath, GetPath, Tidy, RecordPath, ProofPath, ApprovalPath, UsedPath, Writes, IsUsed, SealOf;
    var plan := Plan(w, t, op);
    if plan.Some? {
      var id := if op.Approve? then op.approvalId else op.linkId;
      assert OwnBy(SEAL, id) && OwnBy(RecordPath(id), id) && OwnBy(ProofPath(id), id) && OwnBy(ApprovalPath(id), id)
        && OwnBy(ProofPath(id) + [Key("record")], id);
      if op.Complete? {
        BlankIsBlank();
        assert OwnBy(UsedPath(op.jti), op.jti);
      }
      WritesTidy(w, t, plan.value);
    }
  }

  lemma {:induction false} RunTidy(w: World, t: Json, ops: seq<Op>)
    requires Tidy(t)
    ensures Tidy(Run(w, t, ops))
    decreases |ops|
  {
    hide Act, Tidy;
    if ops != [] {
      ActTidy(w, t, ops[0]);
      RunTidy(w, Act(w, t, ops[0]).0, ops[1..]);
    }
  }

  /** A write of a whole entry. */
  ghost predicate Whole(p: Path, v: Json) {
    exists id :: WholeBy(p, id) && (v.Obj? || id != "")
  }

  ghost predicate WholeBy(p: Path, id: string) {
    p in [SEAL, RecordPath(id), ProofPath(id), ApprovalPath(id), UsedPath(id)]
  }

  lemma {:induction false} WholeWrites(w: World, t: Json, ws: seq<(Path, Json)>)
    requires Tidy(t) && forall x | x in ws :: Whole(x.0, x.1)
    ensures Writes(w, t, ws).1
    decreases |ws|
  {
    hide SetPath, Tidy, RecordPath, ProofPath, ApprovalPath, UsedPath;
    if ws != [] {
      assert ws[0] in ws && forall x | x in ws[1..] :: x in ws;
      var id :| WholeBy(ws[0].0, id) && (ws[0].1.Obj? || id != "");
      WriteTidy(w, t, ws[0].0, ws[0].1, id);
      WholeWrites(w, Set(w, t, ws[0].0, ws[0].1).0, ws[1..]);
    }
  }

  lemma PlannedGoes(w: World, t: Json, op: Op)
    requires Tidy(t) && !op.Revoke? && Plan(w, t, op).Some?
    ensures Act(w, t, op).1
  {
    hide SetPath, GetPath, Tidy, RecordPath, ProofPath, ApprovalPath, UsedPath, Writes, IsUsed, SealOf;
    BlankIsBlank();
    var id := if op.Approve? then op.approvalId else op.linkId;
    assert WholeBy(SEAL, id) && WholeBy(RecordPath(id), id) && WholeBy(ProofPath(id), id)
      && WholeBy(ApprovalPath(id), id);
    if op.Complete? { assert WholeBy(UsedPath(op.jti), op.jti); }
    WholeWrites(w, t, Plan(w, t, op).value);
  }

  /** In every run a completion either is refused and writes nothing, or writes its record,
      its proof and its approval's id: no link is activated without its id being noted. */
  lemma CompletionIsWhole(w: World, t: Json, ops: seq<Op>, op: Op)
    requires Tidy(t) && op.Complete?
    ensures var s := Run(w, t, ops); Act(w, s, op).1 || Act(w, s, op) == (s, false)
  {
    hide Tidy, Run, Writes, Plan;
    RunTidy(w, t, ops);
    var s := Run(w, t, ops);
    if Plan(w, s, op).Some? { PlannedGoes(w, s, op); }
  }

  // ---- which ids are refused, exactly ----

  /** What the entry of a key holds, if it is a text. */
  function Holder(t: Json, k: string): Option<string> {
    if At(Used(t), k).Str? then Some(At(Used(t), k).s) else None
  }

  ghost predicate OwnMembers(ms: seq<Member>) {
    Distinct(KeysOf(ms)) && forall m | m in ms :: m.value.Str? && SafeKey(m.value.s) == m.key
  }

  /** Every used entry is an id under its own key. */
  ghost predicate OwnKeys(t: Json) {
    Used(t).Obj? ==> OwnMembers(Used(t).members)
  }

  lemma UsedIsHeld(t: Json, jti: string)
    requires OwnKeys(t)
    ensures IsUsed(t, jti) <==> Holder(t, SafeKey(jti)) == Some(jti)
  {
    hide SafeKey, IndexOf, OwnMembers;
    if Used(t).Obj? { OwnEntry(Used(t).members, jti); }
  }

  lemma OwnEntry(ms: seq<Member>, jti: string)
    requires OwnMembers(ms)
    ensures (exists m | m in ms :: (if m.value.Str? then m.value.s else m.key) == jti)
        <==> At(Obj(ms), SafeKey(jti)) == Str(jti)
  {
    hide SafeKey, IndexOf, KeysOf, Distinct;
    var k := SafeKey(jti);
    if At(Obj(ms), k) == Str(jti) {
      assert ms[IndexOf(ms, k)] in ms;
    }
    forall m | m in ms && m.value == Str(jti) ensures At(Obj(ms), k) == Str(jti) {
      var i :| 0 <= i < |ms| && ms[i] == m;
      DistinctAt(ms, i);
    }
  }

  lemma DistinctAt(ms: seq<Member>, i: nat)
    requires Distinct(KeysOf(ms)) && i < |ms|
    ensures At(Obj(ms), ms[i].key) == ms[i].value
  {
    assert KeysOf(ms)[i] == ms[i].key && KeysOf(ms)[IndexOf(ms, ms[i].key)] == ms[i].key;
  }

  lemma PutOwn(ms: seq<Member>, jti: string)
    requires OwnMembers(ms)
    ensures OwnMembers(Put(ms, SafeKey(jti), Str(jti)))
  {
    hide SafeKey;
    var k := SafeKey(jti);
    var after := Put(ms, k, Str(jti));
    assert KeysOf(after) == if k in KeysOf(ms) then KeysOf(ms) else KeysOf(ms) + [k];
    forall m | m in after ensures m.value.Str? && SafeKey(m.value.s) == m.key {
      assert m in ms || m == Member(k, Str(jti));
    }
  }

  lemma NoteHeld(w: World, t: Json, jti: string)
    requires Tidy(t) && OwnKeys(t) && jti != ""
    ensures var u := Set(w, t, UsedPath(jti), Str(jti)).0;
      OwnKeys(u) && Holder(u, SafeKey(jti)) == Some(jti) && forall k | k != SafeKey(jti) :: Holder(u, k) == Holder(t, k)
  {
    hide SetPath, SafeKey, Put, OwnMembers, At;
    var u, k := Set(w, t, UsedPath(jti), Str(jti)).0, SafeKey(jti);
    assert UsedPath(jti) == [Key("identityLinks"), Key("usedApprovalJTIs"), Key(k)];
    UsedAfterSet(w, t, k, Str(jti));
    var ms := if Used(t).Obj? then Used(t).members else [];
    OwnAlready(t);
    PutOwn(ms, jti);
    PutMember(ms, k, Str(jti), "");
    forall other | other != k ensures Holder(u, other) == Holder(t, other) {
      PutMember(ms, k, Str(jti), other);
      NothingHeld(Used(t), other);
    }
  }

  lemma NothingHeld(v: Json, k: string)
    ensures !v.Obj? ==> At(v, k) == Null && At(Obj([]), k) == Null
  {
  }

  lemma OwnAlready(t: Json)
    requires OwnKeys(t)
    ensures OwnMembers(if Used(t).Obj? then Used(t).members else [])
  {
  }

  /** The other writes of the actions leave the used entries alone. */
  lemma OtherWrite(w: World, t: Json, p: Path, v: Json, id: string)
    requires Tidy(t) && v.Obj?
    requires p in [SEAL, RecordPath(id), ProofPath(id), ApprovalPath(id), ProofPath(id) + [Key("record")]]
    ensures Used(Set(w, t, p, v).0) == Used(t)
  {
    hide SetPath, At, Tail, Plain;
    TailsArePlain(id);
    var one, two := Tail(id), Tail(id) + [Key("record")];
    if p == SEAL {
      SealKeepsUsed(w, t, v);
    } else if p == RecordPath(id) {
      SetBelow(w, t, "identityLinks", "records", one, v, "", "usedApprovalJTIs");
    } else if p == ProofPath(id) {
      SetBelow(w, t, "proofs", "identityLinks", one, v, "identityLinks", "");
    } else if p == ApprovalPath(id) {
      SetBelow(w, t, "identityLinks", "approvals", one, v, "", "usedApprovalJTIs");
    } else {
      SetBelow(w, t, "proofs", "identityLinks", two, v, "identityLinks", "");
    }
  }

  lemma SealKeepsUsed(w: World, t: Json, v: Json)
    requires Tidy(t)
    ensures Used(Set(w, t, SEAL, v).0) == Used(t)
  {
    var links := At(t, "identityLinks");
    assert SEAL[1..] == Keys(["genesis"]);
    var middle := Obj(Put(links.members, "genesis", v));
    assert SetPath(w.same, links, SEAL[1..], v) == (middle, true);
    assert SetPath(w.same, t, SEAL, v) == (Obj(Put(t.members, "identityLinks", middle)), true);
    PutMember(links.members, "genesis", v, "usedApprovalJTIs");
    PutMember(t.members, "identityLinks", middle, "");
  }

  ghost predicate OtherPath(p: Path) {
    exists id :: p in [SEAL, RecordPath(id), ProofPath(id), ApprovalPath(id), ProofPath(id) + [Key("record")]]
  }

  lemma {:induction false} OtherWrites(w: World, t: Json, ws: seq<(Path, Json)>)
    requires Tidy(t) && forall x | x in ws :: OtherPath(x.0) && x.1.Obj?
    ensures Tidy(Writes(w, t, ws).0) && Used(Writes(w, t, ws).0) == Used(t)
    decreases |ws|
  {
    hide SetPath, Tidy, RecordPath, ProofPath, ApprovalPath, UsedPath, Used;
    if ws != [] {
      assert ws[0] in ws && forall x | x in ws[1..] :: x in ws;
      var id :| ws[0].0 in [SEAL, RecordPath(id), ProofPath(id), ApprovalPath(id), ProofPath(id) + [Key("record")]];
      OtherWrite(w, t, ws[0].0, ws[0].1, id);
      WriteTidy(w, t, ws[0].0, ws[0].1, id);
      OtherWrites(w, Set(w, t, ws[0].0, ws[0].1).0, ws[1..]);
    }
  }

  /** The id an action completes, if it does. */
  function Completes(w: World, t: Json, op: Op): Option<string> {
    if op.Complete? && Plan(w, t, op).Some? then Some(op.jti) else None
  }

  /** One action changes the entry of one key, and only by completing. */
  lemma ActHolds(w: World, t: Json, op: Op, k: string)
    requires Tidy(t) && OwnKeys(t)
    ensures var u, c := Act(w, t, op).0, Completes(w, t, op);
      && Tidy(u) && OwnKeys(u)
      && (c.Some? ==> Act(w, t, op).1)
      && Holder(u, k) == if c.Some? && SafeKey(c.value) == k then c else Holder(t, k)
  {
    hide SetPath, GetPath, Tidy, OwnKeys, RecordPath, ProofPath, ApprovalPath, UsedPath, Writes, IsUsed, SealOf, Used,
      SafeKey;
    ActTidy(w, t, op);
    var plan := Plan(w, t, op);
    if plan.Some? {
      var ws := plan.value;
      var id := if op.Approve? then op.approvalId else op.linkId;
      assert OtherPath(SEAL) by {
        assert SEAL in [SEAL, RecordPath(id), ProofPath(id), ApprovalPath(id), ProofPath(id) + [Key("record")]];
      }
      assert OtherPath(RecordPath(id)) && OtherPath(ProofPath(id)) && OtherPath(ApprovalPath(id))
        && OtherPath(ProofPath(id) + [Key("record")]);
      if op.Complete? {
        OtherWrites(w, t, ws[..2]);
        CompleteWrites(w, t, op);
        var s := Writes(w, t, ws[..2]).0;
        SameUsed(t, s);
        BlankIsBlank();
        NoteHeld(w, s, op.jti);
      } else {
        OtherWrites(w, t, ws);
        SameUsed(t, Act(w, t, op).0);
      }
    }
  }

  lemma SameUsed(t: Json, u: Json)
    requires Used(t) == Used(u)
    ensures OwnKeys(u) <==> OwnKeys(t)
    ensures forall k :: Holder(u, k) == Holder(t, k)
  {
  }

  /** All three writes of a completion go through, the id's last. */
  lemma CompleteWrites(w: World, t: Json, op: Op)
    requires Tidy(t) && op.Complete? && Plan(w, t, op).Some?
    ensures var ws := Plan(w, t, op).value;
      |ws| == 3 && ws[2] == (UsedPath(op.jti), Str(op.jti))
      && Act(w, t, op) == Set(w, Writes(w, t, ws[..2]).0, ws[2].0, ws[2].1) && Act(w, t, op).1
  {
    hide SetPath, Tidy, RecordPath, ProofPath, UsedPath, IsUsed;
    var ws := Plan(w, t, op).value;
    WriteTidy(w, t, ws[0].0, ws[0].1, op.linkId);
    var t1 := Set(w, t, ws[0].0, ws[0].1).0;
    WriteTidy(w, t1, ws[1].0, ws[1].1, op.linkId);
    var t2 := Set(w, t1, ws[1].0, ws[1].1).0;
    WriteTidy(w, t2, ws[2].0, ws[2].1, op.jti);
    assert ws[1..][0] == ws[1] && ws[1..][1..] == [ws[2]] && [ws[2]][1..] == [];
    assert ws[..2][1..] == [ws[1]] && ws[..2][0] == ws[0] && [ws[1]][1..] == [];
    assert Writes(w, t2, [ws[2]]) == Set(w, t2, ws[2].0, ws[2].1);
    assert Writes(w, t1, ws[1..]) == Writes(w, t2, [ws[2]]);
    assert Writes(w, t1, [ws[1]]) == (t2, true);
    assert Writes(w, t, ws[..2]) == (t2, true);
  }

  /** One action forgets a noted id exactly when it completes an id that collides with it. */
  lemma ForgetsExactly(w: World, t: Json, op: Op, jti: string)
    requires Tidy(t) && OwnKeys(t) && IsUsed(t, jti)
    ensures !IsUsed(Act(w, t, op).0, jti) <==> op.Complete? && Plan(w, t, op).Some? && Collides(op.jti, jti)
  {
    hide Tidy, OwnKeys, Act, IsUsed, SafeKey, Holder;
    ActHolds(w, t, op, SafeKey(jti));
    UsedIsHeld(t, jti);
    UsedIsHeld(Act(w, t, op).0, jti);
  }

  /** The ids a run completes, in order. */
  function Completed(w: World, t: Json, ops: seq<Op>): seq<string>
    decreases |ops|
  {
    if ops == [] then [] else
      var c := Completes(w, t, ops[0]);
      (if c.Some? then [c.value] else []) + Completed(w, Act(w, t, ops[0]).0, ops[1..])
  }

  /** The last of the ids with this key, or what was held before. */
  function LastUnder(k: string, js: seq<string>, before: Option<string>): Option<string>
    decreases |js|
  {
    if js == [] then before else LastUnder(k, js[1..], if SafeKey(js[0]) == k then Some(js[0]) else before)
  }

  lemma {:induction false} RunHolds(w: World, t: Json, ops: seq<Op>, k: string)
    requires Tidy(t) && OwnKeys(t)
    ensures Tidy(Run(w, t, ops)) && OwnKeys(Run(w, t, ops))
    ensures Holder(Run(w, t, ops), k) == LastUnder(k, Completed(w, t, ops), Holder(t, k))
    decreases |ops|
  {
    hide Act, Tidy, OwnKeys, Completes, Holder, SafeKey;
    if ops != [] {
      ActHolds(w, t, ops[0], k);
      var u, c := Act(w, t, ops[0]).0, Completes(w, t, ops[0]);
      RunHolds(w, u, ops[1..], k);
      var rest := Completed(w, u, ops[1..]);
      if c.Some? {
        assert ([c.value] + rest)[1..] == rest;
      } else {
        assert [] + rest == rest;
      }
    }
  }

  /** Over any run: a verified completion is refused exactly when its id is the last that
      completed among those noted under its key. */
  lemma RefusedExactly(w: World, t: Json, ops: seq<Op>, op: Op)
    requires Tidy(t) && OwnKeys(t) && op.Complete? && op.verified
    ensures var s := Run(w, t, ops);
      && (Act(w, s, op).1 <==>
          Strip(op.jti) != "" &&
          LastUnder(SafeKey(op.jti), Completed(w, t, ops), Holder(t, SafeKey(op.jti))) != Some(op.jti))
      && (!Act(w, s, op).1 ==> Act(w, s, op) == (s, false))
  {
    hide Tidy, OwnKeys, Run, Completed, LastUnder, Holder, SafeKey, Writes, IsUsed;
    var s := Run(w, t, ops);
    RunHolds(w, t, ops, SafeKey(op.jti));
    UsedIsHeld(s, op.jti);
    ActHolds(w, s, op, "");
  }

  lemma RunStep(w: World, t: Json, op: Op, ops: seq<Op>)
    ensures Run(w, t, [op] + ops) == Run(w, Act(w, t, op).0, ops)
    ensures Completed(w, t, [op] + ops)
      == (if Completes(w, t, op).Some? then [Completes(w, t, op).value] else []) + Completed(w, Act(w, t, op).0, ops)
  {
    hide Act, Completes;
    assert ([op] + ops)[1..] == ops;
  }

  lemma CompletesUnder(w: World, t: Json, op: Op, k: string)
    requires Tidy(t) && OwnKeys(t) && op.Complete? && op.verified && Strip(op.jti) != "" && SafeKey(op.jti) == k
    ensures var u := Act(w, t, op).0; Tidy(u) && OwnKeys(u) && Holder(u, k) == Some(op.jti)
    ensures Completes(w, t, op) == if Holder(t, k) == Some(op.jti) then None else Some(op.jti)
  {
    hide Act, Tidy, OwnKeys, Holder, SafeKey, Plan;
    VerifiedCompletes(w, t, op);
    ActHolds(w, t, op, k);
  }

  /** With two ids that collide, a run from fresh storage completes the first one twice. */
  lemma CollidingIdCompletesTwice(w: World, t: Json, a: Op, b: Op)
    requires Tidy(t) && Used(t) == Null && a.Complete? && a.verified && b.Complete? && b.verified
    requires Collides(a.jti, b.jti) && Strip(a.jti) != "" && Strip(b.jti) != ""
    ensures Completed(w, t, [a, b, a]) == [a.jti, b.jti, a.jti]
  {
    hide Act, Tidy, OwnKeys, Completed, SafeKey, Plan, Holder, Completes, Strip;
    var k := SafeKey(a.jti);
    OwnAtFirst(t);
    CompletesUnder(w, t, a, k);
    var t1 := Act(w, t, a).0;
    CompletesUnder(w, t1, b, k);
    var t2 := Act(w, t1, b).0;
    CompletesUnder(w, t2, a, k);
    RunStep(w, t, a, [b, a]);
    RunStep(w, t1, b, [a]);
    RunStep(w, t2, a, []);
    assert [a] + [b, a] == [a, b, a] && [b] + [a] == [b, a] && [a] + [] == [a];
    NothingCompleted(w, Act(w, t2, a).0);
  }

  lemma NothingCompleted(w: World, t: Json)
    ensures Completed(w, t, []) == []
  {
  }

  lemma OwnAtFirst(t: Json)
    requires Used(t) == Null
    ensures OwnKeys(t) && forall k :: Holder(t, k) == None
  {
  }

  lemma VerifiedCompletes(w: World, t: Json, op: Op)
    requires OwnKeys(t) && op.Complete? && op.verified
    ensures Completes(w, t, op)
         == if Strip(op.jti) == "" || Holder(t, SafeKey(op.jti)) == Some(op.jti) then None else Some(op.jti)
  {
    hide OwnKeys, Holder, IsUsed;
    UsedIsHeld(t, op.jti);
  }

  lemma CollidingIds()
    ensures Collides("a.b", "a_b")
  {
    assert SafeKey("b") == "b" by { SafeIsItself("b"); }
    assert "a.b"[1..] == ".b" && ".b"[1..] == "b" && "a_b"[1..] == "_b" && "_b"[1..] == "b";
  }

  // ---- what becomes of a link's record ----

  /** An action that writes no record, or another one. An action for the empty id writes all
      of them. */
  predicate Spares(op: Op, id: string) {
    op.Approve? || (op.linkId != "" && SafeKey(op.linkId) != SafeKey(id))
  }

  function RecordOf(w: World, t: Json, id: string): Option<Json> {
    GetPath(w.same, t, RecordPath(id))
  }

  lemma RecordApart(id: string, other: string)
    requires id != ""
    ensures forall p | p in [SEAL, ProofPath(other), ApprovalPath(other), UsedPath(other),
      ProofPath(other) + [Key("record")]] :: Elsewhere(p, RecordPath(id))
    ensures other != "" && SafeKey(other) != SafeKey(id) ==> Elsewhere(RecordPath(other), RecordPath(id))
  {
    SealIsPlain();
    BelowIsPlain("identityLinks", "records", id);
    BelowIsPlain("identityLinks", "records", other);
    BelowIsPlain("proofs", "identityLinks", other);
    BelowIsPlain("identityLinks", "approvals", other);
    BelowIsPlain("identityLinks", "usedApprovalJTIs", other);
    PartAt1(SEAL, RecordPath(id));
    PartAt0(ProofPath(other), RecordPath(id));
    PartAt1(ApprovalPath(other), RecordPath(id));
    PartAt1(UsedPath(other), RecordPath(id));
    PartAt0(ProofPath(other) + [Key("record")], RecordPath(id));
    if other != "" && SafeKey(other) != SafeKey(id) { PartAt2(RecordPath(other), RecordPath(id)); }
  }

  lemma RecordStays(w: World, t: Json, op: Op, id: string)
    requires id != "" && Spares(op, id) && RecordOf(w, t, id).Some?
    ensures RecordOf(w, Act(w, t, op).0, id) == RecordOf(w, t, id)
  {
    hide SetPath, GetPath, Diverge, Plain, Writes, RecordPath, ProofPath, ApprovalPath, UsedPath, IsUsed, SealOf,
      SafeKey;
    var plan := Plan(w, t, op);
    if plan.Some? {
      RecordApart(id, if op.Approve? then op.approvalId else op.linkId);
      if op.Complete? { RecordApart(id, op.jti); }
      WritesElsewhere(w, t, plan.value, RecordPath(id));
    }
  }

  /** The stored record is one that a revocation wrote. */
  ghost predicate Revoked(w: World, t: Json, id: string) {
    exists before, now :: RecordOf(w, t, id) == Some(Obj(w.revoked(before, now)))
  }

  /** A revocation of this record under the same key that writes anything leaves a revoked one. */
  lemma RevokeWrites(w: World, t: Json, op: Op, id: string)
    requires id != "" && op.Revoke? && op.linkId != "" && SafeKey(op.linkId) == SafeKey(id)
    requires forall x :: w.same(x, x)
    requires Tidy(t) && Plan(w, t, op).Some?
    ensures RecordOf(w, Act(w, t, op).0, id) == Some(Obj(w.revoked(RecordOf(w, t, op.linkId).value, op.now)))
    ensures Revoked(w, Act(w, t, op).0, id)
  {
    hide SetPath, GetPath, Diverge, Plain, ProofPath, Tidy, SafeKey;
    var ws := Plan(w, t, op).value;
    assert RecordPath(op.linkId) == RecordPath(id);
    WriteTidy(w, t, ws[0].0, ws[0].1, op.linkId);
    var t1 := Set(w, t, ws[0].0, ws[0].1).0;
    BelowIsPlain("identityLinks", "records", id);
    PlainIsLookups(RecordPath(id));
    GetAfterSet(w.same, t, RecordPath(id), ws[0].1);
    RecordApart(id, op.linkId);
    SetElsewhere(w, t1, ws[1].0, ws[1].1, RecordPath(id));
    assert ws[1..] == [ws[1]] && [ws[1]][1..] == [];
    var done := Set(w, t1, ws[1].0, ws[1].1);
    assert Writes(w, t1, ws[1..]).0 == done.0;
  }

  /** A completion that goes through leaves its record and its proof. */
  lemma CompletedStores(w: World, t: Json, op: Op)
    requires op.Complete? && Act(w, t, op).1 && op.linkId != "" && forall x :: w.same(x, x)
    ensures var u := Act(w, t, op).0;
      && RecordOf(w, u, op.linkId) == Some(Obj(op.record))
      && GetPath(w.same, u, ProofPath(op.linkId)) == Some(Obj(op.proof))
  {
    hide SetPath, GetPath, Diverge, Plain, SafeKey, IsUsed;
    var ws, id := Plan(w, t, op).value, op.linkId;
    var t1 := Set(w, t, ws[0].0, ws[0].1).0;
    var t2 := Set(w, t1, ws[1].0, ws[1].1).0;
    assert ws[1..] == [ws[1], ws[2]] && ws[1..][1..] == [ws[2]] && [ws[2]][1..] == [];
    assert Writes(w, t1, ws[1..]) == Writes(w, t2, [ws[2]]) == Set(w, t2, ws[2].0, ws[2].1);
    BelowIsPlain("identityLinks", "records", id);
    BelowIsPlain("proofs", "identityLinks", id);
    BelowIsPlain("identityLinks", "usedApprovalJTIs", op.jti);
    PlainIsLookups(RecordPath(id));
    PlainIsLookups(ProofPath(id));
    GetAfterSet(w.same, t, RecordPath(id), ws[0].1);
    GetAfterSet(w.same, t1, ProofPath(id), ws[1].1);
    RecordApart(id, id);
    RecordApart(id, op.jti);
    PartAt0(UsedPath(op.jti), ProofPath(id));
    SetElsewhere(w, t1, ProofPath(id), ws[1].1, RecordPath(id));
    SetElsewhere(w, t2, UsedPath(op.jti), ws[2].1, RecordPath(id));
    SetElsewhere(w, t2, UsedPath(op.jti), ws[2].1, ProofPath(id));
  }

  lemma {:induction false} SetInGot(same: Equality, t: Json, p: Path, k: string, v: Json)
    requires (forall token | token in p :: token.Key?) && GetPath(same, t, p).Some? && GetPath(same, t, p).value.Obj?
    ensures SetPath(same, t, p + [Key(k)], v).1
    decreases |p|
  {
    if p == [] {
      assert p + [Key(k)] == [Key(k)];
    } else {
      assert p[0] in p && forall token | token in p[1..] :: token in p;
      assert (p + [Key(k)])[1..] == p[1..] + [Key(k)];
      SetInGot(same, At(t, p[0].name), p[1..], k, v);
      assert (p + [Key(k)])[1].Key?;
    }
  }

  /** A link with a readable record and a proof can be revoked, unless it is the genesis link. */
  lemma RevokeGoesThrough(w: World, t: Json, op: Op)
    requires op.Revoke? && op.linkId != "" && !IsGenesisLink(op.linkId) && forall x :: w.same(x, x)
    requires RecordOf(w, t, op.linkId).Some? && RecordOf(w, t, op.linkId).value.Obj?
    requires w.readsRecord(RecordOf(w, t, op.linkId).value) && Tidy(t)
    requires var proof := GetPath(w.same, t, ProofPath(op.linkId)); proof.Some? && proof.value.Obj?
    ensures Act(w, t, op).1
  {
    hide SetPath, GetPath, Diverge, Plain, Tidy, SafeKey;
    var ws, id := Plan(w, t, op).value, op.linkId;
    WriteTidy(w, t, ws[0].0, ws[0].1, id);
    var t1 := Set(w, t, ws[0].0, ws[0].1).0;
    BelowIsPlain("identityLinks", "records", id);
    BelowIsPlain("proofs", "identityLinks", id);
    PartAt0(RecordPath(id), ProofPath(id));
    SetElsewhere(w, t, RecordPath(id), ws[0].1, ProofPath(id));
    SetInGot(w.same, t1, ProofPath(id), "record", ws[1].1);
    assert ws[1..] == [ws[1]] && [ws[1]][1..] == [];
    assert Writes(w, t1, ws[1..]) == Set(w, t1, ws[1].0, ws[1].1);
  }

  /** What may happen to a link that was revoked: revocations, anything that spares its
      record, and completions of the approval it once came from. */
  predicate Allowed(op: Op, id: string, jti: string) {
    && (op.Complete? ==> !Collides(op.jti, jti))
    && (Spares(op, id) || (op.Revoke? && op.linkId != "") || (op.Complete? && op.jti == jti))
  }

  lemma RevokedStep(w: World, t: Json, op: Op, id: string, jti: string)
    requires id != "" && Tidy(t) && Noted(w, t, jti) && Revoked(w, t, id) && Allowed(op, id, jti)
    requires forall x :: w.same(x, x)
    ensures var u := Act(w, t, op).0; Tidy(u) && Noted(w, u, jti) && Revoked(w, u, id)
  {
    hide Tidy, Noted, RecordOf, Writes, Act, Collides, SafeKey, Plan;
    ActTidy(w, t, op);
    ActKeepsNote(w, t, op, jti);
    if Spares(op, id) {
      RecordStays(w, t, op, id);
    } else if op.Complete? {
      NotedIsUsed(w, t, jti);
      RefusedUsed(w, t, op);
    } else {
      if Plan(w, t, op).Some? { RevokeWrites(w, t, op, id); } else { RefusedPlan(w, t, op); }
    }
  }

  lemma RefusedUsed(w: World, t: Json, op: Op)
    requires op.Complete? && IsUsed(t, op.jti)
    ensures Act(w, t, op) == (t, false)
  {
  }

  lemma RefusedPlan(w: World, t: Json, op: Op)
    requires Plan(w, t, op).None?
    ensures Act(w, t, op) == (t, false)
  {
  }

  lemma {:induction false} RevokedRun(w: World, t: Json, ops: seq<Op>, id: string, jti: string)
    requires id != "" && Tidy(t) && Noted(w, t, jti) && Revoked(w, t, id)
    requires (forall x :: w.same(x, x)) && forall op | op in ops :: Allowed(op, id, jti)
    ensures Revoked(w, Run(w, t, ops), id)
    decreases |ops|
  {
    hide Tidy, Noted, Revoked, Act, Allowed;
    if ops != [] {
      assert ops[0] in ops && forall op | op in ops[1..] :: op in ops;
      RevokedStep(w, t, ops[0], id, jti);
      RevokedRun(w, Act(w, t, ops[0]).0, ops[1..], id, jti);
    }
  }

  /** A link that was completed and later revoked stays revoked over any run of revocations,
      replays of its completion and actions that spare its record: presenting the old
      approval again never brings it back. */
  lemma RevokedLinkStaysRevoked(w: World, t: Json, first: Op, between: seq<Op>, revoke: Op, ops: seq<Op>)
    requires Tidy(t) && (forall x :: w.same(x, x)) && first.Complete? && Act(w, t, first).1 && first.linkId != ""
    requires forall op | op in between && op.Complete? :: !Collides(op.jti, first.jti)
    requires revoke.Revoke? && revoke.linkId == first.linkId
    requires Act(w, Run(w, Act(w, t, first).0, between), revoke).1
    requires forall op | op in ops :: Allowed(op, first.linkId, first.jti)
    ensures var revoked := Act(w, Run(w, Act(w, t, first).0, between), revoke).0;
      Revoked(w, Run(w, revoked, ops), first.linkId)
  {
    hide Tidy, Noted, Run, Act, Allowed, Collides, RecordOf, SafeKey, Plan;
    CompletedIsNoted(w, t, first);
    ActTidy(w, t, first);
    var t1 := Act(w, t, first).0;
    NoteIsForever(w, t1, between, first.jti);
    RunTidy(w, t1, between);
    var t2 := Run(w, t1, between);
    if Plan(w, t2, revoke).None? { RefusedPlan(w, t2, revoke); }
    RevokeWrites(w, t2, revoke, first.linkId);
    ActTidy(w, t2, revoke);
    ActKeepsNote(w, t2, revoke, first.jti);
    RevokedRun(w, Act(w, t2, revoke).0, ops, first.linkId, first.jti);
  }

  lemma {:induction false} GetThrough(same: Equality, t: Json, p: Path, q: Path)
    ensures var front := GetPath(same, t, p);
      GetPath(same, t, p + q) == if front.Some? then GetPath(same, front.value, q) else None
    decreases |p|
  {
    if p == [] {
      assert p + q == q;
    } else {
      assert (p + q)[1..] == p[1..] + q && (p + q)[0] == p[0];
      match p[0] {
        case Index(i) => if t.Arr? && 0 <= i < |t.items| { GetThrough(same, t.items[i], p[1..], q); }
        case Match(k, v) =>
          if t.Arr? && Find(same, t.items, k, v) < |t.items| {
            GetThrough(same, t.items[Find(same, t.items, k, v)], p[1..], q);
          }
        case Key(k) => GetThrough(same, At(t, k), p[1..], q);
        case Append =>
      }
    }
  }

  /** A completion for the empty link id puts its record in the place of all records: what is
      then found for a link is a member of that one record. */
  lemma EmptyIdReplacesAll(w: World, t: Json, op: Op, id: string)
    requires Tidy(t) && op.Complete? && op.linkId == "" && Act(w, t, op).1 && id != "" && forall x :: w.same(x, x)
    ensures RecordOf(w, Act(w, t, op).0, id) == GetPath(w.same, Obj(op.record), [Key(SafeKey(id))])
  {
    hide SetPath, GetPath, Diverge, Plain, Tidy, SafeKey, IsUsed;
    var ws, records := Plan(w, t, op).value, RecordPath("");
    var t1 := Set(w, t, records, ws[0].1).0;
    WriteTidy(w, t, records, ws[0].1, "");
    BelowIsPlain("identityLinks", "records", "");
    PlainIsLookups(records);
    GetAfterSet(w.same, t, records, ws[0].1);
    BelowIsPlain("proofs", "identityLinks", "");
    BelowIsPlain("identityLinks", "usedApprovalJTIs", op.jti);
    PartAt0(ProofPath(""), records);
    PartAt1(UsedPath(op.jti), records);
    assert ws[1..] == [ws[1], ws[2]];
    WritesElsewhere(w, t1, ws[1..], records);
    GetThrough(w.same, Act(w, t, op).0, records, [Key(SafeKey(id))]);
    assert RecordPath(id) == records + [Key(SafeKey(id))];
  }

  // ---- each action, from its parts ----

  /** What an action needs: no seal yet and a proven owner; an accepted request; a verified
      completion of an id that is not blank and not used; a readable record that is not the
      genesis link's. */
  predicate Granted(w: World, t: Json, op: Op) {
    match op
    case Genesis(proven, _, _, _) =>
      var v := GetPath(w.same, t, Keys(["identityLinks", "genesis"]));
      proven && !(v.Some? && v.value.Obj? && w.readsSeal(v.value))
    case Approve(accepted, _, _) => accepted
    case Complete(verified, jti, _, _, _) =>
      var used := At(At(t, "identityLinks"), "usedApprovalJTIs");
      verified && Strip(jti) != ""
      && (used.Obj? ==> forall m | m in used.members :: m.value != Str(jti) && (m.value.Str? || m.key != jti))
    case Revoke(id, _) =>
      var v := RecordOf(w, t, id);
      !(|id| >= 8 && id[..8] == "genesis-") && v.Some? && v.value.Obj? && w.readsRecord(v.value)
  }

  /** The paths an action writes, in order. */
  function Touched(op: Op): seq<Path> {
    match op
    case Genesis(_, _, _, id) => [SEAL, RecordPath(id), ProofPath(id)]
    case Approve(_, id, _) => [ApprovalPath(id)]
    case Complete(_, jti, id, _, _) => [RecordPath(id), ProofPath(id), UsedPath(jti)]
    case Revoke(id, _) => [RecordPath(id), ProofPath(id) + [Key("record")]]
  }

  /** What stands at a path once an action went through. */
  predicate Stands(w: World, u: Json, p: Path, v: Json) {
    GetPath(w.same, u, p) == Some(v)
  }

  lemma PlannedExactly(w: World, t: Json, op: Op)
    ensures Plan(w, t, op).Some? <==> Granted(w, t, op)
    ensures var plan := Plan(w, t, op);
      plan.Some? ==>
        |plan.value| == |Touched(op)| && forall i | 0 <= i < |plan.value| :: plan.value[i].0 == Touched(op)[i]
  {
    hide GetPath, Strip, RecordPath, ProofPath, ApprovalPath, UsedPath;
  }

  lemma TouchedApart(op: Op)
    requires op.Complete? ==> op.jti != ""
    ensures forall i, j | 0 <= i < j < |Touched(op)| :: Elsewhere(Touched(op)[j], Touched(op)[i])
    ensures forall p | p in Touched(op) :: p != [] && Plain(p)
  {
    hide Diverge;
    SealIsPlain();
    var id := if op.Approve? then op.approvalId else op.linkId;
    BelowIsPlain("identityLinks", "records", id);
    BelowIsPlain("identityLinks", "approvals", id);
    BelowIsPlain("proofs", "identityLinks", id);
    SealApart(id);
    PartAt0(ProofPath(id), RecordPath(id));
    PartAt0(ProofPath(id) + [Key("record")], RecordPath(id));
    if op.Complete? {
      BelowIsPlain("identityLinks", "usedApprovalJTIs", op.jti);
      PartAt1(UsedPath(op.jti), RecordPath(id));
      PartAt0(UsedPath(op.jti), ProofPath(id));
    }
  }

  /** Writes apart from one another are all read back. */
  lemma {:induction false} WritesRead(w: World, t: Json, ws: seq<(Path, Json)>, k: nat)
    requires k < |ws| && Writes(w, t, ws).1 && (forall x :: w.same(x, x))
    requires forall i | 0 <= i < |ws| :: ws[i].0 != [] && Plain(ws[i].0)
    requires forall i, j | 0 <= i < j < |ws| :: Elsewhere(ws[j].0, ws[i].0)
    ensures GetPath(w.same, Writes(w, t, ws).0, ws[k].0) == Some(ws[k].1)
    decreases |ws|
  {
    hide SetPath, GetPath, Plain, Elsewhere;
    var t1 := Set(w, t, ws[0].0, ws[0].1).0;
    if k == 0 {
      PlainIsLookups(ws[0].0);
      GetAfterSet(w.same, t, ws[0].0, ws[0].1);
      forall x | x in ws[1..] ensures Elsewhere(x.0, ws[0].0) {
        var i :| 0 <= i < |ws| - 1 && ws[1..][i] == x;
        assert ws[i + 1] == x;
      }
      WritesElsewhere(w, t1, ws[1..], ws[0].0);
    } else {
      WritesRead(w, t1, ws[1..], k - 1);
    }
  }

  /** What an action leaves when it goes through. */
  lemma ActionStores(w: World, t: Json, op: Op)
    requires Act(w, t, op).1 && forall x :: w.same(x, x)
    ensures var u := Act(w, t, op).0;
      match op
      case Genesis(_, seal, record, id) =>
        && Stands(w, u, SEAL, Obj(seal)) && Stands(w, u, RecordPath(id), Obj(record))
        && Stands(w, u, ProofPath(id), Obj([Member("record", Obj(record)), Member("seal", Obj(seal))]))
      case Approve(_, id, package) => Stands(w, u, ApprovalPath(id), Obj(package))
      case Complete(_, jti, id, record, proof) =>
        && Stands(w, u, RecordPath(id), Obj(record)) && Stands(w, u, ProofPath(id), Obj(proof))
        && Stands(w, u, UsedPath(jti), Str(jti))
      case Revoke(id, now) =>
        && RecordOf(w, t, id).Some?
        && Stands(w, u, RecordPath(id), Obj(w.revoked(RecordOf(w, t, id).value, now)))
        && Stands(w, u, ProofPath(id) + [Key("record")], Obj(w.revoked(RecordOf(w, t, id).value, now)))
  {
    hide SetPath, GetPath, Diverge, Plain, SafeKey, IsUsed, RecordPath, ProofPath, ApprovalPath, UsedPath, Elsewhere,
      Writes, SealOf;
    var ws := Plan(w, t, op).value;
    BlankIsBlank();
    PlannedExactly(w, t, op);
    TouchedApart(op);
    forall i | 0 <= i < |ws| ensures Stands(w, Writes(w, t, ws).0, ws[i].0, ws[i].1) {
      WritesRead(w, t, ws, i);
    }
    assert Stands(w, Writes(w, t, ws).0, ws[0].0, ws[0].1);
    if |ws| > 1 { assert Stands(w, Writes(w, t, ws).0, ws[1].0, ws[1].1); }
    if |ws| > 2 { assert Stands(w, Writes(w, t, ws).0, ws[2].0, ws[2].1); }
  }

  /** Nothing else changes. */
  lemma ActionLeaves(w: World, t: Json, op: Op, q: Path)
    requires Plain(q) && GetPath(w.same, t, q).Some? && forall p | p in Touched(op) :: Diverge(p, q)
    ensures GetPath(w.same, Act(w, t, op).0, q) == GetPath(w.same, t, q)
  {
    hide SetPath, GetPath, Diverge, Plain, IsUsed, RecordPath, ProofPath, ApprovalPath, UsedPath, Writes, SealOf;
    var plan := Plan(w, t, op);
    if plan.Some? {
      PlannedExactly(w, t, op);
      BlankIsBlank();
      TouchedApart(op);
      forall x | x in plan.value ensures Elsewhere(x.0, q) {
        var i :| 0 <= i < |plan.value| && plan.value[i] == x;
        assert Touched(op)[i] in Touched(op);
      }
      WritesElsewhere(w, t, plan.value, q);
    }
  }

  lemma RevocationGoes(w: World, t: Json, op: Op)
    requires op.Revoke? && op.linkId != "" && Granted(w, t, op) && Tidy(t) && forall x :: w.same(x, x)
    requires var proof := GetPath(w.same, t, ProofPath(op.linkId)); proof.Some? && proof.value.Obj?
    ensures Act(w, t, op).1
  {
    hide SetPath, GetPath, Tidy, RecordPath, ProofPath, Writes;
    RevokeGoesThrough(w, t, op);
  }

  /** An action goes through exactly when it is granted, and otherwise writes nothing; a
      revocation also wants the proof it completes to be a dict. */
  lemma ActionExactly(w: World, t: Json, op: Op)
    requires Tidy(t) && (forall x :: w.same(x, x))
    ensures !Granted(w, t, op) ==> Act(w, t, op) == (t, false)
    ensures Granted(w, t, op) && !op.Revoke? ==> Act(w, t, op).1
    ensures Granted(w, t, op) && op.Revoke? && op.linkId != "" ==>
      var proof := GetPath(w.same, t, ProofPath(op.linkId)); proof.Some? && proof.value.Obj? ==> Act(w, t, op).1
  {
    hide SetPath, GetPath, Tidy, RecordPath, ProofPath, ApprovalPath, UsedPath, IsUsed, Granted, SealOf;
    PlannedExactly(w, t, op);
    if Granted(w, t, op) {
      if !op.Revoke? {
        PlannedGoes(w, t, op);
      } else if op.linkId != "" {
        var proof := GetPath(w.same, t, ProofPath(op.linkId));
        if proof.Some? && proof.value.Obj? { RevocationGoes(w, t, op); }
      }
    } else {
      RefusedPlan(w, t, op);
    }
  }
}
