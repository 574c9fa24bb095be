/** Agreements, conditions and contracts: who may do what on a cell, decided anew on
    every call. */
module Contracts {
  import opened Basics
  import opened Json
  import opened PyText

  // ---- permission strings ----

  type Bits = bv4

  const READ: Bits := 4
  const WRITE: Bits := 2
  const EXECUTE: Bits := 1
  const SPECIAL: Bits := 8

  function Triplet(text: string): Option<Bits>
    requires |text| >= 3
  {
    if text[0] !in "r-" || text[1] !in "w-" || text[2] !in "x-" then None
    else
      Some((if text[0] == 'r' then READ else 0) | (if text[1] == 'w' then WRITE else 0)
           | (if text[2] == 'x' then EXECUTE else 0))
  }

  function Quad(text: string): Option<Bits>
    requires |text| >= 4
  {
    var bits := Triplet(text[..3]);
    if bits.None? then None
    else if text[3] == 's' then Some(bits.value | SPECIAL)
    else if text[3] == '-' then bits
    else None
  }

  /** permission_bits of a string: group and other bits. */
  function PermissionBits(value: string): Option<(Bits, Bits)> {
    var text := Strip(value);
    if |text| == 3 || |text| == 4 then
      var group := if |text| == 3 then Triplet(text) else Quad(text);
      if group.None? then None else Some((group.value, 0))
    else if |text| == 6 || |text| == 8 then
      var half := |text| / 2;
      var group := if half == 3 then Triplet(text[..half]) else Quad(text[..half]);
      var other := if half == 3 then Triplet(text[half..]) else Quad(text[half..]);
      if group.None? || other.None? then None else Some((group.value, other.value))
    else None
  }

  function QuadString(bits: Bits): (t: string)
    ensures |t| == 4 && t[0] in "r-" && t[3] in "s-"
  {
    [if bits & READ != 0 then 'r' else '-', if bits & WRITE != 0 then 'w' else '-',
     if bits & EXECUTE != 0 then 'x' else '-', if bits & SPECIAL != 0 then 's' else '-']
  }

  function PermissionString(group: Bits, other: Bits): string {
    QuadString(group) + (if other != 0 then QuadString(other) else "")
  }

  lemma QuadBack(bits: Bits)
    ensures Quad(QuadString(bits)) == Some(bits)
  {
  }

  /** The string Grant.from_json rewrites a permission into means the same bits. */
  lemma PermissionBack(group: Bits, other: Bits)
    ensures PermissionBits(PermissionString(group, other)) == Some((group, other))
    ensures |PermissionString(group, other)| == if other == 0 then 4 else 8
  {
    var text := PermissionString(group, other);
    StripKeeps(text);
    QuadBack(group);
    QuadBack(other);
    assert text[..4] == QuadString(group);
    if other != 0 {
      assert text[4..] == QuadString(other);
    }
  }

  predicate IsTriplet(t: string) {
    |t| == 3 && t[0] in "r-" && t[1] in "w-" && t[2] in "x-"
  }

  /** A permission of four letters. */
  predicate IsQuad(t: string) {
    |t| == 4 && IsTriplet(t[..3]) && t[3] in "s-"
  }

  /** The flags a triplet or quad sets. */
  predicate Flags(bits: Bits, t: string)
    requires |t| >= 3
  {
    && (bits & 4 != 0 <==> t[0] == 'r') && (bits & 2 != 0 <==> t[1] == 'w') && (bits & 1 != 0 <==> t[2] == 'x')
    && (bits & 8 != 0 <==> |t| > 3 && t[3] == 's')
  }

  lemma QuadExactly(t: string)
    requires |t| == 4
    ensures Quad(t).Some? <==> IsQuad(t)
    ensures Quad(t).Some? ==> Flags(Quad(t).value, t)
  {
    TripletExactly(t[..3]);
  }

  lemma TripletExactly(t: string)
    requires |t| == 3
    ensures Triplet(t).Some? <==> IsTriplet(t)
    ensures Triplet(t).Some? ==> Flags(Triplet(t).value, t)
  {
  }

  /** A permission text is read exactly if, but for space around it, it is one or two triplets
      or one or two quads: the first for the group, the second for others. */
  lemma PermissionExactly(value: string)
    ensures var t, bits := Strip(value), PermissionBits(value);
      && (bits.Some? <==> || IsTriplet(t) || IsQuad(t)
                          || (|t| == 6 && IsTriplet(t[..3]) && IsTriplet(t[3..]))
                          || (|t| == 8 && IsQuad(t[..4]) && IsQuad(t[4..])))
      && (bits.Some? && |t| <= 4 ==> Flags(bits.value.0, t) && bits.value.1 == 0)
      && (bits.Some? && |t| == 6 ==> Flags(bits.value.0, t[..3]) && Flags(bits.value.1, t[3..]))
      && (bits.Some? && |t| == 8 ==> Flags(bits.value.0, t[..4]) && Flags(bits.value.1, t[4..]))
  {
    hide Strip, Quad, Triplet;
    var t := Strip(value);
    if |t| == 3 { TripletExactly(t); }
    if |t| == 4 { QuadExactly(t); }
    if |t| == 6 {
      TripletExactly(t[..3]);
      TripletExactly(t[3..]);
    }
    if |t| == 8 {
      QuadExactly(t[..4]);
      QuadExactly(t[4..]);
    }
  }

  // ---- grants ----

  datatype Grant = Grant(keypath: string, permission: string)

  function BitsOf(g: Grant): (Bits, Bits) {
    match PermissionBits(g.permission)
    case Some(bits) => bits
    case None => (0, 0)
  }

  /** Grant.grants. */
  predicate Grants(g: Grant, requested: Grant) {
    var (group, other) := BitsOf(g);
    var (wantGroup, wantOther) := BitsOf(requested);
    && g.keypath == requested.keypath
    && wantGroup != 0 && group & wantGroup == wantGroup
    && (wantOther == 0 || other & wantOther == wantOther)
  }

  lemma GrantsTransitive(a: Grant, b: Grant, c: Grant)
    requires Grants(a, b) && Grants(b, c)
    ensures Grants(a, c)
  {
    var (x, y, z) := (BitsOf(a), BitsOf(b), BitsOf(c));
    Masks(x.0, y.0, z.0);
    Masks(x.1, y.1, z.1);
  }

  lemma Masks(a: Bits, b: Bits, c: Bits)
    ensures a & b == b && b & c == c ==> a & c == c
    ensures b == 0 && b & c == c ==> c == 0
  {
  }

  // ---- what a grant includes, from its parts ----

  /** Every flag that is wanted is there. */
  predicate HasAll(have: Bits, want: Bits) {
    && (want & 8 != 0 ==> have & 8 != 0) && (want & 4 != 0 ==> have & 4 != 0)
    && (want & 2 != 0 ==> have & 2 != 0) && (want & 1 != 0 ==> have & 1 != 0)
  }

  /** The same key path, and every flag asked for, of which one at least is a group's. */
  predicate Includes(g: Grant, keypath: string, permission: string) {
    var have, want := PermissionBits(g.permission), PermissionBits(permission);
    && g.keypath == keypath
    && want.Some? && want.value.0 != 0
    && have.Some? && HasAll(have.value.0, want.value.0) && HasAll(have.value.1, want.value.1)
  }

  lemma GrantsExactly(g: Grant, keypath: string, permission: string)
    ensures Grants(g, Grant(keypath, permission)) <==> Includes(g, keypath, permission)
  {
    hide PermissionBits;
    var (have, want) := (BitsOf(g), BitsOf(Grant(keypath, permission)));
    FlagsExactly(have.0, want.0);
    FlagsExactly(have.1, want.1);
  }

  lemma FlagsExactly(have: Bits, want: Bits)
    ensures have & want == want <==> HasAll(have, want)
    ensures want == 0 ==> HasAll(have, want)
    ensures have == 0 && HasAll(have, want) ==> want == 0
  {
  }

  /** For permissions of four letters: the same key path, at least one letter asked for, and
      each of them given. */
  lemma GrantsByLetters(g: Grant, keypath: string, permission: string)
    requires IsQuad(g.permission) && IsQuad(permission)
    ensures Grants(g, Grant(keypath, permission))
       <==> && g.keypath == keypath && permission != "----"
            && forall i | 0 <= i < 4 :: permission[i] == '-' || g.permission[i] == permission[i]
  {
    hide PermissionBits;
    StripKeeps(g.permission);
    StripKeeps(permission);
    PermissionExactly(g.permission);
    PermissionExactly(permission);
    GrantsExactly(g, keypath, permission);
    var want := PermissionBits(permission).value.0;
    NoFlags(want);
    assert permission == [permission[0], permission[1], permission[2], permission[3]];
  }

  lemma NoFlags(want: Bits)
    ensures want == 0 <==> want & 8 == 0 && want & 4 == 0 && want & 2 == 0 && want & 1 == 0
    ensures HasAll(want, 0)
  {
  }

  // ---- templates, contracts, cells ----

  datatype Identity = Identity(uuid: string, key: Option<string>)

  /** same_identity_reference. */
  predicate SameReference(l: Identity, r: Identity) {
    l.uuid == r.uuid && l.key.Some? && l.key == r.key
  }

  datatype Condition = Lookup(keypath: string, expected: Json, name: string)

  datatype Template = Template(grants: seq<Grant>, conditions: seq<Condition>, duration: int)

  datatype Contract =
    Contract(subject: Identity, grants: seq<Grant>, conditions: seq<Condition>, duration: int, issuedAt: real)

  datatype Policy = OwnerApprovalRequired | AutomaticWhenConditionsMet | OwnerPublishedRead

  /** How a cell class answers validate_access beyond owner and contract: the keys open
      to everyone with the permission each needs, the keys whose writing is the owner's
      alone, and whether the dispatcher's root and "chat" rules apply. */
  datatype Rules = Rules(open: map<string, string>, ownersWrite: set<string>, rooted: bool)

  datatype Cell = Cell(
    uuid: string, owner: Option<Identity>, rules: Rules, template: Template, policy: Policy,
    contracts: seq<Contract>, revokedBefore: map<string, real>)

  /** What a call meets outside the cell: the identity proof, the values its get handlers
      and storage give, the requester's own values, Python's equality and json.dumps. */
  datatype World = World(
    signs: Identity -> bool,
    hasVault: Identity -> bool,
    read: (string, Option<Identity>) -> Option<Json>,
    readOwn: (string, Identity) -> Option<Json>,
    same: (Json, Json) -> bool,
    policyText: Condition -> string)

  /** proves_identity_control: the reference matches and the requester's vault signs. */
  predicate Proves(w: World, requester: Identity, expected: Identity) {
    SameReference(requester, expected) && w.signs(requester)
  }

  predicate Owns(c: Cell, w: World, requester: Option<Identity>) {
    c.owner.None? || (requester.Some? && Proves(w, requester.value, c.owner.value))
  }

  predicate CheckGrant(t: Template, requested: Grant) {
    exists g | g in t.grants :: Grants(g, requested)
  }

  function Policies(w: World, cs: seq<Condition>): (r: seq<string>)
    ensures |r| == |cs|
  {
    seq(|cs|, i requires 0 <= i < |cs| => w.policyText(cs[i]))
  }

  /** Two sorted lists are equal when their multisets are. */
  predicate ConditionsMatch(w: World, t: Template, cs: seq<Condition>) {
    multiset(Policies(w, cs)) == multiset(Policies(w, t.conditions))
  }

  /** The contract is in force and still inside the template. */
  predicate Current(c: Cell, w: World, x: Contract, now: real) {
    && !(x.subject.uuid in c.revokedBefore && x.issuedAt <= c.revokedBefore[x.subject.uuid])
    && x.issuedAt <= now < x.issuedAt + x.duration as real
    && (forall g | g in x.grants :: CheckGrant(c.template, g))
    && ConditionsMatch(w, c.template, x.conditions)
    && x.duration <= c.template.duration
  }

  predicate Covers(c: Cell, w: World, x: Contract, requested: Grant, requester: Identity, now: real) {
    && SameReference(requester, x.subject)
    && Current(c, w, x, now)
    && (exists g | g in x.grants :: Grants(g, requested))
  }

  // ---- the decision, as the code makes it ----

  /** get, while conditions are evaluated or not; None where it raises. */
  function Get(c: Cell, w: World, keypath: string, r: Option<Identity>, evaluating: bool, now: real): Option<Json>
    decreases if evaluating then 0 else 1, 5
  {
    if keypath == "description" then w.read(keypath, r)
    else if Access(c, w, "r---", keypath, r, evaluating, now) then w.read(keypath, r)
    else None
  }

  /** validate_access. */
  predicate Access(
    c: Cell, w: World, permission: string, keypath: string, r: Option<Identity>, evaluating: bool, now: real
  )
    decreases if evaluating then 0 else 1, 4
  {
    if Owns(c, w, r) then true
    else if keypath in c.rules.open && c.rules.open[keypath] == permission then true
    else if keypath in c.rules.ownersWrite && permission == "-w--" then false
    else if !c.rules.rooted then Allows(c, w, permission, keypath, r, evaluating, now)
    else
      var root := Partition(keypath).0;
      (Allows(c, w, permission, keypath, r, evaluating, now)
        || (root != keypath && Allows(c, w, permission, root, r, evaluating, now)))
      && (Allows(c, w, permission, keypath, r, evaluating, now) || Allows(c, w, permission, "chat", r, evaluating, now))
  }

  /** contract_allows. */
  predicate Allows(
    c: Cell, w: World, permission: string, keypath: string, r: Option<Identity>, evaluating: bool, now: real
  )
    decreases if evaluating then 0 else 1, 3
  {
    r.Some? && !evaluating &&
    exists i | 0 <= i < |c.contracts| ::
      Covers(c, w, c.contracts[i], Grant(keypath, permission), r.value, now)
      && ConditionsHold(c, w, c.contracts[i].conditions, r.value, now)
  }

  /** _conditions_hold: in turn, up to the first that fails. */
  predicate ConditionsHold(c: Cell, w: World, cs: seq<Condition>, r: Identity, now: real)
    decreases 1, 2, |cs|
  {
    cs == [] || (IsMet(c, w, cs[0], r, now) && ConditionsHold(c, w, cs[1..], r, now))
  }

  function Resolved(c: Cell, keypath: string, r: Identity): (string, string) {
    Partition(Replace(Replace(keypath, "$identity", r.uuid), "$target", c.uuid))
  }

  /** LookupCondition.is_met: it reads the cell with contracts switched off. */
  predicate IsMet(c: Cell, w: World, cond: Condition, r: Identity, now: real)
    decreases 1, 1
  {
    var (context, child) := Resolved(c, cond.keypath, r);
    child != "" &&
    var value :=
      if context == "target" then Get(c, w, child, Some(r), true, now)
      else if context == "identity" then w.readOwn(child, r)
      else None;
    value.Some? && w.same(value.value, cond.expected)
  }

  // ---- the decision, in two levels and without recursion ----

  /** What a requester may do whatever contracts there are. */
  predicate Outright(c: Cell, w: World, permission: string, keypath: string, r: Option<Identity>) {
    Owns(c, w, r) || (keypath in c.rules.open && c.rules.open[keypath] == permission)
  }

  predicate Met(c: Cell, w: World, cond: Condition, r: Identity) {
    var (context, child) := Resolved(c, cond.keypath, r);
    && child != ""
    && ((context == "target" && (child == "description" || Outright(c, w, "r---", child, Some(r)))
         && w.read(child, Some(r)).Some? && w.same(w.read(child, Some(r)).value, cond.expected))
       || (context == "identity" && w.readOwn(child, r).Some? && w.same(w.readOwn(child, r).value, cond.expected)))
  }

  predicate Permitted(c: Cell, w: World, permission: string, keypath: string, r: Option<Identity>, now: real) {
    r.Some? &&
    exists i | 0 <= i < |c.contracts| ::
      Covers(c, w, c.contracts[i], Grant(keypath, permission), r.value, now)
      && forall cond | cond in c.contracts[i].conditions :: Met(c, w, cond, r.value)
  }

  /** While a condition is evaluated only outright access counts: no contract is consulted. */
  lemma EvaluatingIsOutright(c: Cell, w: World, permission: string, keypath: string, r: Option<Identity>, now: real)
    ensures Access(c, w, permission, keypath, r, true, now) <==> Outright(c, w, permission, keypath, r)
    ensures Get(c, w, keypath, r, true, now)
         == if keypath == "description" || Outright(c, w, "r---", keypath, r) then w.read(keypath, r) else None
  {
  }

  lemma MetExactly(c: Cell, w: World, cond: Condition, r: Identity, now: real)
    ensures IsMet(c, w, cond, r, now) <==> Met(c, w, cond, r)
  {
    hide Resolved;
    EvaluatingIsOutright(c, w, "r---", Resolved(c, cond.keypath, r).1, Some(r), now);
  }

  lemma {:induction false} ConditionsExactly(c: Cell, w: World, cs: seq<Condition>, r: Identity, now: real)
    ensures ConditionsHold(c, w, cs, r, now) <==> forall cond | cond in cs :: Met(c, w, cond, r)
  {
    if cs != [] {
      MetExactly(c, w, cs[0], r, now);
      ConditionsExactly(c, w, cs[1..], r, now);
      assert cs == [cs[0]] + cs[1..];
    }
  }

  /** A condition on a key without placeholders compares what the cell or the requester
      answers for it; on the cell the key must be open to the requester without a contract. */
  lemma ConditionReads(c: Cell, w: World, context: string, child: string, expected: Json, name: string, r: Identity)
    requires '.' !in context && '$' !in context + "." + child
    ensures Met(c, w, Lookup(context + "." + child, expected, name), r)
       <==> && child != ""
            && (if context == "target" then
                  && (child == "description" || IsOwner(c, w, Some(r))
                      || (child in c.rules.open && c.rules.open[child] == "r---"))
                  && w.read(child, Some(r)).Some? && w.same(w.read(child, Some(r)).value, expected)
                else
                  && context == "identity"
                  && w.readOwn(child, r).Some? && w.same(w.readOwn(child, r).value, expected))
  {
    hide Replace, Partition;
    ReplaceAbsent(context + "." + child, "$identity", r.uuid);
    ReplaceAbsent(context + "." + child, "$target", c.uuid);
    PartitionJoin(context, child);
  }

  /** The recursive decision is the two-level one. */
  lemma AllowsExactly(c: Cell, w: World, permission: string, keypath: string, r: Option<Identity>, now: real)
    ensures Allows(c, w, permission, keypath, r, false, now) <==> Permitted(c, w, permission, keypath, r, now)
    ensures !Allows(c, w, permission, keypath, r, true, now)
  {
    hide Covers, Met, ConditionsHold;
    if r.Some? {
      forall i | 0 <= i < |c.contracts|
        ensures ConditionsHold(c, w, c.contracts[i].conditions, r.value, now)
           <==> forall cond | cond in c.contracts[i].conditions :: Met(c, w, cond, r.value)
      {
        ConditionsExactly(c, w, c.contracts[i].conditions, r.value, now);
      }
    }
  }

  /** Access under the root and "chat" rules, said once per contract. */
  lemma AccessExactly(c: Cell, w: World, permission: string, keypath: string, r: Option<Identity>, now: real)
    ensures Access(c, w, permission, keypath, r, false, now)
       <==> || Outright(c, w, permission, keypath, r)
            || (!(keypath in c.rules.ownersWrite && permission == "-w--")
                && (Permitted(c, w, permission, keypath, r, now)
                    || (c.rules.rooted && Partition(keypath).0 != keypath
                        && Permitted(c, w, permission, Partition(keypath).0, r, now)
                        && Permitted(c, w, permission, "chat", r, now))))
  {
    AllowsExactly(c, w, permission, keypath, r, now);
    AllowsExactly(c, w, permission, Partition(keypath).0, r, now);
    AllowsExactly(c, w, permission, "chat", r, now);
    hide Allows, Permitted, Partition;
  }

  /** Whatever a contract says, it gives no more than the template gives today. */
  lemma BoundedByTemplate(c: Cell, w: World, permission: string, keypath: string, r: Option<Identity>, now: real)
    requires Allows(c, w, permission, keypath, r, false, now)
    ensures CheckGrant(c.template, Grant(keypath, permission))
  {
    var requested := Grant(keypath, permission);
    var i :| 0 <= i < |c.contracts| && Covers(c, w, c.contracts[i], requested, r.value, now);
    var x := c.contracts[i];
    var g :| g in x.grants && Grants(g, requested);
    assert CheckGrant(c.template, g);
    var t :| t in c.template.grants && Grants(t, g);
    GrantsTransitive(t, g, requested);
  }

  // ---- access by contract, from the parts of the contract ----

  /** The contract is the requester's, by uuid and key; issued after its last revocation; in
      its term now, and for no longer than the template gives; one of its grants includes
      what is asked and each of them is included in the template; its conditions are the
      template's, and all are met. */
  predicate Entitles(c: Cell, w: World, x: Contract, permission: string, keypath: string, r: Identity, now: real) {
    && x.subject.uuid == r.uuid && r.key.Some? && x.subject.key == r.key
    && (r.uuid in c.revokedBefore ==> c.revokedBefore[r.uuid] < x.issuedAt)
    && x.issuedAt <= now && now < x.issuedAt + x.duration as real
    && x.duration <= c.template.duration
    && (exists g | g in x.grants :: Includes(g, keypath, permission))
    && (forall g | g in x.grants :: exists t | t in c.template.grants :: Includes(t, g.keypath, g.permission))
    && multiset(Policies(w, x.conditions)) == multiset(Policies(w, c.template.conditions))
    && (forall cond | cond in x.conditions :: Met(c, w, cond, r))
  }

  lemma CoversExactly(c: Cell, w: World, x: Contract, permission: string, keypath: string, r: Identity, now: real)
    ensures Covers(c, w, x, Grant(keypath, permission), r, now)
            && (forall cond | cond in x.conditions :: Met(c, w, cond, r))
       <==> Entitles(c, w, x, permission, keypath, r, now)
  {
    hide Grants, Includes, Met, Policies;
    forall g ensures Grants(g, Grant(keypath, permission)) <==> Includes(g, keypath, permission) {
      GrantsExactly(g, keypath, permission);
    }
    forall g: Grant, t ensures Grants(t, g) <==> Includes(t, g.keypath, g.permission) {
      GrantsExactly(t, g.keypath, g.permission);
    }
    forall g: Grant ensures CheckGrant(c.template, g)
      <==> exists t | t in c.template.grants :: Includes(t, g.keypath, g.permission)
    {
    }
  }

  /** contract_allows says yes exactly if some kept contract entitles the requester. */
  lemma AllowsByContract(c: Cell, w: World, permission: string, keypath: string, r: Option<Identity>, now: real)
    ensures Allows(c, w, permission, keypath, r, false, now)
       <==> r.Some? && exists x | x in c.contracts :: Entitles(c, w, x, permission, keypath, r.value, now)
  {
    hide Allows, Covers, Entitles, Met;
    AllowsExactly(c, w, permission, keypath, r, now);
    if r.Some? {
      forall x ensures Covers(c, w, x, Grant(keypath, permission), r.value, now)
                       && (forall cond | cond in x.conditions :: Met(c, w, cond, r.value))
                  <==> Entitles(c, w, x, permission, keypath, r.value, now)
      {
        CoversExactly(c, w, x, permission, keypath, r.value, now);
      }
      if Permitted(c, w, permission, keypath, r, now) {
        var i :| 0 <= i < |c.contracts| && Covers(c, w, c.contracts[i], Grant(keypath, permission), r.value, now)
          && forall cond | cond in c.contracts[i].conditions :: Met(c, w, cond, r.value);
        assert c.contracts[i] in c.contracts;
      }
    }
  }

  /** The requester is the owner by uuid and key and signs for it; a cell without an owner is
      everyone's. */
  predicate IsOwner(c: Cell, w: World, r: Option<Identity>) {
    c.owner.None? ||
      (r.Some? && r.value.uuid == c.owner.value.uuid && r.value.key.Some? && r.value.key == c.owner.value.key
       && w.signs(r.value))
  }

  predicate Entitled(c: Cell, w: World, permission: string, keypath: string, r: Option<Identity>, now: real) {
    r.Some? && exists x | x in c.contracts :: Entitles(c, w, x, permission, keypath, r.value, now)
  }

  /** validate_access, from the owner, the open keys and the contracts: a key that only the
      owner writes stays the owner's, and under the dispatcher's rules a contract for the root
      of a key path together with one for the chat is enough. */
  lemma AccessByParts(c: Cell, w: World, permission: string, keypath: string, r: Option<Identity>, now: real)
    ensures Access(c, w, permission, keypath, r, false, now)
       <==> || IsOwner(c, w, r)
            || (keypath in c.rules.open && c.rules.open[keypath] == permission)
            || (!(keypath in c.rules.ownersWrite && permission == "-w--")
                && (Entitled(c, w, permission, keypath, r, now)
                    || (c.rules.rooted && Partition(keypath).0 != keypath
                        && Entitled(c, w, permission, Partition(keypath).0, r, now)
                        && Entitled(c, w, permission, "chat", r, now))))
  {
    hide Allows, Permitted, Partition, Access, Entitles;
    AccessExactly(c, w, permission, keypath, r, now);
    AllowsByContract(c, w, permission, keypath, r, now);
    AllowsByContract(c, w, permission, Partition(keypath).0, r, now);
    AllowsByContract(c, w, permission, "chat", r, now);
    AllowsExactly(c, w, permission, keypath, r, now);
    AllowsExactly(c, w, permission, Partition(keypath).0, r, now);
    AllowsExactly(c, w, permission, "chat", r, now);
  }
}
