/** Dicts and lists in memory, and the JSON values they stand for. A container is a box
    with an address; a slot of a box holds a scalar or the address of another box. A
    slot stands for a value when the boxes below it form a tree of that value, without
    sharing. What is not written keeps its meaning, a child that changes in place
    changes the tree around it, and a copy is a tree of new boxes. */
module Boxes {
  import opened Json

  type Ref = nat

  /** A Python value: a scalar, or a reference to a dict or a list. */
  datatype Slot = Scalar(v: Json) | To(ref: Ref)

  datatype AnyBox = Dict(keys: seq<string>, slots: seq<Slot>) | List(slots: seq<Slot>)

  type Box = b: AnyBox | b.Dict? ==> |b.keys| == |b.slots| witness List([])

  /** What lives in memory; objects made later get references from next on. */
  datatype Mem = Mem(boxes: map<Ref, Box>, next: Ref)

  function Write(m: Mem, r: Ref, b: Box): Mem {
    m.(boxes := m.boxes[r := b])
  }

  function New(m: Mem, b: Box): (Mem, Slot) {
    (Mem(m.boxes[m.next := b], m.next + 1), To(m.next))
  }

  // ---- what a slot means ----

  function Count(v: Json): nat {
    match v
    case Arr(items) => |items|
    case Obj(ms) => |ms|
    case _ => 0
  }

  function Kid(v: Json, i: nat): (kid: Json)
    requires i < Count(v)
    ensures kid < v
  {
    match v
    case Arr(items) => items[i]
    case Obj(ms) => ms[i].value
  }

  function WithKid(v: Json, i: nat, kid: Json): Json
    requires i < Count(v)
  {
    match v
    case Arr(items) => Arr(items[i := kid])
    case Obj(ms) => Obj(ms[i := Member(ms[i].key, kid)])
  }

  /** A box of the kind of v, with as many slots. */
  predicate Alike(b: Box, v: Json): (alike: bool)
    ensures alike ==> |b.slots| == Count(v)
  {
    match b
    case List(slots) => v.Arr? && |slots| == |v.items|
    case Dict(keys, slots) => v.Obj? && |slots| == |v.members| && keys == KeysOf(v.members)
  }

  /** The boxes a slot leads to when it stands for v. */
  ghost function Foot(m: Mem, s: Slot, v: Json): set<Ref>
    decreases v
  {
    if s.To? && s.ref in m.boxes && Alike(m.boxes[s.ref], v) then
      {s.ref} + set i, x | 0 <= i < Count(v) && x in Foot(m, m.boxes[s.ref].slots[i], Kid(v, i)) :: x
    else {}
  }

  /** The slot stands for v, and no box is reached twice: v is a tree in memory. */
  ghost predicate Rep(m: Mem, s: Slot, v: Json)
    decreases v
  {
    match s
    case Scalar(x) => x == v && !v.Arr? && !v.Obj?
    case To(r) =>
      && r in m.boxes && Alike(m.boxes[r], v)
      && (forall i | 0 <= i < Count(v) ::
            Rep(m, m.boxes[r].slots[i], Kid(v, i)) && r !in Foot(m, m.boxes[r].slots[i], Kid(v, i)))
      && (forall i, j | 0 <= i < j < Count(v) ::
            Foot(m, m.boxes[r].slots[i], Kid(v, i)) !! Foot(m, m.boxes[r].slots[j], Kid(v, j)))
  }

  ghost function KidFoot(m: Mem, b: Box, v: Json, i: nat): set<Ref>
    requires i < Count(v) && Alike(b, v)
  {
    Foot(m, b.slots[i], Kid(v, i))
  }

  ghost predicate Valid(m: Mem) {
    forall r | r in m.boxes :: r < m.next
  }

  /** Nothing outside `touched` was written. */
  ghost predicate Evolves(m: Mem, n: Mem, touched: set<Ref>) {
    && Valid(m) && Valid(n) && m.next <= n.next
    && (forall r | r in m.boxes :: r in n.boxes && (r !in touched ==> n.boxes[r] == m.boxes[r]))
    && (forall r | r in n.boxes :: r in m.boxes || m.next <= r)
  }

  /** In place, v became w: only boxes of v were written, and w is again a tree, of those
      and of new boxes. */
  ghost predicate Becomes(m: Mem, s: Slot, v: Json, n: Mem, w: Json) {
    && Rep(m, s, v) && Rep(n, s, w) && Evolves(m, n, Foot(m, s, v))
    && forall r | r in Foot(n, s, w) :: r in Foot(m, s, v) || m.next <= r
  }

  lemma {:induction false} FootLives(m: Mem, s: Slot, v: Json)
    ensures Foot(m, s, v) <= m.boxes.Keys
    decreases v
  {
    forall x | x in Foot(m, s, v) ensures x in m.boxes {
      if x != s.ref {
        var i :| 0 <= i < Count(v) && x in Foot(m, m.boxes[s.ref].slots[i], Kid(v, i));
        FootLives(m, m.boxes[s.ref].slots[i], Kid(v, i));
      }
    }
  }

  /** What is not written keeps its meaning. */
  lemma {:induction false} Frame(m: Mem, n: Mem, s: Slot, v: Json)
    requires Rep(m, s, v) && forall r | r in Foot(m, s, v) && r in m.boxes :: r in n.boxes && n.boxes[r] == m.boxes[r]
    ensures Rep(n, s, v) && Foot(n, s, v) == Foot(m, s, v)
    decreases v
  {
    if s.To? {
      assert s.ref in Foot(m, s, v);
      var slots := m.boxes[s.ref].slots;
      forall i | 0 <= i < Count(v)
        ensures Rep(n, slots[i], Kid(v, i)) && Foot(n, slots[i], Kid(v, i)) == Foot(m, slots[i], Kid(v, i))
      {
        assert Rep(m, slots[i], Kid(v, i));
        assert Foot(m, slots[i], Kid(v, i)) <= Foot(m, s, v);
        Frame(m, n, slots[i], Kid(v, i));
      }
    }
  }

  lemma ReadsOnce(m: Mem, s: Slot, v: Json, i: nat)
    requires Rep(m, s, v) && s.To? && i < Count(v)
    ensures s.ref in m.boxes && Alike(m.boxes[s.ref], v) && Rep(m, m.boxes[s.ref].slots[i], Kid(v, i))
    ensures KidFoot(m, m.boxes[s.ref], v, i) <= Foot(m, s, v) && s.ref !in KidFoot(m, m.boxes[s.ref], v, i)
  {
  }

  /** A slot stands for one value only. */
  lemma {:induction false} MeansOne(m: Mem, s: Slot, v: Json, w: Json)
    requires Rep(m, s, v) && Rep(m, s, w)
    ensures v == w
    decreases v
  {
    if s.To? {
      var b := m.boxes[s.ref];
      forall i | 0 <= i < Count(v) ensures Kid(v, i) == Kid(w, i) {
        MeansOne(m, b.slots[i], Kid(v, i), Kid(w, i));
      }
      if v.Arr? {
        forall i | 0 <= i < |v.items| ensures v.items[i] == w.items[i] {
          assert Kid(v, i) == Kid(w, i);
        }
        assert v.items == w.items;
      } else {
        forall i | 0 <= i < |v.members| ensures v.members[i] == w.members[i] {
          assert Kid(v, i) == Kid(w, i) && KeysOf(v.members)[i] == KeysOf(w.members)[i];
        }
        assert v.members == w.members;
      }
    }
  }

  /** The boxes of v that are not boxes of its child i. */
  ghost function Beside(m: Mem, s: Slot, v: Json, i: nat): set<Ref>
    requires s.To? && s.ref in m.boxes && Alike(m.boxes[s.ref], v)
  {
    Foot(m, s, v) - (if i < Count(v) then KidFoot(m, m.boxes[s.ref], v, i) else {})
  }

  predicate SameKid(b: Box, v: Json, c: Box, w: Json, j: nat) {
    j < Count(w) && Alike(b, v) && Alike(c, w) ==> j < Count(v) && c.slots[j] == b.slots[j] && Kid(w, j) == Kid(v, j)
  }

  /** In n the child i of the box stands for a child of w, next to the other children of v. */
  ghost predicate Placing(m: Mem, s: Slot, v: Json, n: Mem, w: Json, i: nat) {
    && Rep(m, s, v) && s.To? && s.ref in m.boxes && Alike(m.boxes[s.ref], v)
    && s.ref in n.boxes && Alike(n.boxes[s.ref], w) && i < Count(w)
    && (forall j: nat | j != i :: SameKid(m.boxes[s.ref], v, n.boxes[s.ref], w, j))
    && (forall r | r in Beside(m, s, v, i) && r in m.boxes && r != s.ref :: r in n.boxes && n.boxes[r] == m.boxes[r])
    && Rep(n, n.boxes[s.ref].slots[i], Kid(w, i))
    && KidFoot(n, n.boxes[s.ref], w, i) !! Beside(m, s, v, i)
  }

  lemma OtherKid(m: Mem, s: Slot, v: Json, n: Mem, w: Json, i: nat, j: nat)
    requires Placing(m, s, v, n, w, i) && j < Count(w) && j != i
    ensures j < Count(v) && Rep(n, n.boxes[s.ref].slots[j], Kid(w, j))
    ensures KidFoot(n, n.boxes[s.ref], w, j) == KidFoot(m, m.boxes[s.ref], v, j)
    ensures KidFoot(m, m.boxes[s.ref], v, j) <= Beside(m, s, v, i) && s.ref !in KidFoot(m, m.boxes[s.ref], v, j)
  {
    assert SameKid(m.boxes[s.ref], v, n.boxes[s.ref], w, j);
    ReadsOnce(m, s, v, j);
    var b := m.boxes[s.ref];
    if i < Count(v) {
      assert KidFoot(m, b, v, j) !! KidFoot(m, b, v, i);
    }
    Frame(m, n, b.slots[j], Kid(v, j));
  }

  /** One child of a tree is replaced or added, and the rest of the tree is left alone. */
  lemma KidPlaced(m: Mem, s: Slot, v: Json, n: Mem, w: Json, i: nat)
    requires Placing(m, s, v, n, w, i)
    ensures Rep(n, s, w)
    ensures Foot(n, s, w) <= Beside(m, s, v, i) + KidFoot(n, n.boxes[s.ref], w, i)
  {
    var b, c := m.boxes[s.ref], n.boxes[s.ref];
    assert s.ref in Beside(m, s, v, i) by {
      if i < Count(v) { ReadsOnce(m, s, v, i); }
    }
    forall j | 0 <= j < Count(w)
      ensures Rep(n, c.slots[j], Kid(w, j)) && s.ref !in Foot(n, c.slots[j], Kid(w, j))
      ensures Foot(n, c.slots[j], Kid(w, j)) <= Beside(m, s, v, i) + KidFoot(n, c, w, i)
    {
      if j != i { OtherKid(m, s, v, n, w, i, j); }
    }
    forall j, k | 0 <= j < k < Count(w) ensures Foot(n, c.slots[j], Kid(w, j)) !! Foot(n, c.slots[k], Kid(w, k)) {
      KidsApart(m, s, v, n, w, i, j, k);
    }
  }

  lemma KidsApart(m: Mem, s: Slot, v: Json, n: Mem, w: Json, i: nat, j: nat, k: nat)
    requires Placing(m, s, v, n, w, i) && j < k < Count(w)
    ensures KidFoot(n, n.boxes[s.ref], w, j) !! KidFoot(n, n.boxes[s.ref], w, k)
  {
    if j != i { OtherKid(m, s, v, n, w, i, j); }
    if k != i { OtherKid(m, s, v, n, w, i, k); }
    if j != i && k != i {
      assert KidFoot(m, m.boxes[s.ref], v, j) !! KidFoot(m, m.boxes[s.ref], v, k);
    }
  }

  lemma WithKidShape(b: Box, v: Json, i: nat, w: Json)
    requires Alike(b, v) && i < Count(v)
    ensures Alike(b, WithKid(v, i, w)) && Count(WithKid(v, i, w)) == Count(v) && Kid(WithKid(v, i, w), i) == w
    ensures forall j: nat | j != i :: SameKid(b, v, b, WithKid(v, i, w), j)
  {
    if v.Obj? { assert KeysOf(v.members[i := Member(v.members[i].key, w)]) == KeysOf(v.members); }
  }

  /** A child that changes in place changes its tree. */
  lemma KidBecomes(m: Mem, s: Slot, v: Json, i: nat, n: Mem, w: Json)
    requires Valid(m) && Rep(m, s, v) && s.To? && i < Count(v) && s.ref in m.boxes && Alike(m.boxes[s.ref], v)
    requires Becomes(m, m.boxes[s.ref].slots[i], Kid(v, i), n, w)
    ensures Becomes(m, s, v, n, WithKid(v, i, w))
  {
    hide Rep, Foot, Alike, WithKid, SameKid, Count, Kid;
    ReadsOnce(m, s, v, i);
    FootLives(m, s, v);
    var b := m.boxes[s.ref];
    assert n.boxes[s.ref] == b;
    WithKidShape(b, v, i, w);
    KidPlaced(m, s, v, n, WithKid(v, i, w), i);
  }

  lemma BecomesTwice(m: Mem, s: Slot, u: Json, n: Mem, v: Json, o: Mem, w: Json)
    requires Becomes(m, s, u, n, v) && Becomes(n, s, v, o, w)
    ensures Becomes(m, s, u, o, w)
  {
    hide Rep, Foot;
  }

  /** A tree apart from the one that is set keeps its value and stays apart: what was set
      is a copy, and writing through the caller's own value later reaches nothing here. */
  lemma OthersUntouched(m: Mem, s: Slot, v: Json, n: Mem, w: Json, t: Slot, u: Json)
    requires Becomes(m, s, v, n, w) && Rep(m, t, u) && Foot(m, t, u) !! Foot(m, s, v)
    ensures Rep(n, t, u) && Foot(n, t, u) !! Foot(n, s, w)
  {
    hide Rep, Foot;
    FootLives(m, t, u);
    Frame(m, n, t, u);
  }

  /** b is the box of v with its child i replaced or added, for w. */
  ghost predicate Changed(m: Mem, s: Slot, v: Json, b: Box, w: Json, i: nat) {
    && s.To? && s.ref in m.boxes && Alike(m.boxes[s.ref], v)
    && Alike(b, w) && i < Count(w) && forall j: nat | j != i :: SameKid(m.boxes[s.ref], v, b, w, j)
  }

  lemma RootInFoot(m: Mem, s: Slot, v: Json, i: nat)
    requires Rep(m, s, v) && s.To?
    ensures s.ref in m.boxes && Alike(m.boxes[s.ref], v) && s.ref in Foot(m, s, v)
    ensures i < Count(v) ==> s.ref !in KidFoot(m, m.boxes[s.ref], v, i)
  {
  }

  /** Writing a box with a new child, a tree apart from the old one. */
  lemma WritePlaces(m: Mem, s: Slot, v: Json, b: Box, w: Json, i: nat)
    requires Valid(m) && Rep(m, s, v) && Changed(m, s, v, b, w, i)
    requires Rep(m, b.slots[i], Kid(w, i)) && Foot(m, b.slots[i], Kid(w, i)) !! Foot(m, s, v)
    ensures var n := Write(m, s.ref, b);
      && Rep(n, s, w) && Evolves(m, n, {s.ref}) && Foot(n, s, w) <= Foot(m, s, v) + Foot(m, b.slots[i], Kid(w, i))
  {
    hide Rep, Foot, Alike, SameKid, Count, Kid;
    var n := Write(m, s.ref, b);
    RootInFoot(m, s, v, i);
    Frame(m, n, b.slots[i], Kid(w, i));
    KidPlaced(m, s, v, n, w, i);
  }

  /** The same when the child was made after m. */
  lemma PlacesNew(m: Mem, s: Slot, v: Json, n: Mem, b: Box, w: Json, i: nat)
    requires Rep(m, s, v) && Evolves(m, n, {}) && Changed(m, s, v, b, w, i)
    requires Rep(n, b.slots[i], Kid(w, i)) && forall r | r in Foot(n, b.slots[i], Kid(w, i)) :: m.next <= r
    ensures Becomes(m, s, v, Write(n, s.ref, b), w)
  {
    hide Rep, Foot, Alike, SameKid, Count, Kid;
    RootInFoot(m, s, v, i);
    FootLives(m, s, v);
    Frame(m, n, s, v);
    WritePlaces(n, s, v, b, w, i);
  }

  // ---- from_json_value: a copy ----

  function Copy(m: Mem, v: Json): (Mem, Slot)
    decreases v, Count(v) + 1
  {
    match v
    case Arr(items) =>
      var kids := CopyKids(m, v, 0);
      New(kids.0, List(kids.1))
    case Obj(ms) =>
      var kids := CopyKids(m, v, 0);
      New(kids.0, Dict(KeysOf(ms), kids.1))
    case _ => (m, Scalar(v))
  }

  /** The children of v from the i-th on. */
  function CopyKids(m: Mem, v: Json, i: nat): (r: (Mem, seq<Slot>))
    requires i <= Count(v)
    ensures |r.1| == Count(v) - i
    decreases v, Count(v) - i
  {
    if i == Count(v) then (m, []) else
      var first := Copy(m, Kid(v, i));
      var rest := CopyKids(first.0, v, i + 1);
      (rest.0, [first.1] + rest.1)
  }

  /** A copy is a tree of new boxes. */
  ghost predicate IsCopy(m: Mem, n: Mem, s: Slot, v: Json) {
    Evolves(m, n, {}) && Rep(n, s, v) && forall r | r in Foot(n, s, v) :: m.next <= r
  }

  /** Kids of v that are trees apart make a tree with a new box around them. */
  lemma NewBox(m: Mem, b: Box, v: Json)
    requires Valid(m) && (v.Arr? || v.Obj?) && Alike(b, v)
    requires forall i | 0 <= i < Count(v) :: Rep(m, b.slots[i], Kid(v, i))
    requires forall i, j | 0 <= i < j < Count(v) :: KidFoot(m, b, v, i) !! KidFoot(m, b, v, j)
    ensures var n := New(m, b);
      && Evolves(m, n.0, {}) && Rep(n.0, n.1, v)
      && forall r | r in Foot(n.0, n.1, v) :: r == m.next || exists i :: 0 <= i < Count(v) && r in KidFoot(m, b, v, i)
  {
    var n := New(m, b).0;
    forall i | 0 <= i < Count(v)
      ensures Rep(n, b.slots[i], Kid(v, i)) && Foot(n, b.slots[i], Kid(v, i)) == KidFoot(m, b, v, i)
      ensures m.next !in KidFoot(m, b, v, i)
    {
      FootLives(m, b.slots[i], Kid(v, i));
      Frame(m, n, b.slots[i], Kid(v, i));
    }
  }

  lemma {:induction false} CopyIsCopy(m: Mem, v: Json)
    requires Valid(m)
    ensures IsCopy(m, Copy(m, v).0, Copy(m, v).1, v)
    decreases v, Count(v) + 1
  {
    if v.Arr? || v.Obj? {
      BoxIsCopy(m, v);
    }
  }

  lemma {:induction false} BoxIsCopy(m: Mem, v: Json)
    requires Valid(m) && (v.Arr? || v.Obj?)
    ensures IsCopy(m, Copy(m, v).0, Copy(m, v).1, v)
    decreases v, Count(v) + 1, 0
  {
    hide Rep, Foot, CopyKids;
    var kids := CopyKids(m, v, 0);
    KidsAreCopies(m, v, 0);
    var b := if v.Arr? then List(kids.1) else Dict(KeysOf(v.members), kids.1);
    forall i | 0 <= i < Count(v) ensures Rep(kids.0, b.slots[i], Kid(v, i)) {
      assert CopyAt(m, kids.0, kids.1, v, 0, i);
    }
    forall i, j | 0 <= i < j < Count(v) ensures KidFoot(kids.0, b, v, i) !! KidFoot(kids.0, b, v, j) {
      assert ApartAt(kids.0, kids.1, v, 0, i, j);
    }
    NewBox(kids.0, b, v);
    var n := New(kids.0, b);
    forall r | r in Foot(n.0, n.1, v) ensures m.next <= r {
      if r != kids.0.next {
        var i :| 0 <= i < Count(v) && r in KidFoot(kids.0, b, v, i);
        assert CopyAt(m, kids.0, kids.1, v, 0, i);
      }
    }
  }

  ghost predicate CopyAt(m: Mem, n: Mem, slots: seq<Slot>, v: Json, i: nat, j: nat) {
    i <= j < Count(v) && |slots| == Count(v) - i ==> IsCopy(m, n, slots[j - i], Kid(v, j))
  }

  ghost predicate ApartAt(n: Mem, slots: seq<Slot>, v: Json, i: nat, j: nat, k: nat) {
    i <= j < k < Count(v) && |slots| == Count(v) - i ==>
    Foot(n, slots[j - i], Kid(v, j)) !! Foot(n, slots[k - i], Kid(v, k))
  }

  lemma {:induction false} KidsAreCopies(m: Mem, v: Json, i: nat)
    requires Valid(m) && i <= Count(v)
    ensures var kids := CopyKids(m, v, i);
      && Evolves(m, kids.0, {})
      && (forall j: nat :: CopyAt(m, kids.0, kids.1, v, i, j))
      && forall j: nat, k: nat :: ApartAt(kids.0, kids.1, v, i, j, k)
    decreases v, Count(v) - i
  {
    hide Rep, Foot, Copy;
    if i < Count(v) {
      var first := Copy(m, Kid(v, i));
      CopyIsCopy(m, Kid(v, i));
      KidsAreCopies(first.0, v, i + 1);
      var rest := CopyKids(first.0, v, i + 1);
      var kids := CopyKids(m, v, i);
      FootLives(first.0, first.1, Kid(v, i));
      Frame(first.0, rest.0, first.1, Kid(v, i));
      forall j: nat ensures CopyAt(m, kids.0, kids.1, v, i, j) {
        assert CopyAt(first.0, rest.0, rest.1, v, i + 1, j);
      }
      forall j: nat, k: nat ensures ApartAt(kids.0, kids.1, v, i, j, k) {
        assert ApartAt(rest.0, rest.1, v, i + 1, j, k);
        assert CopyAt(first.0, rest.0, rest.1, v, i + 1, k);
      }
    }
  }
}
