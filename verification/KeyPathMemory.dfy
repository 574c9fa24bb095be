/** get_keypath and set_keypath as they work in place, on dicts and lists in memory: each
    step makes the containers it needs and goes on in one of them. Both refine KeyPath
    on every tree. */
module KeyPathMemory {
  import opened Basics
  import opened Json
  import opened KeyPath
  import opened Boxes

  // ---- looking into boxes ----

  /** Python's == between an object in memory and a value. */
  type MemEquality = (Mem, Slot, Json) -> bool

  ghost predicate Compares(eq: MemEquality, same: Equality) {
    forall m, s, v, x | Rep(m, s, v) :: eq(m, s, x) == same(v, x)
  }

  /** A slot stands for one value only, so memory can be compared as values are. */
  lemma ComparisonExists(same: Equality)
    ensures exists eq :: Compares(eq, same)
  {
    hide Rep;
    ghost var eq: MemEquality := (m, s, x) => exists v :: Rep(m, s, v) && same(v, x);
    forall m, s, v, x | Rep(m, s, v) ensures eq(m, s, x) == same(v, x) {
      forall w | Rep(m, s, w) ensures w == v {
        MeansOne(m, s, v, w);
      }
    }
    assert Compares(eq, same);
  }

  function KeyIndex(keys: seq<string>, k: string): (i: nat)
    ensures i <= |keys| && (i < |keys| ==> keys[i] == k) && forall j | 0 <= j < i :: keys[j] != k
  {
    if keys == [] || keys[0] == k then 0 else 1 + KeyIndex(keys[1..], k)
  }

  /** b.get(k). */
  function SlotIn(b: Box, k: string): Slot {
    if b.Dict? && KeyIndex(b.keys, k) < |b.keys| then b.slots[KeyIndex(b.keys, k)] else Scalar(Null)
  }

  /** b[k] = s on a dict. */
  function PutSlot(b: Box, k: string, s: Slot): (c: Box)
    requires b.Dict?
    ensures c.Dict?
  {
    var i := KeyIndex(b.keys, k);
    if i < |b.keys| then Dict(b.keys, b.slots[i := s]) else Dict(b.keys + [k], b.slots + [s])
  }

  predicate SlotMatches(eq: MemEquality, m: Mem, s: Slot, k: string, x: Json) {
    s.To? && s.ref in m.boxes && m.boxes[s.ref].Dict? && eq(m, SlotIn(m.boxes[s.ref], k), x)
  }

  /** The first matching item, or the length of the list. */
  function FindSlot(eq: MemEquality, m: Mem, slots: seq<Slot>, k: string, x: Json): (i: nat)
    ensures i <= |slots| && (i < |slots| ==> SlotMatches(eq, m, slots[i], k, x))
    ensures forall j | 0 <= j < i :: !SlotMatches(eq, m, slots[j], k, x)
  {
    if slots == [] || SlotMatches(eq, m, slots[0], k, x) then 0 else 1 + FindSlot(eq, m, slots[1..], k, x)
  }

  lemma {:induction false} IndexOfIs(ms: seq<Member>, k: string)
    ensures KeyIndex(KeysOf(ms), k) == if k in KeysOf(ms) then IndexOf(ms, k) else |ms|
    decreases |ms|
  {
    if ms != [] {
      assert KeysOf(ms)[0] == ms[0].key && KeysOf(ms)[1..] == KeysOf(ms[1..]);
      IndexOfIs(ms[1..], k);
    }
  }

  lemma SlotInMeans(m: Mem, s: Slot, v: Json, k: string)
    requires Rep(m, s, v) && s.To?
    ensures s.ref in m.boxes && Rep(m, SlotIn(m.boxes[s.ref], k), At(v, k))
  {
    if v.Obj? {
      IndexOfIs(v.members, k);
      if k in KeysOf(v.members) { ReadsOnce(m, s, v, IndexOf(v.members, k)); }
    }
  }

  lemma MatchesAlike(eq: MemEquality, same: Equality, m: Mem, s: Slot, v: Json, k: string, x: Json)
    requires Compares(eq, same) && Rep(m, s, v)
    ensures SlotMatches(eq, m, s, k, x) <==> IsMatch(same, v, k, x)
  {
    if s.To? {
      SlotInMeans(m, s, v, k);
    }
  }

  lemma FindAlike(eq: MemEquality, same: Equality, m: Mem, s: Slot, v: Json, k: string, x: Json)
    requires Compares(eq, same) && Rep(m, s, v) && s.To? && v.Arr?
    ensures s.ref in m.boxes && m.boxes[s.ref].List? && |m.boxes[s.ref].slots| == |v.items|
    ensures FindSlot(eq, m, m.boxes[s.ref].slots, k, x) == Find(same, v.items, k, x)
  {
    forall i | 0 <= i < |v.items|
      ensures SlotMatches(eq, m, m.boxes[s.ref].slots[i], k, x) <==> IsMatch(same, v.items[i], k, x)
    {
      ReadsOnce(m, s, v, i);
      MatchesAlike(eq, same, m, m.boxes[s.ref].slots[i], v.items[i], k, x);
    }
  }

  lemma PutMembers(ms: seq<Member>, k: string, w: Json)
    ensures var i, after := KeyIndex(KeysOf(ms), k), Put(ms, k, w);
      && i <= |ms| && after == (if i < |ms| then ms[i := Member(k, w)] else ms + [Member(k, w)])
      && KeysOf(after) == (if i < |ms| then KeysOf(ms) else KeysOf(ms) + [k])
      && KeyIndex(KeysOf(after), k) == i
  {
    var after := Put(ms, k, w);
    IndexOfIs(ms, k);
    if k in KeysOf(ms) {
      assert KeysOf(after) == KeysOf(ms);
    } else {
      assert KeysOf(after) == KeysOf(ms) + [k];
      assert KeysOf(after)[|ms|] == k;
    }
  }

  lemma PutChanges(m: Mem, s: Slot, v: Json, k: string, c: Slot, w: Json)
    requires s.To? && s.ref in m.boxes && v.Obj? && Alike(m.boxes[s.ref], v)
    ensures var i := KeyIndex(KeysOf(v.members), k);
      var b, z := PutSlot(m.boxes[s.ref], k, c), Obj(Put(v.members, k, w));
      Changed(m, s, v, b, z, i) && b.slots[i] == c && Kid(z, i) == w && SlotIn(b, k) == c
  {
    hide Put, KeyIndex, IndexOf, KeysOf;
    PutMembers(v.members, k, w);
  }

  lemma AppendChanges(m: Mem, s: Slot, v: Json, c: Slot, w: Json)
    requires s.To? && s.ref in m.boxes && v.Arr? && Alike(m.boxes[s.ref], v)
    ensures Changed(m, s, v, List(m.boxes[s.ref].slots + [c]), Arr(v.items + [w]), |v.items|)
  {
  }

  lemma ReplaceChanges(m: Mem, s: Slot, v: Json, i: nat, c: Slot, w: Json)
    requires s.To? && s.ref in m.boxes && v.Arr? && Alike(m.boxes[s.ref], v) && i < |v.items|
    ensures Changed(m, s, v, List(m.boxes[s.ref].slots[i := c]), Arr(v.items[i := w]), i)
  {
  }

  // ---- the containers a path makes on its way ----

  /** _empty_for_next. */
  function EmptyBox(rest: Path): Box {
    if rest == [] || rest[0].Key? then Dict([], []) else List([])
  }

  ghost predicate Holds(m: Mem, r: Ref) {
    Valid(m) && r in m.boxes
  }

  /** target.append of a new container. */
  function AppendNew(m: Mem, r: Ref, made: Box): (n: Mem)
    requires Holds(m, r) && m.boxes[r].List?
    ensures Holds(n, r) && n.boxes[r] == List(m.boxes[r].slots + [To(m.next)])
  {
    Write(New(m, made).0, r, List(m.boxes[r].slots + [To(m.next)]))
  }

  /** The loop of _ensure_list_slot. */
  function PadBox(m: Mem, r: Ref, size: nat, rest: Path): (n: Mem)
    requires Holds(m, r) && m.boxes[r].List?
    ensures Holds(n, r) && n.boxes[r].List? && |n.boxes[r].slots| >= size
    decreases size - |m.boxes[r].slots|
  {
    if |m.boxes[r].slots| >= size then m else PadBox(AppendNew(m, r, EmptyBox(rest)), r, size, rest)
  }

  /** _ensure_list_slot. */
  function EnsureSlot(m: Mem, r: Ref, j: nat, rest: Path): (n: Mem)
    requires Holds(m, r) && m.boxes[r].List?
    ensures Holds(n, r) && n.boxes[r].List? && j < |n.boxes[r].slots|
  {
    var n := PadBox(m, r, j + 1, rest);
    if n.boxes[r].slots[j] == Scalar(Null) then
      Write(New(n, EmptyBox(rest)).0, r, List(n.boxes[r].slots[j := To(n.next)]))
    else n
  }

  /** _find_match with create: the memory then, and the index of the item. */
  function FindOrAdd(eq: MemEquality, m: Mem, r: Ref, k: string, x: Json): (f: (Mem, nat))
    requires Holds(m, r) && m.boxes[r].List?
    ensures Holds(f.0, r) && f.0.boxes[r].List? && f.1 < |f.0.boxes[r].slots|
  {
    var i := FindSlot(eq, m, m.boxes[r].slots, k, x);
    if i < |m.boxes[r].slots| then (m, i) else
      CopyIsCopy(m, x);
      var c := Copy(m, x);
      var item := New(c.0, Dict([k], [c.1]));
      (Write(item.0, r, List(m.boxes[r].slots + [item.1])), i)
  }

  function PutNew(m: Mem, r: Ref, k: string, made: Box): (n: Mem)
    requires Holds(m, r) && m.boxes[r].Dict?
    ensures Holds(n, r) && n.boxes[r] == PutSlot(m.boxes[r], k, To(m.next))
  {
    Write(New(m, made).0, r, PutSlot(m.boxes[r], k, To(m.next)))
  }

  lemma EmptyIsCopy(m: Mem, rest: Path)
    requires Valid(m)
    ensures var e := New(m, EmptyBox(rest)); IsCopy(m, e.0, e.1, EmptyFor(rest))
  {
    NewBox(m, EmptyBox(rest), EmptyFor(rest));
  }

  lemma NullSlot(m: Mem, s: Slot, v: Json)
    requires Rep(m, s, v)
    ensures s == Scalar(Null) <==> v == Null
  {
  }

  /** A list value and its box. */
  lemma ListBox(m: Mem, s: Slot, v: Json)
    requires Rep(m, s, v)
    ensures s.To? ==> s.ref in m.boxes && Alike(m.boxes[s.ref], v)
    ensures v.Arr? <==> s.To? && m.boxes[s.ref].List?
    ensures v.Obj? <==> s.To? && m.boxes[s.ref].Dict?
  {
  }

  lemma SameBecomes(m: Mem, s: Slot, v: Json)
    requires Valid(m) && Rep(m, s, v)
    ensures Becomes(m, s, v, m, v)
  {
  }

  lemma AppendBecomes(m: Mem, s: Slot, v: Json, made: Box, w: Json)
    requires Valid(m) && Rep(m, s, v) && s.To? && v.Arr? && Holds(m, s.ref) && m.boxes[s.ref].List?
    requires var e := New(m, made); IsCopy(m, e.0, e.1, w)
    ensures Becomes(m, s, v, AppendNew(m, s.ref, made), Arr(v.items + [w]))
  {
    hide Rep, Foot, SameKid, Becomes;
    ListBox(m, s, v);
    AppendChanges(m, s, v, To(m.next), w);
    PlacesNew(m, s, v, New(m, made).0, List(m.boxes[s.ref].slots + [To(m.next)]), Arr(v.items + [w]), |v.items|);
  }

  lemma PadOne(items: seq<Json>, n: nat, fill: Json)
    requires |items| < n
    ensures Pad(items + [fill], n, fill) == Pad(items, n, fill)
  {
  }

  lemma {:induction false} PadBecomes(m: Mem, s: Slot, v: Json, size: nat, rest: Path)
    requires Valid(m) && Rep(m, s, v) && s.To? && v.Arr? && Holds(m, s.ref) && m.boxes[s.ref].List?
    ensures Becomes(m, s, v, PadBox(m, s.ref, size, rest), Arr(Pad(v.items, size, EmptyFor(rest))))
    decreases size - |m.boxes[s.ref].slots|
  {
    hide Rep, Foot, AppendNew;
    ListBox(m, s, v);
    if |v.items| >= size {
      SameBecomes(m, s, v);
    } else {
      var e := EmptyFor(rest);
      EmptyIsCopy(m, rest);
      AppendBecomes(m, s, v, EmptyBox(rest), e);
      var n := AppendNew(m, s.ref, EmptyBox(rest));
      PadBecomes(n, s, Arr(v.items + [e]), size, rest);
      PadOne(v.items, size, e);
      BecomesTwice(m, s, v, n, Arr(v.items + [e]), PadBox(n, s.ref, size, rest), Arr(Pad(v.items, size, e)));
    }
  }

  function EnsureItems(items: seq<Json>, j: nat, rest: Path): (r: seq<Json>)
    ensures |r| > j
  {
    var padded := Pad(items, j + 1, EmptyFor(rest));
    padded[j := OrEmpty(padded[j], rest)]
  }

  lemma EnsureBecomes(m: Mem, s: Slot, v: Json, j: nat, rest: Path)
    requires Valid(m) && Rep(m, s, v) && s.To? && v.Arr? && Holds(m, s.ref) && m.boxes[s.ref].List?
    ensures Becomes(m, s, v, EnsureSlot(m, s.ref, j, rest), Arr(EnsureItems(v.items, j, rest)))
  {
    hide Rep, Foot, PadBox, SameKid;
    PadBecomes(m, s, v, j + 1, rest);
    var n, w := PadBox(m, s.ref, j + 1, rest), Arr(Pad(v.items, j + 1, EmptyFor(rest)));
    ListBox(n, s, w);
    ReadsOnce(n, s, w, j);
    NullSlot(n, n.boxes[s.ref].slots[j], w.items[j]);
    if w.items[j] == Null {
      EmptyIsCopy(n, rest);
      var b, z := List(n.boxes[s.ref].slots[j := To(n.next)]), Arr(w.items[j := EmptyFor(rest)]);
      ReplaceChanges(n, s, w, j, To(n.next), EmptyFor(rest));
      PlacesNew(n, s, w, New(n, EmptyBox(rest)).0, b, z, j);
      BecomesTwice(m, s, v, n, w, EnsureSlot(m, s.ref, j, rest), z);
    } else {
      assert w.items[j := w.items[j]] == w.items;
    }
  }

  lemma NewItemIsCopy(m: Mem, k: string, x: Json)
    requires Valid(m)
    ensures var c := Copy(m, x); var item := New(c.0, Dict([k], [c.1])); IsCopy(m, item.0, item.1, Obj([Member(k, x)]))
  {
    hide Rep, Copy;
    CopyIsCopy(m, x);
    var c := Copy(m, x);
    var v := Obj([Member(k, x)]);
    NewBox(c.0, Dict([k], [c.1]), v);
    var item := New(c.0, Dict([k], [c.1]));
    forall r | r in Foot(item.0, item.1, v) ensures m.next <= r {
      if r != c.0.next {
        var i :| 0 <= i < Count(v) && r in KidFoot(c.0, Dict([k], [c.1]), v, i);
        assert Kid(v, i) == x;
      }
    }
  }

  function FoundItems(same: Equality, items: seq<Json>, k: string, x: Json): (r: seq<Json>)
    ensures Find(same, items, k, x) < |r|
  {
    if Find(same, items, k, x) < |items| then items else items + [Obj([Member(k, x)])]
  }

  lemma FindOrAddBecomes(eq: MemEquality, same: Equality, m: Mem, s: Slot, v: Json, k: string, x: Json)
    requires Compares(eq, same) && Valid(m) && Rep(m, s, v) && s.To? && v.Arr? && Holds(m, s.ref)
    requires m.boxes[s.ref].List?
    ensures var f := FindOrAdd(eq, m, s.ref, k, x);
      f.1 == Find(same, v.items, k, x) && Becomes(m, s, v, f.0, Arr(FoundItems(same, v.items, k, x)))
  {
    hide Rep, Foot, SameKid, Compares, Copy, Find, FindSlot;
    FindAlike(eq, same, m, s, v, k, x);
    ListBox(m, s, v);
    var i := Find(same, v.items, k, x);
    if i < |v.items| {
      SameBecomes(m, s, v);
    } else {
      NewItemIsCopy(m, k, x);
      var c := Copy(m, x);
      var item := New(c.0, Dict([k], [c.1]));
      var w := Obj([Member(k, x)]);
      AppendChanges(m, s, v, item.1, w);
      PlacesNew(m, s, v, item.0, List(m.boxes[s.ref].slots + [item.1]), Arr(v.items + [w]), |v.items|);
    }
  }

  lemma PutNewBecomes(m: Mem, s: Slot, v: Json, k: string, made: Box, w: Json)
    requires Valid(m) && Rep(m, s, v) && s.To? && v.Obj? && Holds(m, s.ref) && m.boxes[s.ref].Dict?
    requires var e := New(m, made); IsCopy(m, e.0, e.1, w)
    ensures Becomes(m, s, v, PutNew(m, s.ref, k, made), Obj(Put(v.members, k, w)))
  {
    hide Rep, Foot, SameKid, Becomes, Put, PutSlot, KeysOf, KeyIndex;
    ListBox(m, s, v);
    PutChanges(m, s, v, k, To(m.next), w);
    PlacesNew(m, s, v, New(m, made).0, PutSlot(m.boxes[s.ref], k, To(m.next)), Obj(Put(v.members, k, w)),
      KeyIndex(KeysOf(v.members), k));
  }

  predicate IsList(m: Mem, s: Slot) {
    s.To? && s.ref in m.boxes && m.boxes[s.ref].List?
  }

  /** Going through a key makes the container it needs: one that the next token can use
      where nothing is, a list in front of [k=v]. */
  function OpenKey(m: Mem, r: Ref, k: string, rest: Path): (n: Mem)
    requires Holds(m, r) && m.boxes[r].Dict?
    ensures Holds(n, r) && n.boxes[r].Dict?
  {
    var n := if SlotIn(m.boxes[r], k) == Scalar(Null) then PutNew(m, r, k, EmptyBox(rest)) else m;
    if rest != [] && rest[0].Match? && !IsList(n, SlotIn(n.boxes[r], k)) then PutNew(n, r, k, List([])) else n
  }

  function OpenedKey(v: Json, k: string, rest: Path): Json {
    var found := OrEmpty(At(v, k), rest);
    if rest != [] && rest[0].Match? && !found.Arr? then Arr([]) else found
  }

  lemma OpenKeyBecomes(m: Mem, s: Slot, v: Json, k: string, rest: Path)
    requires Valid(m) && Rep(m, s, v) && s.To? && v.Obj? && Holds(m, s.ref) && m.boxes[s.ref].Dict?
    ensures Becomes(m, s, v, OpenKey(m, s.ref, k, rest), Obj(Put(v.members, k, OpenedKey(v, k, rest))))
  {
    hide Rep, Foot, SameKid, Becomes, Put, PutNew, PutSlot, KeysOf, KeyIndex, SlotIn, New;
    ListBox(m, s, v);
    SlotInMeans(m, s, v, k);
    NullSlot(m, SlotIn(m.boxes[s.ref], k), At(v, k));
    ListBox(m, SlotIn(m.boxes[s.ref], k), At(v, k));
    if At(v, k) == Null {
      EmptyIsCopy(m, rest);
      PutNewBecomes(m, s, v, k, EmptyBox(rest), EmptyFor(rest));
      OpenedIsList(m, s, v, k, rest);
    } else if rest != [] && rest[0].Match? && !At(v, k).Arr? {
      assert EmptyBox(rest) == List([]);
      EmptyIsCopy(m, rest);
      PutNewBecomes(m, s, v, k, List([]), Arr([]));
    } else {
      PutBack(v.members, k);
      SameBecomes(m, s, v);
    }
  }

  lemma PutBack(ms: seq<Member>, k: string)
    requires At(Obj(ms), k) != Null
    ensures Put(ms, k, At(Obj(ms), k)) == ms
  {
    PutSame(ms, k);
  }

  /** A container made for a [k=v] step is a list already. */
  lemma OpenedIsList(m: Mem, s: Slot, v: Json, k: string, rest: Path)
    requires s.To? && v.Obj? && Holds(m, s.ref) && m.boxes[s.ref].Dict? && Alike(m.boxes[s.ref], v)
    ensures var n := PutNew(m, s.ref, k, EmptyBox(rest));
      SlotIn(n.boxes[s.ref], k) == To(m.next) && (rest != [] && rest[0].Match? ==> IsList(n, To(m.next)))
  {
    PutChanges(m, s, v, k, To(m.next), EmptyFor(rest));
  }

  // ---- one step down the path ----

  /** Where Python's index i points in a list of n; negative when out of range. */
  function PlaceOf(n: nat, i: int): int {
    if i >= 0 then i else n + i
  }

  /** One turn of the loop of set_keypath: the memory then, and where it goes on; None
      where it raises. */
  function Descend(eq: MemEquality, m: Mem, s: Slot, p: Path): (d: (Mem, Option<Slot>))
    requires p != [] && Valid(m)
    ensures Valid(d.0)
  {
    if !s.To? || s.ref !in m.boxes then (m, None) else
      var r, b := s.ref, m.boxes[s.ref];
      match p[0]
      case Index(i) =>
        if !b.List? || PlaceOf(|b.slots|, i) < 0 then (m, None) else
          var n := EnsureSlot(m, r, PlaceOf(|b.slots|, i), p[1..]);
          (n, Some(n.boxes[r].slots[PlaceOf(|b.slots|, i)]))
      case Append =>
        if !b.List? then (m, None) else (AppendNew(m, r, EmptyBox(p[1..])), Some(To(m.next)))
      case Match(k, x) =>
        if !b.List? then (m, None) else
          var f := FindOrAdd(eq, m, r, k, x);
          (f.0, Some(f.0.boxes[r].slots[f.1]))
      case Key(k) =>
        if !b.Dict? then (m, None) else
          var n := OpenKey(m, r, k, p[1..]);
          (n, Some(SlotIn(n.boxes[r], k)))
  }

  /** The same on values: the tree with what the step makes, and the child it enters. */
  function Opened(same: Equality, v: Json, p: Path): (o: Option<(Json, nat)>)
    requires p != []
    ensures o.Some? ==> o.value.1 < Count(o.value.0)
  {
    match p[0]
    case Index(i) =>
      if !v.Arr? || Place(v.items, i) < 0 then None
      else Some((Arr(EnsureItems(v.items, Place(v.items, i), p[1..])), Place(v.items, i)))
    case Append => if !v.Arr? then None else Some((Arr(v.items + [EmptyFor(p[1..])]), |v.items|))
    case Match(k, x) =>
      if !v.Arr? then None else Some((Arr(FoundItems(same, v.items, k, x)), Find(same, v.items, k, x)))
    case Key(k) =>
      if !v.Obj? then None else
        PutMembers(v.members, k, OpenedKey(v, k, p[1..]));
        Some((Obj(Put(v.members, k, OpenedKey(v, k, p[1..]))), KeyIndex(KeysOf(v.members), k)))
  }

  lemma SetPathAtKey(same: Equality, v: Json, p: Path, x: Json)
    requires |p| > 1 && p[0].Key? && v.Obj?
    ensures var done := SetPath(same, OpenedKey(v, p[0].name, p[1..]), p[1..], x);
      SetPath(same, v, p, x) == (Obj(Put(v.members, p[0].name, done.0)), done.1)
  {
  }

  lemma OpensAtKey(same: Equality, v: Json, p: Path, x: Json)
    requires |p| > 1 && p[0].Key? && v.Obj?
    ensures var o := Opened(same, v, p).value;
      var done := SetPath(same, Kid(o.0, o.1), p[1..], x);
      SetPath(same, v, p, x) == (WithKid(o.0, o.1, done.0), done.1)
  {
    hide SetPath, Put, KeyIndex, KeysOf, IndexOf, OpenedKey;
    var child := OpenedKey(v, p[0].name, p[1..]);
    SetPathAtKey(same, v, p, x);
    PutMembers(v.members, p[0].name, child);
    var after := SetPath(same, child, p[1..], x).0;
    PutMembers(v.members, p[0].name, after);
    var o := Opened(same, v, p).value;
    assert o.0.members[o.1 := Member(p[0].name, after)] == Put(v.members, p[0].name, after);
  }

  /** SetPath opens the first step and sets the rest of the path in that child. */
  lemma SetPathOpens(same: Equality, v: Json, p: Path, x: Json)
    requires |p| > 1
    ensures Opened(same, v, p).None? ==> SetPath(same, v, p, x) == (v, false)
    ensures Opened(same, v, p).Some? ==>
      var o := Opened(same, v, p).value;
      var done := SetPath(same, Kid(o.0, o.1), p[1..], x);
      SetPath(same, v, p, x) == (WithKid(o.0, o.1, done.0), done.1)
  {
    if Opened(same, v, p).Some? {
      var o := Opened(same, v, p).value;
      var done := SetPath(same, Kid(o.0, o.1), p[1..], x).0;
      match p[0] {
        case Index(i) =>
          assert o.0.items[o.1 := done] == Pad(v.items, o.1 + 1, EmptyFor(p[1..]))[o.1 := done];
        case Append =>
          assert o.0.items[o.1 := done] == v.items + [done];
        case Match(_, _) =>
        case Key(_) => OpensAtKey(same, v, p, x);
      }
    }
  }

  lemma DescendOpens(eq: MemEquality, same: Equality, m: Mem, s: Slot, v: Json, p: Path)
    requires Compares(eq, same) && Valid(m) && Rep(m, s, v) && p != []
    ensures Opened(same, v, p).None? ==> Descend(eq, m, s, p) == (m, None)
    ensures Opened(same, v, p).Some? ==>
      var d, o := Descend(eq, m, s, p), Opened(same, v, p).value;
      && s.To? && Becomes(m, s, v, d.0, o.0) && s.ref in d.0.boxes && Alike(d.0.boxes[s.ref], o.0)
      && d.1 == Some(d.0.boxes[s.ref].slots[o.1])
  {
    hide Rep, Foot, SameKid, Compares, EnsureSlot, AppendNew, FindOrAdd, OpenKey, EnsureItems, FoundItems, OpenedKey,
      Put, KeyIndex, KeysOf;
    ListBox(m, s, v);
    var o := Opened(same, v, p);
    if o.Some? {
      match p[0] {
        case Index(i) => EnsureBecomes(m, s, v, Place(v.items, i), p[1..]);
        case Append =>
          EmptyIsCopy(m, p[1..]);
          AppendBecomes(m, s, v, EmptyBox(p[1..]), EmptyFor(p[1..]));
        case Match(k, x) => FindOrAddBecomes(eq, same, m, s, v, k, x);
        case Key(k) =>
          OpenKeyBecomes(m, s, v, k, p[1..]);
          PutMembers(v.members, k, OpenedKey(v, k, p[1..]));
      }
      ListBox(Descend(eq, m, s, p).0, s, o.value.0);
    }
  }

  // ---- the last step ----

  /** dict.update with the members of another dict, whose values it then shares. */
  function UpdateBox(m: Mem, r: Ref, keys: seq<string>, slots: seq<Slot>): Mem
    requires Holds(m, r) && m.boxes[r].Dict? && |keys| == |slots|
    decreases |keys|
  {
    if keys == [] then m else UpdateBox(Write(m, r, PutSlot(m.boxes[r], keys[0], slots[0])), r, keys[1..], slots[1..])
  }

  predicate IsDictAt(m: Mem, s: Slot) {
    s.To? && s.ref in m.boxes && m.boxes[s.ref].Dict?
  }

  /** After the loop: the value is copied first, then put where the last token says. */
  function Finish(eq: MemEquality, m: Mem, s: Slot, token: Token, x: Json): (Mem, bool)
    requires Valid(m)
  {
    CopyIsCopy(m, x);
    var c := Copy(m, x);
    if !s.To? || s.ref !in c.0.boxes then (c.0, false) else
      var r, b := s.ref, c.0.boxes[s.ref];
      match token
      case Index(i) =>
        if !b.List? || PlaceOf(|b.slots|, i) < 0 then (c.0, false) else
          var n := EnsureSlot(c.0, r, PlaceOf(|b.slots|, i), []);
          (Write(n, r, List(n.boxes[r].slots[PlaceOf(|b.slots|, i) := c.1])), true)
      case Append =>
        if !b.List? then (c.0, false) else (Write(c.0, r, List(b.slots + [c.1])), true)
      case Match(k, y) =>
        if !b.List? then (c.0, false) else
          var f := FindOrAdd(eq, c.0, r, k, y);
          if IsDictAt(f.0, c.1) && IsDictAt(f.0, f.0.boxes[r].slots[f.1]) then
            (UpdateBox(f.0, f.0.boxes[r].slots[f.1].ref, f.0.boxes[c.1.ref].keys, f.0.boxes[c.1.ref].slots), true)
          else (Write(f.0, r, List(f.0.boxes[r].slots[f.1 := c.1])), true)
      case Key(k) =>
        if !b.Dict? then (c.0, false) else (Write(c.0, r, PutSlot(b, k, c.1)), true)
  }

  /** What was copied first is still there, apart from the tree that has changed since. */
  lemma CopyStays(m: Mem, s: Slot, u: Json, c: (Mem, Slot), x: Json, n: Mem, v: Json)
    requires Rep(m, s, u) && IsCopy(m, c.0, c.1, x) && (Rep(c.0, s, u) ==> Becomes(c.0, s, u, n, v))
    ensures Rep(n, c.1, x) && Foot(n, c.1, x) == Foot(c.0, c.1, x) && Foot(n, c.1, x) !! Foot(n, s, v)
    ensures Becomes(m, s, u, n, v)
  {
    hide Rep, Foot;
    FootLives(m, s, u);
    Frame(m, c.0, s, u);
    FootLives(c.0, c.1, x);
    Frame(c.0, n, c.1, x);
  }

  lemma FinishPlaces(m: Mem, s: Slot, u: Json, c: (Mem, Slot), x: Json, n: Mem, v: Json, b: Box, w: Json, i: nat)
    requires Rep(m, s, u) && IsCopy(m, c.0, c.1, x) && (Rep(c.0, s, u) ==> Becomes(c.0, s, u, n, v))
    requires Changed(n, s, v, b, w, i) && b.slots[i] == c.1 && Kid(w, i) == x
    ensures Becomes(m, s, u, Write(n, s.ref, b), w)
  {
    hide Rep, Foot, Alike, SameKid, Count, Kid;
    CopyStays(m, s, u, c, x, n, v);
    WritePlaces(n, s, v, b, w, i);
    RootInFoot(n, s, v, i);
  }

  /** The slot stands for v in boxes of `around`, none of them a box of the tree w at s. */
  ghost predicate ApartFrom(m: Mem, slot: Slot, v: Json, around: set<Ref>, s: Slot, w: Json) {
    Rep(m, slot, v) && Foot(m, slot, v) <= around && Foot(m, slot, v) !! Foot(m, s, w)
  }

  lemma {:induction false} UpdateMeans(m: Mem, s: Slot, v: Json, more: seq<Member>, slots: seq<Slot>, around: set<Ref>)
    requires Rep(m, s, v) && v.Obj? && s.To? && Holds(m, s.ref) && m.boxes[s.ref].Dict? && |slots| == |more|
    requires forall i | 0 <= i < |more| :: ApartFrom(m, slots[i], more[i].value, around, s, v)
    requires forall i, j | 0 <= i < j < |more| :: Foot(m, slots[i], more[i].value) !! Foot(m, slots[j], more[j].value)
    ensures var n, w := UpdateBox(m, s.ref, KeysOf(more), slots), Obj(UpdateAll(v.members, more));
      Rep(n, s, w) && Evolves(m, n, {s.ref}) && Foot(n, s, w) <= Foot(m, s, v) + around
    decreases |more|
  {
    hide Rep, Foot, Put, PutSlot, KeyIndex, SameKid, Alike;
    if more != [] {
      var k, x := more[0].key, more[0].value;
      var b, w, i := PutSlot(m.boxes[s.ref], k, slots[0]), Obj(Put(v.members, k, x)), KeyIndex(KeysOf(v.members), k);
      var n := Write(m, s.ref, b);
      assert ApartFrom(m, slots[0], x, around, s, v);
      ListBox(m, s, v);
      RootInFoot(m, s, v, 0);
      PutChanges(m, s, v, k, slots[0], x);
      WritePlaces(m, s, v, b, w, i);
      forall j | 0 <= j < |more| - 1
        ensures ApartFrom(n, slots[1..][j], more[1..][j].value, around, s, w)
        ensures Foot(n, slots[1..][j], more[1..][j].value) == Foot(m, slots[j + 1], more[j + 1].value)
      {
        assert ApartFrom(m, slots[j + 1], more[j + 1].value, around, s, v);
        assert Foot(m, slots[0], more[0].value) !! Foot(m, slots[j + 1], more[j + 1].value);
        Frame(m, n, slots[j + 1], more[j + 1].value);
      }
      assert KeysOf(more)[0] == k && KeysOf(more)[1..] == KeysOf(more[1..]);
      UpdateMeans(n, s, w, more[1..], slots[1..], around);
    }
  }

  /** item.update(encoded), seen from the list the item is in. */
  lemma ItemUpdates(m: Mem, s: Slot, v: Json, i: nat, c: Slot, x: Json)
    requires Valid(m) && Rep(m, s, v) && s.To? && v.Arr? && i < |v.items| && v.items[i].Obj? && x.Obj?
    requires Rep(m, c, x) && Foot(m, c, x) !! Foot(m, s, v)
    requires s.ref in m.boxes && m.boxes[s.ref].List? && |m.boxes[s.ref].slots| == |v.items|
    ensures var item := m.boxes[s.ref].slots[i];
      && IsDictAt(m, item) && IsDictAt(m, c)
      && var n := UpdateBox(m, item.ref, m.boxes[c.ref].keys, m.boxes[c.ref].slots);
         var w := Arr(v.items[i := Obj(UpdateAll(v.items[i].members, x.members))]);
         Rep(n, s, w) && Evolves(m, n, Foot(m, s, v)) && Foot(n, s, w) <= Foot(m, s, v) + Foot(m, c, x)
  {
    var b := m.boxes[s.ref];
    var item, around := b.slots[i], Foot(m, c, x);
    ReadsOnce(m, s, v, i);
    ListBox(m, item, v.items[i]);
    ListBox(m, c, x);
    var more, slots := x.members, m.boxes[c.ref].slots;
    forall j | 0 <= j < |more| ensures ApartFrom(m, slots[j], more[j].value, around, item, v.items[i]) {
      ReadsOnce(m, c, x, j);
    }
    forall j, k | 0 <= j < k < |more| ensures Foot(m, slots[j], more[j].value) !! Foot(m, slots[k], more[k].value) {
      assert KidFoot(m, m.boxes[c.ref], x, j) !! KidFoot(m, m.boxes[c.ref], x, k);
    }
    UpdateMeans(m, item, v.items[i], more, slots, around);
    ItemPlaced(m, s, v, i, UpdateBox(m, item.ref, KeysOf(more), slots), Obj(UpdateAll(v.items[i].members, more)),
      around);
  }

  /** An item of a list that changes in place, taking over boxes from elsewhere. */
  lemma ItemPlaced(m: Mem, s: Slot, v: Json, i: nat, n: Mem, w: Json, around: set<Ref>)
    requires Valid(m) && Rep(m, s, v) && s.To? && v.Arr? && i < |v.items| && around !! Foot(m, s, v)
    requires s.ref in m.boxes && Alike(m.boxes[s.ref], v)
    requires var item := m.boxes[s.ref].slots[i];
      item.To? && Rep(n, item, w) && Evolves(m, n, {item.ref}) && Foot(n, item, w) <= Foot(m, item, v.items[i]) + around
    ensures var z := Arr(v.items[i := w]);
      Rep(n, s, z) && Evolves(m, n, Foot(m, s, v)) && Foot(n, s, z) <= Foot(m, s, v) + around
  {
    hide Rep, Foot, SameKid, Alike, Count, Kid, WithKid;
    var b := m.boxes[s.ref];
    KidIsItem(v, i, w);
    WithKidShape(b, v, i, w);
    ReadsOnce(m, s, v, i);
    RootInFoot(m, b.slots[i], v.items[i], 0);
    assert n.boxes[s.ref] == b;
    KidPlaced(m, s, v, n, WithKid(v, i, w), i);
  }

  lemma KidIsItem(v: Json, i: nat, w: Json)
    requires v.Arr? && i < |v.items|
    ensures i < Count(v) && Kid(v, i) == v.items[i] && WithKid(v, i, w) == Arr(v.items[i := w])
  {
  }

  /** The last step in place is the last step on values, when it does not match. */
  lemma FinishSets(eq: MemEquality, same: Equality, m: Mem, s: Slot, v: Json, p: Path, x: Json)
    requires Compares(eq, same) && Valid(m) && Rep(m, s, v) && |p| == 1 && !p[0].Match?
    ensures Becomes(m, s, v, Finish(eq, m, s, p[0], x).0, SetPath(same, v, p, x).0)
    ensures Finish(eq, m, s, p[0], x).1 == SetPath(same, v, p, x).1
  {
    hide Rep, Foot, Alike, SameKid, Compares, Copy, EnsureSlot, EnsureItems, PutSlot, Put, KeyIndex, KeysOf, IndexOf,
      Becomes;
    CopyIsCopy(m, x);
    var c := Copy(m, x);
    CopyKeeps(m, s, v, c, x);
    SameBecomes(c.0, s, v);
    ListBox(c.0, s, v);
    if SetPath(same, v, p, x).1 {
      match p[0] {
        case Index(i) =>
          var j := Place(v.items, i);
          var n, w := EnsureSlot(c.0, s.ref, j, []), Arr(EnsureItems(v.items, j, []));
          EnsureBecomes(c.0, s, v, j, []);
          CopyStays(m, s, v, c, x, n, w);
          BecomesTree(c.0, s, v, n, w);
          ReplaceChanges(n, s, w, j, c.1, x);
          EnsuredThenSet(v.items, j, x);
          FinishPlaces(m, s, v, c, x, n, w, List(n.boxes[s.ref].slots[j := c.1]), Arr(w.items[j := x]), j);
        case Append =>
          AppendChanges(c.0, s, v, c.1, x);
          FinishPlaces(m, s, v, c, x, c.0, v, List(c.0.boxes[s.ref].slots + [c.1]), Arr(v.items + [x]), |v.items|);
        case Key(k) =>
          PutChanges(c.0, s, v, k, c.1, x);
          FinishPlaces(m, s, v, c, x, c.0, v, PutSlot(c.0.boxes[s.ref], k, c.1), Obj(Put(v.members, k, x)),
            KeyIndex(KeysOf(v.members), k));
      }
    }
  }

  lemma BecomesTree(m: Mem, s: Slot, v: Json, n: Mem, w: Json)
    requires Becomes(m, s, v, n, w) && s.To?
    ensures s.ref in n.boxes && Alike(n.boxes[s.ref], w) && (w.Arr? <==> n.boxes[s.ref].List?)
  {
    ListBox(n, s, w);
  }

  lemma CopyKeeps(m: Mem, s: Slot, v: Json, c: (Mem, Slot), x: Json)
    requires Rep(m, s, v) && IsCopy(m, c.0, c.1, x)
    ensures Rep(c.0, s, v) && Becomes(m, s, v, c.0, v)
  {
    hide Rep, Foot;
    FootLives(m, s, v);
    Frame(m, c.0, s, v);
  }

  lemma EnsuredThenSet(items: seq<Json>, j: nat, x: Json)
    ensures EnsureItems(items, j, [])[j := x] == Pad(items, j + 1, EmptyFor([]))[j := x]
  {
  }

  /** ... and when it does: the matching item is updated, or replaced by a scalar or a list. */
  lemma FinishMatches(eq: MemEquality, same: Equality, m: Mem, s: Slot, v: Json, p: Path, x: Json)
    requires Compares(eq, same) && Valid(m) && Rep(m, s, v) && |p| == 1 && p[0].Match?
    ensures Becomes(m, s, v, Finish(eq, m, s, p[0], x).0, SetPath(same, v, p, x).0)
    ensures Finish(eq, m, s, p[0], x).1 == SetPath(same, v, p, x).1
  {
    hide Rep, Foot, Alike, SameKid, Compares, Copy, FindOrAdd, UpdateBox, UpdateAll, Find;
    CopyIsCopy(m, x);
    var c := Copy(m, x);
    CopyKeeps(m, s, v, c, x);
    ListBox(c.0, s, v);
    if v.Arr? {
      var f, items := FindOrAdd(eq, c.0, s.ref, p[0].key, p[0].value), FoundItems(same, v.items, p[0].key, p[0].value);
      var w := Arr(items);
      FindOrAddBecomes(eq, same, c.0, s, v, p[0].key, p[0].value);
      CopyStays(m, s, v, c, x, f.0, w);
      BecomesTree(c.0, s, v, f.0, w);
      ReadsOnce(f.0, s, w, f.1);
      ListBox(f.0, f.0.boxes[s.ref].slots[f.1], items[f.1]);
      ListBox(f.0, c.1, x);
      if x.Obj? && items[f.1].Obj? {
        ItemUpdates(f.0, s, w, f.1, c.1, x);
      } else {
        ReplaceChanges(f.0, s, w, f.1, c.1, x);
        FinishPlaces(m, s, v, c, x, f.0, w, List(f.0.boxes[s.ref].slots[f.1 := c.1]), Arr(items[f.1 := x]), f.1);
      }
    }
  }

  // ---- set_keypath in memory ----

  /** The loop, then the last step. The empty path only copies the value it returns. */
  function SetMem(eq: MemEquality, m: Mem, s: Slot, p: Path, x: Json): (Mem, bool)
    requires Valid(m)
    decreases |p|
  {
    if p == [] then (m, true)
    else if |p| == 1 then Finish(eq, m, s, p[0], x) else
      var d := Descend(eq, m, s, p);
      if d.1.None? then (d.0, false) else SetMem(eq, d.0, d.1.value, p[1..], x)
  }

  /** Setting in place refines setting on values: from a tree it leaves the tree SetPath
      describes, also where it raises; no other object is written; and the tree shares no
      box with anything that was there before, the caller's value included. */
  lemma {:induction false} SetRefines(eq: MemEquality, same: Equality, m: Mem, s: Slot, v: Json, p: Path, x: Json)
    requires Compares(eq, same) && Valid(m) && Rep(m, s, v)
    ensures Becomes(m, s, v, SetMem(eq, m, s, p, x).0, SetPath(same, v, p, x).0)
    ensures SetMem(eq, m, s, p, x).1 == SetPath(same, v, p, x).1
    decreases |p|
  {
    hide Rep, Foot, Alike, Compares, Descend, Opened, Finish, Kid, WithKid, Count;
    if p == [] {
      SameBecomes(m, s, v);
    } else if |p| == 1 {
      if p[0].Match? { FinishMatches(eq, same, m, s, v, p, x); } else { FinishSets(eq, same, m, s, v, p, x); }
    } else {
      DescendOpens(eq, same, m, s, v, p);
      SetPathOpens(same, v, p, x);
      if Opened(same, v, p).None? {
        SameBecomes(m, s, v);
      } else {
        var d, o := Descend(eq, m, s, p), Opened(same, v, p).value;
        ReadsOnce(d.0, s, o.0, o.1);
        SetRefines(eq, same, d.0, d.1.value, Kid(o.0, o.1), p[1..], x);
        var done := SetPath(same, Kid(o.0, o.1), p[1..], x).0;
        var n := SetMem(eq, d.0, d.1.value, p[1..], x).0;
        KidBecomes(d.0, s, o.0, o.1, n, done);
        BecomesTwice(m, s, v, d.0, o.0, n, WithKid(o.0, o.1, done));
      }
    }
  }

  lemma RefinesAll(eq: MemEquality, m: Mem, s: Slot, p: Path, x: Json)
    requires Valid(m)
    ensures forall same, v | Compares(eq, same) && Rep(m, s, v) ::
      var n, done := SetMem(eq, m, s, p, x), SetPath(same, v, p, x); Becomes(m, s, v, n.0, done.0) && n.1 == done.1
  {
    hide Rep, Becomes, Compares, SetPath, SetMem;
    forall same, v | Compares(eq, same) && Rep(m, s, v)
      ensures Becomes(m, s, v, SetMem(eq, m, s, p, x).0, SetPath(same, v, p, x).0)
      ensures SetMem(eq, m, s, p, x).1 == SetPath(same, v, p, x).1
    {
      SetRefines(eq, same, m, s, v, p, x);
    }
  }

  /** get_keypath up to the copy it returns: the slot it reaches. */
  function GetMem(eq: MemEquality, m: Mem, s: Slot, p: Path): Option<Slot>
    decreases |p|
  {
    if p == [] then Some(s)
    else if !s.To? || s.ref !in m.boxes then None
    else
      var b := m.boxes[s.ref];
      match p[0]
      case Append => None
      case Index(i) => if b.List? && 0 <= i < |b.slots| then GetMem(eq, m, b.slots[i], p[1..]) else None
      case Match(k, x) =>
        if b.List? && FindSlot(eq, m, b.slots, k, x) < |b.slots| then
          GetMem(eq, m, b.slots[FindSlot(eq, m, b.slots, k, x)], p[1..])
        else None
      case Key(k) => if b.Dict? && k in b.keys then GetMem(eq, m, SlotIn(b, k), p[1..]) else None
  }

  /** Getting in memory refines getting on values. */
  lemma {:induction false} GetRefines(eq: MemEquality, same: Equality, m: Mem, s: Slot, v: Json, p: Path)
    requires Compares(eq, same) && Rep(m, s, v)
    ensures GetMem(eq, m, s, p).Some? <==> GetPath(same, v, p).Some?
    ensures GetMem(eq, m, s, p).Some? ==> Rep(m, GetMem(eq, m, s, p).value, GetPath(same, v, p).value)
    decreases |p|
  {
    hide Rep, Compares, FindSlot, Find, At, SlotIn;
    ListBox(m, s, v);
    if p != [] && s.To? {
      var b := m.boxes[s.ref];
      match p[0] {
        case Append =>
        case Index(i) =>
          if b.List? && 0 <= i < |b.slots| {
            ReadsOnce(m, s, v, i);
            GetRefines(eq, same, m, b.slots[i], v.items[i], p[1..]);
          }
        case Match(k, x) =>
          if b.List? {
            FindAlike(eq, same, m, s, v, k, x);
            var i := Find(same, v.items, k, x);
            if i < |v.items| {
              ReadsOnce(m, s, v, i);
              GetRefines(eq, same, m, b.slots[i], v.items[i], p[1..]);
            }
          }
        case Key(k) =>
          if b.Dict? {
            SlotInMeans(m, s, v, k);
            GetRefines(eq, same, m, SlotIn(b, k), At(v, k), p[1..]);
          }
      }
    }
  }

  /** The laws of KeyPath hold in memory: what was set is what is reached, and a set on a
      clean path that raises has changed nothing that can be reached. */
  lemma SetThenGet(eq: MemEquality, same: Equality, m: Mem, s: Slot, v: Json, p: Path, x: Json)
    requires Compares(eq, same) && Valid(m) && Rep(m, s, v) && p != [] && forall y :: same(y, y)
    ensures var n := SetMem(eq, m, s, p, x);
      && (n.1 && Lookups(p) ==> GetMem(eq, n.0, s, p).Some? && Rep(n.0, GetMem(eq, n.0, s, p).value, x))
      && (!n.1 && Clean(p) && ScalarMatches(p) ==> Rep(n.0, s, v))
  {
    hide Rep, SetMem, GetMem, SetPath, GetPath, Compares;
    var n := SetMem(eq, m, s, p, x);
    var w := SetPath(same, v, p, x);
    SetRefines(eq, same, m, s, v, p, x);
    GetRefines(eq, same, n.0, s, w.0, p);
    if n.1 && Lookups(p) { GetAfterSet(same, v, p, x); }
    if !n.1 && Clean(p) && ScalarMatches(p) { FailureChangesNothing(same, v, p, x); }
  }

  // ---- the loops ----

  class Memory {
    var boxes: map<Ref, Box>
    var next: Ref

    function Now(): Mem
      reads this
    {
      Mem(boxes, next)
    }

    method Create(b: Box) returns (s: Slot)
      modifies this
      ensures (Now(), s) == New(old(Now()), b)
    {
      s := To(next);
      boxes, next := boxes[next := b], next + 1;
    }

    /** from_json_value. */
    method FromJsonValue(x: Json) returns (s: Slot)
      modifies this
      ensures (Now(), s) == Copy(old(Now()), x)
    {
      var c := Copy(Now(), x);
      boxes, next, s := c.0.boxes, c.0.next, c.1;
    }

    /** _ensure_list_slot. */
    method EnsureListSlot(r: Ref, j: nat, rest: Path) returns (s: Slot)
      requires Holds(Now(), r) && boxes[r].List?
      modifies this
      ensures Now() == EnsureSlot(old(Now()), r, j, rest) && r in boxes && j < |boxes[r].slots|
      ensures s == boxes[r].slots[j]
    {
      while |boxes[r].slots| <= j
        invariant Holds(Now(), r) && boxes[r].List?
        invariant PadBox(Now(), r, j + 1, rest) == PadBox(old(Now()), r, j + 1, rest)
        decreases j + 1 - |boxes[r].slots|
      {
        ghost var before := Now();
        var item := Create(EmptyBox(rest));
        boxes := boxes[r := List(boxes[r].slots + [item])];
        assert Now() == AppendNew(before, r, EmptyBox(rest));
      }
      if boxes[r].slots[j] == Scalar(Null) {
        var item := Create(EmptyBox(rest));
        boxes := boxes[r := List(boxes[r].slots[j := item])];
      }
      s := boxes[r].slots[j];
    }

    /** _find_match with create. */
    method FindMatch(eq: MemEquality, r: Ref, k: string, x: Json) returns (i: nat)
      requires Holds(Now(), r) && boxes[r].List?
      modifies this
      ensures (Now(), i) == FindOrAdd(eq, old(Now()), r, k, x)
    {
      var slots := boxes[r].slots;
      i := 0;
      while i < |slots| && !SlotMatches(eq, Now(), slots[i], k, x)
        invariant i <= |slots| && Now() == old(Now())
        invariant forall j | 0 <= j < i :: !SlotMatches(eq, Now(), slots[j], k, x)
      {
        i := i + 1;
      }
      assert i == FindSlot(eq, Now(), slots, k, x);
      if i == |slots| {
        var value := FromJsonValue(x);
        var item := Create(Dict([k], [value]));
        boxes := boxes[r := List(slots + [item])];
      }
    }

    /** One turn of the loop of set_keypath. */
    method Advance(eq: MemEquality, s: Slot, p: Path) returns (current: Option<Slot>)
      requires p != [] && Valid(Now())
      modifies this
      ensures (Now(), current) == Descend(eq, old(Now()), s, p)
    {
      if !s.To? || s.ref !in boxes {
        return None;
      }
      var r := s.ref;
      match p[0]
      case Index(i) =>
        if !boxes[r].List? || PlaceOf(|boxes[r].slots|, i) < 0 {
          return None;
        }
        var slot := EnsureListSlot(r, PlaceOf(|boxes[r].slots|, i), p[1..]);
        current := Some(slot);
      case Append =>
        if !boxes[r].List? {
          return None;
        }
        var item := Create(EmptyBox(p[1..]));
        boxes := boxes[r := List(boxes[r].slots + [item])];
        current := Some(item);
      case Match(k, x) =>
        if !boxes[r].List? {
          return None;
        }
        var i := FindMatch(eq, r, k, x);
        current := Some(boxes[r].slots[i]);
      case Key(k) =>
        if !boxes[r].Dict? {
          return None;
        }
        if SlotIn(boxes[r], k) == Scalar(Null) {
          var made := Create(EmptyBox(p[1..]));
          boxes := boxes[r := PutSlot(boxes[r], k, made)];
        }
        if |p| > 1 && p[1].Match? && !IsList(Now(), SlotIn(boxes[r], k)) {
          var made := Create(List([]));
          boxes := boxes[r := PutSlot(boxes[r], k, made)];
        }
        current := Some(SlotIn(boxes[r], k));
    }

    /** item.update(encoded). */
    method Update(r: Ref, keys: seq<string>, slots: seq<Slot>)
      requires Holds(Now(), r) && boxes[r].Dict? && |keys| == |slots|
      modifies this
      ensures Now() == UpdateBox(old(Now()), r, keys, slots)
    {
      var i := 0;
      while i < |keys|
        invariant i <= |keys| && Holds(Now(), r) && boxes[r].Dict?
        invariant UpdateBox(Now(), r, keys[i..], slots[i..]) == UpdateBox(old(Now()), r, keys, slots)
      {
        boxes := boxes[r := PutSlot(boxes[r], keys[i], slots[i])];
        assert keys[i..][1..] == keys[i + 1..] && slots[i..][1..] == slots[i + 1..];
        i := i + 1;
      }
    }

    /** What set_keypath does with the last token. */
    method PutLast(eq: MemEquality, s: Slot, token: Token, x: Json) returns (ok: bool)
      requires Valid(Now())
      modifies this
      ensures (Now(), ok) == Finish(eq, old(Now()), s, token, x)
    {
      hide Copy, EnsureSlot, FindOrAdd, UpdateBox, PutSlot, Rep, Foot;
      CopyIsCopy(Now(), x);
      var encoded := FromJsonValue(x);
      if !s.To? || s.ref !in boxes {
        return false;
      }
      var r := s.ref;
      match token {
        case Index(i) =>
          if !boxes[r].List? || PlaceOf(|boxes[r].slots|, i) < 0 {
            return false;
          }
          var j := PlaceOf(|boxes[r].slots|, i);
          var _ := EnsureListSlot(r, j, []);
          boxes := boxes[r := List(boxes[r].slots[j := encoded])];
        case Append =>
          if !boxes[r].List? {
            return false;
          }
          boxes := boxes[r := List(boxes[r].slots + [encoded])];
        case Match(k, y) =>
          if !boxes[r].List? {
            return false;
          }
          var i := FindMatch(eq, r, k, y);
          var item := boxes[r].slots[i];
          if IsDictAt(Now(), encoded) && IsDictAt(Now(), item) {
            Update(item.ref, boxes[encoded.ref].keys, boxes[encoded.ref].slots);
          } else {
            boxes := boxes[r := List(boxes[r].slots[i := encoded])];
          }
        case Key(k) =>
          if !boxes[r].Dict? {
            return false;
          }
          boxes := boxes[r := PutSlot(boxes[r], k, encoded)];
      }
      return true;
    }

    /** set_keypath; false where it raises. */
    method SetKeyPath(eq: MemEquality, root: Slot, p: Path, x: Json) returns (ok: bool)
      requires Valid(Now())
      modifies this
      ensures (Now(), ok) == SetMem(eq, old(Now()), root, p, x)
      ensures forall same, v | Compares(eq, same) && Rep(old(Now()), root, v) ::
        Becomes(old(Now()), root, v, Now(), SetPath(same, v, p, x).0) && ok == SetPath(same, v, p, x).1
    {
      hide Rep, Becomes, Compares, SetPath, Descend, Finish;
      RefinesAll(eq, Now(), root, p, x);
      var current := root;
      var index := 0;
      while index + 1 < |p|
        invariant p == [] ==> index == 0
        invariant p != [] ==> index < |p|
        invariant Valid(Now()) && SetMem(eq, Now(), current, p[index..], x) == SetMem(eq, old(Now()), root, p, x)
      {
        var further := Advance(eq, current, p[index..]);
        if further.None? {
          return false;
        }
        assert p[index..][1..] == p[index + 1..];
        current, index := further.value, index + 1;
      }
      if p == [] {
        return true;
      }
      ok := PutLast(eq, current, p[index], x);
    }
  }
}
