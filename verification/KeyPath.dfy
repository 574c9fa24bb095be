/** Reading and writing trees of objects and lists by key path. */
module KeyPath {
  import opened Basics
  import opened Json

  datatype Token = Key(name: string) | Index(i: int) | Append | Match(key: string, value: Json)

  type Path = seq<Token>

  /** Python's == on JSON values. */
  type Equality = (Json, Json) -> bool

  function At(v: Json, k: string): Json {
    if v.Obj? && k in KeysOf(v.members) then v.members[IndexOf(v.members, k)].value else Null
  }

  predicate IsMatch(same: Equality, item: Json, key: string, value: Json) {
    item.Obj? && same(At(item, key), value)
  }

  /** _find_match without create: the first matching item, or the length of the list. */
  function Find(same: Equality, items: seq<Json>, key: string, value: Json): (i: nat)
    ensures i <= |items|
    ensures i < |items| ==> IsMatch(same, items[i], key, value)
    ensures forall j | 0 <= j < i :: !IsMatch(same, items[j], key, value)
  {
    if items == [] || IsMatch(same, items[0], key, value) then 0
    else
      var i := 1 + Find(same, items[1..], key, value);
      assert forall j | 1 <= j < i :: items[j] == items[1..][j - 1];
      i
  }

  /** get_keypath; None where it raises. */
  function GetPath(same: Equality, t: Json, p: Path): Option<Json>
    decreases |p|
  {
    if p == [] then Some(t) else
      match p[0]
      case Append => None
      case Index(i) => if t.Arr? && 0 <= i < |t.items| then GetPath(same, t.items[i], p[1..]) else None
      case Match(k, v) =>
        if t.Arr? && Find(same, t.items, k, v) < |t.items| then
          GetPath(same, t.items[Find(same, t.items, k, v)], p[1..])
        else None
      case Key(k) => if t.Obj? && k in KeysOf(t.members) then GetPath(same, At(t, k), p[1..]) else None
  }

  /** _empty_for_next, for the first token of the rest of a path. */
  function EmptyFor(rest: Path): Json {
    if rest == [] || rest[0].Key? then Obj([]) else Arr([])
  }

  function Pad(items: seq<Json>, n: nat, fill: Json): (r: seq<Json>)
    ensures |r| == if |items| < n then n else |items|
    ensures forall j | 0 <= j < |r| :: r[j] == if j < |items| then items[j] else fill
  {
    if |items| >= n then items else items + seq(n - |items|, _ => fill)
  }

  /** Where Python's list index i points; negative when out of range. */
  function Place(items: seq<Json>, i: int): int {
    if i >= 0 then i else |items| + i
  }

  function OrEmpty(v: Json, rest: Path): Json {
    if v == Null then EmptyFor(rest) else v
  }

  function UpdateAll(ms: seq<Member>, more: seq<Member>): seq<Member>
    decreases |more|
  {
    if more == [] then ms else UpdateAll(Put(ms, more[0].key, more[0].value), more[1..])
  }

  /** set_keypath: the tree as it is left behind, and whether it returned rather than raised. */
  function SetPath(same: Equality, t: Json, p: Path, v: Json): (Json, bool)
    decreases |p|
  {
    if p == [] then (t, true) else
      match p[0]
      case Index(i) =>
        if !t.Arr? || Place(t.items, i) < 0 then (t, false) else
          var j := Place(t.items, i);
          var items := Pad(t.items, j + 1, EmptyFor(p[1..]));
          if |p| == 1 then (Arr(items[j := v]), true)
          else
            var done := SetPath(same, OrEmpty(items[j], p[1..]), p[1..], v);
            (Arr(items[j := done.0]), done.1)
      case Append =>
        if !t.Arr? then (t, false)
        else if |p| == 1 then (Arr(t.items + [v]), true)
        else
          var done := SetPath(same, EmptyFor(p[1..]), p[1..], v);
          (Arr(t.items + [done.0]), done.1)
      case Match(k, x) =>
        if !t.Arr? then (t, false) else
          var i := Find(same, t.items, k, x);
          var items := if i < |t.items| then t.items else t.items + [Obj([Member(k, x)])];
          if |p| == 1 then
            (Arr(items[i := if v.Obj? && items[i].Obj? then Obj(UpdateAll(items[i].members, v.members)) else v]), true)
          else
            var done := SetPath(same, items[i], p[1..], v);
            (Arr(items[i := done.0]), done.1)
      case Key(k) =>
        if !t.Obj? then (t, false)
        else if |p| == 1 then (Obj(Put(t.members, k, v)), true)
        else
          var found := OrEmpty(At(t, k), p[1..]);
          var child := if p[1].Match? && !found.Arr? then Arr([]) else found;
          var done := SetPath(same, child, p[1..], v);
          (Obj(Put(t.members, k, done.0)), done.1)
  }

  /** Keys and non-negative indices only. */
  predicate Plain(p: Path) {
    forall token | token in p :: token.Key? || (token.Index? && token.i >= 0)
  }

  /** ... or [k=v] steps, each followed by a key other than k. */
  predicate Lookups(p: Path) {
    forall i | 0 <= i < |p| ::
      || p[i].Key?
      || (p[i].Index? && p[i].i >= 0)
      || (p[i].Match? && i + 1 < |p| && p[i + 1].Key? && p[i + 1].name != p[i].key)
  }

  /** The paths part at some token, both of them plain. */
  predicate Diverge(p: Path, q: Path) {
    p != [] && q != [] && (p[0] != q[0] || Diverge(p[1..], q[1..]))
  }

  // ---- dict facts ----

  lemma PutMember(ms: seq<Member>, k: string, v: Json, other: string)
    ensures k in KeysOf(Put(ms, k, v)) && At(Obj(Put(ms, k, v)), k) == v
    ensures other != k ==>
      (other in KeysOf(Put(ms, k, v)) <==> other in KeysOf(ms)) && At(Obj(Put(ms, k, v)), other) == At(Obj(ms), other)
  {
    var r := Put(ms, k, v);
    if k in KeysOf(ms) {
      assert KeysOf(r) == KeysOf(ms);
      SameKeysSameIndex(ms, r, k);
      if other in KeysOf(ms) { SameKeysSameIndex(ms, r, other); }
    } else {
      assert KeysOf(r) == KeysOf(ms) + [k];
      IndexOfLast(ms, k, v);
      if other in KeysOf(ms) { IndexOfBefore(ms, Member(k, v), other); }
    }
  }

  lemma {:induction false} SameKeysSameIndex(a: seq<Member>, b: seq<Member>, k: string)
    requires KeysOf(a) == KeysOf(b) && k in KeysOf(a)
    ensures IndexOf(a, k) == IndexOf(b, k)
    decreases |a|
  {
    assert KeysOf(a)[0] == a[0].key && KeysOf(b)[0] == b[0].key;
    if a[0].key != k {
      assert KeysOf(a)[1..] == KeysOf(a[1..]) && KeysOf(b)[1..] == KeysOf(b[1..]);
      SameKeysSameIndex(a[1..], b[1..], k);
    }
  }

  lemma {:induction false} IndexOfLast(ms: seq<Member>, k: string, v: Json)
    requires k !in KeysOf(ms)
    ensures k in KeysOf(ms + [Member(k, v)]) && IndexOf(ms + [Member(k, v)], k) == |ms|
  {
    var r := ms + [Member(k, v)];
    assert KeysOf(r)[|ms|] == k;
    forall i | 0 <= i < |ms| ensures r[i].key != k {
      assert KeysOf(ms)[i] == r[i].key;
    }
  }

  lemma {:induction false} IndexOfBefore(ms: seq<Member>, m: Member, k: string)
    requires k in KeysOf(ms)
    ensures k in KeysOf(ms + [m]) && IndexOf(ms + [m], k) == IndexOf(ms, k)
  {
    assert KeysOf(ms + [m]) == KeysOf(ms) + [m.key];
    assert KeysOf(ms)[0] == ms[0].key;
    if ms[0].key != k {
      assert KeysOf(ms)[1..] == KeysOf(ms[1..]);
      assert (ms + [m])[1..] == ms[1..] + [m];
      IndexOfBefore(ms[1..], m, k);
    }
  }

  lemma PutSame(ms: seq<Member>, k: string)
    requires k in KeysOf(ms)
    ensures Put(ms, k, At(Obj(ms), k)) == ms
  {
  }

  lemma PutTwice(ms: seq<Member>, k: string, a: Json, b: Json)
    ensures Put(Put(ms, k, a), k, b) == Put(ms, k, b)
  {
    var r := Put(ms, k, a);
    if k in KeysOf(ms) {
      assert KeysOf(r) == KeysOf(ms);
      SameKeysSameIndex(ms, r, k);
    } else {
      IndexOfLast(ms, k, a);
    }
  }

  // ---- a set that fails ----

  lemma PlainRest(p: Path)
    requires Plain(p) && p != []
    ensures Plain(p[1..]) && (p[0].Key? || (p[0].Index? && p[0].i >= 0))
  {
    assert p[0] in p;
    assert forall token | token in p[1..] :: token in p;
  }

  predicate Scalar(v: Json) {
    !v.Arr? && !v.Obj?
  }

  /** The values of all [k=v] steps are scalars, as in every path that was a text. */
  predicate ScalarMatches(p: Path) {
    forall token | token in p && token.Match? :: Scalar(token.value)
  }

  /** What comes after a [k=v] step can use the item that is made when none matches: a key,
      and where it is k itself only as the last step, in front of another [k=v], or with null
      as the value. */
  predicate Followed(p: Path)
    requires p != []
  {
    p[0].Match? && |p| > 1 ==>
      p[1].Key? && (p[1].name == p[0].key ==> |p| == 2 || p[2].Match? || p[0].value == Null)
  }

  /** ... at every step, and no index is negative. */
  predicate Sure(p: Path)
    decreases |p|
  {
    p == [] || (!(p[0].Index? && p[0].i < 0) && Followed(p) && Sure(p[1..]))
  }

  /** The first index may be negative: it finds its place or fails at once. */
  predicate Clean(p: Path) {
    p == [] || (Followed(p) && Sure(p[1..]))
  }

  lemma ScalarRest(p: Path)
    requires ScalarMatches(p) && p != []
    ensures ScalarMatches(p[1..]) && (p[0].Match? ==> Scalar(p[0].value))
  {
    assert forall token | token in p[1..] :: token in p;
  }

  lemma {:induction false} PlainIsSure(p: Path)
    requires Plain(p)
    ensures Sure(p) && Clean(p) && ScalarMatches(p)
    decreases |p|
  {
    if p != [] {
      PlainRest(p);
      PlainIsSure(p[1..]);
    }
  }

  /** Inside a container made for it, a path fails exactly when it is not sure. */
  lemma {:induction false} CreatedExactly(same: Equality, p: Path, v: Json)
    requires ScalarMatches(p) && p != []
    ensures SetPath(same, EmptyFor(p), p, v).1 <==> Sure(p)
    decreases |p|
  {
    ScalarRest(p);
    if |p| > 1 {
      if p[0].Match? {
        ItemExactly(same, p[0].key, p[0].value, p[1..], v);
      } else {
        CreatedExactly(same, p[1..], v);
      }
    }
  }

  /** The same for the item made for a [k=v] step. */
  lemma {:induction false} ItemExactly(same: Equality, k: string, x: Json, p: Path, v: Json)
    requires ScalarMatches(p) && Scalar(x) && p != []
    ensures SetPath(same, Obj([Member(k, x)]), p, v).1 <==> Followed([Match(k, x)] + p) && Sure(p)
    decreases |p|, 0
  {
    ScalarRest(p);
    var all := [Match(k, x)] + p;
    assert all[1] == p[0] && (|p| > 1 ==> all[2] == p[1]);
    if p[0].Key? && |p| > 1 {
      var item := Obj([Member(k, x)]);
      assert KeysOf(item.members) == [k];
      assert At(item, p[0].name) == if p[0].name == k then x else Null;
      CreatedExactly(same, p[1..], v);
      if p[0].name == k && !p[1].Match? && x != Null {
        ScalarFails(same, x, p[1..], v);
      }
    }
  }

  lemma ScalarFails(same: Equality, x: Json, p: Path, v: Json)
    requires Scalar(x) && p != []
    ensures SetPath(same, x, p, v) == (x, false)
  {
  }

  /** A set on a clean path that raises leaves the tree as it was. */
  lemma {:induction false} FailureChangesNothing(same: Equality, t: Json, p: Path, v: Json)
    requires Clean(p) && ScalarMatches(p) && !SetPath(same, t, p, v).1
    ensures SetPath(same, t, p, v).0 == t
    decreases |p|
  {
    var rest := p[1..];
    ScalarRest(p);
    if |p| > 1 {
      match p[0] {
        case Index(i) =>
          CreatedExactly(same, rest, v);
          if t.Arr? && 0 <= Place(t.items, i) < |t.items| && t.items[Place(t.items, i)] != Null {
            FailureChangesNothing(same, t.items[Place(t.items, i)], rest, v);
          }
        case Append =>
          CreatedExactly(same, rest, v);
        case Match(k, x) =>
          MatchFails(same, t, p, v);
          if t.Arr? && Find(same, t.items, k, x) < |t.items| {
            FailureChangesNothing(same, t.items[Find(same, t.items, k, x)], rest, v);
          }
        case Key(k) =>
          KeyFails(same, t, p, v);
          if t.Obj? && At(t, k) != Null && !(p[1].Match? && !At(t, k).Arr?) {
            FailureChangesNothing(same, At(t, k), rest, v);
          }
      }
    }
  }

  /** A set that raises behind a [k=v] step found its item: one it made would be usable. */
  lemma MatchFails(same: Equality, t: Json, p: Path, v: Json)
    requires Clean(p) && ScalarMatches(p) && !SetPath(same, t, p, v).1 && |p| > 1 && p[0].Match?
    ensures t.Arr? ==>
      var i := Find(same, t.items, p[0].key, p[0].value);
      && i < |t.items| && !SetPath(same, t.items[i], p[1..], v).1
      && SetPath(same, t, p, v).0 == Arr(t.items[i := SetPath(same, t.items[i], p[1..], v).0])
  {
    ScalarRest(p);
    assert [p[0]] + p[1..] == p && p[0] == Match(p[0].key, p[0].value);
    ItemExactly(same, p[0].key, p[0].value, p[1..], v);
  }

  /** ... and behind a key it found a container that fits. */
  lemma KeyFails(same: Equality, t: Json, p: Path, v: Json)
    requires Clean(p) && ScalarMatches(p) && !SetPath(same, t, p, v).1 && |p| > 1 && p[0].Key?
    ensures t.Obj? ==>
      var found := At(t, p[0].name);
      && found != Null && !(p[1].Match? && !found.Arr?) && !SetPath(same, found, p[1..], v).1
      && (SetPath(same, found, p[1..], v).0 == found ==> SetPath(same, t, p, v).0 == t)
  {
    ScalarRest(p);
    CreatedExactly(same, p[1..], v);
    if t.Obj? && At(t, p[0].name) != Null { PutSame(t.members, p[0].name); }
  }

  /** A tree in which the first step of a path succeeds by making something. */
  function Bare(p: Path): Json {
    if p != [] && p[0].Index? && p[0].i < 0 then Arr(seq(-p[0].i, _ => Null)) else EmptyFor(p)
  }

  lemma KindKept(same: Equality, p: Path, v: Json)
    requires p != []
    ensures SetPath(same, EmptyFor(p), p, v).0 != Null
  {
  }

  /** On any other path some set raises and changes the tree. */
  lemma UncleanChanges(same: Equality, p: Path, v: Json)
    requires ScalarMatches(p) && !Clean(p)
    ensures !SetPath(same, Bare(p), p, v).1 && SetPath(same, Bare(p), p, v).0 != Bare(p)
  {
    var rest := p[1..];
    ScalarRest(p);
    CreatedExactly(same, rest, v);
    KindKept(same, rest, v);
    if p[0].Match? {
      assert [Match(p[0].key, p[0].value)] + rest == p;
      ItemExactly(same, p[0].key, p[0].value, rest, v);
    }
  }

  /** Exactly when sets that raise leave every tree as it was. */
  lemma FailureExactly(same: Equality, p: Path)
    requires ScalarMatches(p)
    ensures Clean(p) <==> forall t, v | !SetPath(same, t, p, v).1 :: SetPath(same, t, p, v).0 == t
  {
    hide SetPath, Clean;
    if Clean(p) {
      forall t, v | !SetPath(same, t, p, v).1 ensures SetPath(same, t, p, v).0 == t {
        FailureChangesNothing(same, t, p, v);
      }
    } else {
      UncleanChanges(same, p, Null);
    }
  }

  // ---- a set that succeeds ----

  lemma LookupsRest(p: Path)
    requires Lookups(p) && p != []
    ensures Lookups(p[1..])
  {
    forall i | 0 <= i < |p| - 1 ensures p[1..][i] == p[i + 1] {}
  }

  /** Writing under another key keeps an item's match. */
  lemma MatchKept(same: Equality, item: Json, key: string, x: Json, p: Path, v: Json)
    requires IsMatch(same, item, key, x) && p != [] && p[0].Key? && p[0].name != key
    ensures IsMatch(same, SetPath(same, item, p, v).0, key, x)
  {
    var k := p[0].name;
    var found := OrEmpty(At(item, k), p[1..]);
    if |p| == 1 {
      PutMember(item.members, k, v, key);
    } else {
      var child := if p[1].Match? && !found.Arr? then Arr([]) else found;
      PutMember(item.members, k, SetPath(same, child, p[1..], v).0, key);
    }
  }

  lemma FindKept(same: Equality, items: seq<Json>, i: nat, item: Json, key: string, x: Json)
    requires i < |items| && IsMatch(same, item, key, x)
    requires forall j | 0 <= j < i :: !IsMatch(same, items[j], key, x)
    ensures Find(same, items[i := item], key, x) == i
  {
    var after := items[i := item];
    assert after[i] == item;
    forall j | 0 <= j < i ensures !IsMatch(same, after[j], key, x) {
      assert after[j] == items[j];
    }
  }

  lemma GetAfterMatch(same: Equality, t: Json, p: Path, v: Json)
    requires Lookups(p) && p != [] && p[0].Match? && SetPath(same, t, p, v).1
    requires forall x :: same(x, x)
    requires forall item: Json :: SetPath(same, item, p[1..], v).1 ==>
      GetPath(same, SetPath(same, item, p[1..], v).0, p[1..]) == Some(v)
    ensures GetPath(same, SetPath(same, t, p, v).0, p) == Some(v)
  {
    hide SetPath, GetPath, Find, IsMatch;
    var k, x := p[0].key, p[0].value;
    MatchStep(same, t, p, v);
    var i := Find(same, t.items, k, x);
    var items := if i < |t.items| then t.items else t.items + [Obj([Member(k, x)])];
    if i == |t.items| { NewItemMatches(same, k, x); }
    MatchKept(same, items[i], k, x, p[1..], v);
    var done := SetPath(same, items[i], p[1..], v);
    FindKept(same, items, i, done.0, k, x);
    GetMatchStep(same, Arr(items[i := done.0]), p);
  }

  lemma MatchStep(same: Equality, t: Json, p: Path, v: Json)
    requires |p| > 1 && p[0].Match? && SetPath(same, t, p, v).1
    ensures t.Arr?
    ensures var i := Find(same, t.items, p[0].key, p[0].value);
      var items := if i < |t.items| then t.items else t.items + [Obj([Member(p[0].key, p[0].value)])];
      SetPath(same, items[i], p[1..], v).1
      && SetPath(same, t, p, v).0 == Arr(items[i := SetPath(same, items[i], p[1..], v).0])
  {
  }

  lemma GetMatchStep(same: Equality, t: Json, p: Path)
    requires p != [] && p[0].Match? && t.Arr? && Find(same, t.items, p[0].key, p[0].value) < |t.items|
    ensures GetPath(same, t, p) == GetPath(same, t.items[Find(same, t.items, p[0].key, p[0].value)], p[1..])
  {
  }

  lemma NewItemMatches(same: Equality, k: string, x: Json)
    requires same(x, x)
    ensures IsMatch(same, Obj([Member(k, x)]), k, x)
  {
    var ms := [Member(k, x)];
    assert KeysOf(ms)[0] == k;
  }

  /** What was set is read back at the same path, also through [k=v] steps that the path
      does not overwrite. */
  lemma {:induction false} GetAfterSet(same: Equality, t: Json, p: Path, v: Json)
    requires Lookups(p) && p != [] && SetPath(same, t, p, v).1 && forall x :: same(x, x)
    ensures GetPath(same, SetPath(same, t, p, v).0, p) == Some(v)
    decreases |p|
  {
    LookupsRest(p);
    var rest := p[1..];
    if p[0].Match? {
      forall item: Json | SetPath(same, item, rest, v).1
        ensures GetPath(same, SetPath(same, item, rest, v).0, rest) == Some(v)
      {
        GetAfterSet(same, item, rest, v);
      }
      GetAfterMatch(same, t, p, v);
    } else {
      GetAfterPlainStep(same, t, p, v);
      if |p| > 1 {
        GetAfterSet(same, Below(same, t, p), rest, v);
      }
    }
  }

  /** The child a plain first token leads to, made if it is not there. */
  function Below(same: Equality, t: Json, p: Path): Json
    requires |p| > 1 && (p[0].Key? || (p[0].Index? && p[0].i >= 0))
  {
    match p[0]
    case Index(i) =>
      if t.Arr? then OrEmpty(Pad(t.items, i + 1, EmptyFor(p[1..]))[i], p[1..]) else Null
    case Key(k) =>
      var found := OrEmpty(At(t, k), p[1..]);
      if p[1].Match? && !found.Arr? then Arr([]) else found
  }

  lemma GetAfterPlainStep(same: Equality, t: Json, p: Path, v: Json)
    requires p != [] && (p[0].Key? || (p[0].Index? && p[0].i >= 0)) && SetPath(same, t, p, v).1
    ensures |p| == 1 ==> GetPath(same, SetPath(same, t, p, v).0, p) == Some(v)
    ensures |p| > 1 ==>
      SetPath(same, Below(same, t, p), p[1..], v).1
      && GetPath(same, SetPath(same, t, p, v).0, p)
        == GetPath(same, SetPath(same, Below(same, t, p), p[1..], v).0, p[1..])
  {
    match p[0] {
      case Index(i) =>
      case Key(k) =>
        if |p| == 1 {
          PutMember(t.members, k, v, k);
        } else {
          PutMember(t.members, k, SetPath(same, Below(same, t, p), p[1..], v).0, k);
        }
    }
  }

  // ---- what a set leaves alone ----

  lemma SetStep(same: Equality, t: Json, p: Path, v: Json)
    requires |p| > 1 && (p[0].Key? || (p[0].Index? && p[0].i >= 0)) && SetPath(same, t, p, v).1
    ensures var child := SetPath(same, Below(same, t, p), p[1..], v).0;
      && SetPath(same, Below(same, t, p), p[1..], v).1
      && (p[0].Key? ==> t.Obj? && SetPath(same, t, p, v).0 == Obj(Put(t.members, p[0].name, child)))
      && (p[0].Index? ==>
            t.Arr?
            && SetPath(same, t, p, v).0 == Arr(Pad(t.items, p[0].i + 1, EmptyFor(p[1..]))[p[0].i := child]))
  {
  }

  /** One level: a get under another key or index does not see the set. */
  lemma OtherChild(same: Equality, t: Json, p: Path, v: Json, q: Path)
    requires Plain(p) && Plain(q) && p != [] && q != [] && p[0] != q[0]
    requires SetPath(same, t, p, v).1 && GetPath(same, t, q).Some?
    ensures GetPath(same, SetPath(same, t, p, v).0, q) == GetPath(same, t, q)
  {
    PlainRest(p);
    PlainRest(q);
    if |p| > 1 { SetStep(same, t, p, v); }
    if p[0].Key? && q[0].Key? {
      var w := if |p| == 1 then v else SetPath(same, Below(same, t, p), p[1..], v).0;
      PutMember(t.members, p[0].name, w, q[0].name);
    }
  }

  /** Every successful get on a diverging path gives the same value after the set. */
  lemma {:induction false} SetLeavesOthers(same: Equality, t: Json, p: Path, v: Json, q: Path)
    requires Plain(p) && Plain(q) && Diverge(p, q)
    requires SetPath(same, t, p, v).1 && GetPath(same, t, q).Some?
    ensures GetPath(same, SetPath(same, t, p, v).0, q) == GetPath(same, t, q)
    decreases |p|
  {
    if p[0] != q[0] {
      OtherChild(same, t, p, v, q);
    } else {
      PlainRest(p);
      PlainRest(q);
      SetStep(same, t, p, v);
      SameChild(same, t, p, v, q);
      SetLeavesOthers(same, Child(t, p[0]), p[1..], v, q[1..]);
    }
  }

  function Child(t: Json, token: Token): Json {
    match token
    case Key(k) => At(t, k)
    case Index(i) => if t.Arr? && 0 <= i < |t.items| then t.items[i] else Null
    case _ => Null
  }

  lemma SameChild(same: Equality, t: Json, p: Path, v: Json, q: Path)
    requires Plain(p) && Plain(q) && |p| > 1 && |q| > 1 && p[0] == q[0]
    requires SetPath(same, t, p, v).1 && GetPath(same, t, q).Some?
    ensures GetPath(same, t, q) == GetPath(same, Child(t, q[0]), q[1..])
    ensures GetPath(same, SetPath(same, t, p, v).0, q)
      == GetPath(same, SetPath(same, Below(same, t, p), p[1..], v).0, q[1..])
    ensures Below(same, t, p) == Child(t, p[0])
  {
    PlainRest(p);
    PlainRest(q);
    PlainRest(p[1..]);
    PlainRest(q[1..]);
    SetStep(same, t, p, v);
    if p[0].Key? {
      PutMember(t.members, p[0].name, SetPath(same, Below(same, t, p), p[1..], v).0, p[0].name);
    }
  }

  // ---- a second set at the same path ----

  /** Setting twice is setting the second value: whether a set returns does not depend on
      the value, and nothing of the first one remains. */
  lemma {:induction false} SecondSetAbsorbs(same: Equality, t: Json, p: Path, a: Json, b: Json)
    requires Plain(p) && p != [] && SetPath(same, t, p, a).1
    ensures SetPath(same, t, p, b).1
    ensures SetPath(same, SetPath(same, t, p, a).0, p, b) == SetPath(same, t, p, b)
    decreases |p|
  {
    PlainRest(p);
    if |p| == 1 {
      AbsorbLast(same, t, p, a, b);
    } else {
      SetStep(same, t, p, a);
      SecondSetAbsorbs(same, Below(same, t, p), p[1..], a, b);
      NotNull(same, Below(same, t, p), p[1..], a);
      if p[0].Key? { AbsorbKey(same, t, p, a, b); } else { AbsorbIndex(same, t, p, a, b); }
    }
  }

  lemma AbsorbLast(same: Equality, t: Json, p: Path, a: Json, b: Json)
    requires Plain(p) && |p| == 1 && SetPath(same, t, p, a).1
    ensures SetPath(same, t, p, b).1
    ensures SetPath(same, SetPath(same, t, p, a).0, p, b) == SetPath(same, t, p, b)
  {
    PlainRest(p);
    if p[0].Key? {
      PutTwice(t.members, p[0].name, a, b);
    } else {
      var i := p[0].i;
      var items := Pad(t.items, i + 1, EmptyFor([]));
      assert p[1..] == [];
      assert Pad(items[i := a], i + 1, EmptyFor([])) == items[i := a];
      assert items[i := a][i := b] == items[i := b];
    }
  }

  lemma NotNull(same: Equality, t: Json, p: Path, a: Json)
    requires Plain(p) && p != [] && SetPath(same, t, p, a).1
    ensures SetPath(same, t, p, a).0 != Null
  {
    PlainRest(p);
  }

  /** What is known of the child when the step in front of it is added. */
  predicate Absorbs(same: Equality, c: Json, rest: Path, a: Json, b: Json) {
    && SetPath(same, c, rest, a).1 && SetPath(same, c, rest, a).0 != Null && SetPath(same, c, rest, b).1
    && SetPath(same, SetPath(same, c, rest, a).0, rest, b) == SetPath(same, c, rest, b)
  }

  lemma AbsorbKey(same: Equality, t: Json, p: Path, a: Json, b: Json)
    requires Plain(p) && |p| > 1 && p[0].Key? && SetPath(same, t, p, a).1
    requires Absorbs(same, Below(same, t, p), p[1..], a, b)
    ensures SetPath(same, t, p, b).1
    ensures SetPath(same, SetPath(same, t, p, a).0, p, b) == SetPath(same, t, p, b)
  {
    PlainRest(p);
    PlainRest(p[1..]);
    SetStep(same, t, p, a);
    var c := Below(same, t, p);
    var x, y := SetPath(same, c, p[1..], a).0, SetPath(same, c, p[1..], b).0;
    PutMember(t.members, p[0].name, x, p[0].name);
    PutTwice(t.members, p[0].name, x, y);
  }

  lemma AbsorbIndex(same: Equality, t: Json, p: Path, a: Json, b: Json)
    requires Plain(p) && |p| > 1 && p[0].Index? && SetPath(same, t, p, a).1
    requires Absorbs(same, Below(same, t, p), p[1..], a, b)
    ensures SetPath(same, t, p, b).1
    ensures SetPath(same, SetPath(same, t, p, a).0, p, b) == SetPath(same, t, p, b)
  {
    PlainRest(p);
    PlainRest(p[1..]);
    SetStep(same, t, p, a);
    var rest, i := p[1..], p[0].i;
    var c := Below(same, t, p);
    var x, y := SetPath(same, c, rest, a).0, SetPath(same, c, rest, b).0;
    var u := SetPath(same, t, p, a).0;
    var items := Pad(t.items, i + 1, EmptyFor(rest));
    assert Pad(u.items, i + 1, EmptyFor(rest)) == u.items;
    assert items[i := x][i := y] == items[i := y];
  }

  // ---- getting and setting, by what stands there ----

  /** The item that a [k=v] step means. */
  predicate FirstMatch(same: Equality, items: seq<Json>, i: int, k: string, x: Json) {
    && 0 <= i < |items| && items[i].Obj? && same(At(items[i], k), x)
    && forall j | 0 <= j < i :: !items[j].Obj? || !same(At(items[j], k), x)
  }

  predicate NoMatch(same: Equality, items: seq<Json>, k: string, x: Json) {
    forall j | 0 <= j < |items| :: !items[j].Obj? || !same(At(items[j], k), x)
  }

  /** One step of reading leads from one value to another. */
  ghost predicate Leads(same: Equality, c: Json, token: Token, d: Json) {
    match token
    case Append => false
    case Index(i) => c.Arr? && 0 <= i < |c.items| && d == c.items[i]
    case Match(k, x) => c.Arr? && exists i :: FirstMatch(same, c.items, i, k, x) && c.items[i] == d
    case Key(k) => c.Obj? && k in KeysOf(c.members) && d == At(c, k)
  }

  ghost predicate Way(same: Equality, t: Json, p: Path, way: seq<Json>) {
    |way| == |p| + 1 && way[0] == t && forall i | 0 <= i < |p| :: Leads(same, way[i], p[i], way[i + 1])
  }

  /** A get gives what the steps of its path lead to, and raises where one of them leads nowhere. */
  lemma {:induction false} GetExactly(same: Equality, t: Json, p: Path, v: Json)
    ensures GetPath(same, t, p) == Some(v) <==> exists way :: Way(same, t, p, way) && way[|p|] == v
    decreases |p|
  {
    if p == [] {
      if GetPath(same, t, p) == Some(v) { assert Way(same, t, p, [t]); }
    } else {
      if GetPath(same, t, p) == Some(v) { GetHasWay(same, t, p, v); }
      forall way | Way(same, t, p, way) && way[|p|] == v ensures GetPath(same, t, p) == Some(v) {
        WayIsGot(same, t, p, way);
      }
    }
  }

  lemma {:induction false} GetHasWay(same: Equality, t: Json, p: Path, v: Json)
    requires GetPath(same, t, p) == Some(v)
    ensures exists way :: Way(same, t, p, way) && way[|p|] == v
    decreases |p|
  {
    if p == [] {
      assert Way(same, t, p, [t]) && [t][0] == v;
    } else {
      var d := match p[0]
        case Index(i) => t.items[i]
        case Match(k, x) => t.items[Find(same, t.items, k, x)]
        case Key(k) => At(t, k)
        case Append => t;
      if p[0].Match? {
        var Match(k, x) := p[0];
        assert FirstMatch(same, t.items, Find(same, t.items, k, x), k, x);
      }
      GetHasWay(same, d, p[1..], v);
      var rest :| Way(same, d, p[1..], rest) && rest[|p| - 1] == v;
      var way := [t] + rest;
      forall i | 0 <= i < |p| ensures Leads(same, way[i], p[i], way[i + 1]) {
        if i > 0 { assert p[1..][i - 1] == p[i] && Leads(same, rest[i - 1], p[1..][i - 1], rest[i]); }
      }
      assert Way(same, t, p, way) && way[|p|] == v;
    }
  }

  lemma {:induction false} WayIsGot(same: Equality, t: Json, p: Path, way: seq<Json>)
    requires Way(same, t, p, way)
    ensures GetPath(same, t, p) == Some(way[|p|])
    decreases |p|
  {
    if p != [] {
      assert Leads(same, way[0], p[0], way[1]);
      forall i | 0 <= i < |p| - 1 ensures Leads(same, way[1..][i], p[1..][i], way[1..][i + 1]) {
        assert Leads(same, way[i + 1], p[i + 1], way[i + 2]);
      }
      WayIsGot(same, way[1], p[1..], way[1..]);
      if p[0].Match? {
        var i :| FirstMatch(same, t.items, i, p[0].key, p[0].value) && t.items[i] == way[1];
        assert Find(same, t.items, p[0].key, p[0].value) == i;
      }
    }
  }

  /** A new container: a dict in front of a key and at the end, else a list. */
  function Fresh(p: Path): Json
    requires p != []
  {
    if |p| == 1 || p[1].Key? then Obj([]) else Arr([])
  }

  /** Setting under a key of a dict: the other keys stay, and the rest of the path is set below
      what stands there, below a new container for null, and below a new list in front of [k=v]. */
  lemma KeySays(same: Equality, t: Json, p: Path, v: Json, other: string)
    requires p != [] && p[0].Key?
    ensures var (u, ok) := SetPath(same, t, p, v);
      var k, c := p[0].name, At(t, p[0].name);
      && (!t.Obj? ==> (u, ok) == (t, false))
      && (t.Obj? ==>
            && u.Obj? && k in KeysOf(u.members) && (other != k ==> At(u, other) == At(t, other))
            && KeysOf(u.members) == KeysOf(t.members) + (if k in KeysOf(t.members) then [] else [k])
            && (|p| == 1 ==> (At(u, k), ok) == (v, true))
            && (|p| > 1 ==> (At(u, k), ok) == SetPath(same, Entered(c, p), p[1..], v)))
  {
    hide SetPath, At, KeysOf;
    KeyStep(same, t, p, v);
    if t.Obj? {
      var w := if |p| == 1 then v else SetPath(same, Entered(At(t, p[0].name), p), p[1..], v).0;
      PutMember(t.members, p[0].name, w, other);
      PutKeys(t.members, p[0].name, w);
    }
  }

  lemma KeyStep(same: Equality, t: Json, p: Path, v: Json)
    requires p != [] && p[0].Key?
    ensures !t.Obj? ==> SetPath(same, t, p, v) == (t, false)
    ensures t.Obj? ==>
      var done := if |p| == 1 then (v, true) else SetPath(same, Entered(At(t, p[0].name), p), p[1..], v);
      SetPath(same, t, p, v) == (Obj(Put(t.members, p[0].name, done.0)), done.1)
  {
    if |p| > 1 { assert p[1..][0] == p[1]; }
  }

  lemma PutKeys(ms: seq<Member>, k: string, v: Json)
    ensures KeysOf(Put(ms, k, v)) == KeysOf(ms) + (if k in KeysOf(ms) then [] else [k])
  {
  }

  /** The container that a set enters below a key. */
  function Entered(c: Json, p: Path): Json
    requires p != []
  {
    if c.Arr? || (c != Null && !(|p| > 1 && p[1].Match?)) then c else Fresh(p)
  }

  /** Setting at an index of a list: from the end when it is negative, with new containers up to
      it when it is too large. */
  lemma IndexSays(same: Equality, t: Json, p: Path, v: Json)
    requires p != [] && p[0].Index?
    ensures var (u, ok) := SetPath(same, t, p, v);
      && (!t.Arr? || p[0].i < -|t.items| ==> (u, ok) == (t, false))
      && (t.Arr? && -|t.items| <= p[0].i ==>
            var j := if p[0].i < 0 then |t.items| + p[0].i else p[0].i;
            && u.Arr? && |u.items| == (if j < |t.items| then |t.items| else j + 1)
            && (forall k | 0 <= k < |u.items| && k != j :: u.items[k] == if k < |t.items| then t.items[k] else Fresh(p))
            && (|p| == 1 ==> (u.items[j], ok) == (v, true))
            && (|p| > 1 ==>
                  var c := if j < |t.items| && t.items[j] != Null then t.items[j] else Fresh(p);
                  (u.items[j], ok) == SetPath(same, c, p[1..], v)))
  {
    if |p| > 1 { assert p[1..][0] == p[1]; }
  }

  /** Setting at [+]: a new item at the end. */
  lemma AppendSays(same: Equality, t: Json, p: Path, v: Json)
    requires p != [] && p[0].Append?
    ensures var (u, ok) := SetPath(same, t, p, v);
      && (!t.Arr? ==> (u, ok) == (t, false))
      && (t.Arr? ==>
            && u.Arr? && |u.items| == |t.items| + 1 && u.items[..|t.items|] == t.items
            && (u.items[|t.items|], ok) == if |p| == 1 then (v, true) else SetPath(same, Fresh(p), p[1..], v))
  {
    if |p| > 1 { assert p[1..][0] == p[1]; }
  }

  /** Setting at [k=v]: in the first matching item, or in a new one at the end; last, a dict is
      merged into the item and any other value replaces it. */
  lemma MatchSays(same: Equality, t: Json, p: Path, v: Json, i: nat)
    requires p != [] && p[0].Match? && t.Arr?
    requires var Match(k, x) := p[0];
      FirstMatch(same, t.items, i, k, x) || (i == |t.items| && NoMatch(same, t.items, k, x))
    ensures var (u, ok) := SetPath(same, t, p, v);
      var item := if i < |t.items| then t.items[i] else Obj([Member(p[0].key, p[0].value)]);
      && u.Arr? && i < |u.items| && |u.items| == (if i < |t.items| then |t.items| else |t.items| + 1)
      && (forall j | 0 <= j < |t.items| && j != i :: u.items[j] == t.items[j])
      && (|p| > 1 ==> (u.items[i], ok) == SetPath(same, item, p[1..], v))
      && (|p| == 1 ==> ok && if v.Obj? then u.items[i] == Obj(UpdateAll(item.members, v.members)) else u.items[i] == v)
  {
    var Match(k, x) := p[0];
    assert Find(same, t.items, k, x) == i;
  }

  lemma MatchWantsList(same: Equality, t: Json, p: Path, v: Json)
    requires p != [] && p[0].Match? && !t.Arr?
    ensures SetPath(same, t, p, v) == (t, false)
  {
  }

  /** dict.update. */
  lemma {:induction false} UpdateSays(ms: seq<Member>, more: seq<Member>, k: string)
    requires Distinct(KeysOf(more))
    ensures var after := UpdateAll(ms, more);
      && (k in KeysOf(after) <==> k in KeysOf(ms) || k in KeysOf(more))
      && At(Obj(after), k) == if k in KeysOf(more) then At(Obj(more), k) else At(Obj(ms), k)
    decreases |more|
  {
    if more != [] {
      var m, rest := more[0], more[1..];
      assert KeysOf(more) == [m.key] + KeysOf(rest) && KeysOf(more)[0] == m.key;
      UpdateSays(Put(ms, m.key, m.value), rest, k);
      PutMember(ms, m.key, m.value, k);
      if k in KeysOf(rest) {
        assert k != m.key;
        assert IndexOf(more, k) == IndexOf(rest, k) + 1;
      }
    }
  }
}
