/** The canonical printer, and the proof that the reader in Json undoes it. */
module Canonical {
  import opened Basics
  import opened Json
  import KeyOrder

  type Order = KeyOrder.Order

  // ---- what is printed ----

  function HexChar(d: nat): char
    requires d < 16
  {
    if d < 10 then ('0' as int + d) as char else ('a' as int + d - 10) as char
  }

  function Escaped(c: char, slashes: bool): string {
    if c == '/' && !slashes then [c]
    else if c == '"' then "\\\""
    else if c == '\\' then "\\\\"
    else if c == '/' then "\\/"
    else if c == '\U{0008}' then "\\b"
    else if c == '\U{000C}' then "\\f"
    else if c == '\n' then "\\n"
    else if c == '\r' then "\\r"
    else if c == '\t' then "\\t"
    else if c < ' ' then "\\u00" + [HexChar(c as int / 16), HexChar(c as int % 16)]
    else [c]
  }

  function EscapedAll(s: string, slashes: bool): string {
    if s == [] then [] else Escaped(s[0], slashes) + EscapedAll(s[1..], slashes)
  }

  function Quoted(s: string, slashes: bool): string {
    "\"" + EscapedAll(s, slashes) + "\""
  }

  function Digits(n: nat): (ds: string)
    ensures ds != [] && forall c | c in ds :: IsDigit(c)
  {
    if n < 10 then [('0' as int + n) as char] else Digits(n / 10) + [('0' as int + n % 10) as char]
  }

  function Integer(n: int): string {
    if n < 0 then "-" + Digits(-n) else Digits(n)
  }

  /** The text of a value whose members already stand in the order wanted. */
  function Emit(v: Json, slashes: bool): string
    decreases v, 0
  {
    match v
    case Null => "null"
    case Bool(b) => if b then "true" else "false"
    case Num(n) => Integer(n)
    case Str(s) => Quoted(s, slashes)
    case Arr(items) => "[" + EmitItems(items, slashes) + "]"
    case Obj(ms) => "{" + EmitMembers(ms, slashes) + "}"
  }

  function EmitItems(items: seq<Json>, slashes: bool): string
    decreases items, 1
  {
    if items == [] then []
    else if |items| == 1 then Emit(items[0], slashes)
    else Emit(items[0], slashes) + "," + EmitItems(items[1..], slashes)
  }

  function EmitMember(m: Member, slashes: bool): string
    decreases m, 1
  {
    Quoted(m.key, slashes) + ":" + Emit(m.value, slashes)
  }

  function EmitMembers(ms: seq<Member>, slashes: bool): string
    decreases ms, 2
  {
    if ms == [] then []
    else if |ms| == 1 then EmitMember(ms[0], slashes)
    else EmitMember(ms[0], slashes) + "," + EmitMembers(ms[1..], slashes)
  }

  /** The same value with the members of every object sorted. */
  function Sorted(v: Json, order: Order): Json
    decreases v, 0
  {
    match v
    case Arr(items) => Arr(SortedItems(items, order))
    case Obj(ms) =>
      var ks := KeyOrder.SortKeys(order, KeysOf(ms));
      Obj(Picked(ms, ks, order))
    case _ => v
  }

  function SortedItems(items: seq<Json>, order: Order): (r: seq<Json>)
    ensures |r| == |items|
    decreases items, 1
  {
    if items == [] then [] else [Sorted(items[0], order)] + SortedItems(items[1..], order)
  }

  /** value[key] for each key in turn. */
  function Picked(ms: seq<Member>, ks: seq<string>, order: Order): (r: seq<Member>)
    decreases ms, 1, |ks|
  {
    if ks == [] then []
    else if ks[0] in KeysOf(ms) then
      [Member(ks[0], Sorted(ms[IndexOf(ms, ks[0])].value, order))] + Picked(ms, ks[1..], order)
    else Picked(ms, ks[1..], order)
  }

  function CanonicalJson(v: Json, order: Order, slashes: bool): string {
    Emit(Sorted(v, order), slashes)
  }

  // ---- how a character is printed ----

  predicate LowerHex(c: char) {
    '0' <= c <= '9' || 'a' <= c <= 'f'
  }

  /** As short as JSON allows, but for slashes: itself unless it must be escaped, two
      characters where there is a short escape, else \u with lower-case digits. With
      EscapeBack, which reads it back, this leaves one text for each character. */
  lemma EscapedIsShort(c: char, slashes: bool)
    ensures |Escaped(c, slashes)| == 1 <==> c >= ' ' && c != '"' && c != '\\' && (c != '/' || !slashes)
    ensures |Escaped(c, slashes)| == 2 <==>
      c in {'"', '\\', '\n', '\r', '\t', '\U{0008}', '\U{000C}'} || (c == '/' && slashes)
    ensures |Escaped(c, slashes)| > 2 ==>
      |Escaped(c, slashes)| == 6 && forall i | 2 <= i < 6 :: LowerHex(Escaped(c, slashes)[i])
    ensures Escaped(c, slashes) == [c] || Escaped(c, slashes)[0] == '\\'
  {
  }

  // ---- reading a printed string ----

  lemma HexBack(d: nat)
    requires d < 16
    ensures HexDigit(HexChar(d)) == Some(d)
  {
  }

  lemma EscapeBack(c: char, slashes: bool, tail: string, acc: string)
    ensures ParseString(Escaped(c, slashes) + tail, acc) == ParseString(tail, acc + [c])
  {
    var e := Escaped(c, slashes);
    var s := e + tail;
    assert s[|e|..] == tail;
    if |e| == 6 {
      ControlBack(c, tail);
      hide UnicodeEscape, HexChar;
      assert s[2..] == ['0', '0', HexChar(c as int / 16), HexChar(c as int % 16)] + tail;
    } else {
      hide UnicodeEscape, HexChar;
    }
  }

  lemma ControlBack(c: char, tail: string)
    requires c < ' '
    ensures UnicodeEscape(['0', '0', HexChar(c as int / 16), HexChar(c as int % 16)] + tail) == Got(c, tail)
  {
    var u := ['0', '0', HexChar(c as int / 16), HexChar(c as int % 16)] + tail;
    HexBack(c as int / 16);
    HexBack(c as int % 16);
    hide HexChar;
    assert u[0] == '0' && u[1] == '0' && u[2] == HexChar(c as int / 16) && u[3] == HexChar(c as int % 16);
    assert Hex4(u) == Some(c as int);
    assert u[4..] == tail;
  }

  lemma Regroup(a: string, b: string, c: string)
    ensures (a + b) + c == a + (b + c)
  {
  }

  lemma {:induction false} StringBack(s: string, slashes: bool, tail: string, acc: string)
    requires tail != [] && tail[0] == '"'
    ensures ParseString(EscapedAll(s, slashes) + tail, acc) == Got(acc + s, tail[1..])
    decreases |s|
  {
    hide Escaped;
    if s == [] {
      assert EscapedAll(s, slashes) + tail == tail && acc + s == acc;
    } else {
      hide ParseString;
      var more := EscapedAll(s[1..], slashes);
      Regroup(Escaped(s[0], slashes), more, tail);
      EscapeBack(s[0], slashes, more + tail, acc);
      StringBack(s[1..], slashes, tail, acc + [s[0]]);
      assert acc + [s[0]] + s[1..] == acc + s;
    }
  }

  // ---- reading a printed integer ----

  /** What may follow a value inside a printed text. */
  predicate Stops(rest: string) {
    rest == [] || rest[0] == ',' || rest[0] == ']' || rest[0] == '}'
  }

  lemma {:induction false} RunOfDigits(ds: string, rest: string)
    requires (forall c | c in ds :: IsDigit(c)) && Stops(rest)
    ensures DigitRun(ds + rest) == |ds|
  {
    if ds == [] {
      assert ds + rest == rest;
    } else {
      assert (ds + rest)[1..] == ds[1..] + rest;
      assert ds[0] in ds;
      RunOfDigits(ds[1..], rest);
    }
  }

  lemma {:induction false} DigitsBack(n: nat)
    ensures Decimal(Digits(n)) == n
    ensures |Digits(n)| > 1 ==> Digits(n)[0] != '0'
    ensures n > 0 ==> Digits(n)[0] != '0'
  {
    if n >= 10 {
      var front := Digits(n / 10);
      var ds := Digits(n);
      DigitsBack(n / 10);
      assert ds[..|ds| - 1] == front;
      assert ds[0] == front[0];
    }
  }

  /** A run of digits that stands for m, read with its sign. */
  lemma DigitsParse(s: string, t: string, ds: string, m: int, rest: string)
    requires t == ds + rest && ds != [] && ds[0] != '-' && DigitRun(t) == |ds| && Stops(rest)
    requires forall c | c in ds :: IsDigit(c)
    requires Decimal(ds) == m && (|ds| > 1 ==> ds[0] != '0') && (s == t || s == ['-'] + t)
    ensures ParseNumber(s) == Got(Num(if s == t then m else -m), rest)
  {
    hide DigitRun, Decimal;
    assert t[..|ds|] == ds && t[|ds|..] == rest;
    assert t[0] == ds[0];
    if s != t { assert s[0] == '-' && s[1..] == t; }
  }

  lemma NumberBack(n: int, rest: string)
    requires Stops(rest)
    ensures ParseNumber(Integer(n) + rest) == Got(Num(n), rest)
  {
    hide DigitRun, Decimal, Digits, ParseNumber;
    var m: nat := if n < 0 then -n else n;
    var ds := Digits(m);
    DigitsBack(m);
    RunOfDigits(ds, rest);
    assert ds[0] in ds && IsDigit(ds[0]);
    if n < 0 { assert Integer(n) + rest == ['-'] + (ds + rest); }
    DigitsParse(Integer(n) + rest, ds + rest, ds, m, rest);
  }

  // ---- reading a printed value ----

  lemma {:induction false} ValueBack(v: Json, slashes: bool, rest: string)
    requires IsDict(v) && Stops(rest)
    ensures ParseValue(Emit(v, slashes) + rest) == Got(v, rest)
    decreases v, 0
  {
    hide ParseValue, ParseItems, ParseMembers, EmitItems, EmitMembers;
    match v {
      case Null | Bool(_) | Num(_) => ScalarBack(v, slashes, rest);
      case Str(x) => StrValueBack(x, slashes, rest);
      case Arr(items) =>
        if items != [] {
          ItemsBack(items, slashes, "]" + rest, []);
        }
        ArrBack(items, slashes, rest);
      case Obj(ms) =>
        if ms != [] {
          MembersBack(ms, slashes, "}" + rest, []);
        }
        ObjBack(ms, slashes, rest);
    }
  }

  lemma ScalarBack(v: Json, slashes: bool, rest: string)
    requires (v.Null? || v.Bool? || v.Num?) && Stops(rest)
    ensures ParseValue(Emit(v, slashes) + rest) == Got(v, rest)
  {
    if v.Num? {
      IntegerValueBack(v.n, rest);
    } else {
      WordBack(v, slashes, rest);
    }
  }

  lemma IntegerValueBack(n: int, rest: string)
    requires Stops(rest)
    ensures ParseValue(Integer(n) + rest) == Got(Num(n), rest)
  {
    hide ParseItems, ParseMembers, ParseString, ParseNumber, Integer, SkipSpace;
    NumberBack(n, rest);
    NumberStart(n);
    NoSpace(Integer(n) + rest);
  }

  lemma NoSpace(s: string)
    requires s != [] && !IsSpace(s[0])
    ensures SkipSpace(s) == s
  {
  }

  lemma WordBack(v: Json, slashes: bool, rest: string)
    requires v.Null? || v.Bool?
    ensures ParseValue(Emit(v, slashes) + rest) == Got(v, rest)
  {
    hide ParseItems, ParseMembers, ParseString, ParseNumber, SkipSpace;
    var text := Emit(v, slashes);
    assert (text + rest)[|text|..] == rest;
    NoSpace(text + rest);
  }

  lemma StrValueBack(x: string, slashes: bool, rest: string)
    ensures ParseValue(Quoted(x, slashes) + rest) == Got(Str(x), rest)
  {
    hide ParseString, EscapedAll, ParseItems, ParseMembers, ParseNumber;
    var s, tail := Quoted(x, slashes) + rest, "\"" + rest;
    assert s[0] == '"' && s[1..] == EscapedAll(x, slashes) + tail;
    StringBack(x, slashes, tail, []);
    assert tail[1..] == rest && [] + x == x;
  }

  lemma ArrBack(items: seq<Json>, slashes: bool, rest: string)
    requires items != [] ==> ParseItems(EmitItems(items, slashes) + ("]" + rest), []) == Got(Arr([] + items), rest)
    ensures ParseValue(Emit(Arr(items), slashes) + rest) == Got(Arr(items), rest)
  {
    hide ParseItems;
    ItemsStart(items, slashes);
    hide EmitItems;
    var s := Emit(Arr(items), slashes) + rest;
    assert s[0] == '[' && s[1..] == EmitItems(items, slashes) + ("]" + rest);
    if items == [] {
      assert s[1..][1..] == rest;
    } else {
      assert [] + items == items;
    }
  }

  lemma ObjBack(ms: seq<Member>, slashes: bool, rest: string)
    requires ms != [] ==> ParseMembers(EmitMembers(ms, slashes) + ("}" + rest), []) == Got(Obj([] + ms), rest)
    ensures ParseValue(Emit(Obj(ms), slashes) + rest) == Got(Obj(ms), rest)
  {
    hide ParseMembers;
    MembersStart(ms, slashes);
    hide EmitMembers;
    var s := Emit(Obj(ms), slashes) + rest;
    assert s[0] == '{' && s[1..] == EmitMembers(ms, slashes) + ("}" + rest);
    if ms == [] {
      assert s[1..][1..] == rest;
    } else {
      assert [] + ms == ms;
    }
  }

  lemma MembersStart(ms: seq<Member>, slashes: bool)
    ensures ms == [] ==> EmitMembers(ms, slashes) == []
    ensures ms != [] ==> EmitMembers(ms, slashes) != [] && EmitMembers(ms, slashes)[0] == '"'
  {
  }

  lemma NumberStart(n: int)
    ensures Integer(n) != [] && (Integer(n)[0] == '-' || IsDigit(Integer(n)[0]))
  {
    var ds := Digits(if n < 0 then -n else n);
    assert ds[0] in ds;
  }

  /** No printed value starts with a space or a closing bracket. */
  lemma ItemsStart(items: seq<Json>, slashes: bool)
    ensures items == [] ==> EmitItems(items, slashes) == []
    ensures items != [] ==>
      EmitItems(items, slashes) != [] && !IsSpace(EmitItems(items, slashes)[0]) && EmitItems(items, slashes)[0] != ']'
  {
    if items != [] && items[0].Num? { NumberStart(items[0].n); }
  }

  lemma {:induction false} ItemsBack(items: seq<Json>, slashes: bool, tail: string, acc: seq<Json>)
    requires items != [] && (forall x | x in items :: IsDict(x)) && tail != [] && tail[0] == ']'
    ensures ParseItems(EmitItems(items, slashes) + tail, acc) == Got(Arr(acc + items), tail[1..])
    decreases items, 1
  {
    if |items| == 1 {
      ValueBack(items[0], slashes, tail);
      assert acc + [items[0]] == acc + items;
    } else {
      var more := EmitItems(items[1..], slashes);
      var next := "," + (more + tail);
      ItemsText(items, slashes, tail);
      ValueBack(items[0], slashes, next);
      assert next[1..] == more + tail;
      ItemsBack(items[1..], slashes, tail, acc + [items[0]]);
      assert acc + [items[0]] + items[1..] == acc + items;
    }
  }

  lemma ItemsText(items: seq<Json>, slashes: bool, tail: string)
    requires |items| > 1
    ensures EmitItems(items, slashes) + tail == Emit(items[0], slashes)
      + ("," + (EmitItems(items[1..], slashes) + tail))
  {
  }

  /** One member: its quoted key, a colon, its value. */
  lemma MemberBack(m: Member, slashes: bool, next: string)
    requires ParseValue(Emit(m.value, slashes) + next) == Got(m.value, next)
    ensures var t := EmitMember(m, slashes) + next;
            && t != [] && t[0] == '"'
            && var k := ParseString(t[1..], []);
            && k.Got? && k.value == m.key && k.rest != [] && k.rest[0] == ':'
            && ParseValue(k.rest[1..]) == Got(m.value, next)
  {
    hide ParseValue, ParseString, Emit, EscapedAll;
    var t := EmitMember(m, slashes) + next;
    var text := Emit(m.value, slashes) + next;
    var tail := "\":" + text;
    assert t[1..] == EscapedAll(m.key, slashes) + tail;
    StringBack(m.key, slashes, tail, []);
    assert tail[1..][1..] == text && [] + m.key == m.key;
  }

  lemma MembersText(ms: seq<Member>, slashes: bool, tail: string)
    requires |ms| > 1
    ensures EmitMembers(ms, slashes) + tail == EmitMember(ms[0], slashes)
      + ("," + (EmitMembers(ms[1..], slashes) + tail))
  {
  }

  lemma NewKey(acc: seq<Member>, ms: seq<Member>)
    requires ms != [] && Distinct(KeysOf(acc + ms))
    ensures Put(acc, ms[0].key, ms[0].value) == acc + [ms[0]] && acc + [ms[0]] + ms[1..] == acc + ms
  {
    forall i | 0 <= i < |acc| ensures KeysOf(acc)[i] != ms[0].key {
      assert KeysOf(acc + ms)[i] == KeysOf(acc)[i] && KeysOf(acc + ms)[|acc|] == ms[0].key;
    }
  }

  lemma {:induction false} MembersBack(ms: seq<Member>, slashes: bool, tail: string, acc: seq<Member>)
    requires ms != [] && (forall m | m in ms :: IsDict(m.value)) && Distinct(KeysOf(acc + ms))
    requires tail != [] && tail[0] == '}'
    ensures ParseMembers(EmitMembers(ms, slashes) + tail, acc) == Got(Obj(acc + ms), tail[1..])
    decreases ms, 1
  {
    hide Emit, EmitMember, ParseString, ParseValue, ParseMembers, Put, Distinct, IsDict;
    NewKey(acc, ms);
    assert ms[0] in ms;
    if |ms| == 1 {
      ValueBack(ms[0].value, slashes, tail);
      LastMember(ms[0], slashes, tail, acc);
      assert acc + [ms[0]] == acc + ms && ms == [ms[0]];
    } else {
      var next := "," + (EmitMembers(ms[1..], slashes) + tail);
      MembersText(ms, slashes, tail);
      ValueBack(ms[0].value, slashes, next);
      assert forall m | m in ms[1..] :: m in ms;
      MembersBack(ms[1..], slashes, tail, acc + [ms[0]]);
      NextMember(ms[0], slashes, next, acc);
      assert next[1..] == EmitMembers(ms[1..], slashes) + tail;
    }
  }

  lemma LastMember(m: Member, slashes: bool, tail: string, acc: seq<Member>)
    requires tail != [] && tail[0] == '}' && ParseValue(Emit(m.value, slashes) + tail) == Got(m.value, tail)
    requires Put(acc, m.key, m.value) == acc + [m]
    ensures ParseMembers(EmitMembers([m], slashes) + tail, acc) == Got(Obj(acc + [m]), tail[1..])
  {
    hide Emit, EmitMember, ParseString, ParseValue, Put;
    MemberBack(m, slashes, tail);
  }

  lemma NextMember(m: Member, slashes: bool, next: string, acc: seq<Member>)
    requires next != [] && next[0] == ',' && ParseValue(Emit(m.value, slashes) + next) == Got(m.value, next)
    requires Put(acc, m.key, m.value) == acc + [m]
    ensures ParseMembers(EmitMember(m, slashes) + next, acc) == ParseMembers(next[1..], acc + [m])
  {
    hide Emit, EmitMember, ParseString, ParseValue, Put;
    MemberBack(m, slashes, next);
  }

  // ---- sorting members does not change the value ----

  lemma {:induction false} IndexOfUnique(ms: seq<Member>, i: nat)
    requires Distinct(KeysOf(ms)) && i < |ms|
    ensures ms[i].key in KeysOf(ms) && IndexOf(ms, ms[i].key) == i
  {
    assert KeysOf(ms)[i] == ms[i].key;
    var j := IndexOf(ms, ms[i].key);
    assert KeysOf(ms)[j] == KeysOf(ms)[i];
  }

  lemma {:induction false} PickedAt(ms: seq<Member>, ks: seq<string>, order: Order)
    requires forall k | k in ks :: k in KeysOf(ms)
    ensures KeysOf(Picked(ms, ks, order)) == ks
    ensures forall i | 0 <= i < |ks| ::
      Picked(ms, ks, order)[i] == Member(ks[i], Sorted(ms[IndexOf(ms, ks[i])].value, order))
  {
    if ks != [] {
      assert ks[0] in ks;
      PickedAt(ms, ks[1..], order);
    }
  }

  lemma SortedIsObj(ms: seq<Member>, order: Order)
    ensures Sorted(Obj(ms), order).Obj?
  {
  }

  lemma SortedMembers(ms: seq<Member>, order: Order)
    requires Distinct(KeysOf(ms))
    ensures var ks, ps := KeyOrder.SortKeys(order, KeysOf(ms)), Sorted(Obj(ms), order).members;
            && KeyOrder.Ascending(order, ks) && (forall k :: k in ks <==> k in KeysOf(ms))
            && KeysOf(ps) == ks && Distinct(ks)
            && (forall i | 0 <= i < |ks| :: ps[i] == Member(ks[i], Sorted(ms[IndexOf(ms, ks[i])].value, order)))
  {
    var ks := KeyOrder.SortKeys(order, KeysOf(ms));
    KeyOrder.SortSorts(order, KeysOf(ms));
    PickedAt(ms, ks, order);
    forall i, j | 0 <= i < j < |ks| ensures ks[i] != ks[j] {
      KeyOrder.CompareTotal(order, ks[i], ks[j]);
    }
  }

  lemma {:induction false} SortedItemsAt(items: seq<Json>, order: Order, i: nat)
    requires i < |items|
    ensures SortedItems(items, order)[i] == Sorted(items[i], order)
  {
    if i > 0 { SortedItemsAt(items[1..], order, i - 1); }
  }

  /** A sorted value is a dict throughout and equal to the original. */
  lemma {:induction false} SortedSame(v: Json, order: Order)
    requires IsDict(v)
    ensures IsDict(Sorted(v, order)) && SameValue(v, Sorted(v, order))
    decreases v
  {
    hide IndexOf, Picked, KeyOrder.SortKeys, KeyOrder.Ascending, Sorted;
    match v {
      case Arr(items) =>
        forall i | 0 <= i < |items|
          ensures IsDict(Sorted(items[i], order)) && SameValue(items[i], Sorted(items[i], order))
        {
          SortedSame(items[i], order);
        }
        SortedArrSame(items, order);
      case Obj(ms) =>
        forall i | 0 <= i < |ms|
          ensures IsDict(Sorted(ms[i].value, order)) && SameValue(ms[i].value, Sorted(ms[i].value, order))
        {
          assert ms[i] in ms;
          SortedSame(ms[i].value, order);
        }
        SortedObjSame(ms, order);
      case _ => ScalarSorted(v, order);
    }
  }

  lemma ScalarSorted(v: Json, order: Order)
    requires !v.Arr? && !v.Obj?
    ensures Sorted(v, order) == v
  {
  }

  lemma SortedArrSame(items: seq<Json>, order: Order)
    requires forall i | 0 <= i < |items| ::
      IsDict(Sorted(items[i], order)) && SameValue(items[i], Sorted(items[i], order))
    ensures IsDict(Sorted(Arr(items), order)) && SameValue(Arr(items), Sorted(Arr(items), order))
  {
    var w := Sorted(Arr(items), order);
    forall i | 0 <= i < |items| ensures w.items[i] == Sorted(items[i], order) {
      SortedItemsAt(items, order, i);
    }
  }

  lemma SortedObjSame(ms: seq<Member>, order: Order)
    requires Distinct(KeysOf(ms))
    requires forall i | 0 <= i < |ms| ::
      IsDict(Sorted(ms[i].value, order)) && SameValue(ms[i].value, Sorted(ms[i].value, order))
    ensures IsDict(Sorted(Obj(ms), order)) && SameValue(Obj(ms), Sorted(Obj(ms), order))
  {
    hide IndexOf, Picked, KeyOrder.SortKeys, KeyOrder.Ascending;
    var ps := Sorted(Obj(ms), order).members;
    SortedMembers(ms, order);
    forall p | p in ps ensures IsDict(p.value) {
      var i :| 0 <= i < |ps| && ps[i] == p;
    }
    forall i | 0 <= i < |ms|
      ensures ms[i].key in KeysOf(ps) && SameValue(ms[i].value, ps[IndexOf(ps, ms[i].key)].value)
    {
      IndexOfUnique(ms, i);
    }
  }

  /** Equal values have the same sorted form, whatever the order of insertion ... */
  lemma {:induction false} SameSorted(v: Json, w: Json, order: Order)
    requires IsDict(v) && IsDict(w) && SameValue(v, w)
    ensures Sorted(v, order) == Sorted(w, order)
    decreases v
  {
    hide IndexOf, Picked, KeyOrder.SortKeys, KeyOrder.Ascending;
    match v {
      case Arr(items) =>
        forall i | 0 <= i < |items| ensures SortedItems(items, order)[i] == SortedItems(w.items, order)[i] {
          SortedItemsAt(items, order, i);
          SortedItemsAt(w.items, order, i);
          SameSorted(items[i], w.items[i], order);
        }
        assert SortedItems(items, order) == SortedItems(w.items, order);
      case Obj(ms) =>
        SortedMembers(ms, order);
        SortedMembers(w.members, order);
        var ks := KeyOrder.SortKeys(order, KeysOf(ms));
        KeyOrder.AscendingUnique(order, ks, KeyOrder.SortKeys(order, KeysOf(w.members)));
        forall i | 0 <= i < |ks| ensures Sorted(v, order).members[i] == Sorted(w, order).members[i] {
          var m := ms[IndexOf(ms, ks[i])];
          assert ks[i] in ks && m in ms;
          SameSorted(m.value, w.members[IndexOf(w.members, ks[i])].value, order);
        }
        assert Sorted(v, order).members == Sorted(w, order).members;
      case _ =>
    }
  }

  /** ... and values with the same sorted form are equal. */
  lemma {:induction false} SortedEqualSame(v: Json, w: Json, order: Order)
    requires IsDict(v) && IsDict(w) && Sorted(v, order) == Sorted(w, order)
    ensures SameValue(v, w)
    decreases v
  {
    hide IndexOf, Picked, KeyOrder.SortKeys, KeyOrder.Ascending;
    match v {
      case Arr(items) =>
        forall i | 0 <= i < |items| ensures SameValue(items[i], w.items[i]) {
          SortedItemsAt(items, order, i);
          SortedItemsAt(w.items, order, i);
          SortedEqualSame(items[i], w.items[i], order);
        }
      case Obj(ms) =>
        SortedMembers(ms, order);
        SortedMembers(w.members, order);
        var ks := KeyOrder.SortKeys(order, KeysOf(ms));
        forall i | 0 <= i < |ms| && ms[i].key in KeysOf(w.members)
          ensures SameValue(ms[i].value, w.members[IndexOf(w.members, ms[i].key)].value)
        {
          IndexOfUnique(ms, i);
          assert ms[i].key in ks;
          var j :| 0 <= j < |ks| && ks[j] == ms[i].key;
          assert Sorted(v, order).members[j] == Sorted(w, order).members[j];
          SortedEqualSame(ms[i].value, w.members[IndexOf(w.members, ms[i].key)].value, order);
        }
      case _ =>
    }
  }

  // ---- the printer is a left-invertible function of the value ----

  /** Reading the printed text gives the value back, members in printing order. */
  lemma ParseCanonical(v: Json, order: Order, slashes: bool)
    requires IsDict(v)
    ensures Parse(CanonicalJson(v, order, slashes)) == Some(Sorted(v, order))
    ensures SameValue(v, Sorted(v, order))
  {
    SortedSame(v, order);
    var text := CanonicalJson(v, order, slashes);
    assert text + "" == text;
    ValueBack(Sorted(v, order), slashes, "");
  }

  /** Two values print alike exactly when they are equal as dicts. */
  lemma CanonicalInjective(v: Json, w: Json, order: Order, slashes: bool)
    requires IsDict(v) && IsDict(w)
    ensures CanonicalJson(v, order, slashes) == CanonicalJson(w, order, slashes) <==> SameValue(v, w)
  {
    ParseCanonical(v, order, slashes);
    ParseCanonical(w, order, slashes);
    if CanonicalJson(v, order, slashes) == CanonicalJson(w, order, slashes) {
      SortedEqualSame(v, w, order);
    }
    if SameValue(v, w) {
      SameSorted(v, w, order);
    }
  }

  /** canonical_payload: the top-level members that are not excluded. */
  function Kept(ms: seq<Member>, excluded: set<string>): (r: seq<Member>)
    ensures forall m | m in r :: m in ms && m.key !in excluded
  {
    if ms == [] then []
    else if ms[0].key in excluded then Kept(ms[1..], excluded)
    else [ms[0]] + Kept(ms[1..], excluded)
  }

  function CanonicalPayload(ms: seq<Member>, excluded: set<string>): string {
    CanonicalJson(Obj(Kept(ms, excluded)), KeyOrder.Foundation, true)
  }

  lemma KeysCons(m: Member, ms: seq<Member>)
    ensures KeysOf([m] + ms) == [m.key] + KeysOf(ms)
    ensures Distinct(KeysOf([m] + ms)) <==> m.key !in KeysOf(ms) && Distinct(KeysOf(ms))
  {
    var ks, all := KeysOf(ms), KeysOf([m] + ms);
    assert all == [m.key] + ks;
    if Distinct(all) {
      forall i, j | 0 <= i < j < |ks| ensures ks[i] != ks[j] {
        assert all[i + 1] != all[j + 1];
      }
      forall i | 0 <= i < |ks| ensures ks[i] != m.key {
        assert all[0] != all[i + 1];
      }
    }
  }

  lemma {:induction false} KeptDistinct(ms: seq<Member>, excluded: set<string>)
    requires Distinct(KeysOf(ms))
    ensures Distinct(KeysOf(Kept(ms, excluded)))
    ensures forall k :: k in KeysOf(Kept(ms, excluded)) <==> k in KeysOf(ms) && k !in excluded
    ensures forall m | m in ms && m.key !in excluded :: m in Kept(ms, excluded)
  {
    if ms != [] {
      hide Distinct, KeysOf;
      var rest := ms[1..];
      assert ms == [ms[0]] + rest;
      KeysCons(ms[0], rest);
      KeptDistinct(rest, excluded);
      KeysCons(ms[0], Kept(rest, excluded));
    } else {
      assert KeysOf(ms) == [];
    }
  }

  /** The signed bytes determine every member that is signed, and nothing else. */
  lemma PayloadInjective(ms: seq<Member>, ns: seq<Member>, excluded: set<string>)
    requires IsDict(Obj(ms)) && IsDict(Obj(ns))
    ensures CanonicalPayload(ms, excluded) == CanonicalPayload(ns, excluded)
       <==> SameValue(Obj(Kept(ms, excluded)), Obj(Kept(ns, excluded)))
  {
    KeptDistinct(ms, excluded);
    KeptDistinct(ns, excluded);
    CanonicalInjective(Obj(Kept(ms, excluded)), Obj(Kept(ns, excluded)), KeyOrder.Foundation, true);
  }

  // ---- where the members stand ----

  /** Both parts are in the text, the first one before the second. */
  ghost predicate InTurn(text: string, x: string, y: string) {
    exists a, b, c :: text == a + x + b + y + c
  }

  lemma TurnsWithin(h: string, text: string, t: string, x: string, y: string)
    requires InTurn(text, x, y)
    ensures InTurn(h + text + t, x, y)
  {
    var a, b, c :| text == a + x + b + y + c;
    assert h + (a + x + b + y + c) + t == (h + a) + x + b + y + (c + t);
  }

  lemma FirstInTurn(x: string, b: string, y: string, c: string)
    ensures InTurn(x + ("," + (b + y + c)), x, y)
  {
    assert x + ("," + (b + y + c)) == "" + x + ("," + b) + y + c;
  }

  lemma {:induction false} MemberWithin(ms: seq<Member>, j: nat, slashes: bool) returns (b: string, c: string)
    requires j < |ms|
    ensures EmitMembers(ms, slashes) == b + EmitMember(ms[j], slashes) + c
  {
    hide EmitMember;
    if j == 0 {
      b := "";
      c := if |ms| == 1 then "" else "," + EmitMembers(ms[1..], slashes);
    } else {
      b, c := MemberWithin(ms[1..], j - 1, slashes);
      b := EmitMember(ms[0], slashes) + "," + b;
    }
  }

  lemma {:induction false} MembersWithin(ms: seq<Member>, i: nat, j: nat, slashes: bool)
    requires i < j < |ms|
    ensures InTurn(EmitMembers(ms, slashes), EmitMember(ms[i], slashes), EmitMember(ms[j], slashes))
  {
    hide EmitMember, EmitMembers, InTurn;
    var x, y := EmitMember(ms[i], slashes), EmitMember(ms[j], slashes);
    MembersText(ms, slashes, "");
    var more := EmitMembers(ms[1..], slashes);
    assert EmitMembers(ms, slashes) == EmitMember(ms[0], slashes) + ("," + more) by {
      assert EmitMembers(ms, slashes) + "" == EmitMembers(ms, slashes) && more + "" == more;
    }
    if i == 0 {
      var b, c := MemberWithin(ms[1..], j - 1, slashes);
      FirstInTurn(x, b, y, c);
    } else {
      MembersWithin(ms[1..], i - 1, j - 1, slashes);
      TurnsWithin(EmitMember(ms[0], slashes) + ",", more, "", x, y);
      assert EmitMember(ms[0], slashes) + "," + more + "" == EmitMember(ms[0], slashes) + ("," + more);
    }
  }

  /** A member as it stands in the text of its object. */
  function MemberText(ms: seq<Member>, k: string, order: Order, slashes: bool): string
    requires k in KeysOf(ms)
  {
    Quoted(k, slashes) + ":" + CanonicalJson(ms[IndexOf(ms, k)].value, order, slashes)
  }

  /** In the text of an object every member stands before all members whose keys come later
      in the order, whatever the order they were put in. */
  lemma MembersStand(ms: seq<Member>, order: Order, slashes: bool, k: string, l: string)
    requires IsDict(Obj(ms)) && k in KeysOf(ms) && l in KeysOf(ms) && KeyOrder.Compare(order, k, l) < 0
    ensures InTurn(CanonicalJson(Obj(ms), order, slashes), MemberText(ms, k, order, slashes),
      MemberText(ms, l, order, slashes))
  {
    hide KeyOrder.Compare, EmitMembers, Emit, Quoted, Sorted, InTurn, IndexOf, KeyOrder.SortKeys;
    SortedMembers(ms, order);
    SortedIsObj(ms, order);
    var ps := Sorted(Obj(ms), order).members;
    var ks := KeyOrder.SortKeys(order, KeysOf(ms));
    var i :| 0 <= i < |ks| && ks[i] == k;
    var j :| 0 <= j < |ks| && ks[j] == l;
    KeyOrder.CompareTotal(order, k, l);
    assert i < j;
    MembersWithin(ps, i, j, slashes);
    TurnsWithin("{", EmitMembers(ps, slashes), "}", EmitMember(ps[i], slashes), EmitMember(ps[j], slashes));
    ObjectText(ps, slashes);
  }

  lemma ObjectText(ps: seq<Member>, slashes: bool)
    ensures Emit(Obj(ps), slashes) == "{" + EmitMembers(ps, slashes) + "}"
  {
  }
}
