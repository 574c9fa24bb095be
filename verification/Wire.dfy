/** Wire models: a list of field specifications drives both directions, whatever the
    model. A model's value is its fields in the order of its specifications. A field is
    written below its key unless it is absent, or equals a default that is left out;
    reading takes the default where the key is missing. */
module Wire {
  import opened Basics
  import opened Json
  import opened Canonical
  import KeyOrder
  import Base64

  /** The kinds of a field. A number may be a float in the source; whole ones are read here. */
  datatype Kind =
    | KStr | KInt | KNumber | KBool | KBytes | KStrs | KRaw | KModel(specs: seq<Spec>) | KModels(specs: seq<Spec>)

  /** How a field travels; nulled is for the one optional field that is written as null
      where it is absent. */
  datatype Spec = Spec(key: string, kind: Kind, optional: bool, default: Option<Value>, omit: bool, nulled: bool)

  datatype Value =
    | VStr(s: string) | VInt(n: int) | VBool(b: bool) | VBytes(bytes: seq<Byte>) | VStrs(ss: seq<string>)
    | VRaw(j: Json) | VModel(fields: seq<Option<Value>>) | VModels(models: seq<Value>)

  // ---- specifications ----

  function Required(key: string, kind: Kind): Spec {
    Spec(key, kind, false, None, false, false)
  }

  function Optional(key: string, kind: Kind): Spec {
    Spec(key, kind, true, None, false, false)
  }

  function Nulled(key: string, kind: Kind): Spec {
    Spec(key, kind, true, None, false, true)
  }

  function Defaulted(key: string, kind: Kind, default: Value, omit: bool): Spec {
    Spec(key, kind, false, Some(default), omit, false)
  }

  // ---- both directions ----

  function StrItems(ss: seq<string>): (items: seq<Json>)
    ensures |items| == |ss| && forall i | 0 <= i < |ss| :: items[i] == Str(ss[i])
  {
    seq(|ss|, i requires 0 <= i < |ss| => Str(ss[i]))
  }

  function Encode(v: Value, k: Kind): Option<Json>
    decreases v, 0
  {
    match v
    case VStr(s) => Some(Str(s))
    case VInt(n) => Some(Num(n))
    case VBool(b) => Some(Bool(b))
    case VBytes(b) => Some(Str(Base64.Encode(b)))
    case VStrs(ss) => Some(Arr(StrItems(ss)))
    case VRaw(j) => Some(j)
    case VModel(fs) =>
      if !k.KModel? then None else
        var ms := ToWire(k.specs, fs);
        if ms.None? then None else Some(Obj(ms.value))
    case VModels(vs) =>
      if !k.KModels? then None else
        var items := EncodeAll(vs, k.specs);
        if items.None? then None else Some(Arr(items.value))
  }

  function EncodeSome(f: Option<Value>, k: Kind): Option<Json>
    requires f.Some?
    decreases f, 0
  {
    Encode(f.value, k)
  }

  function EncodeAll(vs: seq<Value>, specs: seq<Spec>): Option<seq<Json>>
    decreases vs, 1
  {
    if vs == [] then Some([]) else
      var head, rest := Encode(vs[0], KModel(specs)), EncodeAll(vs[1..], specs);
      if head.None? || rest.None? then None else Some([head.value] + rest.value)
  }

  /** to_wire; None where a required field is absent. */
  function ToWire(specs: seq<Spec>, fs: seq<Option<Value>>): Option<seq<Member>>
    decreases fs, 1
  {
    if |specs| != |fs| then None
    else if fs == [] then Some([])
    else
      var rest := ToWire(specs[1..], fs[1..]);
      if rest.None? then None
      else if fs[0].None? then
        if !specs[0].optional then None
        else if specs[0].nulled then Some([Member(specs[0].key, Null)] + rest.value)
        else rest
      else if specs[0].omit && specs[0].default == fs[0] then rest
      else
        var j := EncodeSome(fs[0], specs[0].kind);
        if j.None? then None else Some([Member(specs[0].key, j.value)] + rest.value)
  }

  function ReadStrs(items: seq<Json>): Option<seq<string>> {
    if items == [] then Some([]) else
      var rest := ReadStrs(items[1..]);
      if !items[0].Str? || rest.None? then None else Some([items[0].s] + rest.value)
  }

  /** _decode; None where it raises. */
  function Decode(j: Json, k: Kind): Option<Value>
    decreases j, 0
  {
    match k
    case KStr => if j.Str? then Some(VStr(j.s)) else None
    case KInt => if j.Num? then Some(VInt(j.n)) else None
    case KNumber => if j.Num? then Some(VInt(j.n)) else None
    case KBool => if j.Bool? then Some(VBool(j.b)) else None
    case KBytes =>
      if !j.Str? then None else
        var b := Base64.Decode(j.s);
        if b.None? then None else Some(VBytes(b.value))
    case KStrs =>
      if !j.Arr? then None else
        var ss := ReadStrs(j.items);
        if ss.None? then None else Some(VStrs(ss.value))
    case KRaw => Some(VRaw(j))
    case KModel(specs) =>
      if !j.Obj? then None else
        var fs := FromWire(specs, j.members);
        if fs.None? then None else Some(VModel(fs.value))
    case KModels(specs) =>
      if !j.Arr? then None else
        var vs := DecodeAll(j.items, specs);
        if vs.None? then None else Some(VModels(vs.value))
  }

  function DecodeAll(items: seq<Json>, specs: seq<Spec>): Option<seq<Value>>
    decreases items, 1
  {
    if items == [] then Some([]) else
      var head, rest := Decode(items[0], KModel(specs)), DecodeAll(items[1..], specs);
      if head.None? || rest.None? then None else Some([head.value] + rest.value)
  }

  /** One field of from_wire. */
  function ReadField(spec: Spec, ms: seq<Member>): Option<Option<Value>>
    decreases ms, 1, 0
  {
    if spec.key !in KeysOf(ms) || ms[IndexOf(ms, spec.key)].value == Null then
      if spec.optional then Some(None)
      else if spec.default.Some? then Some(spec.default)
      else None
    else
      var v := Decode(ms[IndexOf(ms, spec.key)].value, spec.kind);
      if v.None? then None else Some(v)
  }

  /** from_wire of an object. */
  function FromWire(specs: seq<Spec>, ms: seq<Member>): Option<seq<Option<Value>>>
    decreases ms, 1, |specs| + 1
  {
    if specs == [] then Some([]) else
      var head, rest := ReadField(specs[0], ms), FromWire(specs[1..], ms);
      if head.None? || rest.None? then None else Some([head.value] + rest.value)
  }

  // ---- the models of the source ----

  /** Nothing is written for the field. */
  ghost predicate Absent(spec: Spec, f: Option<Value>) {
    (f.None? && !spec.nulled) || (f.Some? && spec.omit && spec.default == f)
  }

  /** What is written for the field otherwise. */
  function Written(spec: Spec, f: Option<Value>): Option<Json> {
    if f.None? then Some(Null) else EncodeSome(f, spec.kind)
  }

  ghost predicate From(specs: seq<Spec>, fs: seq<Option<Value>>, i: int, m: Member) {
    && 0 <= i < |specs| && i < |fs| && Written(specs[i], fs[i]).Some?
    && m == Member(specs[i].key, Written(specs[i], fs[i]).value)
  }

  /** Every member that is written stands for a field. */
  lemma {:induction false} MemberFrom(specs: seq<Spec>, fs: seq<Option<Value>>, m: Member)
    requires ToWire(specs, fs).Some? && m in ToWire(specs, fs).value
    ensures exists i :: From(specs, fs, i, m)
    decreases |fs|
  {
    if fs != [] {
      var rest := ToWire(specs[1..], fs[1..]).value;
      if m in rest {
        MemberFrom(specs[1..], fs[1..], m);
        var i :| From(specs[1..], fs[1..], i, m);
        assert From(specs, fs, i + 1, m);
      } else {
        assert From(specs, fs, 0, m);
      }
    }
  }

  /** A model is written as the object of its fields, and other values but raw ones as no
      object. */
  lemma ObjectsAreModels(f: Option<Value>, spec: Spec)
    requires Written(spec, f).Some? && (f.Some? ==> !f.value.VRaw?)
    ensures var j := Written(spec, f).value;
      j.Obj? ==>
        && f.Some? && f.value.VModel? && spec.kind.KModel?
        && ToWire(spec.kind.specs, f.value.fields).Some? && j == Obj(ToWire(spec.kind.specs, f.value.fields).value)
  {
    if f.Some? {
      assert Written(spec, f) == Encode(f.value, spec.kind);
      match f.value {
        case VModel(fs) => assert Encode(VModel(fs), spec.kind).Some?;
        case VModels(vs) => assert Encode(VModels(vs), spec.kind).Some?;
        case _ =>
      }
    }
  }

  /** The value has the shape its kind says; a raw value is a dict and not null. */
  ghost predicate Typed(v: Value, k: Kind)
    decreases v, 0
  {
    match v
    case VStr(_) => k.KStr?
    case VInt(_) => k.KInt? || k.KNumber?
    case VBool(_) => k.KBool?
    case VBytes(_) => k.KBytes?
    case VStrs(_) => k.KStrs?
    case VRaw(j) => k.KRaw? && j != Null && IsDict(j)
    case VModel(fs) => k.KModel? && TypedFields(k.specs, fs)
    case VModels(vs) => k.KModels? && forall x | x in vs :: x.VModel? && TypedFields(k.specs, x.fields)
  }

  ghost predicate TypedField(spec: Spec, f: Option<Value>)
    decreases f, 0
  {
    if f.None? then spec.optional else Typed(f.value, spec.kind)
  }

  /** Distinct keys; a field is left out only where the specification allows it. */
  ghost predicate TypedFields(specs: seq<Spec>, fs: seq<Option<Value>>)
    decreases fs, 1
  {
    && |fs| == |specs|
    && (forall i, j | 0 <= i < j < |specs| :: specs[i].key != specs[j].key)
    && (forall i | 0 <= i < |specs| :: specs[i].omit ==> !specs[i].optional && specs[i].default.Some?)
    && (forall i | 0 <= i < |fs| :: TypedField(specs[i], fs[i]))
  }

  // ---- round trips ----

  ghost predicate Comes(v: Value, k: Kind) {
    var j := Encode(v, k);
    j.Some? && j.value != Null && IsDict(j.value) && Decode(j.value, k) == Some(v)
  }

  lemma {:induction false} StrsBack(ss: seq<string>)
    ensures ReadStrs(StrItems(ss)) == Some(ss)
  {
    if ss != [] {
      assert StrItems(ss)[1..] == StrItems(ss[1..]);
      StrsBack(ss[1..]);
      assert ss == [ss[0]] + ss[1..];
    }
  }

  /** Every typed value survives the wire. */
  lemma {:induction false} ValueBack(v: Value, k: Kind)
    requires Typed(v, k)
    ensures Comes(v, k)
    decreases v, 0
  {
    match v {
      case VBytes(b) => Base64.DecodeEncode(b);
      case VStrs(ss) => StrsBack(ss);
      case VModel(fs) =>
        FieldsBack(k.specs, fs, []);
        var ms := ToWire(k.specs, fs);
        assert [] + ms.value == ms.value;
      case VModels(vs) => AllBack(vs, k.specs);
      case _ =>
    }
  }

  /** What is written for a field is read as that field. */
  ghost predicate Reads(spec: Spec, f: Option<Value>) {
    && Written(spec, f).Some? && IsDict(Written(spec, f).value)
    && if f.None? then spec.optional && spec.nulled else Comes(f.value, spec.kind)
  }

  lemma FieldBack(spec: Spec, f: Option<Value>)
    requires TypedField(spec, f) && !Absent(spec, f)
    ensures Reads(spec, f)
    decreases f, 0
  {
    if f.Some? { ValueBack(f.value, spec.kind); }
  }

  lemma {:induction false} AllBack(vs: seq<Value>, specs: seq<Spec>)
    requires forall x | x in vs :: x.VModel? && TypedFields(specs, x.fields)
    ensures var items := EncodeAll(vs, specs);
      items.Some? && (forall j | j in items.value :: IsDict(j)) && DecodeAll(items.value, specs) == Some(vs)
    decreases vs, 1
  {
    if vs != [] {
      assert vs[0] in vs && forall x | x in vs[1..] :: x in vs;
      ValueBack(vs[0], KModel(specs));
      AllBack(vs[1..], specs);
      var items := EncodeAll(vs, specs).value;
      assert items[1..] == EncodeAll(vs[1..], specs).value;
      assert vs == [vs[0]] + vs[1..];
    }
  }

  lemma TypedRest(specs: seq<Spec>, fs: seq<Option<Value>>)
    requires TypedFields(specs, fs) && fs != []
    ensures TypedFields(specs[1..], fs[1..])
    ensures forall i | 0 <= i < |specs| - 1 :: specs[1..][i].key != specs[0].key
  {
  }

  ghost predicate NoneOf(specs: seq<Spec>, ms: seq<Member>) {
    forall i | 0 <= i < |specs| :: specs[i].key !in KeysOf(ms)
  }

  /** The fields of a model, read from an object that starts with other members. */
  lemma {:induction false} FieldsBack(specs: seq<Spec>, fs: seq<Option<Value>>, before: seq<Member>)
    requires TypedFields(specs, fs) && NoneOf(specs, before)
    ensures var ms := ToWire(specs, fs);
      && ms.Some? && FromWire(specs, before + ms.value) == Some(fs)
      && (forall m | m in ms.value :: IsDict(m.value))
      && (forall m | m in ms.value :: exists i | 0 <= i < |specs| :: specs[i].key == m.key)
      && Distinct(KeysOf(ms.value))
    decreases fs, 1
  {
    if fs != [] {
      TypedRest(specs, fs);
      var spec, f := specs[0], fs[0];
      if Absent(spec, f) {
        FieldsBack(specs[1..], fs[1..], before);
        AbsentBack(specs, fs, before);
      } else {
        FieldBack(spec, f);
        var m := Member(spec.key, Written(spec, f).value);
        assert KeysOf(before + [m]) == KeysOf(before) + [m.key];
        FieldsBack(specs[1..], fs[1..], before + [m]);
        PresentBack(specs, fs, before, m);
      }
    }
  }

  lemma {:induction false} AbsentBack(specs: seq<Spec>, fs: seq<Option<Value>>, before: seq<Member>)
    requires fs != [] && TypedFields(specs, fs) && NoneOf(specs, before) && Absent(specs[0], fs[0])
    requires var rest := ToWire(specs[1..], fs[1..]);
      && rest.Some? && FromWire(specs[1..], before + rest.value) == Some(fs[1..])
      && (forall m | m in rest.value :: exists i | 0 <= i < |specs[1..]| :: specs[1..][i].key == m.key)
    ensures ToWire(specs, fs) == ToWire(specs[1..], fs[1..])
    ensures FromWire(specs, before + ToWire(specs, fs).value) == Some(fs)
    ensures forall m | m in ToWire(specs, fs).value :: exists i | 0 <= i < |specs| :: specs[i].key == m.key
  {
    hide Decode, Encode, Typed, KeysOf, ReadField;
    var rest := ToWire(specs[1..], fs[1..]).value;
    KeyOfRest(specs, rest);
    ReadAbsent(specs[0], before, rest);
    assert TypedField(specs[0], fs[0]);
    assert fs == [fs[0]] + fs[1..];
  }

  lemma ReadAbsent(spec: Spec, before: seq<Member>, rest: seq<Member>)
    requires spec.key !in KeysOf(before) && spec.key !in KeysOf(rest)
    ensures ReadField(spec, before + rest)
         == if spec.optional then Some(None) else if spec.default.Some? then Some(spec.default) else None
  {
    hide Decode, Typed, IndexOf, IsDict;
    KeysJoined(before, rest);
  }

  lemma KeysJoined(before: seq<Member>, rest: seq<Member>)
    ensures KeysOf(before + rest) == KeysOf(before) + KeysOf(rest)
  {
  }

  /** The first key is none of the later ones. */
  lemma KeyOfRest(specs: seq<Spec>, rest: seq<Member>)
    requires specs != [] && forall i, j | 0 <= i < j < |specs| :: specs[i].key != specs[j].key
    requires forall m | m in rest :: exists i | 0 <= i < |specs[1..]| :: specs[1..][i].key == m.key
    ensures specs[0].key !in KeysOf(rest)
    ensures forall m | m in rest :: exists i | 0 <= i < |specs| :: specs[i].key == m.key
  {
    forall j | 0 <= j < |rest|
      ensures rest[j].key != specs[0].key && exists i | 0 <= i < |specs| :: specs[i].key == rest[j].key
    {
      assert rest[j] in rest;
      var i :| 0 <= i < |specs[1..]| && specs[1..][i].key == rest[j].key;
      assert specs[i + 1].key == rest[j].key;
    }
  }

  lemma {:induction false} PresentBack(specs: seq<Spec>, fs: seq<Option<Value>>, before: seq<Member>, m: Member)
    requires fs != [] && TypedFields(specs, fs) && NoneOf(specs, before) && !Absent(specs[0], fs[0])
    requires Reads(specs[0], fs[0]) && m == Member(specs[0].key, Written(specs[0], fs[0]).value)
    requires var rest := ToWire(specs[1..], fs[1..]);
      && rest.Some? && FromWire(specs[1..], before + [m] + rest.value) == Some(fs[1..])
      && (forall x | x in rest.value :: IsDict(x.value))
      && (forall x | x in rest.value :: exists i | 0 <= i < |specs[1..]| :: specs[1..][i].key == x.key)
      && Distinct(KeysOf(rest.value))
    ensures ToWire(specs, fs) == Some([m] + ToWire(specs[1..], fs[1..]).value)
    ensures FromWire(specs, before + ToWire(specs, fs).value) == Some(fs)
    ensures Distinct(KeysOf(ToWire(specs, fs).value))
    ensures forall x | x in ToWire(specs, fs).value :: exists i | 0 <= i < |specs| :: specs[i].key == x.key
  {
    hide Decode, Encode, Typed, IsDict, Distinct, KeysOf;
    var rest := ToWire(specs[1..], fs[1..]).value;
    KeyOfRest(specs, rest);
    KeysCons(m, rest);
    assert specs[0].key == m.key;
    ReadPresent(specs[0], fs[0], before, m, rest);
    assert before + ([m] + rest) == before + [m] + rest;
    assert fs == [fs[0]] + fs[1..];
  }

  lemma ReadPresent(spec: Spec, f: Option<Value>, before: seq<Member>, m: Member, rest: seq<Member>)
    requires Reads(spec, f) && m == Member(spec.key, Written(spec, f).value)
    requires spec.key !in KeysOf(before)
    ensures ReadField(spec, before + [m] + rest) == Some(f)
  {
    hide Decode, Encode;
    var all := before + [m] + rest;
    assert KeysOf(all) == KeysOf(before) + [m.key] + KeysOf(rest);
    FirstIndex(all, m.key, |before|);
  }

  lemma FirstIndex(ms: seq<Member>, k: string, i: nat)
    requires i < |ms| && ms[i].key == k && forall j | 0 <= j < i :: KeysOf(ms)[j] != k
    ensures k in KeysOf(ms) && IndexOf(ms, k) == i
    decreases i
  {
    assert KeysOf(ms)[i] == k;
    if i > 0 {
      assert KeysOf(ms)[0] == ms[0].key;
      assert KeysOf(ms)[1..] == KeysOf(ms[1..]);
      forall j | 0 <= j < i - 1 ensures KeysOf(ms[1..])[j] != k { assert KeysOf(ms)[j + 1] != k; }
      FirstIndex(ms[1..], k, i - 1);
    }
  }

  lemma FirstWritten(specs: seq<Spec>, fs: seq<Option<Value>>, s: string)
    requires ToWire(specs, fs).Some? && fs != [] && fs[0] == Some(VStr(s)) && !specs[0].omit
    ensures ToWire(specs, fs).value != [] && ToWire(specs, fs).value[0] == Member(specs[0].key, Str(s))
  {
    assert Encode(VStr(s), specs[0].kind) == Some(Str(s));
    assert EncodeSome(fs[0], specs[0].kind) == Some(Str(s));
    assert ToWire(specs[1..], fs[1..]).Some?;
  }

  /** from_wire(to_wire(m)) is m, for every model. */
  lemma ModelBack(specs: seq<Spec>, fs: seq<Option<Value>>)
    requires TypedFields(specs, fs)
    ensures ToWire(specs, fs).Some? && IsDict(Obj(ToWire(specs, fs).value))
    ensures FromWire(specs, ToWire(specs, fs).value) == Some(fs)
  {
    FieldsBack(specs, fs, []);
    assert [] + ToWire(specs, fs).value == ToWire(specs, fs).value;
  }

  // ---- across the canonical text ----

  predicate NoRaw(k: Kind) {
    match k
    case KRaw => false
    case KModel(specs) => forall spec | spec in specs :: NoRaw(spec.kind)
    case KModels(specs) => forall spec | spec in specs :: NoRaw(spec.kind)
    case _ => true
  }

  lemma {:induction false} ReadStrsSame(a: seq<Json>, b: seq<Json>)
    requires |a| == |b| && forall i | 0 <= i < |a| :: SameValue(a[i], b[i])
    ensures ReadStrs(a) == ReadStrs(b)
  {
    if a != [] {
      ReadStrsSame(a[1..], b[1..]);
    }
  }

  /** Decoding does not see the order of members. */
  lemma {:induction false} DecodeSame(a: Json, b: Json, k: Kind)
    requires IsDict(a) && IsDict(b) && SameValue(a, b) && NoRaw(k)
    ensures Decode(a, k) == Decode(b, k)
    decreases a, 0
  {
    match k {
      case KStrs =>
        if a.Arr? { ReadStrsSame(a.items, b.items); }
      case KModel(specs) =>
        if a.Obj? { FromWireSame(a.members, b.members, specs); }
      case KModels(specs) =>
        if a.Arr? { DecodeAllSame(a.items, b.items, specs); }
      case _ =>
    }
  }

  lemma {:induction false} DecodeAllSame(a: seq<Json>, b: seq<Json>, specs: seq<Spec>)
    requires |a| == |b| && NoRaw(KModel(specs))
    requires forall i | 0 <= i < |a| :: IsDict(a[i]) && IsDict(b[i]) && SameValue(a[i], b[i])
    ensures DecodeAll(a, specs) == DecodeAll(b, specs)
    decreases a, 1
  {
    if a != [] {
      DecodeSame(a[0], b[0], KModel(specs));
      DecodeAllSame(a[1..], b[1..], specs);
    }
  }

  lemma {:induction false} FromWireSame(a: seq<Member>, b: seq<Member>, specs: seq<Spec>)
    requires IsDict(Obj(a)) && IsDict(Obj(b)) && SameValue(Obj(a), Obj(b))
    requires forall spec | spec in specs :: NoRaw(spec.kind)
    ensures FromWire(specs, a) == FromWire(specs, b)
    decreases a, 1, |specs|
  {
    hide Decode;
    if specs != [] {
      var spec := specs[0];
      assert spec in specs && forall x | x in specs[1..] :: x in specs;
      FromWireSame(a, b, specs[1..]);
      if spec.key in KeysOf(a) {
        var m := a[IndexOf(a, spec.key)];
        var n := b[IndexOf(b, spec.key)];
        assert m in a && n in b && SameValue(m.value, n.value);
        NullSame(m.value, n.value);
        DecodeSame(m.value, n.value, spec.kind);
      }
    }
  }

  lemma NullSame(a: Json, b: Json)
    requires SameValue(a, b)
    ensures a == Null <==> b == Null
  {
  }

  /** A model without raw fields survives its canonical text, in either key order: what is
      read back is the model itself, so it signs the same bytes. */
  lemma TextBack(specs: seq<Spec>, fs: seq<Option<Value>>, order: KeyOrder.Order, slashes: bool)
    requires TypedFields(specs, fs) && NoRaw(KModel(specs))
    ensures ToWire(specs, fs).Some?
    ensures var text := CanonicalJson(Obj(ToWire(specs, fs).value), order, slashes);
      Parse(text).Some? && Parse(text).value.Obj? && FromWire(specs, Parse(text).value.members) == Some(fs)
  {
    hide Parse, CanonicalJson, ToWire, FromWire;
    ModelBack(specs, fs);
    var j := Obj(ToWire(specs, fs).value);
    ParseCanonical(j, order, slashes);
    SortedSame(j, order);
    FromWireSame(j.members, Sorted(j, order).members, specs);
  }

  // ---- raw fields across the text ----

  /** Equal but for the order of members inside raw values. */
  ghost predicate Alike(v: Value, w: Value)
    decreases v, 0
  {
    match v
    case VRaw(j) => w.VRaw? && SameValue(j, w.j)
    case VModel(fs) => w.VModel? && AlikeFields(fs, w.fields)
    case VModels(vs) => w.VModels? && |w.models| == |vs| && forall i | 0 <= i < |vs| :: Alike(vs[i], w.models[i])
    case _ => w == v
  }

  ghost predicate AlikeField(f: Option<Value>, g: Option<Value>)
    decreases f, 0
  {
    if f.None? then g.None? else g.Some? && Alike(f.value, g.value)
  }

  ghost predicate AlikeFields(fs: seq<Option<Value>>, gs: seq<Option<Value>>)
    decreases fs, 1
  {
    |gs| == |fs| && forall i | 0 <= i < |fs| :: AlikeField(fs[i], gs[i])
  }

  /** What holds of every specification of the source: distinct keys, and defaults that have
      the field's kind and are not raw. */
  ghost predicate Proper(k: Kind) {
    match k
    case KModel(specs) => ProperSpecs(specs) && forall spec | spec in specs :: Proper(spec.kind)
    case KModels(specs) => ProperSpecs(specs) && forall spec | spec in specs :: Proper(spec.kind)
    case _ => true
  }

  ghost predicate ProperSpecs(specs: seq<Spec>) {
    && (forall i, j | 0 <= i < j < |specs| :: specs[i].key != specs[j].key)
    && (forall i | 0 <= i < |specs| :: ProperSpec(specs[i]))
  }

  ghost predicate ProperSpec(spec: Spec) {
    && (spec.omit ==> !spec.optional && spec.default.Some?)
    && (spec.default.Some? ==> NoRaw(spec.kind) && Typed(spec.default.value, spec.kind))
  }

  /** Without raw values nothing is left to differ. */
  lemma {:induction false} AlikeSame(v: Value, w: Value, k: Kind)
    requires Typed(v, k) && NoRaw(k)
    ensures Alike(v, w) <==> v == w
    decreases v
  {
    match v {
      case VModel(fs) =>
        if w.VModel? && |w.fields| == |fs| {
          AlikeFieldsSame(fs, w.fields, k.specs);
        }
      case VModels(vs) =>
        if w.VModels? && |w.models| == |vs| {
          forall i | 0 <= i < |vs| ensures Alike(vs[i], w.models[i]) <==> vs[i] == w.models[i] {
            assert vs[i] in vs;
            AlikeSame(vs[i], w.models[i], KModel(k.specs));
          }
          assert vs == w.models <==> forall i | 0 <= i < |vs| :: vs[i] == w.models[i];
        }
      case _ =>
    }
  }

  lemma {:induction false} AlikeFieldsSame(fs: seq<Option<Value>>, gs: seq<Option<Value>>, specs: seq<Spec>)
    requires TypedFields(specs, fs) && NoRaw(KModel(specs)) && |gs| == |fs|
    ensures AlikeFields(fs, gs) <==> fs == gs
    decreases fs
  {
    forall i | 0 <= i < |fs| ensures AlikeField(fs[i], gs[i]) <==> fs[i] == gs[i] {
      assert TypedField(specs[i], fs[i]) && specs[i] in specs;
      AlikeFieldSame(fs[i], gs[i], specs[i]);
    }
    assert fs == gs <==> forall i | 0 <= i < |fs| :: fs[i] == gs[i];
  }

  lemma {:induction false} AlikeFieldSame(f: Option<Value>, g: Option<Value>, spec: Spec)
    requires TypedField(spec, f) && NoRaw(spec.kind)
    ensures AlikeField(f, g) <==> f == g
    decreases f
  {
    if f.Some? && g.Some? { AlikeSame(f.value, g.value, spec.kind); }
  }

  /** What is read has the kinds its specifications say. */
  lemma {:induction false} DecodeTyped(j: Json, k: Kind)
    requires IsDict(j) && j != Null && Proper(k)
    ensures Decode(j, k).Some? ==> Typed(Decode(j, k).value, k)
    decreases j, 0
  {
    match k {
      case KModel(specs) => if j.Obj? { FromWireTyped(specs, j.members); }
      case KModels(specs) => if j.Arr? { DecodeAllTyped(j.items, specs); }
      case _ =>
    }
  }

  lemma {:induction false} DecodeAllTyped(items: seq<Json>, specs: seq<Spec>)
    requires (forall x | x in items :: IsDict(x)) && Proper(KModel(specs))
    ensures var vs := DecodeAll(items, specs); vs.Some? ==>
      forall x | x in vs.value :: x.VModel? && TypedFields(specs, x.fields)
    decreases items, 1
  {
    if items != [] {
      assert items[0] in items && forall x | x in items[1..] :: x in items;
      if items[0] != Null { DecodeTyped(items[0], KModel(specs)); }
      DecodeAllTyped(items[1..], specs);
    }
  }

  lemma FromWireTyped(specs: seq<Spec>, ms: seq<Member>)
    requires IsDict(Obj(ms)) && Proper(KModel(specs))
    ensures FromWire(specs, ms).Some? ==> TypedFields(specs, FromWire(specs, ms).value)
    decreases ms, 1, |specs| + 1
  {
    FieldsTyped(specs, ms);
    assert forall i | 0 <= i < |specs| :: ProperSpec(specs[i]);
  }

  lemma {:induction false} FieldsTyped(specs: seq<Spec>, ms: seq<Member>)
    requires IsDict(Obj(ms)) && forall spec | spec in specs :: ProperSpec(spec) && Proper(spec.kind)
    ensures var fs := FromWire(specs, ms); fs.Some? ==>
      |fs.value| == |specs| && forall i | 0 <= i < |specs| :: TypedField(specs[i], fs.value[i])
    decreases ms, 1, |specs|
  {
    hide Decode, Typed, Proper, ProperSpec;
    if specs != [] {
      var spec := specs[0];
      assert spec in specs && forall x | x in specs[1..] :: x in specs;
      FieldsTyped(specs[1..], ms);
      DefaultTyped(spec);
      if spec.key in KeysOf(ms) {
        var m := ms[IndexOf(ms, spec.key)];
        assert m in ms;
        if m.value != Null { DecodeTyped(m.value, spec.kind); }
      }
    }
  }

  lemma DefaultTyped(spec: Spec)
    requires ProperSpec(spec)
    ensures spec.default.Some? ==> Typed(spec.default.value, spec.kind) && Alike(spec.default.value, spec.default.value)
  {
    if spec.default.Some? { AlikeSame(spec.default.value, spec.default.value, spec.kind); }
  }

  /** Decoding equal dicts gives values that are alike. */
  lemma {:induction false} DecodeAlike(a: Json, b: Json, k: Kind)
    requires IsDict(a) && IsDict(b) && SameValue(a, b) && Proper(k)
    ensures Decode(a, k).Some? <==> Decode(b, k).Some?
    ensures Decode(a, k).Some? ==> Alike(Decode(a, k).value, Decode(b, k).value)
    decreases a, 0
  {
    match k {
      case KStrs => if a.Arr? { ReadStrsSame(a.items, b.items); }
      case KModel(specs) => if a.Obj? { FromWireAlike(a.members, b.members, specs); }
      case KModels(specs) => if a.Arr? { DecodeAllAlike(a.items, b.items, specs); }
      case _ =>
    }
  }

  lemma {:induction false} DecodeAllAlike(a: seq<Json>, b: seq<Json>, specs: seq<Spec>)
    requires |a| == |b| && Proper(KModel(specs))
    requires forall i | 0 <= i < |a| :: IsDict(a[i]) && IsDict(b[i]) && SameValue(a[i], b[i])
    ensures var x, y := DecodeAll(a, specs), DecodeAll(b, specs);
      (x.Some? <==> y.Some?)
      && (x.Some? ==>
            |x.value| == |y.value| && forall i | 0 <= i < |x.value| :: Alike(x.value[i], y.value[i]))
    decreases a, 1
  {
    if a != [] {
      DecodeAlike(a[0], b[0], KModel(specs));
      DecodeAllAlike(a[1..], b[1..], specs);
    }
  }

  lemma {:induction false} FromWireAlike(a: seq<Member>, b: seq<Member>, specs: seq<Spec>)
    requires IsDict(Obj(a)) && IsDict(Obj(b)) && SameValue(Obj(a), Obj(b))
    requires forall spec | spec in specs :: ProperSpec(spec) && Proper(spec.kind)
    ensures FromWire(specs, a).Some? <==> FromWire(specs, b).Some?
    ensures FromWire(specs, a).Some? ==> AlikeFields(FromWire(specs, a).value, FromWire(specs, b).value)
    decreases a, 1, |specs| + 1
  {
    hide Decode, Alike, Proper, ProperSpec, ReadField, IsDict, SameValue;
    if specs != [] {
      assert specs[0] in specs && forall x | x in specs[1..] :: x in specs;
      FromWireAlike(a, b, specs[1..]);
      ReadFieldAlike(a, b, specs[0]);
    }
  }

  lemma ReadFieldAlike(a: seq<Member>, b: seq<Member>, spec: Spec)
    requires IsDict(Obj(a)) && IsDict(Obj(b)) && SameValue(Obj(a), Obj(b)) && ProperSpec(spec) && Proper(spec.kind)
    ensures ReadField(spec, a).Some? <==> ReadField(spec, b).Some?
    ensures ReadField(spec, a).Some? ==> AlikeField(ReadField(spec, a).value, ReadField(spec, b).value)
    decreases a, 1, 0
  {
    hide Decode, Alike, Proper, ProperSpec;
    DefaultTyped(spec);
    if spec.key in KeysOf(a) {
      var m := a[IndexOf(a, spec.key)];
      var n := b[IndexOf(b, spec.key)];
      assert m in a && n in b && SameValue(m.value, n.value);
      NullSame(m.value, n.value);
      DecodeAlike(m.value, n.value, spec.kind);
    }
  }

  // ---- values that are alike are written alike ----

  /** Members in the same places, equal as dicts. */
  ghost predicate Pairwise(ms: seq<Member>, ns: seq<Member>) {
    |ns| == |ms| && forall i | 0 <= i < |ms| :: ns[i].key == ms[i].key && SameValue(ms[i].value, ns[i].value)
  }

  lemma {:induction false} SameKeysIndex(ms: seq<Member>, ns: seq<Member>, k: string)
    requires KeysOf(ms) == KeysOf(ns) && k in KeysOf(ms)
    ensures IndexOf(ms, k) == IndexOf(ns, k)
    decreases |ms|
  {
    assert KeysOf(ms)[0] == ms[0].key && KeysOf(ns)[0] == ns[0].key;
    if ms[0].key != k {
      assert KeysOf(ms)[1..] == KeysOf(ms[1..]) && KeysOf(ns)[1..] == KeysOf(ns[1..]);
      SameKeysIndex(ms[1..], ns[1..], k);
    }
  }

  lemma PairwiseSame(ms: seq<Member>, ns: seq<Member>)
    requires Pairwise(ms, ns) && Distinct(KeysOf(ms))
    ensures SameValue(Obj(ms), Obj(ns))
  {
    assert KeysOf(ms) == KeysOf(ns);
    forall m | m in ms ensures SameValue(m.value, ns[IndexOf(ns, m.key)].value) {
      var i :| 0 <= i < |ms| && ms[i] == m;
      IndexOfUnique(ms, i);
      SameKeysIndex(ms, ns, m.key);
    }
  }

  lemma PairwiseCons(m: Member, ms: seq<Member>, n: Member, ns: seq<Member>)
    requires n.key == m.key && SameValue(m.value, n.value) && Pairwise(ms, ns)
    ensures Pairwise([m] + ms, [n] + ns)
  {
    hide SameValue;
    forall i | 0 <= i < |ms| + 1
      ensures ([n] + ns)[i].key == ([m] + ms)[i].key && SameValue(([m] + ms)[i].value, ([n] + ns)[i].value)
    {
      if i > 0 { assert ([m] + ms)[i] == ms[i - 1] && ([n] + ns)[i] == ns[i - 1]; }
    }
  }

  lemma PairwiseRest(ms: seq<Member>, ns: seq<Member>)
    requires Pairwise(ms, ns) && ms != []
    ensures |ns| == |ms| && ns[0].key == ms[0].key && SameValue(ms[0].value, ns[0].value) && Pairwise(ms[1..], ns[1..])
  {
    hide SameValue;
  }

  lemma NothingPairwise(ms: seq<Member>, ns: seq<Member>)
    requires Pairwise(ms, ns) && ms == []
    ensures ns == [] && Pairwise([], [])
  {
  }

  lemma {:induction false} KeptPairwise(ms: seq<Member>, ns: seq<Member>, excluded: set<string>)
    requires Pairwise(ms, ns)
    ensures Pairwise(Kept(ms, excluded), Kept(ns, excluded))
  {
    hide SameValue, Pairwise;
    if ms == [] {
      NothingPairwise(ms, ns);
    } else {
      PairwiseRest(ms, ns);
      KeptPairwise(ms[1..], ns[1..], excluded);
      PairwiseCons(ms[0], Kept(ms[1..], excluded), ns[0], Kept(ns[1..], excluded));
    }
  }

  lemma {:induction false} EncodeAlike(v: Value, w: Value, k: Kind)
    requires Alike(v, w) && Typed(v, k) && Typed(w, k) && Proper(k)
    ensures Encode(v, k).Some? && Encode(w, k).Some? && SameValue(Encode(v, k).value, Encode(w, k).value)
    decreases v, 0
  {
    match v {
      case VModel(fs) =>
        ToWireAlike(k.specs, fs, w.fields);
        ModelBack(k.specs, fs);
        PairwiseSame(ToWire(k.specs, fs).value, ToWire(k.specs, w.fields).value);
      case VModels(vs) => EncodeAllAlike(vs, w.models, k.specs);
      case _ =>
    }
  }

  lemma {:induction false} EncodeAllAlike(vs: seq<Value>, ws: seq<Value>, specs: seq<Spec>)
    requires |ws| == |vs| && (forall i | 0 <= i < |vs| :: Alike(vs[i], ws[i])) && Proper(KModel(specs))
    requires forall i | 0 <= i < |vs| ::
      vs[i].VModel? && ws[i].VModel? && TypedFields(specs, vs[i].fields) && TypedFields(specs, ws[i].fields)
    ensures var x, y := EncodeAll(vs, specs), EncodeAll(ws, specs);
      && x.Some? && y.Some? && |x.value| == |y.value| && forall i | 0 <= i < |x.value| ::
        SameValue(x.value[i], y.value[i])
    decreases vs, 1
  {
    if vs != [] {
      EncodeAlike(vs[0], ws[0], KModel(specs));
      EncodeAllAlike(vs[1..], ws[1..], specs);
    }
  }

  /** What a field adds to its object. */
  function Piece(spec: Spec, f: Option<Value>): seq<Member> {
    if f.None? && !spec.nulled then []
    else if f.Some? && spec.omit && spec.default == f then []
    else if Written(spec, f).None? then []
    else [Member(spec.key, Written(spec, f).value)]
  }

  lemma ToWireStep(specs: seq<Spec>, fs: seq<Option<Value>>)
    requires fs != [] && |specs| == |fs| && (fs[0].None? ==> specs[0].optional) && Written(specs[0], fs[0]).Some?
    ensures var rest := ToWire(specs[1..], fs[1..]);
      ToWire(specs, fs) == if rest.None? then None else Some(Piece(specs[0], fs[0]) + rest.value)
  {
    hide Encode;
    var rest := ToWire(specs[1..], fs[1..]);
    if rest.Some? { assert [] + rest.value == rest.value; }
  }

  lemma PieceAlike(spec: Spec, f: Option<Value>, g: Option<Value>)
    requires AlikeField(f, g) && TypedField(spec, f) && TypedField(spec, g) && ProperSpec(spec) && Proper(spec.kind)
    ensures Written(spec, f).Some? && Written(spec, g).Some?
    ensures Pairwise(Piece(spec, f), Piece(spec, g)) && |Piece(spec, f)| <= 1
    decreases f, 1
  {
    hide Encode, Alike, Proper, ProperSpec, Typed;
    FieldAlike(spec, f, g);
  }

  lemma PairwiseJoin(a: seq<Member>, ms: seq<Member>, b: seq<Member>, ns: seq<Member>)
    requires Pairwise(a, b) && Pairwise(ms, ns) && |a| <= 1
    ensures Pairwise(a + ms, b + ns)
  {
    hide SameValue;
    if a == [] {
      assert a + ms == ms && b + ns == ns;
    } else {
      assert a == [a[0]] && b == [b[0]];
      PairwiseCons(a[0], ms, b[0], ns);
    }
  }

  lemma {:induction false} ToWireAlike(specs: seq<Spec>, fs: seq<Option<Value>>, gs: seq<Option<Value>>)
    requires AlikeFields(fs, gs) && TypedFields(specs, fs) && TypedFields(specs, gs)
    requires forall spec | spec in specs :: ProperSpec(spec) && Proper(spec.kind)
    ensures var x, y := ToWire(specs, fs), ToWire(specs, gs); x.Some? && y.Some? && Pairwise(x.value, y.value)
    decreases fs, 1
  {
    hide Written, Piece, Pairwise, Alike, Proper, ProperSpec, Typed, ToWire;
    if fs == [] {
      NothingWritten(specs, fs, gs);
    } else {
      assert specs[0] in specs && forall x | x in specs[1..] :: x in specs;
      TypedRest(specs, fs);
      TypedRest(specs, gs);
      assert TypedField(specs[0], fs[0]) && TypedField(specs[0], gs[0]) && AlikeField(fs[0], gs[0]);
      ToWireAlike(specs[1..], fs[1..], gs[1..]);
      PieceAlike(specs[0], fs[0], gs[0]);
      ToWireStep(specs, fs);
      ToWireStep(specs, gs);
      PairwiseJoin(Piece(specs[0], fs[0]), ToWire(specs[1..], fs[1..]).value, Piece(specs[0], gs[0]),
        ToWire(specs[1..], gs[1..]).value);
    }
  }

  lemma NothingWritten(specs: seq<Spec>, fs: seq<Option<Value>>, gs: seq<Option<Value>>)
    requires |specs| == |fs| == |gs| && fs == []
    ensures ToWire(specs, fs) == Some([]) && ToWire(specs, gs) == Some([]) && Pairwise([], [])
  {
  }

  lemma {:induction false} FieldAlike(spec: Spec, f: Option<Value>, g: Option<Value>)
    requires AlikeField(f, g) && TypedField(spec, f) && TypedField(spec, g) && ProperSpec(spec) && Proper(spec.kind)
    ensures Absent(spec, f) <==> Absent(spec, g)
    ensures f.Some? ==>
      && Encode(f.value, spec.kind).Some? && Encode(g.value, spec.kind).Some?
      && SameValue(Encode(f.value, spec.kind).value, Encode(g.value, spec.kind).value)
    decreases f, 0
  {
    if f.Some? {
      EncodeAlike(f.value, g.value, spec.kind);
      if spec.omit { AlikeSame(f.value, g.value, spec.kind); }
    }
  }

  // ---- ... so raw models survive their text, and sign the same bytes ----

  /** Read back from its canonical text a model is alike: only the members of raw values
      stand in printing order. It writes the same text again. */
  lemma RawTextBack(specs: seq<Spec>, fs: seq<Option<Value>>, order: KeyOrder.Order, slashes: bool)
    requires TypedFields(specs, fs) && Proper(KModel(specs))
    ensures ToWire(specs, fs).Some?
    ensures var text := CanonicalJson(Obj(ToWire(specs, fs).value), order, slashes);
      && Parse(text).Some? && Parse(text).value.Obj?
      && var gs := FromWire(specs, Parse(text).value.members);
      && gs.Some? && TypedFields(specs, gs.value) && AlikeFields(fs, gs.value)
      && ToWire(specs, gs.value).Some? && CanonicalJson(Obj(ToWire(specs, gs.value).value), order, slashes) == text
  {
    hide Parse, CanonicalJson, ToWire, FromWire, Proper, AlikeFields;
    ModelBack(specs, fs);
    var j := Obj(ToWire(specs, fs).value);
    ParseCanonical(j, order, slashes);
    SortedSame(j, order);
    ProperFields(specs);
    var ms := Sorted(j, order).members;
    FromWireAlike(j.members, ms, specs);
    FromWireTyped(specs, ms);
    AlikeWritesAlike(specs, fs, FromWire(specs, ms).value, order, slashes);
  }

  lemma AlikeWritesAlike(
    specs: seq<Spec>, fs: seq<Option<Value>>, gs: seq<Option<Value>>, order: KeyOrder.Order, slashes: bool
  )
    requires AlikeFields(fs, gs) && TypedFields(specs, fs) && TypedFields(specs, gs) && Proper(KModel(specs))
    ensures ToWire(specs, fs).Some? && ToWire(specs, gs).Some?
    ensures CanonicalJson(Obj(ToWire(specs, fs).value), order, slashes)
      == CanonicalJson(Obj(ToWire(specs, gs).value), order, slashes)
  {
    hide CanonicalJson, ToWire, Proper, Typed;
    ProperFields(specs);
    ToWireAlike(specs, fs, gs);
    ModelBack(specs, fs);
    ModelBack(specs, gs);
    var ms, ns := ToWire(specs, fs).value, ToWire(specs, gs).value;
    PairwiseSame(ms, ns);
    CanonicalInjective(Obj(ms), Obj(ns), order, slashes);
  }

  lemma ProperFields(specs: seq<Spec>)
    requires Proper(KModel(specs))
    ensures forall spec | spec in specs :: ProperSpec(spec) && Proper(spec.kind)
  {
    forall spec | spec in specs ensures ProperSpec(spec) {
      var i :| 0 <= i < |specs| && specs[i] == spec;
    }
  }

  /** The members of a model that are signed: the others are left out of the bytes. */
  function SignedMembers(specs: seq<Spec>, fs: seq<Option<Value>>, excluded: set<string>): seq<Member> {
    var ms := ToWire(specs, fs);
    if ms.Some? then Kept(ms.value, excluded) else []
  }

  /** ... and what is signed of them is the same text. */
  lemma AlikeSignsAlike(
    specs: seq<Spec>, fs: seq<Option<Value>>, gs: seq<Option<Value>>, excluded: set<string>, order: KeyOrder.Order,
    slashes: bool
  )
    requires AlikeFields(fs, gs) && TypedFields(specs, fs) && TypedFields(specs, gs) && Proper(KModel(specs))
    ensures CanonicalJson(Obj(SignedMembers(specs, fs, excluded)), order, slashes)
         == CanonicalJson(Obj(SignedMembers(specs, gs, excluded)), order, slashes)
  {
    hide CanonicalJson, ToWire, Proper, Typed;
    ProperFields(specs);
    ToWireAlike(specs, fs, gs);
    ModelBack(specs, fs);
    ModelBack(specs, gs);
    var ms, ns := ToWire(specs, fs).value, ToWire(specs, gs).value;
    KeptPairwise(ms, ns, excluded);
    KeptDistinct(ms, excluded);
    KeptDistinct(ns, excluded);
    PairwiseSame(Kept(ms, excluded), Kept(ns, excluded));
    CanonicalInjective(Obj(Kept(ms, excluded)), Obj(Kept(ns, excluded)), order, slashes);
  }

  lemma {:induction false} ToWireJoins(a: seq<Spec>, fs: seq<Option<Value>>, b: Spec, f: Option<Value>)
    requires |a| == |fs|
    ensures var x, y := ToWire(a, fs), ToWire([b], [f]);
      ToWire(a + [b], fs + [f]) == if x.None? || y.None? then None else Some(x.value + y.value)
    decreases |a|
  {
    hide Encode;
    if a == [] {
      assert a + [b] == [b] && fs + [f] == [f];
      var y := ToWire([b], [f]);
      assert y.Some? ==> [] + y.value == y.value;
    } else {
      assert (a + [b])[1..] == a[1..] + [b] && (fs + [f])[1..] == fs[1..] + [f];
      ToWireJoins(a[1..], fs[1..], b, f);
      var x, r, y := ToWire(a, fs), ToWire(a[1..], fs[1..]), ToWire([b], [f]);
      if x.Some? && y.Some? && x != r {
        assert [x.value[0]] + (r.value + y.value) == [x.value[0]] + r.value + y.value;
      }
    }
  }

  lemma {:induction false} KeptJoins(ms: seq<Member>, ns: seq<Member>, excluded: set<string>)
    ensures Kept(ms + ns, excluded) == Kept(ms, excluded) + Kept(ns, excluded)
  {
    if ms == [] {
      assert ms + ns == ns;
    } else {
      assert (ms + ns)[1..] == ms[1..] + ns;
      KeptJoins(ms[1..], ns, excluded);
    }
  }

  lemma OneMember(b: Spec, f: Option<Value>)
    ensures ToWire([b], [f]).Some? ==> forall m | m in ToWire([b], [f]).value :: m.key == b.key
  {
    assert [b][1..] == [] && [f][1..] == [];
    assert ToWire([], []) == Some([]);
  }

  /** A last field that is left out of the signature does not matter to it. */
  lemma LastLeftOut(a: seq<Spec>, fs: seq<Option<Value>>, b: Spec, f: Option<Value>, excluded: set<string>)
    requires |a| == |fs| && b.key in excluded && ToWire(a + [b], fs + [f]).Some?
    ensures SignedMembers(a + [b], fs + [f], excluded) == SignedMembers(a, fs, excluded)
  {
    hide ToWire;
    ToWireJoins(a, fs, b, f);
    var ms, ns := ToWire(a, fs).value, ToWire([b], [f]).value;
    KeptJoins(ms, ns, excluded);
    OneMember(b, f);
    NoneKept(ns, excluded);
    assert Kept(ms, excluded) + [] == Kept(ms, excluded);
  }

  lemma {:induction false} NoneKept(ms: seq<Member>, excluded: set<string>)
    requires forall m | m in ms :: m.key in excluded
    ensures Kept(ms, excluded) == []
  {
    if ms != [] {
      assert ms[0] in ms && forall m | m in ms[1..] :: m in ms;
      NoneKept(ms[1..], excluded);
    }
  }
}
