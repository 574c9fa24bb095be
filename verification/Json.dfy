/** JSON values as Python holds them, with integers for numbers, and a reader
    after RFC 8259 (sections 2 to 7). An object is a list of members in insertion
    order, like a dict; SameValue is dict equality. When a key comes twice in a text
    the later value takes the place of the first, as in a dict. */
module Json {
  import opened Basics

  datatype Json =
    | Null
    | Bool(b: bool)
    | Num(n: int)
    | Str(s: string)
    | Arr(items: seq<Json>)
    | Obj(members: seq<Member>)

  datatype Member = Member(key: string, value: Json)

  // ---- objects as dicts ----

  function KeysOf(ms: seq<Member>): (ks: seq<string>)
    ensures |ks| == |ms| && forall i | 0 <= i < |ms| :: ks[i] == ms[i].key
  {
    seq(|ms|, i requires 0 <= i < |ms| => ms[i].key)
  }

  ghost predicate Distinct(ks: seq<string>) {
    forall i, j | 0 <= i < j < |ks| :: ks[i] != ks[j]
  }

  /** No object has a key twice, as in any dict. */
  ghost predicate IsDict(v: Json) {
    match v
    case Arr(items) => forall x | x in items :: IsDict(x)
    case Obj(ms) => Distinct(KeysOf(ms)) && forall m | m in ms :: IsDict(m.value)
    case _ => true
  }

  function IndexOf(ms: seq<Member>, k: string): (i: nat)
    requires k in KeysOf(ms)
    ensures i < |ms| && ms[i].key == k
  {
    if ms[0].key == k then 0 else
      assert KeysOf(ms)[1..] == KeysOf(ms[1..]);
      1 + IndexOf(ms[1..], k)
  }

  function Get(ms: seq<Member>, k: string): Option<Json> {
    if k in KeysOf(ms) then Some(ms[IndexOf(ms, k)].value) else None
  }

  /** Equality that ignores the order of members. */
  ghost predicate SameValue(v: Json, w: Json) {
    match v
    case Arr(items) => w.Arr? && |w.items| == |items| && forall i | 0 <= i < |items| :: SameValue(items[i], w.items[i])
    case Obj(ms) =>
      && w.Obj? && (forall k :: k in KeysOf(ms) <==> k in KeysOf(w.members))
      && forall m | m in ms && m.key in KeysOf(w.members) ::
        SameValue(m.value, w.members[IndexOf(w.members, m.key)].value)
    case _ => w == v
  }

  /** d[k] = v on a dict: a known key keeps its place. */
  function Put(ms: seq<Member>, k: string, v: Json): seq<Member> {
    if k in KeysOf(ms) then ms[IndexOf(ms, k) := Member(k, v)] else ms + [Member(k, v)]
  }

  // ---- reading ----

  datatype Parsed<T> = Fail | Got(value: T, rest: string)

  predicate IsSpace(c: char) {
    c == ' ' || c == '\t' || c == '\n' || c == '\r'
  }

  function SkipSpace(s: string): (r: string)
    ensures |r| <= |s|
  {
    if s != [] && IsSpace(s[0]) then SkipSpace(s[1..]) else s
  }

  predicate IsDigit(c: char) {
    '0' <= c <= '9'
  }

  function DigitRun(s: string): (n: nat)
    ensures n <= |s|
    ensures forall i | 0 <= i < n :: IsDigit(s[i])
  {
    if s != [] && IsDigit(s[0]) then 1 + DigitRun(s[1..]) else 0
  }

  function Decimal(ds: string): nat
    requires forall c | c in ds :: IsDigit(c)
  {
    if ds == [] then 0 else
      assert IsDigit(ds[|ds| - 1]);
      10 * Decimal(ds[..|ds| - 1]) + (ds[|ds| - 1] as int - '0' as int)
  }

  /** An integer; a fraction or an exponent is outside the model. */
  function ParseNumber(s: string): (p: Parsed<Json>)
    ensures p.Got? ==> |p.rest| < |s|
  {
    var negative := s != [] && s[0] == '-';
    var t := if negative then s[1..] else s;
    var n := DigitRun(t);
    if n == 0 || (n > 1 && t[0] == '0') || (n < |t| && t[n] in ".eE") then Fail
    else
      var value: int := Decimal(t[..n]);
      Got(Num(if negative then -value else value), t[n..])
  }

  function HexDigit(c: char): (d: Option<nat>)
    ensures d.Some? ==> d.value < 16
  {
    if '0' <= c <= '9' then Some((c - '0') as nat)
    else if 'a' <= c <= 'f' then Some((c - 'a') as nat + 10)
    else if 'A' <= c <= 'F' then Some((c - 'A') as nat + 10)
    else None
  }

  function Hex4(s: string): (r: Option<nat>)
    ensures r.Some? ==> |s| >= 4 && r.value < 0x10000
  {
    if |s| < 4 then None else
      var a, b, c, d := HexDigit(s[0]), HexDigit(s[1]), HexDigit(s[2]), HexDigit(s[3]);
      if a.Some? && b.Some? && c.Some? && d.Some? then
        Some(4096 * a.value + 256 * b.value + 16 * c.value + d.value)
      else None
  }

  function SimpleEscape(c: char): Option<char> {
    match c
    case '"' => Some('"')
    case '\\' => Some('\\')
    case '/' => Some('/')
    case 'b' => Some('\U{0008}')
    case 'f' => Some('\U{000C}')
    case 'n' => Some('\n')
    case 'r' => Some('\r')
    case 't' => Some('\t')
    case _ => None
  }

  /** \uXXXX, or two of them for a character outside the basic plane. A lone
      surrogate is no character and is refused. */
  function UnicodeEscape(s: string): (p: Parsed<char>)
    ensures p.Got? ==> |p.rest| < |s|
  {
    var h := Hex4(s);
    if h.None? then Fail
    else if h.value < 0xD800 || 0xE000 <= h.value then Got(h.value as char, s[4..])
    else if h.value < 0xDC00 && |s| >= 10 && s[4] == '\\' && s[5] == 'u' then
      var l := Hex4(s[6..]);
      if l.Some? && 0xDC00 <= l.value < 0xE000 then
        Got((0x10000 + 0x400 * (h.value - 0xD800) + (l.value - 0xDC00)) as char, s[10..])
      else Fail
    else Fail
  }

  /** The rest of a string after its opening quote. */
  function ParseString(s: string, acc: string): (p: Parsed<string>)
    ensures p.Got? ==> |p.rest| < |s|
    decreases |s|
  {
    if s == [] then Fail
    else if s[0] == '"' then Got(acc, s[1..])
    else if s[0] == '\\' then
      if |s| < 2 then Fail
      else if s[1] == 'u' then
        var u := UnicodeEscape(s[2..]);
        if u.Fail? then Fail else ParseString(u.rest, acc + [u.value])
      else
        var e := SimpleEscape(s[1]);
        if e.None? then Fail else ParseString(s[2..], acc + [e.value])
    else if s[0] < ' ' then Fail
    else ParseString(s[1..], acc + [s[0]])
  }

  function Literal(s: string, word: string, v: Json): (p: Parsed<Json>)
    requires word != []
    ensures p.Got? ==> |p.rest| < |s|
  {
    if word <= s then Got(v, s[|word|..]) else Fail
  }

  function ParseValue(s: string): (p: Parsed<Json>)
    ensures p.Got? ==> |p.rest| < |s|
    decreases |s|, 0
  {
    var t := SkipSpace(s);
    if t == [] then Fail
    else if t[0] == '{' then
      var u := SkipSpace(t[1..]);
      if u != [] && u[0] == '}' then Got(Obj([]), u[1..]) else ParseMembers(t[1..], [])
    else if t[0] == '[' then
      var u := SkipSpace(t[1..]);
      if u != [] && u[0] == ']' then Got(Arr([]), u[1..]) else ParseItems(t[1..], [])
    else if t[0] == '"' then
      var p := ParseString(t[1..], []);
      if p.Fail? then Fail else Got(Str(p.value), p.rest)
    else if t[0] == '-' || IsDigit(t[0]) then ParseNumber(t)
    else if t[0] == 'n' then Literal(t, "null", Null)
    else if t[0] == 't' then Literal(t, "true", Bool(true))
    else Literal(t, "false", Bool(false))
  }

  function ParseItems(s: string, acc: seq<Json>): (p: Parsed<Json>)
    ensures p.Got? ==> |p.rest| < |s|
    decreases |s|, 1
  {
    var v := ParseValue(s);
    if v.Fail? then Fail else
      var t := SkipSpace(v.rest);
      if t != [] && t[0] == ',' then ParseItems(t[1..], acc + [v.value])
      else if t != [] && t[0] == ']' then Got(Arr(acc + [v.value]), t[1..])
      else Fail
  }

  function ParseMembers(s: string, acc: seq<Member>): (p: Parsed<Json>)
    ensures p.Got? ==> |p.rest| < |s|
    decreases |s|, 1
  {
    var t := SkipSpace(s);
    if t == [] || t[0] != '"' then Fail else
      var k := ParseString(t[1..], []);
      if k.Fail? then Fail else
        var u := SkipSpace(k.rest);
        if u == [] || u[0] != ':' then Fail else
          var v := ParseValue(u[1..]);
          if v.Fail? then Fail else
            var w := SkipSpace(v.rest);
            var ms := Put(acc, k.value, v.value);
            if w != [] && w[0] == ',' then ParseMembers(w[1..], ms)
            else if w != [] && w[0] == '}' then Got(Obj(ms), w[1..])
            else Fail
  }

  /** json.loads on the text of one value. */
  function Parse(text: string): Option<Json> {
    var p := ParseValue(text);
    if p.Got? && SkipSpace(p.rest) == [] then Some(p.value) else None
  }
}
