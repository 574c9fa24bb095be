/** The text of a key path, and how parse_keypath reads it: names separated by dots, and
    bracketed steps that hold an index, a plus sign, or a key and a literal to match.
    The text of every path whose names and values the notation can express parses to
    that path. */
module KeyPathText {
  import opened Basics
  import opened Json
  import opened PyText
  import opened KeyPath
  import Canonical

  /** Digits, with single underscores between them. */
  predicate Grouped(s: string) {
    && s != "" && IsDigit(s[0])
    && forall i | 0 <= i < |s| :: IsDigit(s[i]) || (s[i] == '_' && i + 1 < |s| && IsDigit(s[i + 1]))
  }

  function Ungrouped(s: string): (ds: string)
    ensures forall c | c in ds :: c in s && c != '_'
  {
    if s == "" then "" else (if s[0] == '_' then "" else [s[0]]) + Ungrouped(s[1..])
  }

  /** int(s) for ASCII digits with an optional sign. */
  function ReadInt(s: string): Option<int> {
    if Grouped(s) then Some(Decimal(Ungrouped(s)))
    else if |s| > 1 && s[0] == '-' && Grouped(s[1..]) then Some(-(Decimal(Ungrouped(s[1..])) as int))
    else if |s| > 1 && s[0] == '+' && Grouped(s[1..]) then Some(Decimal(Ungrouped(s[1..])))
    else None
  }

  lemma {:induction false} UngroupedDigits(s: string)
    requires forall c | c in s :: IsDigit(c)
    ensures Ungrouped(s) == s
  {
    if s != "" {
      assert s[0] in s && forall c | c in s[1..] :: c in s;
      UngroupedDigits(s[1..]);
      assert s == [s[0]] + s[1..];
    }
  }

  /** _parse_literal; fractions stay text here. */
  function Literal(raw: string): Json {
    var text := Strip(raw);
    if |text| >= 2 && text[0] == '"' && text[|text| - 1] == '"' then Str(text[1..|text| - 1])
    else if text == "true" then Bool(true)
    else if text == "false" then Bool(false)
    else if ReadInt(text).Some? then Num(ReadInt(text).value)
    else Str(text)
  }

  /** The index of the first c, or the length. */
  function IndexOfChar(s: string, c: char): (i: nat)
    ensures i <= |s| && (forall j | 0 <= j < i :: s[j] != c) && (i < |s| ==> s[i] == c)
  {
    if s == "" || s[0] == c then 0 else 1 + IndexOfChar(s[1..], c)
  }

  /** The token between brackets; None where the source raises. */
  function Bracket(inner: string): Option<Token> {
    var content := Strip(inner);
    var eq := IndexOfChar(content, '=');
    if content == "+" then Some(Append)
    else if eq < |content| then Some(Match(Strip(content[..eq]), Literal(content[eq + 1..])))
    else if ReadInt(content).Some? then Some(Index(ReadInt(content).value))
    else None
  }

  function Flush(segment: string): Path {
    if segment != "" then [Key(segment)] else []
  }

  function Prepend(front: Path, rest: Option<Path>): Option<Path> {
    match rest
    case None => None
    case Some(tokens) => Some(front + tokens)
  }

  /** The rest of a path, with the key read so far. */
  function ParseFrom(s: string, segment: string): Option<Path>
    decreases |s|
  {
    if s == "" then Some(Flush(segment))
    else if s[0] == '.' then Prepend(Flush(segment), ParseFrom(s[1..], ""))
    else if s[0] == '[' then
      var end := IndexOfChar(s, ']');
      if end == |s| then None else
        var token := Bracket(s[1..end]);
        if token.None? then None else Prepend(Flush(segment) + [token.value], ParseFrom(s[end + 1..], ""))
    else ParseFrom(s[1..], segment + [s[0]])
  }

  function Parse(path: string): Option<Path> {
    ParseFrom(Strip(path), "")
  }

  lemma PrependTwice(a: Path, b: Path, rest: Option<Path>)
    ensures Prepend(a, Prepend(b, rest)) == Prepend(a + b, rest)
  {
    if rest.Some? { assert a + (b + rest.value) == a + b + rest.value; }
  }

  lemma PrependNothing(rest: Option<Path>)
    ensures Prepend([], rest) == rest
  {
    if rest.Some? { assert [] + rest.value == rest.value; }
  }

  /** parse_keypath. */
  method ParseKeyPath(path: string) returns (r: Option<Path>)
    ensures r == Parse(path)
  {
    hide Bracket, Flush;
    var s := Strip(path);
    var tokens: Path := [];
    var segment := "";
    var index := 0;
    assert s[0..] == s;
    PrependNothing(ParseFrom(s, ""));
    while index < |s|
      invariant index <= |s|
      invariant Prepend(tokens, ParseFrom(s[index..], segment)) == ParseFrom(s, "")
    {
      assert s[index..][1..] == s[index + 1..];
      if s[index] == '.' {
        PrependTwice(tokens, Flush(segment), ParseFrom(s[index + 1..], ""));
        tokens, segment, index := tokens + Flush(segment), "", index + 1;
      } else if s[index] == '[' {
        var end := IndexOfChar(s[index..], ']');
        if end == |s| - index {
          return None;
        }
        var token := Bracket(s[index..][1..end]);
        if token.None? {
          return None;
        }
        assert s[index..][end + 1..] == s[index + end + 1..];
        PrependTwice(tokens, Flush(segment) + [token.value], ParseFrom(s[index + end + 1..], ""));
        tokens, segment, index := tokens + (Flush(segment) + [token.value]), "", index + end + 1;
      } else {
        segment, index := segment + [s[index]], index + 1;
      }
    }
    r := Some(tokens + Flush(segment));
  }

  /** The value of a [k=v] step in a text is a scalar. */
  lemma {:induction false} TextIsScalar(s: string, segment: string)
    ensures ParseFrom(s, segment).Some? ==> ScalarMatches(ParseFrom(s, segment).value)
    decreases |s|
  {
    hide Literal, Strip, ReadInt;
    if s != "" {
      if s[0] == '.' {
        TextIsScalar(s[1..], "");
      } else if s[0] == '[' {
        var end := IndexOfChar(s, ']');
        if end < |s| {
          TextIsScalar(s[end + 1..], "");
          BracketIsScalar(s[1..end]);
        }
      } else {
        TextIsScalar(s[1..], segment + [s[0]]);
      }
    }
  }

  lemma BracketIsScalar(inner: string)
    ensures Bracket(inner).Some? && Bracket(inner).value.Match? ==> Scalar(Bracket(inner).value.value)
  {
  }

  lemma ParsedIsScalar(path: string)
    ensures Parse(path).Some? ==> ScalarMatches(Parse(path).value)
  {
    TextIsScalar(Strip(path), "");
  }

  // ---- writing a path so that it reads back ----

  predicate PlainName(k: string) {
    && k != "" && '.' !in k && '[' !in k && ']' !in k && '=' !in k
    && !IsWhite(k[0]) && !IsWhite(k[|k| - 1])
  }

  /** Keys and non-negative indices, and matches of text without a closing bracket. */
  predicate Nice(token: Token) {
    match token
    case Key(k) => PlainName(k)
    case Index(i) => i >= 0
    case Match(k, v) => PlainName(k) && v.Str? && ']' !in v.s
    case Append => true
  }

  function Show(token: Token): string
    requires Nice(token)
  {
    match token
    case Key(k) => "." + k
    case Index(i) => "[" + Canonical.Digits(i) + "]"
    case Match(k, v) => "[" + (k + "=\"" + v.s + "\"") + "]"
    case Append => "[+]"
  }

  function ShowAll(p: Path): string
    requires forall token | token in p :: Nice(token)
  {
    if p == [] then "" else Show(p[0]) + ShowAll(p[1..])
  }

  /** Characters that are part of a key are read into the segment. */
  lemma {:induction false} ReadKey(k: string, rest: string, segment: string)
    requires '.' !in k && '[' !in k
    ensures ParseFrom(k + rest, segment) == ParseFrom(rest, segment + k)
    decreases |k|
  {
    if k == "" {
      assert k + rest == rest && segment + k == segment;
    } else {
      assert k[0] in k && forall c | c in k[1..] :: c in k;
      assert (k + rest)[1..] == k[1..] + rest;
      ReadKey(k[1..], rest, segment + [k[0]]);
      assert segment + [k[0]] + k[1..] == segment + k;
    }
  }

  lemma FirstAt(a: string, c: char, rest: string)
    requires c !in a
    ensures IndexOfChar(a + [c] + rest, c) == |a|
  {
    var s := a + [c] + rest;
    assert s[|a|] == c;
    forall j | 0 <= j < |a| ensures s[j] != c {
      assert s[j] == a[j] && a[j] in a;
    }
  }

  lemma ReadBracket(inner: string, rest: string, segment: string, token: Token)
    requires ']' !in inner && Bracket(inner) == Some(token)
    ensures ParseFrom("[" + inner + "]" + rest, segment) == Prepend(Flush(segment) + [token], ParseFrom(rest, ""))
  {
    hide Bracket, Flush;
    var s := "[" + inner + "]" + rest;
    FirstAt("[" + inner, ']', rest);
    assert s == ("[" + inner) + [']'] + rest;
    assert s[1..|inner| + 1] == inner && s[|inner| + 2..] == rest;
  }

  lemma DigitsRead(i: nat)
    ensures ReadInt(Canonical.Digits(i)) == Some(i)
  {
    hide Decimal, Canonical.Digits;
    var ds := Canonical.Digits(i);
    Canonical.DigitsBack(i);
    UngroupedDigits(ds);
    forall j | 0 <= j < |ds| ensures IsDigit(ds[j]) {
      assert ds[j] in ds;
    }
  }

  lemma DigitsBracket(i: nat)
    ensures ']' !in Canonical.Digits(i) && Bracket(Canonical.Digits(i)) == Some(Index(i))
  {
    hide ReadInt, Canonical.Digits, Strip, Literal;
    var ds := Canonical.Digits(i);
    DigitsRead(i);
    assert ds[0] in ds && ds[|ds| - 1] in ds;
    StripKeeps(ds);
    assert '=' !in ds;
    assert IndexOfChar(ds, '=') == |ds|;
    assert ds != "+";
  }

  lemma QuotedLiteral(x: string)
    ensures Literal("\"" + x + "\"") == Str(x)
  {
    hide ReadInt;
    var quoted := "\"" + x + "\"";
    StripKeeps(quoted);
    assert quoted[1..|quoted| - 1] == x;
  }

  lemma MatchBracket(k: string, x: string)
    requires PlainName(k) && ']' !in x
    ensures var inner := k + "=\"" + x + "\"";
      ']' !in inner && Bracket(inner) == Some(Match(k, Str(x)))
  {
    hide Literal, ReadInt, Strip;
    var inner := k + "=\"" + x + "\"";
    var quoted := "\"" + x + "\"";
    StripKeeps(inner);
    StripKeeps(k);
    QuotedLiteral(x);
    assert inner == k + ['='] + quoted;
    FirstAt(k, '=', quoted);
    assert inner[..|k|] == k && inner[|k| + 1..] == quoted;
    assert inner[|k|] == '=';
  }

  lemma ReadOne(token: Token, rest: string, segment: string)
    requires Nice(token)
    ensures ParseFrom(Show(token) + rest, segment)
         == if token.Key? then Prepend(Flush(segment), ParseFrom(rest, token.name))
            else Prepend(Flush(segment) + [token], ParseFrom(rest, ""))
  {
    hide Bracket, Flush;
    match token {
      case Key(k) =>
        assert ("." + k + rest)[1..] == k + rest;
        ReadKey(k, rest, "");
        assert "" + k == k;
      case Index(i) =>
        DigitsBracket(i);
        ReadBracket(Canonical.Digits(i), rest, segment, token);
      case Match(k, v) =>
        MatchBracket(k, v.s);
        ReadBracket(k + "=\"" + v.s + "\"", rest, segment, token);
      case Append =>
        AppendBracket();
        ReadBracket("+", rest, segment, Append);
        assert "[" + "+" + "]" + rest == "[+]" + rest;
    }
  }

  lemma {:induction false} ReadAll(p: Path, segment: string)
    requires forall token | token in p :: Nice(token)
    ensures ParseFrom(ShowAll(p), segment) == Some(Flush(segment) + p)
    decreases |p|
  {
    hide Show, Nice;
    if p == [] {
      assert Flush(segment) + p == Flush(segment);
    } else {
      assert p[0] in p && forall token | token in p[1..] :: token in p;
      ReadOne(p[0], ShowAll(p[1..]), segment);
      NiceKey(p[0]);
      ReadAll(p[1..], if p[0].Key? then p[0].name else "");
      assert p == [p[0]] + p[1..];
      assert Flush(segment) + ([p[0]] + p[1..]) == Flush(segment) + [p[0]] + p[1..];
      assert Flush("") + p[1..] == p[1..];
    }
  }

  lemma NiceKey(token: Token)
    requires Nice(token)
    ensures token.Key? ==> token.name != ""
  {
  }

  lemma AppendBracket()
    ensures Bracket("+") == Some(Append)
  {
    StripKeeps("+");
  }

  lemma ShownOne(token: Token)
    requires Nice(token)
    ensures var s := Show(token); s != "" && !IsWhite(s[0]) && !IsWhite(s[|s| - 1])
  {
  }

  lemma {:induction false} ShownEnds(p: Path)
    requires p != [] && forall token | token in p :: Nice(token)
    ensures var s := ShowAll(p); s != "" && !IsWhite(s[0]) && !IsWhite(s[|s| - 1])
    decreases |p|
  {
    hide Show, Nice;
    assert p[0] in p && forall token | token in p[1..] :: token in p;
    var s, head := ShowAll(p), Show(p[0]);
    ShownOne(p[0]);
    assert s[0] == head[0];
    if |p| > 1 {
      ShownEnds(p[1..]);
      assert s[|s| - 1] == ShowAll(p[1..])[|ShowAll(p[1..])| - 1];
    } else {
      assert ShowAll(p[1..]) == "";
      assert s == head;
    }
  }

  lemma ShownStrips(p: Path)
    requires forall token | token in p :: Nice(token)
    ensures Strip(ShowAll(p)) == ShowAll(p)
  {
    hide Show, Nice;
    if p != [] {
      ShownEnds(p);
      StripKeeps(ShowAll(p));
    }
  }

  /** A path written token by token is read back. */
  lemma ParseShown(p: Path)
    requires forall token | token in p :: Nice(token)
    ensures Parse(ShowAll(p)) == Some(p)
  {
    hide Show, ShowAll, Nice, ParseFrom, Strip;
    ReadAll(p, "");
    assert Flush("") + p == p;
    ShownStrips(p);
  }

  // ---- the notation, for every text ----

  datatype Piece = Dot | Name(name: string) | Box(inner: string)

  function Piecewise(ps: seq<Piece>): string
    decreases |ps|
  {
    if ps == [] then "" else
      (match ps[0]
       case Dot => "."
       case Name(name) => name
       case Box(inner) => "[" + inner + "]") + Piecewise(ps[1..])
  }

  /** Names are not empty, run up to a dot or a bracket, and a box runs to the first ]. */
  predicate Cut(ps: seq<Piece>) {
    && (forall i | 0 <= i < |ps| && ps[i].Name? :: ps[i].name != "" && '.' !in ps[i].name && '[' !in ps[i].name)
    && (forall i | 0 <= i < |ps| && ps[i].Box? :: ']' !in ps[i].inner)
    && (forall i | 0 < i < |ps| :: !(ps[i - 1].Name? && ps[i].Name?))
  }

  /** A name is a key, a box is what it holds, dots are nothing. */
  function Meaning(ps: seq<Piece>): Option<Path>
    decreases |ps|
  {
    if ps == [] then Some([]) else
      match ps[0]
      case Dot => Meaning(ps[1..])
      case Name(name) => Prepend([Key(name)], Meaning(ps[1..]))
      case Box(inner) => if Bracket(inner).None? then None else Prepend([Bracket(inner).value], Meaning(ps[1..]))
  }

  lemma CutRest(ps: seq<Piece>)
    requires Cut(ps) && ps != []
    ensures Cut(ps[1..])
    ensures ps[0].Name? && |ps| > 1 ==> !ps[1].Name?
  {
  }

  lemma CutFirst(piece: Piece, ps: seq<Piece>)
    requires Cut([piece]) && Cut(ps) && !(piece.Name? && ps != [] && ps[0].Name?)
    ensures Cut([piece] + ps)
  {
    var all := [piece] + ps;
    assert [piece][0] == piece;
    forall i | 0 <= i < |all| ensures all[i] == if i == 0 then piece else ps[i - 1] {}
  }

  lemma {:induction false} PiecesRead(ps: seq<Piece>)
    requires Cut(ps)
    ensures ParseFrom(Piecewise(ps), "") == Meaning(ps)
    decreases |ps|
  {
    hide Bracket, Cut;
    if ps != [] {
      CutRest(ps);
      PiecesRead(ps[1..]);
      var rest := Piecewise(ps[1..]);
      match ps[0] {
        case Dot =>
          assert ("." + rest)[1..] == rest;
          PrependNothing(ParseFrom(rest, ""));
        case Name(name) =>
          PlainFirst(ps);
          ReadKey(name, rest, "");
          assert "" + name == name;
          AfterName(ps[1..], name);
        case Box(inner) =>
          PlainFirst(ps);
          ReadBox(inner, rest);
      }
    }
  }

  lemma PlainFirst(ps: seq<Piece>)
    requires Cut(ps) && ps != []
    ensures ps[0].Name? ==> ps[0].name != "" && '.' !in ps[0].name && '[' !in ps[0].name
    ensures ps[0].Box? ==> ']' !in ps[0].inner
  {
  }

  /** After a name comes a dot, a bracket or the end. */
  lemma AfterName(ps: seq<Piece>, name: string)
    requires (ps == [] || !ps[0].Name?) && name != "" && Cut(ps)
    ensures ParseFrom(Piecewise(ps), name) == Prepend([Key(name)], ParseFrom(Piecewise(ps), ""))
  {
    hide Bracket;
    if ps != [] {
      var rest := Piecewise(ps[1..]);
      match ps[0] {
        case Dot =>
          assert ("." + rest)[1..] == rest;
          PrependNothing(ParseFrom(rest, ""));
        case Box(inner) =>
          var s := "[" + inner + "]" + rest;
          var end := IndexOfChar(s, ']');
          var token := Bracket(s[1..end]);
          if end < |s| && token.Some? {
            PrependTwice([Key(name)], [token.value], ParseFrom(s[end + 1..], ""));
            assert [] + [token.value] == [token.value];
          }
      }
    } else {
      assert [Key(name)] + [] == [Key(name)];
    }
  }

  lemma ReadBox(inner: string, rest: string)
    requires ']' !in inner
    ensures ParseFrom("[" + inner + "]" + rest, "")
         == if Bracket(inner).None? then None else Prepend([Bracket(inner).value], ParseFrom(rest, ""))
  {
    hide Bracket;
    var s := "[" + inner + "]" + rest;
    FirstAt("[" + inner, ']', rest);
    assert s == ("[" + inner) + [']'] + rest;
    assert s[1..|inner| + 1] == inner && s[|inner| + 2..] == rest;
    if Bracket(inner).Some? { assert [] + [Bracket(inner).value] == [Bracket(inner).value]; }
  }

  lemma Onto(piece: Piece, ps: seq<Piece>)
    ensures Piecewise([piece] + ps) == Piecewise([piece]) + Piecewise(ps)
  {
    assert ([piece] + ps)[1..] == ps && [piece][1..] == [];
    assert Piecewise([]) == "";
    var text := match piece case Dot => "." case Name(name) => name case Box(inner) => "[" + inner + "]";
    assert text + "" == text;
  }

  lemma NameAlone(name: string)
    requires name != "" && '.' !in name && '[' !in name
    ensures Cut([Name(name)]) && Piecewise([Name(name)]) == name
  {
    assert [Name(name)][1..] == [] && name + "" == name;
  }

  lemma BoxAlone(inner: string)
    requires ']' !in inner
    ensures Cut([Box(inner)]) && Piecewise([Box(inner)]) == "[" + inner + "]"
  {
    var text := "[" + inner + "]";
    assert [Box(inner)][1..] == [] && text + "" == text;
  }

  lemma DotAlone()
    ensures Cut([Dot]) && Piecewise([Dot]) == "." && Cut([]) && Piecewise([]) == ""
  {
    assert [Dot][1..] == [] && "." + "" == ".";
  }

  /** How a text is cut. */
  lemma {:induction false} CutText(s: string, segment: string) returns (ps: seq<Piece>)
    requires '.' !in segment && '[' !in segment
    requires ParseFrom(s, segment).Some?
    ensures Cut(ps) && Piecewise(ps) == segment + s
    decreases |s|
  {
    hide Bracket, Cut, Piecewise;
    if s == "" {
      ps := if segment == "" then [] else [Name(segment)];
      DotAlone();
      if segment != "" { NameAlone(segment); }
      assert segment + s == segment;
    } else if s[0] == '.' || s[0] == '[' {
      var end := if s[0] == '.' then 0 else IndexOfChar(s, ']');
      var rest := CutText(s[end + 1..], "");
      assert "" + s[end + 1..] == s[end + 1..];
      ps := CutStep(s, end, rest);
      if segment != "" {
        NameAlone(segment);
        CutFirst(Name(segment), ps);
        Onto(Name(segment), ps);
        ps := [Name(segment)] + ps;
      } else {
        assert segment + s == s;
      }
    } else {
      ps := CutText(s[1..], segment + [s[0]]);
      assert segment + [s[0]] + s[1..] == segment + s;
    }
  }

  lemma CutStep(s: string, end: nat, rest: seq<Piece>) returns (ps: seq<Piece>)
    requires s != "" && end < |s| && Cut(rest) && Piecewise(rest) == s[end + 1..]
    requires if s[0] == '.' then end == 0 else s[0] == '[' && end == IndexOfChar(s, ']')
    ensures Cut(ps) && Piecewise(ps) == s && ps != [] && !ps[0].Name?
  {
    hide Cut, Piecewise;
    var piece := if s[0] == '.' then Dot else Box(s[1..end]);
    if s[0] == '.' {
      DotAlone();
      assert "." + s[1..] == s;
    } else {
      assert ']' !in s[1..end];
      BoxAlone(s[1..end]);
      assert "[" + s[1..end] + "]" + s[end + 1..] == s;
    }
    CutFirst(piece, rest);
    Onto(piece, rest);
    ps := [piece] + rest;
  }

  /** Every text: it parses to p exactly if, without the white space around it, it can be cut
      into names, dots and boxes that mean p; where it cannot, the source raises. */
  lemma ParseExactly(path: string, p: Path)
    ensures Parse(path) == Some(p) <==>
      exists ps :: Cut(ps) && Piecewise(ps) == Strip(path) && Meaning(ps) == Some(p)
  {
    hide ParseFrom, Cut, Piecewise, Meaning, Strip;
    if Parse(path) == Some(p) {
      var ps := CutText(Strip(path), "");
      assert "" + Strip(path) == Strip(path);
      PiecesRead(ps);
    }
    forall ps | Cut(ps) && Piecewise(ps) == Strip(path) && Meaning(ps) == Some(p) ensures Parse(path) == Some(p) {
      PiecesRead(ps);
    }
  }

  /** What a box holds: a plus sign, a key and a value around the first equals sign, or an index. */
  lemma BracketExactly(inner: string, token: Token)
    ensures var content := Strip(inner);
      Bracket(inner) == Some(token) <==>
        match token
        case Append => content == "+"
        case Match(k, v) =>
          exists i :: EqualsAt(content, i) && k == Strip(content[..i]) && v == Literal(content[i + 1..])
        case Index(i) => content != "+" && '=' !in content && ReadInt(content) == Some(i)
        case Key(_) => false
  {
    hide Strip, Literal, ReadInt;
    var content := Strip(inner);
    var eq := IndexOfChar(content, '=');
    if eq < |content| { assert EqualsAt(content, eq) && content[eq] in content; }
    forall i | EqualsAt(content, i) ensures i == eq {}
    if '=' in content { var i :| 0 <= i < |content| && content[i] == '='; }
  }

  predicate EqualsAt(s: string, i: int) {
    0 <= i < |s| && s[i] == '=' && forall j | 0 <= j < i :: s[j] != '='
  }

  /** Digits in groups, with an underscore between two of them. */
  function Joined(groups: seq<string>): string
    decreases |groups|
  {
    if groups == [] then "" else if |groups| == 1 then groups[0] else groups[0] + "_" + Joined(groups[1..])
  }

  function Whole(groups: seq<string>): string {
    if groups == [] then "" else groups[0] + Whole(groups[1..])
  }

  predicate AllDigits(s: string) {
    forall c | c in s :: IsDigit(c)
  }

  predicate DigitGroups(groups: seq<string>) {
    groups != [] && forall g | g in groups :: g != "" && forall c | c in g :: '0' <= c <= '9'
  }

  lemma {:induction false} GroupsGrouped(groups: seq<string>)
    requires DigitGroups(groups)
    ensures Grouped(Joined(groups)) && Ungrouped(Joined(groups)) == Whole(groups)
    ensures AllDigits(Whole(groups))
    decreases |groups|
  {
    hide Grouped, Ungrouped;
    var g := groups[0];
    assert g in groups && forall h | h in groups[1..] :: h in groups;
    DigitsOnly(g);
    UngroupedDigits(g);
    if |groups| == 1 {
      assert groups[1..] == [] && Whole([]) == "" && g + "" == g;
    } else {
      GroupsGrouped(groups[1..]);
      var rest := Joined(groups[1..]);
      GroupedJoin(g, rest);
      UngroupedSplit(g, rest);
    }
  }

  lemma UngroupedSplit(g: string, rest: string)
    ensures Ungrouped(g + "_" + rest) == Ungrouped(g) + Ungrouped(rest)
  {
    UngroupedJoin(g, "_" + rest);
    assert g + "_" + rest == g + ("_" + rest) && ("_" + rest)[1..] == rest;
    assert "" + Ungrouped(rest) == Ungrouped(rest);
  }

  lemma DigitsOnly(g: string)
    requires g != "" && forall c | c in g :: '0' <= c <= '9'
    ensures Grouped(g) && forall c | c in g :: IsDigit(c)
  {
    forall i | 0 <= i < |g| ensures IsDigit(g[i]) { assert g[i] in g; }
  }

  lemma GroupedJoin(a: string, b: string)
    requires Grouped(a) && Grouped(b) && forall c | c in a :: IsDigit(c)
    ensures Grouped(a + "_" + b)
  {
    var s := a + "_" + b;
    forall i | 0 <= i < |s|
      ensures IsDigit(s[i]) || (s[i] == '_' && i + 1 < |s| && IsDigit(s[i + 1]))
    {
      if i < |a| {
        assert s[i] == a[i] && a[i] in a;
      } else if i == |a| {
        assert s[i] == '_' && s[i + 1] == b[0];
      } else {
        assert s[i] == b[i - |a| - 1];
        if i + 1 < |s| { assert s[i + 1] == b[i - |a|]; }
      }
    }
  }

  lemma {:induction false} UngroupedJoin(a: string, b: string)
    ensures Ungrouped(a + b) == Ungrouped(a) + Ungrouped(b)
  {
    if a == "" {
      assert a + b == b && "" + Ungrouped(b) == Ungrouped(b);
    } else {
      assert (a + b)[1..] == a[1..] + b;
      UngroupedJoin(a[1..], b);
    }
  }

  lemma {:induction false} GroupsOf(s: string) returns (groups: seq<string>)
    requires Grouped(s)
    ensures DigitGroups(groups) && Joined(groups) == s
    decreases |s|
  {
    var i := IndexOfChar(s, '_');
    if i == |s| {
      groups := [s];
      forall c | c in s ensures '0' <= c <= '9' { var j :| 0 <= j < |s| && s[j] == c; }
    } else {
      var rest := s[i + 1..];
      assert i > 0 && rest[0] == s[i + 1];
      forall j | 0 <= j < |rest|
        ensures IsDigit(rest[j]) || (rest[j] == '_' && j + 1 < |rest| && IsDigit(rest[j + 1]))
      {
        assert rest[j] == s[i + 1 + j];
        if j + 1 < |rest| { assert rest[j + 1] == s[i + 2 + j]; }
      }
      var more := GroupsOf(rest);
      groups := [s[..i]] + more;
      forall c | c in s[..i] ensures '0' <= c <= '9' { var j :| 0 <= j < i && s[j] == c; }
      assert groups[1..] == more && s == s[..i] + "_" + rest;
    }
  }

  predicate Reads(s: string, sign: string, groups: seq<string>, n: int) {
    && (sign == "" || sign == "+" || sign == "-") && DigitGroups(groups) && s == sign + Joined(groups)
    && AllDigits(Whole(groups))
    && n == (if sign == "-" then -(Decimal(Whole(groups)) as int) else Decimal(Whole(groups)))
  }

  /** A text is an integer exactly if it is groups of digits behind at most one sign. */
  lemma IntExactly(s: string, n: int)
    ensures ReadInt(s) == Some(n) <==> exists sign, groups :: Reads(s, sign, groups, n)
  {
    hide Grouped, Ungrouped, Decimal, Joined, Whole, DigitGroups;
    forall sign, groups | Reads(s, sign, groups, n) ensures ReadInt(s) == Some(n) {
      IntIsRead(s, sign, groups, n);
    }
    if ReadInt(s) == Some(n) {
      var signed := s != "" && !Grouped(s);
      var sign, body := if signed then [s[0]] else "", if signed then s[1..] else s;
      var groups := GroupsOf(body);
      GroupsGrouped(groups);
      assert s == sign + body;
      assert Reads(s, sign, groups, n);
    }
  }

  lemma IntIsRead(s: string, sign: string, groups: seq<string>, n: int)
    requires Reads(s, sign, groups, n)
    ensures ReadInt(s) == Some(n)
  {
    hide Decimal, Joined, Whole, DigitGroups, Ungrouped;
    var body := Joined(groups);
    GroupsGrouped(groups);
    if sign == "" {
      assert s == body;
    } else {
      assert s[0] == sign[0] && s[1..] == body;
    }
  }
}
