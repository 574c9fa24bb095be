/** The two member orders: plain code points (JSONEncoder), and Foundation's numeric,
    case-insensitive one (JSONSerialization), for ASCII keys. */
module KeyOrder {
  datatype Order = Foundation | Encoder

  /** One token of a key: a run of digits, or a single other character. */
  type Token = string

  predicate IsDigit(c: char) {
    '0' <= c <= '9'
  }

  function DigitRun(s: string): (n: nat)
    ensures n <= |s|
    ensures forall i | 0 <= i < n :: IsDigit(s[i])
    ensures n < |s| ==> !IsDigit(s[n])
  {
    if s != [] && IsDigit(s[0]) then 1 + DigitRun(s[1..]) else 0
  }

  /** re.findall(r"\d+|\D") */
  function Tokens(s: string): (ts: seq<Token>)
    ensures forall t | t in ts :: IsToken(t)
    decreases |s|
  {
    if s == [] then []
    else
      var n := if IsDigit(s[0]) then DigitRun(s) else 1;
      [s[..n]] + Tokens(s[n..])
  }

  predicate AllDigits(t: Token) {
    t != [] && forall c | c in t :: IsDigit(c)
  }

  predicate IsToken(t: Token) {
    AllDigits(t) || (|t| == 1 && !IsDigit(t[0]))
  }

  function IntOf(t: Token): nat
    requires forall c | c in t :: IsDigit(c)
  {
    if t == [] then 0 else
      assert IsDigit(t[|t| - 1]);
      10 * IntOf(t[..|t| - 1]) + (t[|t| - 1] as int - '0' as int)
  }

  function Fold(c: char): char {
    if 'A' <= c <= 'Z' then (c as int + 32) as char else c
  }

  function FoldAll(t: string): (r: string)
    ensures |r| == |t| && forall i | 0 <= i < |t| :: r[i] == Fold(t[i])
  {
    seq(|t|, i requires 0 <= i < |t| => Fold(t[i]))
  }

  /** Python's order on strings: the first difference decides, else the shorter is less. */
  function StrCompare(a: string, b: string): int {
    if a == [] && b == [] then 0
    else if a == [] then -1
    else if b == [] then 1
    else if a[0] != b[0] then (if a[0] < b[0] then -1 else 1)
    else StrCompare(a[1..], b[1..])
  }

  function TokenCompare(a: Token, b: Token): int {
    if AllDigits(a) && AllDigits(b) then
      (if IntOf(a) < IntOf(b) then -1 else if IntOf(a) == IntOf(b) then 0 else 1)
    else StrCompare(FoldAll(a), FoldAll(b))
  }

  /** The loop over zip(left, right), then the count of tokens. */
  function CompareTokens(l: seq<Token>, r: seq<Token>): int {
    if l == [] && r == [] then 0
    else if l == [] then -1
    else if r == [] then 1
    else if TokenCompare(l[0], r[0]) != 0 then TokenCompare(l[0], r[0])
    else CompareTokens(l[1..], r[1..])
  }

  function CompareKeys(l: string, r: string): int {
    var c := CompareTokens(Tokens(l), Tokens(r));
    if c != 0 then c else StrCompare(l, r)
  }

  function Compare(order: Order, l: string, r: string): int {
    match order
    case Foundation => CompareKeys(l, r)
    case Encoder => StrCompare(l, r)
  }

  // ---- the orders are total ----

  lemma {:induction false} StrTotal(a: string, b: string)
    ensures StrCompare(a, b) == -StrCompare(b, a) && -1 <= StrCompare(a, b) <= 1
    ensures StrCompare(a, b) == 0 <==> a == b
  {
    if a != [] && b != [] && a[0] == b[0] {
      StrTotal(a[1..], b[1..]);
      assert a == [a[0]] + a[1..] && b == [b[0]] + b[1..];
    }
  }

  lemma {:induction false} StrTrans(a: string, b: string, c: string)
    requires StrCompare(a, b) <= 0 && StrCompare(b, c) <= 0
    ensures StrCompare(a, c) <= 0
    ensures StrCompare(a, b) < 0 || StrCompare(b, c) < 0 ==> StrCompare(a, c) < 0
  {
    if a != [] && b != [] && c != [] && a[0] == b[0] == c[0] {
      StrTrans(a[1..], b[1..], c[1..]);
    }
  }

  /** Where a token stands: all numbers share the place of the digits, which lies
      between the characters below '0' and those above '9'. */
  function Rank(t: Token): (int, int)
    requires IsToken(t)
  {
    if AllDigits(t) then ('0' as int, IntOf(t)) else (Fold(t[0]) as int, 0)
  }

  predicate PairLess(x: (int, int), y: (int, int)) {
    x.0 < y.0 || (x.0 == y.0 && x.1 < y.1)
  }

  lemma TokenByRank(a: Token, b: Token)
    requires IsToken(a) && IsToken(b)
    ensures TokenCompare(a, b) == if PairLess(Rank(a), Rank(b)) then -1 else if PairLess(Rank(b), Rank(a)) then 1 else 0
  {
    if AllDigits(a) { assert IsDigit(a[0]) && Fold(a[0]) == a[0]; }
    if AllDigits(b) { assert IsDigit(b[0]) && Fold(b[0]) == b[0]; }
    if !(AllDigits(a) && AllDigits(b)) && Fold(a[0]) == Fold(b[0]) {
      assert FoldAll(a)[0] == FoldAll(b)[0];
      assert |a| == 1 && |b| == 1;
      assert StrCompare(FoldAll(a)[1..], FoldAll(b)[1..]) == 0;
    }
  }

  lemma {:induction false} TokensTotal(l: seq<Token>, r: seq<Token>)
    requires (forall t | t in l :: IsToken(t)) && (forall t | t in r :: IsToken(t))
    ensures CompareTokens(l, r) == -CompareTokens(r, l) && -1 <= CompareTokens(l, r) <= 1
  {
    if l != [] && r != [] {
      TokenByRank(l[0], r[0]);
      TokenByRank(r[0], l[0]);
      TokensTotal(l[1..], r[1..]);
    }
  }

  lemma {:induction false} TokensTrans(a: seq<Token>, b: seq<Token>, c: seq<Token>)
    requires (forall t | t in a :: IsToken(t)) && (forall t | t in b :: IsToken(t)) && (forall t | t in c :: IsToken(t))
    requires CompareTokens(a, b) <= 0 && CompareTokens(b, c) <= 0
    ensures CompareTokens(a, c) <= 0
    ensures CompareTokens(a, b) < 0 || CompareTokens(b, c) < 0 ==> CompareTokens(a, c) < 0
  {
    if a != [] && b != [] && c != [] {
      TokenByRank(a[0], b[0]);
      TokenByRank(b[0], c[0]);
      TokenByRank(a[0], c[0]);
      if TokenCompare(a[0], b[0]) == 0 && TokenCompare(b[0], c[0]) == 0 {
        TokensTrans(a[1..], b[1..], c[1..]);
      }
    }
  }

  /** Exactly one of less, equal, greater; equal only for the same key. */
  lemma CompareTotal(order: Order, a: string, b: string)
    ensures Compare(order, a, b) == -Compare(order, b, a) && -1 <= Compare(order, a, b) <= 1
    ensures Compare(order, a, b) == 0 <==> a == b
  {
    StrTotal(a, b);
    if order == Foundation {
      TokensTotal(Tokens(a), Tokens(b));
    }
  }

  lemma CompareTrans(order: Order, a: string, b: string, c: string)
    requires Compare(order, a, b) < 0 && Compare(order, b, c) < 0
    ensures Compare(order, a, c) < 0
  {
    if order == Encoder {
      StrTrans(a, b, c);
    } else {
      TokensTotal(Tokens(a), Tokens(b));
      TokensTotal(Tokens(b), Tokens(c));
      TokensTrans(Tokens(a), Tokens(b), Tokens(c));
      if CompareTokens(Tokens(a), Tokens(b)) == 0 && CompareTokens(Tokens(b), Tokens(c)) == 0 {
        StrTrans(a, b, c);
        TokensTrans(Tokens(c), Tokens(b), Tokens(a));
        TokensTotal(Tokens(a), Tokens(c));
      }
    }
  }

  // ---- the order, from the texts alone ----

  /** Letters without their case. */
  function Lower(c: char): int {
    if 'A' <= c <= 'Z' then c as int - 'A' as int + 'a' as int else c as int
  }

  function Sign(x: int, y: int): int {
    if x < y then -1 else if x == y then 0 else 1
  }

  /** The number that digits write, the first of them worth most. */
  function NumberOf(ds: string): nat
    requires forall c | c in ds :: IsDigit(c)
  {
    if ds == "" then 0 else
      assert IsDigit(ds[0]);
      (ds[0] as int - '0' as int) * Power(|ds| - 1) + NumberOf(ds[1..])
  }

  function Power(n: nat): nat {
    if n == 0 then 1 else 10 * Power(n - 1)
  }

  lemma {:induction false} NumberSnoc(ds: string, d: char)
    requires (forall c | c in ds :: IsDigit(c)) && IsDigit(d)
    ensures NumberOf(ds + [d]) == 10 * NumberOf(ds) + (d as int - '0' as int)
  {
    if ds == "" {
      assert ds + [d] == [d] && [d][1..] == "";
    } else {
      assert (ds + [d])[1..] == ds[1..] + [d];
      NumberSnoc(ds[1..], d);
      assert Power(|ds|) == 10 * Power(|ds| - 1);
    }
  }

  lemma {:induction false} NumberIsInt(ds: string)
    requires forall c | c in ds :: IsDigit(c)
    ensures NumberOf(ds) == IntOf(ds)
  {
    if ds != "" {
      var front, d := ds[..|ds| - 1], ds[|ds| - 1];
      assert ds == front + [d];
      NumberSnoc(front, d);
      NumberIsInt(front);
    }
  }

  /** Two keys read together: numbers against numbers, other characters without their case,
      until something differs. */
  function Walk(l: string, r: string): int
    decreases |l|
  {
    if l == "" || r == "" then Sign(|l|, |r|)
    else if IsDigit(l[0]) && IsDigit(r[0]) then
      var i, j := DigitRun(l), DigitRun(r);
      var x, y := NumberOf(l[..i]), NumberOf(r[..j]);
      if x != y then Sign(x, y) else Walk(l[i..], r[j..])
    else if Lower(l[0]) != Lower(r[0]) then Sign(Lower(l[0]), Lower(r[0]))
    else Walk(l[1..], r[1..])
  }

  lemma {:induction false} TokensWalk(l: string, r: string)
    ensures CompareTokens(Tokens(l), Tokens(r)) == Walk(l, r)
    decreases |l|
  {
    if l != "" && r != "" {
      var i := if IsDigit(l[0]) then DigitRun(l) else 1;
      var j := if IsDigit(r[0]) then DigitRun(r) else 1;
      TokenByRank(l[..i], r[..j]);
      assert l[..i][0] == l[0] && r[..j][0] == r[0];
      if IsDigit(l[0]) { NumberIsInt(l[..i]); }
      if IsDigit(r[0]) { NumberIsInt(r[..j]); }
      TokensWalk(l[i..], r[j..]);
    }
  }

  predicate SameLetters(p: string, q: string) {
    |p| == |q| && forall i | 0 <= i < |p| :: Lower(p[i]) == Lower(q[i])
  }

  /** No number runs across the seam. */
  predicate Seam(p: string, a: string) {
    p == "" || a == "" || !IsDigit(p[|p| - 1]) || !IsDigit(a[0])
  }

  lemma {:induction false} RunIs(s: string, n: nat)
    requires n <= |s| && (forall i | 0 <= i < n :: IsDigit(s[i])) && (n < |s| ==> !IsDigit(s[n]))
    ensures DigitRun(s) == n
  {
    if n > 0 {
      RunIs(s[1..], n - 1);
    }
  }

  lemma RunBefore(p: string, a: string)
    requires Seam(p, a) && p != ""
    ensures DigitRun(p + a) == DigitRun(p)
  {
    var n := DigitRun(p);
    assert forall i | 0 <= i < n :: (p + a)[i] == p[i];
    if n < |p| { assert (p + a)[n] == p[n]; }
    RunIs(p + a, n);
  }

  lemma SameRun(p: string, q: string)
    requires SameLetters(p, q)
    ensures DigitRun(q) == DigitRun(p) && q[..DigitRun(p)] == p[..DigitRun(p)]
  {
    var n := DigitRun(p);
    forall i | 0 <= i < n ensures q[i] == p[i] { assert Lower(p[i]) == Lower(q[i]); }
    if n < |p| { assert Lower(p[n]) == Lower(q[n]); }
    RunIs(q, n);
  }

  /** What two keys share up to case does not decide. */
  lemma {:induction false} WalkOver(p: string, q: string, a: string, b: string)
    requires SameLetters(p, q) && Seam(p, a) && Seam(q, b)
    ensures Walk(p + a, q + b) == Walk(a, b)
    decreases |p|
  {
    hide Walk, NumberOf, DigitRun;
    if p == "" {
      assert p + a == a && q + b == b;
    } else {
      var n := WalkStep(p, q, a, b);
      WalkOver(p[n..], q[n..], a, b);
    }
  }

  lemma WalkStep(p: string, q: string, a: string, b: string) returns (n: nat)
    requires SameLetters(p, q) && Seam(p, a) && Seam(q, b) && p != ""
    ensures 0 < n <= |p| && SameLetters(p[n..], q[n..]) && Seam(p[n..], a) && Seam(q[n..], b)
    ensures Walk(p + a, q + b) == Walk(p[n..] + a, q[n..] + b)
  {
    hide NumberOf, DigitRun;
    assert Lower(p[0]) == Lower(q[0]) && (p + a)[0] == p[0] && (q + b)[0] == q[0];
    n := if IsDigit(p[0]) then DigitRun(p) else 1;
    if IsDigit(p[0]) {
      RunIsSome(p);
      SameRun(p, q);
      RunBefore(p, a);
      RunBefore(q, b);
      assert (p + a)[..n] == p[..n] && (q + b)[..n] == q[..n];
    }
    assert (p + a)[n..] == p[n..] + a && (q + b)[n..] == q[n..] + b;
    assert n < |p| ==> p[n..][|p| - n - 1] == p[|p| - 1] && q[n..][|q| - n - 1] == q[|q| - 1];
  }

  lemma RunIsSome(p: string)
    requires p != "" && IsDigit(p[0])
    ensures DigitRun(p) > 0
  {
  }

  /** Foundation's order: the walk, and code points where it finds no difference. */
  lemma FoundationExactly(l: string, r: string)
    ensures Compare(Foundation, l, r) == if Walk(l, r) != 0 then Walk(l, r) else Compare(Encoder, l, r)
  {
    hide Tokens, CompareTokens, Walk, StrCompare;
    TokensWalk(l, r);
  }

  /** After what is the same up to case, the first two different letters decide, without
      their case. */
  lemma LettersDecide(p: string, q: string, x: char, y: char, a: string, b: string)
    requires SameLetters(p, q) && Seam(p, [x]) && Seam(q, [y])
    requires Lower(x) != Lower(y) && !(IsDigit(x) && IsDigit(y))
    ensures Compare(Foundation, p + ([x] + a), q + ([y] + b)) == Sign(Lower(x), Lower(y))
  {
    hide Compare;
    WalkOver(p, q, [x] + a, [y] + b);
    FoundationExactly(p + ([x] + a), q + ([y] + b));
  }

  /** ... or two numbers, by their value. */
  lemma NumbersDecide(p: string, q: string, m: string, n: string, a: string, b: string)
    requires SameLetters(p, q) && Seam(p, m) && Seam(q, n) && Seam(m, a) && Seam(n, b)
    requires m != "" && n != "" && (forall c | c in m :: '0' <= c <= '9') && (forall c | c in n :: '0' <= c <= '9')
    requires NumberOf(m) != NumberOf(n)
    ensures Compare(Foundation, p + (m + a), q + (n + b)) == Sign(NumberOf(m), NumberOf(n))
  {
    hide Compare, NumberOf;
    assert (forall i | 0 <= i < |m| :: m[i] in m) && (forall i | 0 <= i < |n| :: n[i] in n);
    RunIs(m, |m|);
    RunIs(n, |n|);
    RunBefore(m, a);
    RunBefore(n, b);
    assert (m + a)[..|m|] == m && (n + b)[..|n|] == n;
    WalkOver(p, q, m + a, n + b);
    FoundationExactly(p + (m + a), q + (n + b));
  }

  /** ... or one key ends first. */
  lemma ShorterFirst(p: string, q: string, a: string)
    requires SameLetters(p, q) && Seam(q, a) && a != ""
    ensures Compare(Foundation, p, q + a) == -1
  {
    hide Compare;
    WalkOver(p, q, "", a);
    assert p + "" == p;
    FoundationExactly(p, q + a);
  }

  /** Keys that differ in case alone stand by the first different code point. */
  lemma CaseDecidesLast(p: string, x: char, y: char, a: string, b: string)
    requires x != y && SameLetters(p + ([x] + a), p + ([y] + b))
    ensures Compare(Foundation, p + ([x] + a), p + ([y] + b)) == Sign(x as int, y as int)
  {
    hide Compare;
    var l, r := p + ([x] + a), p + ([y] + b);
    WalkOver(l, r, "", "");
    assert l + "" == l && r + "" == r;
    FoundationExactly(l, r);
    CodePointsDecide(p, x, y, a, b);
  }

  /** The encoder's order: the first different code point, else the shorter key. */
  lemma {:induction false} CodePointsDecide(p: string, x: char, y: char, a: string, b: string)
    requires x != y
    ensures Compare(Encoder, p + ([x] + a), p + ([y] + b)) == Sign(x as int, y as int)
    ensures Compare(Encoder, p, p + ([y] + b)) == -1
  {
    if p == "" {
      assert p + ([x] + a) == [x] + a && p + ([y] + b) == [y] + b;
    } else {
      CodePointsDecide(p[1..], x, y, a, b);
      assert (p + ([x] + a))[1..] == p[1..] + ([x] + a) && (p + ([y] + b))[1..] == p[1..] + ([y] + b);
    }
  }

  /** So requestID stands after requestedDomains in what is signed, and before it on the wire. */
  lemma RequestIdStands()
    ensures Compare(Foundation, "requestedDomains", "requestID") == -1
    ensures Compare(Encoder, "requestID", "requestedDomains") == -1
  {
    hide Compare;
    assert "requestedDomains" == "request" + (['e'] + "dDomains") && "requestID" == "request" + (['I'] + "D");
    LettersDecide("request", "request", 'e', 'I', "dDomains", "D");
    CodePointsDecide("request", 'I', 'e', "D", "dDomains");
  }

  // ---- sorting ----

  ghost predicate Ascending(order: Order, ks: seq<string>) {
    forall i, j | 0 <= i < j < |ks| :: Compare(order, ks[i], ks[j]) < 0
  }

  function InsertKey(order: Order, ks: seq<string>, k: string): seq<string> {
    if ks == [] || Compare(order, k, ks[0]) < 0 then [k] + ks else [ks[0]] + InsertKey(order, ks[1..], k)
  }

  function SortKeys(order: Order, ks: seq<string>): seq<string> {
    if ks == [] then [] else InsertKey(order, SortKeys(order, ks[1..]), ks[0])
  }

  lemma {:induction false} InsertSorts(order: Order, ks: seq<string>, k: string)
    requires Ascending(order, ks) && k !in ks
    ensures Ascending(order, InsertKey(order, ks, k))
    ensures |InsertKey(order, ks, k)| == |ks| + 1
    ensures forall x :: x in InsertKey(order, ks, k) <==> x in ks || x == k
  {
    if ks != [] && Compare(order, k, ks[0]) < 0 {
      forall j | 0 < j < |ks| ensures Compare(order, k, ks[j]) < 0 { CompareTrans(order, k, ks[0], ks[j]); }
    } else if ks != [] {
      var r := InsertKey(order, ks[1..], k);
      InsertSorts(order, ks[1..], k);
      CompareTotal(order, k, ks[0]);
      forall j | 0 <= j < |r| ensures Compare(order, ks[0], r[j]) < 0 {
        assert r[j] in r;
        if r[j] != k {
          var i :| 0 <= i < |ks| - 1 && ks[1..][i] == r[j];
          assert r[j] == ks[i + 1];
        }
      }
    }
  }

  lemma {:induction false} SortSorts(order: Order, ks: seq<string>)
    requires forall i, j | 0 <= i < j < |ks| :: ks[i] != ks[j]
    ensures Ascending(order, SortKeys(order, ks)) && |SortKeys(order, ks)| == |ks|
    ensures forall x :: x in SortKeys(order, ks) <==> x in ks
  {
    if ks != [] {
      SortSorts(order, ks[1..]);
      assert ks[0] !in ks[1..];
      assert ks == [ks[0]] + ks[1..];
      InsertSorts(order, SortKeys(order, ks[1..]), ks[0]);
    }
  }

  /** The order of the keys before sorting does not matter. */
  lemma {:induction false} AscendingUnique(order: Order, a: seq<string>, b: seq<string>)
    requires Ascending(order, a) && Ascending(order, b) && forall x :: x in a <==> x in b
    ensures a == b
    decreases |a|
  {
    assert a == [] || a[0] in b;
    assert b == [] || b[0] in a;
    if a != [] && b != [] {
      var i :| 0 <= i < |b| && b[i] == a[0];
      var j :| 0 <= j < |a| && a[j] == b[0];
      CompareTotal(order, a[0], b[0]);
      assert a[0] == b[0];
      forall x ensures x in a[1..] <==> x in b[1..] {
        CompareTotal(order, x, x);
        assert x in a[1..] ==> x in a && x != a[0];
        assert x in b[1..] ==> x in b && x != b[0];
      }
      AscendingUnique(order, a[1..], b[1..]);
      assert a == [a[0]] + a[1..] && b == [b[0]] + b[1..];
    }
  }
}
