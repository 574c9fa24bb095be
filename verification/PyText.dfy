/** Python string operations, as far as the modelled code needs them: str.strip, which
    the blankness checks and the key path parser use, str.replace and str.partition.
    A text that starts with something other than white space is not blank, and text
    joined with a dot is partitioned again at the first one. */
module PyText {
  /** str.isspace of one character. */
  predicate IsWhite(c: char) {
    var n := c as int;
    || 9 <= n <= 13 || 28 <= n <= 32 || n == 0x85 || n == 0xA0 || n == 0x1680 || 0x2000 <= n <= 0x200A
    || n == 0x2028 || n == 0x2029 || n == 0x202F || n == 0x205F || n == 0x3000
  }

  function LStrip(s: string): string {
    if s != [] && IsWhite(s[0]) then LStrip(s[1..]) else s
  }

  function RStrip(s: string): string {
    if s != [] && IsWhite(s[|s| - 1]) then RStrip(s[..|s| - 1]) else s
  }

  function Strip(s: string): string {
    RStrip(LStrip(s))
  }

  /** What stripping takes: the white space in front and behind, and nothing else. */
  lemma StripExactly(s: string) returns (i: nat, j: nat)
    ensures i <= j <= |s| && Strip(s) == s[i..j]
    ensures (forall k | 0 <= k < i :: IsWhite(s[k])) && (forall k | j <= k < |s| :: IsWhite(s[k]))
    ensures i < j ==> !IsWhite(s[i]) && !IsWhite(s[j - 1])
  {
    i := FrontWhite(s);
    var n := BackWhite(s[i..]);
    j := i + n;
    forall k | j <= k < |s| ensures IsWhite(s[k]) { assert s[k] == s[i..][k - i]; }
  }

  lemma {:induction false} FrontWhite(s: string) returns (i: nat)
    ensures i <= |s| && LStrip(s) == s[i..] && (forall k | 0 <= k < i :: IsWhite(s[k]))
    ensures i < |s| ==> !IsWhite(s[i])
  {
    i := 0;
    if s != [] && IsWhite(s[0]) {
      var n := FrontWhite(s[1..]);
      i := n + 1;
      forall k | 0 <= k < i ensures IsWhite(s[k]) { if k > 0 { assert s[k] == s[1..][k - 1]; } }
    }
  }

  lemma {:induction false} BackWhite(s: string) returns (j: nat)
    ensures j <= |s| && RStrip(s) == s[..j] && (forall k | j <= k < |s| :: IsWhite(s[k]))
    ensures j > 0 ==> !IsWhite(s[j - 1])
  {
    j := |s|;
    if s != [] && IsWhite(s[|s| - 1]) {
      j := BackWhite(s[..|s| - 1]);
    }
  }

  lemma {:induction false} RStripKeeps(s: string)
    requires s != [] && !IsWhite(s[0])
    ensures RStrip(s) != ""
  {
    if IsWhite(s[|s| - 1]) { RStripKeeps(s[..|s| - 1]); }
  }

  lemma StripKeeps(s: string)
    requires s != [] && !IsWhite(s[0])
    ensures Strip(s) != "" && (!IsWhite(s[|s| - 1]) ==> Strip(s) == s)
  {
    RStripKeeps(s);
  }

  /** s.replace(what, put). */
  function Replace(s: string, what: string, put: string): string
    requires what != ""
  {
    if s == "" then ""
    else if what <= s then put + Replace(s[|what|..], what, put)
    else [s[0]] + Replace(s[1..], what, put)
  }

  /** s.partition("."): what is before the first dot, and after it. */
  function Partition(s: string): (string, string) {
    if s == "" then ("", "")
    else if s[0] == '.' then ("", s[1..])
    else
      var rest := Partition(s[1..]);
      ([s[0]] + rest.0, rest.1)
  }

  lemma {:induction false} PartitionJoin(a: string, b: string)
    requires '.' !in a
    ensures Partition(a + "." + b) == (a, b)
  {
    if a == "" {
      assert (a + "." + b)[1..] == b;
    } else {
      assert (a + "." + b)[1..] == a[1..] + "." + b && (a + "." + b)[0] == a[0];
      PartitionJoin(a[1..], b);
      assert a == [a[0]] + a[1..];
    }
  }

  lemma {:induction false} ReplaceAbsent(s: string, what: string, put: string)
    requires what != "" && what[0] !in s
    ensures Replace(s, what, put) == s
  {
    if s != "" {
      assert s[0] in s && forall x | x in s[1..] :: x in s;
      ReplaceAbsent(s[1..], what, put);
      assert s == [s[0]] + s[1..];
    }
  }
}
