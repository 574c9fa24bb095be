/** The writer as it runs: pieces of text appended to one output list. */
module CanonicalWriter {
  import opened Json
  import opened Canonical
  import KeyOrder

  function Concat(parts: seq<string>): string {
    if parts == [] then [] else Concat(parts[..|parts| - 1]) + parts[|parts| - 1]
  }

  /** The list `out` that the pieces are appended to. */
  class Output {
    var parts: seq<string>

    constructor ()
      ensures parts == []
    {
      parts := [];
    }

    function Text(): string
      reads this
    {
      Concat(parts)
    }

    method Append(piece: string)
      modifies this
      ensures parts == old(parts) + [piece]
      ensures Text() == old(Text()) + piece
    {
      assert (parts + [piece])[..|parts|] == parts;
      parts := parts + [piece];
    }
  }

  lemma {:induction false} EscapedAllSnoc(s: string, c: char, slashes: bool)
    ensures EscapedAll(s + [c], slashes) == EscapedAll(s, slashes) + Escaped(c, slashes)
  {
    hide Escaped;
    if s == [] {
      assert [c][1..] == "" && EscapedAll([c], slashes) == Escaped(c, slashes) + EscapedAll("", slashes);
    } else {
      assert (s + [c])[1..] == s[1..] + [c];
      EscapedAllSnoc(s[1..], c, slashes);
      assert Escaped(s[0], slashes) + (EscapedAll(s[1..], slashes) + Escaped(c, slashes))
          == EscapedAll(s, slashes) + Escaped(c, slashes);
    }
  }

  /** The character loop of _string. */
  method WriteString(value: string, slashes: bool) returns (text: string)
    ensures text == Quoted(value, slashes)
  {
    hide Escaped;
    text := "\"";
    for i := 0 to |value|
      invariant text == "\"" + EscapedAll(value[..i], slashes)
    {
      assert value[..i + 1] == value[..i] + [value[i]];
      EscapedAllSnoc(value[..i], value[i], slashes);
      text := text + Escaped(value[i], slashes);
    }
    assert value[..|value|] == value;
    text := text + "\"";
  }

  lemma {:induction false} EmitItemsSnoc(items: seq<Json>, x: Json, slashes: bool)
    ensures EmitItems(items + [x], slashes) == EmitItems(items, slashes) + (if items == [] then "" else ",")
      + Emit(x, slashes)
  {
    if |items| > 0 {
      assert (items + [x])[1..] == items[1..] + [x];
      EmitItemsSnoc(items[1..], x, slashes);
    }
  }

  lemma {:induction false} EmitMembersSnoc(ms: seq<Member>, m: Member, slashes: bool)
    ensures EmitMembers(ms + [m], slashes) == EmitMembers(ms, slashes) + (if ms == [] then "" else ",")
      + EmitMember(m, slashes)
  {
    if |ms| > 0 {
      assert (ms + [m])[1..] == ms[1..] + [m];
      EmitMembersSnoc(ms[1..], m, slashes);
    }
  }

  lemma Grown(start: string, done: string, comma: string, piece: string)
    ensures (start + done) + comma + piece == start + (done + comma + piece)
  {
  }

  /** _write: one case for each kind of value, recursing into items and members. */
  method Write(value: Json, out: Output, order: Order, slashes: bool)
    requires IsDict(value)
    modifies out
    ensures out.Text() == old(out.Text()) + Emit(Sorted(value, order), slashes)
    decreases value, 0
  {
    match value {
      case Null => out.Append("null");
      case Bool(b) => out.Append(if b then "true" else "false");
      case Num(n) => out.Append(Integer(n));
      case Str(s) =>
        var text := WriteString(s, slashes);
        out.Append(text);
      case Arr(items) => WriteItems(items, out, order, slashes);
      case Obj(ms) => WriteMembers(ms, out, order, slashes);
    }
  }

  lemma EmitNothing(slashes: bool)
    ensures EmitItems([], slashes) == "" && EmitMembers([], slashes) == ""
  {
  }

  method WriteItems(items: seq<Json>, out: Output, order: Order, slashes: bool)
    requires forall x | x in items :: IsDict(x)
    modifies out
    ensures out.Text() == old(out.Text()) + ("[" + EmitItems(SortedItems(items, order), slashes) + "]")
    decreases items
  {
    hide Emit, EmitItems, Sorted, SortedItems, Concat;
    ghost var sorted := SortedItems(items, order);
    ghost var start := out.Text() + "[";
    out.Append("[");
    EmitNothing(slashes);
    for i := 0 to |items|
      invariant out.Text() == start + EmitItems(sorted[..i], slashes)
    {
      ghost var comma := if i > 0 then "," else "";
      if i > 0 {
        out.Append(",");
      }
      assert out.Text() == start + EmitItems(sorted[..i], slashes) + comma;
      Write(items[i], out, order, slashes);
      SortedItemsAt(items, order, i);
      EmitItemsSnoc(sorted[..i], sorted[i], slashes);
      assert sorted[..i + 1] == sorted[..i] + [sorted[i]];
      Grown(start, EmitItems(sorted[..i], slashes), comma, Emit(sorted[i], slashes));
    }
    assert sorted[..|items|] == sorted;
    out.Append("]");
  }

  /** One member: its key, a colon and its value. */
  method WriteMember(key: string, item: Json, out: Output, order: Order, slashes: bool)
    requires IsDict(item)
    modifies out
    ensures out.Text() == old(out.Text()) + EmitMember(Member(key, Sorted(item, order)), slashes)
    decreases item, 1
  {
    hide Emit, Sorted, Concat, Quoted;
    var text := WriteString(key, slashes);
    out.Append(text);
    out.Append(":");
    Write(item, out, order, slashes);
  }

  method WriteMembers(ms: seq<Member>, out: Output, order: Order, slashes: bool)
    requires IsDict(Obj(ms))
    modifies out
    ensures out.Text() == old(out.Text()) + ("{" + EmitMembers(Sorted(Obj(ms), order).members, slashes) + "}")
    decreases ms
  {
    hide Emit, EmitMembers, Sorted, Concat, KeyOrder.SortKeys, Quoted;
    SortedIsObj(ms, order);
    ghost var sorted := Sorted(Obj(ms), order).members;
    ghost var start := out.Text() + "{";
    out.Append("{");
    var keys := KeyOrder.SortKeys(order, KeysOf(ms));
    SortedMembers(ms, order);
    EmitNothing(slashes);
    for i := 0 to |keys|
      invariant out.Text() == start + EmitMembers(sorted[..i], slashes)
    {
      ghost var comma := if i > 0 then "," else "";
      if i > 0 {
        out.Append(",");
      }
      assert out.Text() == start + EmitMembers(sorted[..i], slashes) + comma;
      assert keys[i] in keys;
      var item := ms[IndexOf(ms, keys[i])].value;
      WriteMember(keys[i], item, out, order, slashes);
      EmitMembersSnoc(sorted[..i], sorted[i], slashes);
      assert sorted[..i + 1] == sorted[..i] + [sorted[i]];
      Grown(start, EmitMembers(sorted[..i], slashes), comma, EmitMember(sorted[i], slashes));
    }
    assert sorted[..|keys|] == sorted;
    out.Append("}");
  }

  method CanonicalText(value: Json, order: Order, slashes: bool) returns (text: string)
    requires IsDict(value)
    ensures text == CanonicalJson(value, order, slashes)
  {
    var out := new Output();
    Write(value, out, order, slashes);
    text := out.Text();
  }
}
