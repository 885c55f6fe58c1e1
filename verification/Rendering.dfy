/** The text of a tree, as a function: what `print_value` of libs/cjson/src/cJSON.c
    has to write. `depth` is the nesting the text stands in, which formatted objects
    show as tabs. */
module Rendering {
  import opened Text
  import opened Json

  const INT_MAX := 0x7fff_ffff
  const INT_MIN := -0x8000_0000

  function HexDigit(d: nat): char
    requires d < 16
  {
    if d < 10 then DigitChar(d) else ('a' as int + (d - 10)) as char
  }

  /** Conversion `%04x` of `sprintf`. */
  function HexText(n: nat): (r: string)
    requires n < 0x10000
    ensures |r| == 4
  {
    [HexDigit(n / 0x1000), HexDigit(n / 0x100 % 0x10), HexDigit(n / 0x10 % 0x10), HexDigit(n % 0x10)]
  }

  /** `sprintf("u%04x")` of a control character. */
  function Unicode(c: char): (r: string)
    requires c < ' '
    ensures |r| == 5
  {
    "u" + HexText(c as nat)
  }

  const BACKSPACE := 8 as char
  const FORMFEED := 12 as char

  /** The letter of a one-character escape sequence. */
  function Letter(c: char): Option<char>
  {
    if c == '\"' || c == '\\' then Some(c)
    else if c == BACKSPACE then Some('b')
    else if c == FORMFEED then Some('f')
    else if c == '\n' then Some('n')
    else if c == '\r' then Some('r')
    else if c == '\t' then Some('t')
    else None
  }

  function Escaped(c: char): (r: string)
    ensures |r| == if Letter(c).Some? then 2 else if c < ' ' then 6 else 1
  {
    if Letter(c).Some? then ['\\', Letter(c).value] else if c < ' ' then "\\" + Unicode(c) else [c]
  }

  function EscapeAll(s: string): (r: string)
    ensures |r| >= |s|
  {
    if s == [] then [] else Escaped(s[0]) + EscapeAll(s[1..])
  }

  function Quoted(s: string): string
  {
    "\"" + EscapeAll(s) + "\""
  }

  function Tabs(n: nat): (r: string)
    ensures |r| == n
  {
    seq(n, _ => '\t')
  }

  function Opening(format: bool): string
  {
    if format then "{\n" else "{"
  }

  function Indent(format: bool, depth: nat): string
  {
    if format then Tabs(depth) else ""
  }

  function Colon(format: bool): string
  {
    if format then ":\t" else ":"
  }

  function Comma(format: bool, more: bool): string
  {
    if !more then "" else if format then ", " else ","
  }

  function LineEnd(format: bool, more: bool): string
  {
    (if more then "," else "") + (if format then "\n" else "")
  }

  function Render(j: Json, format: bool, depth: nat): string
    decreases j
  {
    match j
    case Invalid => ""
    case Null => "null"
    case Bool(b) => if b then "true" else "false"
    case Number(n) => SignedDecimal(n)
    case String(s) => Quoted(s)
    case Array(items) => "[" + (RenderItems(items, format, depth + 1) + "]")
    case Object(members) =>
      Opening(format) + (RenderMembers(members, format, depth + 1) + (Indent(format, depth) + "}"))
  }

  function RenderItems(items: seq<Json>, format: bool, depth: nat): string
    decreases items
  {
    if items == [] then ""
    else Render(items[0], format, depth) + (Comma(format, |items| > 1) + RenderItems(items[1..], format, depth))
  }

  function RenderMembers(members: seq<Member>, format: bool, depth: nat): string
    decreases members
  {
    if members == [] then ""
    else RenderMember(members[0], format, depth, |members| > 1) + RenderMembers(members[1..], format, depth)
  }

  function RenderMember(m: Member, format: bool, depth: nat, more: bool): string
    decreases m
  {
    Indent(format, depth) + (Quoted(m.name) + (Colon(format) + (Render(m.item, format, depth) + LineEnd(format, more))))
  }

  /** Trees with no item of type `cJSON_Invalid`, which cannot be printed. */
  predicate Printable(j: Json)
    decreases j
  {
    match j
    case Invalid => false
    case Array(items) => PrintableItems(items)
    case Object(members) => PrintableMembers(members)
    case _ => true
  }

  predicate PrintableItems(items: seq<Json>)
    decreases items
  {
    forall i :: 0 <= i < |items| ==> Printable(items[i])
  }

  predicate PrintableMembers(members: seq<Member>)
    decreases members
  {
    forall i :: 0 <= i < |members| ==> Printable(members[i].item)
  }

  /** What the C data hold: strings end at their first NUL, numbers are `int`s. */
  predicate Representable(j: Json)
    decreases j
  {
    match j
    case Number(n) => INT_MIN <= n <= INT_MAX
    case String(s) => NulFree(s)
    case Array(items) => RepresentableItems(items)
    case Object(members) => RepresentableMembers(members)
    case _ => true
  }

  predicate RepresentableItems(items: seq<Json>)
    decreases items
  {
    forall i :: 0 <= i < |items| ==> Representable(items[i])
  }

  predicate RepresentableMembers(members: seq<Member>)
    decreases members
  {
    forall i :: 0 <= i < |members| ==> NulFree(members[i].name) && Representable(members[i].item)
  }

  lemma EscapedNulFree(c: char)
    requires c != '\0'
    ensures NulFree(Escaped(c))
  {
  }

  lemma ConcatNulFree(a: string, b: string)
    requires NulFree(a) && NulFree(b)
    ensures NulFree(a + b)
  {
  }

  lemma {:induction false} EscapeNulFree(s: string)
    requires NulFree(s)
    ensures NulFree(EscapeAll(s))
  {
    if s != [] {
      assert s[0] != '\0' && forall i :: 0 <= i < |s[1..]| ==> s[1..][i] == s[i + 1];
      EscapeNulFree(s[1..]);
      EscapedNulFree(s[0]);
      ConcatNulFree(Escaped(s[0]), EscapeAll(s[1..]));
    }
  }

  lemma QuotedNulFree(s: string)
    requires NulFree(s)
    ensures NulFree(Quoted(s))
  {
    EscapeNulFree(s);
  }

  /** Printed text contains no NUL. */
  lemma {:induction false} RenderNulFree(j: Json, format: bool, depth: nat)
    requires Representable(j)
    ensures NulFree(Render(j, format, depth))
    decreases j
  {
    match j
    case Array(items) =>
      RenderItemsNulFree(items, format, depth + 1);
    case Object(members) =>
      RenderMembersNulFree(members, format, depth + 1);
      ConcatNulFree(RenderMembers(members, format, depth + 1), Indent(format, depth) + "}");
    case String(s) => QuotedNulFree(s);
    case _ =>
  }

  lemma {:induction false} RenderItemsNulFree(items: seq<Json>, format: bool, depth: nat)
    requires RepresentableItems(items)
    ensures NulFree(RenderItems(items, format, depth))
    decreases items
  {
    if items != [] {
      RenderNulFree(items[0], format, depth);
      RenderItemsNulFree(items[1..], format, depth);
      ConcatNulFree(Comma(format, |items| > 1), RenderItems(items[1..], format, depth));
    }
  }

  lemma {:induction false} RenderMembersNulFree(members: seq<Member>, format: bool, depth: nat)
    requires RepresentableMembers(members)
    ensures NulFree(RenderMembers(members, format, depth))
    decreases members
  {
    if members != [] {
      var m, more := members[0], |members| > 1;
      assert NulFree(m.name);
      RenderNulFree(m.item, format, depth);
      RenderMembersNulFree(members[1..], format, depth);
      QuotedNulFree(m.name);
      ConcatNulFree(Render(m.item, format, depth), LineEnd(format, more));
      ConcatNulFree(Colon(format), Render(m.item, format, depth) + LineEnd(format, more));
      ConcatNulFree(Quoted(m.name), Colon(format) + (Render(m.item, format, depth) + LineEnd(format, more)));
      ConcatNulFree(RenderMember(m, format, depth, more), RenderMembers(members[1..], format, depth));
    }
  }

  /** A string that gains nothing from escaping is copied as it is. */
  lemma {:induction false} NothingEscaped(s: string)
    requires |EscapeAll(s)| == |s|
    ensures EscapeAll(s) == s
  {
    if s != [] {
      NothingEscaped(s[1..]);
      assert s == [s[0]] + s[1..];
    }
  }

  // ---------------------------------------------------------------- the layout

  lemma {:induction false} ItemsUnfold(items: seq<Json>, format: bool, d: nat)
    ensures items == [] ==> RenderItems(items, format, d) == ""
    ensures items != [] ==>
      RenderItems(items, format, d) ==
      Render(items[0], format, d) + (Comma(format, |items| > 1) + RenderItems(items[1..], format, d))
  {
    hide Render, Comma;
  }

  lemma {:induction false} MembersUnfold(members: seq<Member>, format: bool, d: nat)
    ensures members == [] ==> RenderMembers(members, format, d) == ""
    ensures members != [] ==>
      RenderMembers(members, format, d) ==
      RenderMember(members[0], format, d, |members| > 1) + RenderMembers(members[1..], format, d)
  {
    hide RenderMember;
  }

  /** Elements stand in one line. */
  lemma {:induction false} TwoItems(x: Json, y: Json, format: bool, d: nat)
    ensures Render(Array([x, y]), format, d)
      == "[" + Render(x, format, d + 1) + (if format then ", " else ",") + Render(y, format, d + 1) + "]"
  {
    hide Render, RenderItems;
    ArrayUnfold([x, y], format, d);
    ItemsUnfold([x, y], format, d + 1);
    ItemsUnfold([y], format, d + 1);
    ItemsUnfold([], format, d + 1);
    assert [x, y][1..] == [y] && [y][1..] == [];
  }

  lemma {:induction false} ArrayUnfold(items: seq<Json>, format: bool, d: nat)
    ensures Render(Array(items), format, d) == "[" + (RenderItems(items, format, d + 1) + "]")
  {
    hide RenderItems;
  }

  lemma {:induction false} ObjectUnfold(members: seq<Member>, format: bool, d: nat)
    ensures Render(Object(members), format, d)
      == Opening(format) + (RenderMembers(members, format, d + 1) + (Indent(format, d) + "}"))
  {
    hide RenderMembers, Opening, Indent;
  }

  /** Members stand on lines of their own behind a tab for each level, and the closing
      brace behind one tab less. */
  lemma {:induction false} TwoMembers(k: string, x: Json, l: string, y: Json, d: nat)
    ensures Render(Object([Member(k, x), Member(l, y)]), true, d) ==
            "{\n" + (Tabs(d + 1) + Quoted(k) + ":\t" + Render(x, true, d + 1) + ",\n")
            + (Tabs(d + 1) + Quoted(l) + ":\t" + Render(y, true, d + 1) + "\n") + Tabs(d) + "}"
    ensures Render(Object([Member(k, x), Member(l, y)]), false, d) ==
            "{" + (Quoted(k) + ":" + Render(x, false, d + 1) + ",")
            + (Quoted(l) + ":" + Render(y, false, d + 1)) + "}"
  {
    hide Render, RenderMembers, RenderMember, Quoted, Tabs;
    var m, n := Member(k, x), Member(l, y);
    assert [m, n][1..] == [n] && [n][1..] == [];
    ObjectUnfold([m, n], true, d);
    ObjectUnfold([m, n], false, d);
    MembersUnfold([m, n], true, d + 1);
    MembersUnfold([m, n], false, d + 1);
    MembersUnfold([n], true, d + 1);
    MembersUnfold([n], false, d + 1);
    MembersUnfold([], true, d + 1);
    MembersUnfold([], false, d + 1);
    MemberLine(m, d + 1, true);
    MemberLine(n, d + 1, false);
  }

  lemma {:induction false} MemberLine(m: Member, d: nat, more: bool)
    ensures RenderMember(m, true, d, more)
      == Tabs(d) + Quoted(m.name) + ":\t" + Render(m.item, true, d) + (if more then ",\n" else "\n")
    ensures RenderMember(m, false, d, more)
      == Quoted(m.name) + ":" + Render(m.item, false, d) + (if more then "," else "")
  {
    hide Render, Quoted, Tabs;
  }

  /** An object without members is spread over two lines. */
  lemma {:induction false} EmptyObject(d: nat)
    ensures Render(Object([]), true, d) == "{\n" + Tabs(d) + "}" && Render(Object([]), false, d) == "{}"
  {
    hide Render, RenderMembers, Tabs;
    ObjectUnfold([], true, d);
    ObjectUnfold([], false, d);
    MembersUnfold([], true, d + 1);
    MembersUnfold([], false, d + 1);
  }

  lemma FewTabs()
    ensures Tabs(0) == "" && Tabs(1) == "\t" && Tabs(2) == "\t\t"
  {
  }

  lemma {:induction false} ShortKeys()
    ensures Quoted("a") == "\"a\"" && Quoted("b") == "\"b\"" && SignedDecimal(1) == "1"
  {
    assert "a"[1..] == "" && "b"[1..] == "";
  }

  lemma {:induction false} LeafText(format: bool, d: nat)
    ensures Render(Null, format, d) == "null" && Render(Number(1), format, d) == SignedDecimal(1)
  {
  }

  lemma {:induction false} LayoutItems()
    ensures var items := Array([Number(1), Object([])]);
      Render(items, true, 1) == "[1, {\n\t\t}]" && Render(items, false, 1) == "[1,{}]"
  {
    hide Render, Tabs, Quoted, SignedDecimal;
    TwoItems(Number(1), Object([]), true, 1);
    TwoItems(Number(1), Object([]), false, 1);
    EmptyObject(2);
    FewTabs();
    ShortKeys();
    LeafText(true, 2);
    LeafText(false, 2);
  }

  lemma LayoutLines()
    ensures "\t" + "\"a\"" + ":\t" + "[1, {\n\t\t}]" + ",\n" == "\t\"a\":\t[1, {\n\t\t}],\n"
    ensures "\t" + "\"b\"" + ":\t" + "null" + "\n" == "\t\"b\":\tnull\n"
    ensures "\"a\"" + ":" + "[1,{}]" + "," == "\"a\":[1,{}]," && "\"b\"" + ":" + "null" == "\"b\":null"
  {
  }

  /** A text with every kind of layout, in both formats. */
  lemma {:induction false} Layout()
    ensures var j := Object([Member("a", Array([Number(1), Object([])])), Member("b", Null)]);
      && Render(j, true, 0) == "{\n" + "\t\"a\":\t[1, {\n\t\t}],\n" + "\t\"b\":\tnull\n" + "}"
      && Render(j, false, 0) == "{" + "\"a\":[1,{}]," + "\"b\":null" + "}"
  {
    hide Render, Tabs, Quoted, SignedDecimal;
    TwoMembers("a", Array([Number(1), Object([])]), "b", Null, 0);
    LayoutItems();
    FewTabs();
    ShortKeys();
    LeafText(true, 1);
    LeafText(false, 1);
    LayoutLines();
  }
}
