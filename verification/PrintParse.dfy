/** Parsing undoes printing: the text of a tree, formatted or not, is read back as the
    same ordered tree up to its last character, exactly when the tree is not nested
    deeper than the parser allows. */
module PrintParse {
  import opened Text
  import opened Json
  import opened Rendering
  import opened Strings
  import opened StringCodec
  import opened Parsing

  /** What the C standard promises of `strtod` for the decimal notation of an `int`. */
  ghost predicate ReadsInts(strtod: Strtod)
  {
    forall n :: INT_MIN <= n <= INT_MAX ==> strtod(SignedDecimal(n)) == Numeral(n, |SignedDecimal(n)|)
  }

  /** How deep arrays and objects stand in one another. */
  function Nesting(j: Json): nat
    decreases j
  {
    match j
    case Array(items) => 1 + NestingItems(items)
    case Object(members) => 1 + NestingMembers(members)
    case _ => 0
  }

  function NestingItems(items: seq<Json>): nat
    decreases items
  {
    if items == [] then 0 else Max(Nesting(items[0]), NestingItems(items[1..]))
  }

  function NestingMembers(members: seq<Member>): nat
    decreases members
  {
    if members == [] then 0 else Max(Nesting(members[0].item), NestingMembers(members[1..]))
  }

  /** Nothing that would be read as part of a number before it. */
  predicate EndsNumber(rest: string)
  {
    rest == "" || !NumberChar(rest[0])
  }

  predicate Blanks(s: string)
  {
    forall i :: 0 <= i < |s| ==> Blank(s[i])
  }

  predicate Starts(t: string)
  {
    t != "" && !Blank(t[0])
  }

  // ---------------------------------------------------------------- blanks

  lemma {:induction false} DropsBlanks(ws: string, t: string)
    requires Blanks(ws) && Starts(t)
    ensures DropBlanks(ws + t) == t
  {
    if ws == [] {
      NoPrefix(t);
    } else {
      TailOfConcat(ws, t);
      DropsBlanks(ws[1..], t);
    }
  }

  lemma SkipsBlanks(ws: string, t: string)
    requires Blanks(ws) && Starts(t)
    ensures Skip(ws + t) == t
  {
    DropsBlanks(ws, t);
  }

  lemma StartsConcat(a: string, b: string)
    requires Starts(a)
    ensures Starts(a + b) && (a + b)[0] == a[0]
  {
  }

  lemma {:induction false} RenderStarts(j: Json, format: bool, depth: nat)
    requires Printable(j)
    ensures Starts(Render(j, format, depth))
  {
  }

  // ---------------------------------------------------------------- numbers

  lemma {:induction false} NumberTextReads(digits: string, rest: string)
    requires (forall i :: 0 <= i < |digits| ==> NumberChar(digits[i])) && EndsNumber(rest)
    ensures NumberText(digits + rest) == digits
  {
    if digits == [] {
      NoPrefix(rest);
    } else {
      TailOfConcat(digits, rest);
      NumberTextReads(digits[1..], rest);
      HeadTail(digits);
    }
  }

  lemma NumberReads(n: int, rest: string, strtod: Strtod)
    requires INT_MIN <= n <= INT_MAX && ReadsInts(strtod) && EndsNumber(rest)
    ensures ParseNumber(SignedDecimal(n) + rest, strtod) == Parsed(Number(n), rest)
  {
    var digits := SignedDecimal(n);
    assert forall i :: 0 <= i < |digits| ==> NumberChar(digits[i]);
    NumberTextReads(digits, rest);
    assert (digits + rest)[|digits|..] == rest;
  }

  // ---------------------------------------------------------------- values

  /** The theorem for text in any place. */
  lemma {:induction false} ValueReads(j: Json, format: bool, d: nat, depth: nat, rest: string, strtod: Strtod)
    requires Representable(j) && Printable(j) && ReadsInts(strtod) && EndsNumber(rest)
    requires depth <= NESTING_LIMIT
    ensures ParseValue(Render(j, format, d) + rest, depth, strtod)
      == if depth + Nesting(j) <= NESTING_LIMIT then Parsed(j, rest) else Failed
    decreases j, 0
  {
    match j
    case Null => WordReads(j, depth, rest, strtod);
    case Bool(b) => WordReads(j, depth, rest, strtod);
    case Number(n) => NumberValueReads(n, depth, rest, strtod);
    case String(s) => StringValueReads(s, depth, rest, strtod);
    case Array(items) => ArrayReads(items, format, d, depth, rest, strtod);
    case Object(members) => ObjectReads(members, format, d, depth, rest, strtod);
  }

  lemma {:induction false} WordReads(j: Json, depth: nat, rest: string, strtod: Strtod)
    requires j.Null? || j.Bool?
    ensures ParseValue(Render(j, false, 0) + rest, depth, strtod) == Parsed(j, rest)
  {
    var word := Render(j, false, 0);
    var t := word + rest;
    assert t[0] == word[0] && t[|word|..] == rest && t[..|word|] == word;
  }

  lemma {:induction false} NumberValueReads(n: int, depth: nat, rest: string, strtod: Strtod)
    requires INT_MIN <= n <= INT_MAX && ReadsInts(strtod) && EndsNumber(rest)
    ensures ParseValue(SignedDecimal(n) + rest, depth, strtod) == Parsed(Number(n), rest)
  {
    hide SignedDecimal, ParseNumber;
    NumberReads(n, rest, strtod);
    NumberHead(n);
    var t := SignedDecimal(n) + rest;
    assert t[0] == SignedDecimal(n)[0];
  }

  lemma NumberHead(n: int)
    ensures var c := SignedDecimal(n)[0]; c == '-' || IsDigit(c)
  {
  }

  lemma {:induction false} StringValueReads(s: string, depth: nat, rest: string, strtod: Strtod)
    ensures ParseString(Quoted(s) + rest) == Parsed(s, rest)
    ensures ParseValue(Quoted(s) + rest, depth, strtod) == Parsed(String(s), rest)
  {
    hide Quoted, ParseLiteral;
    QuotedReads(s, rest);
    var t := EscapeAll(s) + ("\"" + rest);
    assert ("\"" + t)[0] == '\"' && ("\"" + t)[1..] == t;
  }

  // ---------------------------------------------------------------- arrays

  /** A comma or what closes an array or object is no part of a number. */
  lemma {:induction false} ArrayReads(items: seq<Json>, format: bool, d: nat, depth: nat, rest: string, strtod: Strtod)
    requires RepresentableItems(items) && PrintableItems(items) && ReadsInts(strtod)
    requires depth <= NESTING_LIMIT
    ensures ParseValue(Render(Array(items), format, d) + rest, depth, strtod)
      == if depth + 1 + NestingItems(items) <= NESTING_LIMIT then Parsed(Array(items), rest) else Failed
    decreases items, 2
  {
    hide Render, RenderItems, ParseElements, NestingItems, PrintableItems, RepresentableItems;
    ArrayText(items, format, d, rest);
    var u := RenderItems(items, format, d + 1) + ("]" + rest);
    BracketValue("[" + u, u, depth, strtod);
    if items == [] {
      EmptyItems(format, d + 1);
      NoPrefix("]" + rest);
      SkipsBlanks("", "]" + rest);
    } else {
      ItemsStart(items, format, d + 1, "]" + rest);
      NoPrefix(u);
      SkipsBlanks("", u);
      if depth < NESTING_LIMIT {
        ElementsRead("", items, format, d + 1, depth + 1, rest, strtod);
      }
    }
  }

  lemma {:induction false} ArrayText(items: seq<Json>, format: bool, d: nat, rest: string)
    ensures Render(Array(items), format, d) + rest == "[" + (RenderItems(items, format, d + 1) + ("]" + rest))
  {
    hide RenderItems;
    var t := RenderItems(items, format, d + 1);
    Assoc("[", t + "]", rest);
    Assoc(t, "]", rest);
  }

  lemma {:induction false} BracketValue(t: string, u: string, depth: nat, strtod: Strtod)
    requires t == "[" + u
    ensures t[1..] == u && ParseValue(t, depth, strtod) == ParseArray(t, depth, strtod)
  {
    hide ParseArray;
    assert t[0] == '[';
  }

  lemma {:induction false} EmptyItems(format: bool, d: nat)
    ensures RenderItems([], format, d) == "" && NestingItems([]) == 0
  {
  }

  lemma {:induction false} ItemsStart(items: seq<Json>, format: bool, d: nat, rest: string)
    requires items != [] && PrintableItems(items)
    ensures Starts(RenderItems(items, format, d) + rest) && (RenderItems(items, format, d) + rest)[0] != ']'
  {
    RenderStarts(items[0], format, d);
    RenderNoBracket(items[0], format, d);
  }

  lemma {:induction false} RenderNoBracket(j: Json, format: bool, d: nat)
    requires Printable(j)
    ensures Render(j, format, d) != "" && Render(j, format, d)[0] != ']'
  {
  }

  /** Elements, with blanks before the first one. */
  lemma {:induction false} ElementsRead(ws: string, items: seq<Json>, format: bool, d: nat, depth: nat, rest: string,
                                        strtod: Strtod)
    requires Blanks(ws) && items != []
    requires RepresentableItems(items) && PrintableItems(items) && ReadsInts(strtod)
    requires depth <= NESTING_LIMIT
    ensures ParseElements(ws + (RenderItems(items, format, d) + ("]" + rest)), depth, strtod)
      == if depth + NestingItems(items) <= NESTING_LIMIT then Parsed(items, rest) else Failed
    decreases items, 1
  {
    hide Render, RenderItems, ParseValue, ParseElements, Nesting, NestingItems, Skip, Representable, Printable,
      EndsNumber;
    var tail, t := items[1..], Render(items[0], format, d);
    var gap := if format then " " else "";
    var c := if tail == [] then ']' else ',';
    var x := if tail == [] then rest else gap + (RenderItems(tail, format, d) + ("]" + rest));
    var after := [c] + x;
    ItemsText(items, format, d, rest);
    RenderStarts(items[0], format, d);
    StartsConcat(t, after);
    SkipsBlanks(ws, t + after);
    Separator(c, x);
    ValueReads(items[0], format, d, depth, after, strtod);
    ElementsStep(ws + (t + after), after, depth, strtod);
    HeadTail(items);
    if tail == [] {
      NoSuffix([items[0]]);
    } else {
      ElementsRead(gap, tail, format, d, depth, rest, strtod);
    }
  }

  /** The text behind a value: a separator and anything. */
  lemma Separator(c: char, x: string)
    requires !Blank(c) && !NumberChar(c)
    ensures ([c] + x)[0] == c && ([c] + x)[1..] == x && Skip([c] + x) == [c] + x && EndsNumber([c] + x)
  {
    TailOfConcat([c], x);
    NoPrefix([c] + x);
    SkipsBlanks("", [c] + x);
  }

  lemma {:induction false} ItemsText(items: seq<Json>, format: bool, d: nat, rest: string)
    requires items != []
    ensures var tail, t := items[1..], Render(items[0], format, d);
      RenderItems(items, format, d) + ("]" + rest)
        == t + if tail == [] then [']'] + rest
               else [','] + ((if format then " " else "") + (RenderItems(tail, format, d) + ("]" + rest)))
    ensures NestingItems(items) == Max(Nesting(items[0]), NestingItems(items[1..]))
    ensures items[1..] == [] ==> NestingItems(items) == Nesting(items[0])
  {
    hide Render, Nesting;
    var r, z := RenderItems(items[1..], format, d), "]" + rest;
    var c := Comma(format, |items| > 1);
    Assoc(Render(items[0], format, d), c + r, z);
    Assoc(c, r, z);
    if |items| == 1 {
      NoPrefix(r);
      NoPrefix(z);
    } else {
      assert c == "," + if format then " " else "";
      Assoc(",", if format then " " else "", r + z);
    }
  }

  lemma {:induction false} ElementsStep(t: string, after: string, depth: nat, strtod: Strtod)
    requires Skip(after) == after && after != "" && (after[0] == ',' || after[0] == ']')
    ensures var item := ParseValue(Skip(t), depth, strtod);
      item.Failed? || item.rest == after ==>
        ParseElements(t, depth, strtod) ==
          if item.Failed? then Failed
          else if after[0] == ']' then Parsed([item.value], after[1..])
          else
            var items := ParseElements(after[1..], depth, strtod);
            if items.Failed? then Failed else Parsed([item.value] + items.value, items.rest)
  {
    hide ParseValue, Skip;
  }

  // ---------------------------------------------------------------- objects

  function Gap(format: bool, blank: char): string
  {
    if format then [blank] else ""
  }

  lemma {:induction false} ObjectReads(members: seq<Member>, format: bool, d: nat, depth: nat, rest: string,
                                       strtod: Strtod)
    requires RepresentableMembers(members) && PrintableMembers(members) && ReadsInts(strtod)
    requires depth <= NESTING_LIMIT
    ensures ParseValue(Render(Object(members), format, d) + rest, depth, strtod)
      == if depth + 1 + NestingMembers(members) <= NESTING_LIMIT then Parsed(Object(members), rest) else Failed
    decreases members, 3
  {
    hide Render, RenderMembers, ParseMembers, NestingMembers, PrintableMembers, RepresentableMembers, Skip, Indent,
      ParseValue;
    var line, z := Gap(format, '\n'), Indent(format, d) + (['}'] + rest);
    var u := RenderMembers(members, format, d + 1) + z;
    ObjectText(members, format, d, rest);
    BraceValue(line + u, depth, strtod);
    if members == [] {
      NoMembers(format, d + 1);
      NoPrefix(z);
      Assoc(line, Indent(format, d), ['}'] + rest);
      IndentBlanks(line, format, d);
      Separator('}', rest);
      SkipsBlanks(line + Indent(format, d), ['}'] + rest);
    } else {
      var start := MembersStart(members, format, d + 1, z);
      Assoc(line, Indent(format, d + 1), start);
      IndentBlanks(line, format, d + 1);
      SkipsBlanks(line + Indent(format, d + 1), start);
      if depth < NESTING_LIMIT {
        MembersRead("", members, format, d + 1, d, depth + 1, rest, strtod);
        NoPrefix(u);
        IndentBlanks("", format, d + 1);
        NoPrefix(Indent(format, d + 1));
        MembersUnindented(Indent(format, d + 1), start, depth + 1, strtod);
      }
    }
  }

  lemma {:induction false} ObjectText(members: seq<Member>, format: bool, d: nat, rest: string)
    ensures Render(Object(members), format, d) + rest
      == ['{'] + (Gap(format, '\n') + (RenderMembers(members, format, d + 1) + (Indent(format, d) + (['}'] + rest))))
  {
    hide RenderMembers, Indent;
    var m, i := RenderMembers(members, format, d + 1), Indent(format, d);
    Assoc(Opening(format), m + (i + "}"), rest);
    Assoc(m, i + "}", rest);
    Assoc(i, "}", rest);
    Assoc(['{'], Gap(format, '\n'), m + (i + (['}'] + rest)));
    assert Opening(format) == ['{'] + Gap(format, '\n');
  }

  lemma {:induction false} BraceValue(u: string, depth: nat, strtod: Strtod)
    ensures (['{'] + u)[1..] == u && ParseValue(['{'] + u, depth, strtod) == ParseObject(['{'] + u, depth, strtod)
  {
    hide ParseObject;
    assert (['{'] + u)[0] == '{';
  }

  lemma {:induction false} NoMembers(format: bool, d: nat)
    ensures RenderMembers([], format, d) == "" && NestingMembers([]) == 0
  {
  }

  lemma IndentBlanks(ws: string, format: bool, d: nat)
    requires Blanks(ws)
    ensures Blanks(ws + Indent(format, d)) && Blanks(Gap(format, '\n')) && Blanks(Gap(format, '\t'))
  {
  }

  /** Where the members start behind the indent of the first one. */
  lemma MembersStart(members: seq<Member>, format: bool, d: nat, z: string) returns (start: string)
    requires members != []
    ensures RenderMembers(members, format, d) + z == Indent(format, d) + start
    ensures Starts(start) && start[0] == '\"'
  {
    hide Quoted, Indent;
    var m, r := members[0], RenderMembers(members[1..], format, d);
    var value := Colon(format) + (Render(m.item, format, d) + LineEnd(format, |members| > 1));
    start := Quoted(m.name) + (value + (r + z));
    Assoc(RenderMember(m, format, d, |members| > 1), r, z);
    Assoc(Indent(format, d), Quoted(m.name) + value, r + z);
    Assoc(Quoted(m.name), value, r + z);
    QuotedStarts(m.name, value + (r + z));
  }

  /** Blanks before the first member do not matter. */
  lemma {:induction false} MembersUnindented(ws: string, start: string, depth: nat, strtod: Strtod)
    requires Blanks(ws) && Starts(start)
    ensures ParseMembers(ws + start, depth, strtod) == ParseMembers(start, depth, strtod)
  {
    hide Skip, ParseString, ParseValue;
    SkipsBlanks(ws, start);
    NoPrefix(start);
    SkipsBlanks("", start);
    assert ParseMember(ws + start, depth, strtod) == ParseMember(start, depth, strtod);
  }

  lemma QuotedStarts(s: string, rest: string)
    ensures Starts(Quoted(s) + rest) && (Quoted(s) + rest)[0] == '\"'
  {
  }

  /** Members, with blanks before the first one. */
  lemma {:induction false} MembersRead(ws: string, members: seq<Member>, format: bool, d: nat, e: nat, depth: nat,
                                       rest: string, strtod: Strtod)
    requires Blanks(ws) && members != []
    requires RepresentableMembers(members) && PrintableMembers(members) && ReadsInts(strtod)
    requires depth <= NESTING_LIMIT
    ensures ParseMembers(ws + (RenderMembers(members, format, d) + (Indent(format, e) + (['}'] + rest))), depth, strtod)
      == if depth + NestingMembers(members) <= NESTING_LIMIT then Parsed(members, rest) else Failed
    decreases members, 1
  {
    hide RenderMember, RenderMembers, ParseMember, ParseMembers, Nesting, NestingMembers, Skip, Representable,
      Printable,
      Indent, LineEnd, EndsNumber, Gap;
    var m, tail := members[0], members[1..];
    var z := Indent(format, e) + (['}'] + rest);
    var more := |members| > 1;
    var behind := RenderMembers(tail, format, d) + z;
    var after := LineEnd(format, more) + behind;
    var c := if more then ',' else '}';
    var x := if more then Gap(format, '\n') + behind else rest;
    MembersText(members, format, d, z);
    Separator(c, x);
    AfterMember(members, format, d, e, rest);
    MemberReads(ws, m, format, d, more, depth, behind, strtod);
    MembersStep(ws + (RenderMember(m, format, d, more) + behind), after, [c] + x, depth, strtod);
    HeadTail(members);
    if more {
      IndentBlanks("", format, d);
      MembersRead(Gap(format, '\n'), tail, format, d, e, depth, rest, strtod);
    } else {
      NoSuffix([m]);
    }
  }

  lemma {:induction false} MembersText(members: seq<Member>, format: bool, d: nat, z: string)
    requires members != []
    ensures RenderMembers(members, format, d) + z
      == RenderMember(members[0], format, d, |members| > 1) + (RenderMembers(members[1..], format, d) + z)
    ensures NestingMembers(members) == Max(Nesting(members[0].item), NestingMembers(members[1..]))
    ensures members[1..] == [] ==> NestingMembers(members) == Nesting(members[0].item)
  {
    hide RenderMember, Nesting;
    Assoc(RenderMember(members[0], format, d, |members| > 1), RenderMembers(members[1..], format, d), z);
  }

  /** What follows a member: a comma and the next line, or the closing brace. */
  lemma {:induction false} AfterMember(members: seq<Member>, format: bool, d: nat, e: nat, rest: string)
    requires members != []
    ensures var more := |members| > 1;
      var behind := RenderMembers(members[1..], format, d) + (Indent(format, e) + (['}'] + rest));
      var after := LineEnd(format, more) + behind;
      && EndsNumber(after)
      && Skip(after) == if more then [','] + (Gap(format, '\n') + behind) else ['}'] + rest
  {
    hide RenderMember, EndsNumber, Skip, Indent;
    var r, z := RenderMembers(members[1..], format, d), Indent(format, e) + (['}'] + rest);
    if |members| > 1 {
      Assoc([','], Gap(format, '\n'), r + z);
      Separator(',', Gap(format, '\n') + (r + z));
      assert LineEnd(format, true) == [','] + Gap(format, '\n');
    } else {
      var ws := Gap(format, '\n') + Indent(format, e);
      NoPrefix(z);
      IndentBlanks(Gap(format, '\n'), format, e);
      Assoc(Gap(format, '\n'), Indent(format, e), ['}'] + rest);
      Separator('}', rest);
      SkipsBlanks(ws, ['}'] + rest);
      BlanksEndNumber(ws, ['}'] + rest);
      assert LineEnd(format, false) == Gap(format, '\n');
    }
  }

  lemma BlanksEndNumber(ws: string, t: string)
    requires Blanks(ws) && EndsNumber(t)
    ensures EndsNumber(ws + t)
  {
    if ws != [] {
      TailOfConcat(ws, t);
    } else {
      NoPrefix(t);
    }
  }

  lemma {:induction false} MembersStep(t: string, after: string, u: string, depth: nat, strtod: Strtod)
    requires Skip(after) == u && u != "" && (u[0] == ',' || u[0] == '}')
    ensures var member := ParseMember(t, depth, strtod);
      member.Failed? || member.rest == after ==>
        ParseMembers(t, depth, strtod) ==
          if member.Failed? then Failed
          else if u[0] == '}' then Parsed([member.value], u[1..])
          else
            var members := ParseMembers(u[1..], depth, strtod);
            if members.Failed? then Failed else Parsed([member.value] + members.value, members.rest)
  {
    hide ParseMember, Skip;
  }

  /** One member: key, colon, value. */
  lemma {:induction false} MemberReads(ws: string, m: Member, format: bool, d: nat, more: bool, depth: nat,
                                       rest: string,
                                       strtod: Strtod)
    requires Blanks(ws) && NulFree(m.name) && Representable(m.item) && Printable(m.item) && ReadsInts(strtod)
    requires depth <= NESTING_LIMIT && EndsNumber(LineEnd(format, more) + rest)
    ensures ParseMember(ws + (RenderMember(m, format, d, more) + rest), depth, strtod)
      == if depth + Nesting(m.item) <= NESTING_LIMIT then Parsed(m, LineEnd(format, more) + rest) else Failed
    decreases m, 1
  {
    hide Render, RenderMember, ParseMember, ParseString, ParseValue, Nesting, Skip, Representable, Printable, Indent,
      LineEnd, EndsNumber, Gap, Quoted;
    var after := LineEnd(format, more) + rest;
    var t := Render(m.item, format, d);
    var x := Gap(format, '\t') + (t + after);
    MemberText(ws, m, format, d, more, rest);
    IndentBlanks(ws, format, d);
    QuotedStarts(m.name, [':'] + x);
    SkipsBlanks(ws + Indent(format, d), Quoted(m.name) + ([':'] + x));
    StringValueReads(m.name, depth, [':'] + x, strtod);
    Separator(':', x);
    RenderStarts(m.item, format, d);
    StartsConcat(t, after);
    SkipsBlanks(Gap(format, '\t'), t + after);
    ValueReads(m.item, format, d, depth, after, strtod);
    MemberStep((ws + Indent(format, d)) + (Quoted(m.name) + ([':'] + x)), m.name, x, depth, strtod);
  }

  lemma {:induction false} MemberText(ws: string, m: Member, format: bool, d: nat, more: bool, rest: string)
    ensures ws + (RenderMember(m, format, d, more) + rest)
      == (ws + Indent(format, d))
        + (Quoted(m.name)
           + ([':'] + (Gap(format, '\t') + (Render(m.item, format, d) + (LineEnd(format, more) + rest)))))
  {
    hide Render, Indent, Quoted, LineEnd;
    var i, q, t, l := Indent(format, d), Quoted(m.name), Render(m.item, format, d), LineEnd(format, more);
    Assoc(i, q + (Colon(format) + (t + l)), rest);
    Assoc(q, Colon(format) + (t + l), rest);
    Assoc(Colon(format), t + l, rest);
    Assoc(t, l, rest);
    Assoc([':'], Gap(format, '\t'), t + (l + rest));
    Assoc(ws, i, q + (Colon(format) + (t + (l + rest))));
    assert Colon(format) == [':'] + Gap(format, '\t');
  }

  lemma {:induction false} MemberStep(t: string, name: string, x: string, depth: nat, strtod: Strtod)
    requires t != "" && ParseString(Skip(t)) == Parsed(name, [':'] + x) && Skip([':'] + x) == [':'] + x
    ensures ParseMember(t, depth, strtod) ==
      var item := ParseValue(Skip(x), depth, strtod);
      if item.Failed? then Failed else Parsed(Member(name, item.value), item.rest)
  {
    hide ParseString, ParseValue, Skip;
    TailOfConcat([':'], x);
  }

  // ---------------------------------------------------------------- whole texts

  /** Parsing the NUL-terminated text of a tree gives the tree back and stops at the
      NUL, if and only if the tree is nested at most as deep as the parser goes. */
  lemma {:induction false} ParseUndoesPrint(j: Json, format: bool, requireNullTerminated: bool, strtod: Strtod)
    requires Representable(j) && Printable(j) && ReadsInts(strtod)
    ensures Parse(Render(j, format, 0) + [NUL], requireNullTerminated, strtod)
      == if Nesting(j) <= NESTING_LIMIT then Parsed(j, [NUL]) else Failed
  {
    hide Render, ParseValue, Nesting, Representable, Printable;
    var t := Render(j, format, 0) + [NUL];
    RenderStarts(j, format, 0);
    StartsConcat(Render(j, format, 0), [NUL]);
    RenderNoBom(j, format);
    NoPrefix(t);
    SkipsBlanks("", t);
    NulEndsNumber();
    ValueReads(j, format, 0, 0, [NUL], strtod);
    assert [NUL][1..] == [];
    assert DropBlanks([NUL]) == [];
  }

  /** The same with the length of the text given instead of a NUL. */
  lemma {:induction false} ParseUndoesPrintWithLength(j: Json, format: bool, strtod: Strtod)
    requires Representable(j) && Printable(j) && ReadsInts(strtod)
    ensures Parse(Render(j, format, 0), false, strtod)
      == if Nesting(j) <= NESTING_LIMIT then Parsed(j, "") else Failed
  {
    hide Render, ParseValue, Nesting, Representable, Printable;
    var t := Render(j, format, 0);
    RenderStarts(j, format, 0);
    RenderNoBom(j, format);
    NoPrefix(t);
    NoSuffix(t);
    SkipsBlanks("", t);
    ValueReads(j, format, 0, 0, "", strtod);
  }

  lemma NulEndsNumber()
    ensures EndsNumber([NUL])
  {
    assert [NUL][0] == '\0';
    assert !IsDigit([NUL][0]);
    assert !NumberChar([NUL][0]);
  }

  lemma {:induction false} RenderNoBom(j: Json, format: bool)
    requires Printable(j)
    ensures Render(j, format, 0)[0] != BOM[0]
  {
  }
}
