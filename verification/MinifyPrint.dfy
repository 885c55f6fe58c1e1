/** What minifying keeps: it is idempotent on every text, and it turns formatted text
    into unformatted text exactly for the trees in which no string that something
    other than closing brackets follows ends with a backslash. */
module MinifyPrint {
  import opened Text
  import opened Json
  import opened Rendering
  import opened Minify
  import PrintParse

  // ---------------------------------------------------------------- twice

  /** A literal is found again in the text that was copied. */
  lemma {:induction false} LiteralAgain(t: string, x: string)
    requires StringLength(t) < |t| || x == ""
    ensures StringLength(t[..StringLength(t)] + x) == StringLength(t)
  {
    hide StringLength;
    var n := StringLength(t);
    var again := t[..n] + x;
    StringStep(t);
    StringStep(again);
    if t == "" {
    } else if t[0] == '\"' {
    } else if t[0] == '\\' && At(t, 1) == '\"' {
      LiteralAgain(t[2..], x);
      assert again[2..] == t[2..][..n - 2] + x;
    } else {
      StringStep(t[1..]);
      LiteralAgain(t[1..], x);
      assert again[1..] == t[1..][..n - 1] + x;
      assert n > 1 ==> again[1] == t[1];
    }
  }

  /** Minifying twice is minifying once. */
  lemma {:induction false} MinifyTwice(t: string)
    ensures Minified(Minified(t)) == Minified(t)
    decreases |t|
  {
    hide StringLength, AfterLine, AfterComment, Minified, Droppable;
    MinifiedStep(t);
    if t == "" {
    } else if Droppable(t[0]) {
      MinifyTwice(t[1..]);
    } else if t[0] == '/' {
      MinifyTwice(if At(t, 1) == '/' then AfterLine(t[2..])
                  else if At(t, 1) == '*' then AfterComment(t[2..])
                  else t[1..]);
    } else if t[0] == '\"' {
      var n := StringLength(t[1..]);
      var rest := t[1 + n..];
      MinifyTwice(rest);
      MinifiedStep("");
      LiteralAgain(t[1..], Minified(rest));
      assert t[1..][..n] == t[1..1 + n];
      KeepLiteral(t[1..1 + n], Minified(rest));
      assert t[..1 + n] == "\"" + t[1..1 + n];
    } else {
      MinifyTwice(t[1..]);
      KeepChar(t[0], Minified(t[1..]));
    }
  }

  predicate Kept(c: char)
  {
    !Droppable(c) && c != '/' && c != '\"'
  }

  lemma {:induction false} KeepChar(c: char, x: string)
    requires Kept(c)
    ensures Minified([c] + x) == [c] + Minified(x)
  {
    hide Minified;
    MinifiedStep([c] + x);
    TailOfConcat([c], x);
  }

  /** A literal as `minify_string` delimits it. */
  lemma {:induction false} KeepLiteral(s: string, x: string)
    requires StringLength(s + x) == |s|
    ensures Minified(("\"" + s) + x) == ("\"" + s) + Minified(x)
  {
    hide Minified, StringLength;
    var t := ("\"" + s) + x;
    MinifiedStep(t);
    assert t[0] == '\"';
    assert t[1..] == s + x;
    assert t[1 + |s|..] == x;
    assert t[..1 + |s|] == "\"" + s;
  }

  // ---------------------------------------------------------------- strings

  predicate EndsWithBackslash(s: string)
  {
    s != "" && s[|s| - 1] == '\\'
  }

  lemma {:induction false} EscapedStart(s: string, rest: string)
    requires s != ""
    ensures EscapeAll(s) + rest != "" && (EscapeAll(s) + rest)[0] != '\"'
  {
  }

  /** One escaped character inside of a literal. */
  lemma {:induction false} StringLengthEscaped(c: char, u: string)
    requires c == '\\' ==> u != "" && u[0] != '\"'
    ensures StringLength(Escaped(c) + u) == |Escaped(c)| + StringLength(u)
  {
    var e := Escaped(c);
    var t := e + u;
    if Letter(c).Some? {
      DropPair('\\', Letter(c).value, u);
      TailOfConcat(e, u);
      if Letter(c).value != '\"' {
        assert t[1..] == [Letter(c).value] + u;
        assert t[1..][1..] == u;
      }
    } else if c < ' ' {
      hide HexText;
      HexPlain(c);
      StringLengthPlain(e, u);
    } else {
      TailOfConcat(e, u);
    }
  }

  lemma HexPlain(c: char)
    requires c < ' ' && Letter(c).None?
    ensures forall i :: 0 <= i < 6 ==> Escaped(c)[i] != '\"'
  {
  }

  /** Characters without a quote among them. */
  lemma {:induction false} StringLengthPlain(a: string, u: string)
    requires a != "" && (forall i :: 0 <= i < |a| ==> a[i] != '\"') && a[|a| - 1] != '\\'
    ensures StringLength(a + u) == |a| + StringLength(u)
  {
    hide StringLength;
    TailOfConcat(a, u);
    StringStep(a + u);
    if |a| == 1 {
      assert a[1..] + u == u;
    } else {
      assert (a + u)[1] == a[1];
      StringLengthPlain(a[1..], u);
    }
  }

  /** The closing quote is taken for an escaped one exactly behind a backslash. */
  lemma {:induction false} StringLengthQuoted(s: string, rest: string)
    ensures var n := |EscapeAll(s)| + 1;
      StringLength(EscapeAll(s) + ("\"" + rest)) == if EndsWithBackslash(s) then n + StringLength(rest) else n
  {
    hide StringLength, Escaped;
    if s == "" {
      NoPrefix("\"" + rest);
      StringStep("\"" + rest);
    } else {
      var u := EscapeAll(s[1..]) + ("\"" + rest);
      Assoc(Escaped(s[0]), EscapeAll(s[1..]), "\"" + rest);
      if s[1..] != "" {
        EscapedStart(s[1..], "\"" + rest);
        StringLengthQuoted(s[1..], rest);
        StringLengthEscaped(s[0], u);
        assert s[1..][|s[1..]| - 1] == s[|s| - 1];
      } else if s[0] == '\\' {
        LastBackslash(rest);
        NoPrefix("\"" + rest);
      } else {
        StringLengthQuoted(s[1..], rest);
        StringLengthEscaped(s[0], u);
      }
    }
  }

  lemma {:induction false} LastBackslash(rest: string)
    ensures |Escaped('\\')| == 2 && StringLength(Escaped('\\') + ("\"" + rest)) == 3 + StringLength(rest)
  {
    var t := Escaped('\\') + ("\"" + rest);
    assert t[0] == '\\' && t[1] == '\\' && t[2] == '\"';
    assert t[1..][2..] == rest;
  }

  // ---------------------------------------------------------------- trees

  /** Which strings may end with a backslash: only one that nothing but closing
      brackets follows, so that no later quote can be taken for its end. */
  predicate Closes(j: Json, last: bool)
    decreases j
  {
    match j
    case String(s) => last || !EndsWithBackslash(s)
    case Array(items) => ClosesItems(items, last)
    case Object(members) => ClosesMembers(members)
    case _ => true
  }

  predicate ClosesMembers(members: seq<Member>)
    decreases members
  {
    members == [] || (ClosesMember(members[0]) && ClosesMembers(members[1..]))
  }

  predicate ClosesMember(m: Member)
    decreases m
  {
    !EndsWithBackslash(m.name) && Closes(m.item, false)
  }

  predicate ClosesItems(items: seq<Json>, last: bool)
    decreases items
  {
    items == [] || (Closes(items[0], last && |items| == 1) && ClosesItems(items[1..], last))
  }

  predicate Brackets(s: string)
  {
    forall i :: 0 <= i < |s| ==> s[i] == ']'
  }

  /** At the first place where two texts differ the first one has a blank, and no
      quote or backslash stands before it. */
  ghost predicate Leaks(rest: string, plain: string)
  {
    exists n ::
      && 0 <= n < |rest| && n < |plain|
      && rest[..n] == plain[..n]
      && (forall i :: 0 <= i < n ==> rest[i] != '\"' && rest[i] != '\\')
      && Droppable(rest[n]) && plain[n] != rest[n]
  }

  /** What follows a value in formatted and in unformatted text. */
  ghost predicate Follows(rest: string, plain: string, last: bool)
  {
    if last then Brackets(rest) && plain == rest else Leaks(rest, plain)
  }

  // ---------------------------------------------------------------- plain pieces

  predicate AllKept(s: string)
  {
    forall i :: 0 <= i < |s| ==> Kept(s[i])
  }

  predicate AllDroppable(s: string)
  {
    forall i :: 0 <= i < |s| ==> Droppable(s[i])
  }

  lemma {:induction false} KeepAll(w: string, x: string)
    requires AllKept(w)
    ensures Minified(w + x) == w + Minified(x)
  {
    hide Minified;
    if w == [] {
      NoPrefix(x);
      NoPrefix(Minified(x));
    } else {
      HeadTail(w);
      Assoc([w[0]], w[1..], x);
      KeepChar(w[0], w[1..] + x);
      KeepAll(w[1..], x);
      Assoc([w[0]], w[1..], Minified(x));
    }
  }

  lemma {:induction false} DropAll(ws: string, x: string)
    requires AllDroppable(ws)
    ensures Minified(ws + x) == Minified(x)
  {
    hide Minified;
    if ws == [] {
      NoPrefix(x);
    } else {
      TailOfConcat(ws, x);
      MinifiedStep(ws + x);
      DropAll(ws[1..], x);
    }
  }

  lemma {:induction false} KeepQuoted(s: string, x: string)
    requires !EndsWithBackslash(s)
    ensures Minified(Quoted(s) + x) == Quoted(s) + Minified(x)
  {
    hide StringLength, EscapeAll, Minified;
    StringLengthQuoted(s, x);
    Assoc(EscapeAll(s), "\"", x);
    KeepLiteral(EscapeAll(s) + "\"", x);
    Assoc("\"", EscapeAll(s), "\"");
  }

  /** Unescaped closing quote or not, the literal and more of what follows stay. */
  lemma {:induction false} LeakQuoted(s: string, rest: string, plain: string)
    requires EndsWithBackslash(s) && Leaks(rest, plain)
    ensures Minified(Quoted(s) + rest) != Quoted(s) + plain
  {
    hide EscapeAll, Minified, StringLength;
    var n :| 0 <= n < |rest| && n < |plain| && rest[..n] == plain[..n]
      && (forall i :: 0 <= i < n ==> rest[i] != '\"' && rest[i] != '\\')
      && Droppable(rest[n]) && plain[n] != rest[n];
    var t := Quoted(s) + rest;
    StringLengthQuoted(s, rest);
    StringLengthAtLeast(rest, n);
    MinifiedStep(t);
    Assoc("\"", EscapeAll(s) + "\"", rest);
    Assoc("\"", EscapeAll(s), "\"");
    Assoc(EscapeAll(s), "\"", rest);
    var k := StringLength(t[1..]);
    assert t[1..] == EscapeAll(s) + ("\"" + rest);
    assert Minified(t)[|Quoted(s)| + n] == t[|Quoted(s)| + n] == rest[n];
    assert (Quoted(s) + plain)[|Quoted(s)| + n] == plain[n];
  }

  lemma {:induction false} StringLengthAtLeast(t: string, n: nat)
    requires n < |t| && (forall i :: 0 <= i < n ==> t[i] != '\"' && t[i] != '\\') && Droppable(t[n])
    ensures StringLength(t) > n
  {
    hide StringLength;
    StringStep(t);
    if n > 0 {
      StringLengthAtLeast(t[1..], n - 1);
    }
  }

  /** What a leak becomes behind one more character. */
  lemma LeakBehind(c: char, rest: string, plain: string)
    requires Leaks(rest, plain) && c != '\"' && c != '\\'
    ensures Leaks([c] + rest, [c] + plain)
  {
    var n :| 0 <= n < |rest| && n < |plain| && rest[..n] == plain[..n]
      && (forall i :: 0 <= i < n ==> rest[i] != '\"' && rest[i] != '\\')
      && Droppable(rest[n]) && plain[n] != rest[n];
    var r, p := [c] + rest, [c] + plain;
    assert r[..n + 1] == [c] + rest[..n] && p[..n + 1] == [c] + plain[..n];
    assert Droppable(r[n + 1]) && p[n + 1] != r[n + 1];
  }

  lemma LeakHere(rest: string, plain: string)
    requires rest != "" && plain != "" && Droppable(rest[0]) && plain[0] != rest[0]
    ensures Leaks(rest, plain)
  {
    assert rest[..0] == plain[..0];
  }

  lemma Cancel(a: string, x: string, y: string)
    requires x != y
    ensures a + x != a + y
  {
    assert (a + x)[|a|..] == x && (a + y)[|a|..] == y;
  }

  // ---------------------------------------------------------------- what is kept

  lemma {:induction false} Keep(j: Json, format: bool, d: nat, rest: string, last: bool)
    requires Printable(j) && Closes(j, last) && (last ==> Brackets(rest))
    ensures Minified(Render(j, format, d) + rest) == Render(j, false, d) + Minified(rest)
    decreases j, 0
  {
    hide Minified, RenderItems, RenderMembers, ClosesItems, ClosesMembers, Quoted, SignedDecimal;
    match j
    case Null => KeepAll("null", rest);
    case Bool(b) => KeepAll(if b then "true" else "false", rest);
    case Number(n) =>
      NumberKept(n);
      KeepAll(SignedDecimal(n), rest);
    case String(s) =>
      if EndsWithBackslash(s) {
        KeepLast(s, rest);
      } else {
        KeepQuoted(s, rest);
      }
    case Array(items) =>
      ArrayText(items, format, d, rest);
      ArrayText(items, false, d, Minified(rest));
      KeepChar('[', RenderItems(items, format, d + 1) + ([']'] + rest));
      KeepItems(items, format, d + 1, [']'] + rest, last);
      KeepChar(']', rest);
    case Object(members) =>
      KeepObject(members, format, d, rest);
  }

  lemma NumberKept(n: int)
    ensures AllKept(SignedDecimal(n))
  {
  }

  /** A last literal ending with a backslash swallows the brackets behind it. */
  lemma {:induction false} KeepLast(s: string, rest: string)
    requires EndsWithBackslash(s) && Brackets(rest)
    ensures Minified(Quoted(s) + rest) == Quoted(s) + Minified(rest)
  {
    hide StringLength, EscapeAll, Minified;
    StringLengthQuoted(s, rest);
    BracketsLength(rest);
    KeepAll(rest, "");
    MinifiedStep("");
    NoSuffix(rest);
    var body := EscapeAll(s) + ("\"" + rest);
    NoSuffix(body);
    KeepLiteral(body, "");
    NoSuffix("\"" + body);
    Assoc("\"", EscapeAll(s) + "\"", rest);
    Assoc("\"", EscapeAll(s), "\"");
    Assoc(EscapeAll(s), "\"", rest);
  }

  lemma {:induction false} BracketsLength(t: string)
    requires Brackets(t)
    ensures StringLength(t) == |t|
  {
    hide StringLength;
    StringStep(t);
    if t != "" {
      BracketsLength(t[1..]);
    }
  }

  lemma {:induction false} ArrayText(items: seq<Json>, format: bool, d: nat, rest: string)
    ensures Render(Array(items), format, d) + rest == ['['] + (RenderItems(items, format, d + 1) + ([']'] + rest))
  {
    PrintParse.ArrayText(items, format, d, rest);
  }

  lemma {:induction false} KeepItems(items: seq<Json>, format: bool, d: nat, z: string, last: bool)
    requires PrintableItems(items) && ClosesItems(items, last) && (last ==> Brackets(z))
    ensures Minified(RenderItems(items, format, d) + z) == RenderItems(items, false, d) + Minified(z)
    decreases items
  {
    hide Minified, Render, Closes, Printable;
    if items == [] {
      NoPrefix(z);
      NoPrefix(Minified(z));
    } else {
      var tail := items[1..];
      ItemsText(items, format, d, z);
      ItemsText(items, false, d, Minified(z));
      if tail == [] {
        Keep(items[0], format, d, z, last);
      } else {
        var x := RenderItems(tail, format, d) + z;
        var y := if format then [' '] + x else x;
        Keep(items[0], format, d, [','] + y, false);
        KeepChar(',', y);
        DropAll([' '], x);
        KeepItems(tail, format, d, z, last);
      }
    }
  }

  lemma {:induction false} ItemsText(items: seq<Json>, format: bool, d: nat, z: string)
    requires items != []
    ensures var tail := items[1..];
      var y := RenderItems(tail, format, d) + z;
      RenderItems(items, format, d) + z
        == Render(items[0], format, d) + if tail == [] then z else [','] + if format then [' '] + y else y
  {
    hide Render;
    var c, r := Comma(format, |items| > 1), RenderItems(items[1..], format, d);
    Assoc(Render(items[0], format, d), c + r, z);
    Assoc(c, r, z);
    if |items| == 1 {
      NoPrefix(r);
      NoPrefix(z);
    } else if format {
      assert c == [','] + [' '];
      Assoc([','], [' '], r + z);
    } else {
      assert c == [','];
    }
  }

  lemma {:induction false} KeepObject(members: seq<Member>, format: bool, d: nat, rest: string)
    requires PrintableMembers(members) && ClosesMembers(members)
    ensures Minified(Render(Object(members), format, d) + rest) == Render(Object(members), false, d) + Minified(rest)
    decreases members, 1
  {
    hide Minified, Render, RenderMembers, ClosesMembers, PrintableMembers;
    var z := if format then Tabs(d) + (['}'] + rest) else ['}'] + rest;
    var x := RenderMembers(members, format, d + 1) + z;
    ObjectText(members, format, d, rest);
    ObjectText(members, false, d, Minified(rest));
    KeepChar('{', if format then ['\n'] + x else x);
    DropAll(['\n'], x);
    KeepMembers(members, format, d + 1, z);
    DropAll(Tabs(d), ['}'] + rest);
    KeepChar('}', rest);
  }

  lemma {:induction false} ObjectText(members: seq<Member>, format: bool, d: nat, rest: string)
    ensures Render(Object(members), format, d) + rest ==
      if format then ['{'] + (['\n'] + (RenderMembers(members, true, d + 1) + (Tabs(d) + (['}'] + rest))))
      else ['{'] + (RenderMembers(members, false, d + 1) + (['}'] + rest))
  {
    hide Render, RenderMembers, Tabs;
    PrintParse.ObjectText(members, format, d, rest);
    if !format {
      NoPrefix(['}'] + rest);
      NoPrefix(RenderMembers(members, false, d + 1) + (['}'] + rest));
    }
  }

  lemma {:induction false} KeepMembers(members: seq<Member>, format: bool, d: nat, z: string)
    requires PrintableMembers(members) && ClosesMembers(members)
    ensures Minified(RenderMembers(members, format, d) + z) == RenderMembers(members, false, d) + Minified(z)
    decreases members, 0
  {
    hide Minified, RenderMember, ClosesMember, Printable;
    if members == [] {
      NoPrefix(z);
      NoPrefix(Minified(z));
    } else {
      var more := |members| > 1;
      PrintParse.MembersText(members, format, d, z);
      PrintParse.MembersText(members, false, d, Minified(z));
      KeepMember(members[0], format, d, more, RenderMembers(members[1..], format, d) + z);
      KeepMembers(members[1..], format, d, z);
    }
  }

  lemma {:induction false} KeepMember(m: Member, format: bool, d: nat, more: bool, y: string)
    requires Printable(m.item) && ClosesMember(m)
    ensures Minified(RenderMember(m, format, d, more) + y) == RenderMember(m, false, d, more) + Minified(y)
    decreases m
  {
    hide Minified, Render, Quoted, RenderMember, Closes, Printable, EndsWithBackslash;
    var after := LineEnd(format, more) + y;
    var value := Render(m.item, format, d) + after;
    var behind := if format then ['\t'] + value else value;
    MemberText(m, format, d, more, y);
    MemberText(m, false, d, more, Minified(y));
    DropAll(Tabs(d), Quoted(m.name) + ([':'] + behind));
    KeepQuoted(m.name, [':'] + behind);
    KeepChar(':', behind);
    DropAll(['\t'], value);
    Keep(m.item, format, d, after, false);
    KeepLineEnd(format, more, y);
  }

  lemma {:induction false} KeepLineEnd(format: bool, more: bool, y: string)
    ensures Minified(LineEnd(format, more) + y) == LineEnd(false, more) + Minified(y)
  {
    hide Minified;
    DropAll(['\n'], y);
    if !format {
      assert LineEnd(false, more) == if more then [','] else "";
      KeepChar(',', y);
      NoPrefix(y);
      NoPrefix(Minified(y));
    } else if more {
      assert LineEnd(true, more) + y == [','] + (['\n'] + y) && LineEnd(false, more) == [','];
      KeepChar(',', ['\n'] + y);
    } else {
      assert LineEnd(true, false) == ['\n'] && LineEnd(false, false) == "";
      NoPrefix(Minified(y));
    }
  }

  lemma {:induction false} MemberText(m: Member, format: bool, d: nat, more: bool, y: string)
    ensures var after := Render(m.item, format, d) + (LineEnd(format, more) + y);
      RenderMember(m, format, d, more) + y ==
        if format then Tabs(d) + (Quoted(m.name) + ([':'] + (['\t'] + after)))
        else Quoted(m.name) + ([':'] + after)
  {
    hide Render, Quoted, LineEnd, Tabs;
    var q, t, l := Quoted(m.name), Render(m.item, format, d), LineEnd(format, more);
    var c := Colon(format);
    Assoc(Indent(format, d), q + (c + (t + l)), y);
    Assoc(q, c + (t + l), y);
    Assoc(c, t + l, y);
    Assoc(t, l, y);
    if format {
      assert c == [':'] + ['\t'];
      Assoc([':'], ['\t'], t + (l + y));
    } else {
      assert c == [':'];
      NoPrefix(q + (c + (t + (l + y))));
    }
  }

  // ---------------------------------------------------------------- what is not

  lemma {:induction false} Differ(j: Json, d: nat, rest: string, plain: string, last: bool)
    requires Printable(j) && !Closes(j, last) && Follows(rest, plain, last)
    ensures Minified(Render(j, true, d) + rest) != Render(j, false, d) + plain
    decreases j, 0
  {
    hide Minified, RenderItems, RenderMembers, ClosesItems, ClosesMembers, Quoted, SignedDecimal, Leaks;
    match j
    case String(s) => LeakQuoted(s, rest, plain);
    case Array(items) =>
      var x := RenderItems(items, true, d + 1) + ([']'] + rest);
      ArrayText(items, true, d, rest);
      ArrayText(items, false, d, plain);
      KeepChar('[', x);
      FollowBehind(rest, plain, last);
      DifferItems(items, d + 1, [']'] + rest, [']'] + plain, last);
      Cancel(['['], Minified(x), RenderItems(items, false, d + 1) + ([']'] + plain));
    case Object(members) =>
      DifferObject(members, d, rest, plain);
    case _ =>
  }

  lemma FollowBehind(rest: string, plain: string, last: bool)
    requires Follows(rest, plain, last)
    ensures Follows([']'] + rest, [']'] + plain, last)
  {
    if !last {
      LeakBehind(']', rest, plain);
    }
  }

  lemma {:induction false} DifferItems(items: seq<Json>, d: nat, z: string, plain: string, last: bool)
    requires PrintableItems(items) && !ClosesItems(items, last) && Follows(z, plain, last)
    ensures Minified(RenderItems(items, true, d) + z) != RenderItems(items, false, d) + plain
    decreases items
  {
    hide Minified, Render, Closes, Printable, Leaks;
    var tail := items[1..];
    ItemsText(items, true, d, z);
    ItemsText(items, false, d, plain);
    if tail == [] {
      Differ(items[0], d, z, plain, last);
    } else {
      var x, y := RenderItems(tail, true, d) + z, RenderItems(tail, false, d) + plain;
      if Closes(items[0], false) {
        Keep(items[0], true, d, [','] + ([' '] + x), false);
        KeepChar(',', [' '] + x);
        DropAll([' '], x);
        DifferItems(tail, d, z, plain, last);
        Cancel([','], Minified(x), y);
        Cancel(Render(items[0], false, d), [','] + Minified(x), [','] + y);
      } else {
        ItemsStart(tail, d, plain);
        LeakHere([' '] + x, y);
        LeakBehind(',', [' '] + x, y);
        Differ(items[0], d, [','] + ([' '] + x), [','] + y, false);
      }
    }
  }

  lemma {:induction false} ItemsStart(items: seq<Json>, d: nat, z: string)
    requires PrintableItems(items) && items != []
    ensures RenderItems(items, false, d) + z != "" && (RenderItems(items, false, d) + z)[0] > ' '
  {
    PrintParse.RenderStarts(items[0], false, d);
  }

  lemma {:induction false} DifferObject(members: seq<Member>, d: nat, rest: string, plain: string)
    requires PrintableMembers(members) && !ClosesMembers(members)
    ensures Minified(Render(Object(members), true, d) + rest) != Render(Object(members), false, d) + plain
    decreases members, 1
  {
    hide Minified, Render, RenderMembers, ClosesMembers, PrintableMembers;
    var z := Tabs(d) + (['}'] + rest);
    var x := RenderMembers(members, true, d + 1) + z;
    ObjectText(members, true, d, rest);
    ObjectText(members, false, d, plain);
    KeepChar('{', ['\n'] + x);
    DropAll(['\n'], x);
    DifferMembers(members, d + 1, z, ['}'] + plain);
    Cancel(['{'], Minified(x), RenderMembers(members, false, d + 1) + (['}'] + plain));
  }

  lemma {:induction false} DifferMembers(members: seq<Member>, d: nat, z: string, plain: string)
    requires PrintableMembers(members) && !ClosesMembers(members) && plain != "" && plain[0] > ' '
    ensures Minified(RenderMembers(members, true, d) + z) != RenderMembers(members, false, d) + plain
    decreases members, 0
  {
    hide Minified, RenderMember, RenderMembers, ClosesMember, Printable;
    var more, tail := |members| > 1, members[1..];
    var x, y := RenderMembers(tail, true, d) + z, RenderMembers(tail, false, d) + plain;
    PrintParse.MembersText(members, true, d, z);
    PrintParse.MembersText(members, false, d, plain);
    if ClosesMember(members[0]) {
      KeepMember(members[0], true, d, more, x);
      DifferMembers(tail, d, z, plain);
      Cancel(RenderMember(members[0], false, d, more), Minified(x), y);
    } else {
      MembersStart(tail, d, plain);
      DifferMember(members[0], d, more, x, y);
    }
  }

  lemma {:induction false} MembersStart(members: seq<Member>, d: nat, plain: string)
    requires plain != "" && plain[0] > ' '
    ensures RenderMembers(members, false, d) + plain != "" && (RenderMembers(members, false, d) + plain)[0] > ' '
  {
    if members == [] {
      NoPrefix(plain);
    } else {
      var start := PrintParse.MembersStart(members, false, d, plain);
      NoPrefix(start);
    }
  }

  lemma {:induction false} DifferMember(m: Member, d: nat, more: bool, x: string, y: string)
    requires Printable(m.item) && !ClosesMember(m) && y != "" && y[0] > ' '
    ensures Minified(RenderMember(m, true, d, more) + x) != RenderMember(m, false, d, more) + y
    decreases m
  {
    hide Minified, Render, Quoted, RenderMember, Closes, Printable, EndsWithBackslash, Leaks;
    var after, behind := LineEnd(true, more) + x, LineEnd(false, more) + y;
    var value, plain := Render(m.item, true, d) + after, Render(m.item, false, d) + behind;
    MemberText(m, true, d, more, x);
    MemberText(m, false, d, more, y);
    DropAll(Tabs(d), Quoted(m.name) + ([':'] + (['\t'] + value)));
    if EndsWithBackslash(m.name) {
      PrintParse.RenderStarts(m.item, false, d);
      PrintParse.StartsConcat(Render(m.item, false, d), behind);
      LeakHere(['\t'] + value, plain);
      LeakBehind(':', ['\t'] + value, plain);
      LeakQuoted(m.name, [':'] + (['\t'] + value), [':'] + plain);
    } else {
      LineLeaks(more, x, y);
      KeepQuoted(m.name, [':'] + (['\t'] + value));
      KeepChar(':', ['\t'] + value);
      DropAll(['\t'], value);
      Differ(m.item, d, after, behind, false);
      Cancel([':'], Minified(value), plain);
      Cancel(Quoted(m.name), [':'] + Minified(value), [':'] + plain);
    }
  }

  lemma LineLeaks(more: bool, x: string, y: string)
    requires y != "" && y[0] > ' '
    ensures Leaks(LineEnd(true, more) + x, LineEnd(false, more) + y)
  {
    hide Leaks;
    LeakHere(['\n'] + x, y);
    if more {
      assert LineEnd(true, more) + x == [','] + (['\n'] + x) && LineEnd(false, more) == [','];
      LeakBehind(',', ['\n'] + x, y);
    } else {
      assert LineEnd(true, more) == ['\n'] && LineEnd(false, more) == "";
      NoPrefix(y);
    }
  }

  // ---------------------------------------------------------------- the theorem

  /** Minifying the formatted text of a tree gives its unformatted text, if and only if
      every string that ends with a backslash has nothing but closing brackets behind. */
  lemma {:induction false} MinifyUnformats(j: Json)
    requires Printable(j)
    ensures Minified(Render(j, true, 0)) == Render(j, false, 0) <==> Closes(j, true)
  {
    hide Minified, Render, Closes, Printable;
    NoSuffix(Render(j, true, 0));
    NoSuffix(Render(j, false, 0));
    MinifiedStep("");
    if Closes(j, true) {
      Keep(j, true, 0, "", true);
    } else {
      Differ(j, 0, "", "", true);
    }
  }

  /** A tree whose formatted text is not minified to its unformatted text: the array of
      a lone backslash and an empty string. */
  lemma BackslashBreaks()
    ensures var j := Array([String("\\"), String("")]);
      Printable(j) && Representable(j) && Minified(Render(j, true, 0)) != Render(j, false, 0)
  {
    var j := Array([String("\\"), String("")]);
    assert !Closes(String("\\"), false);
    assert !ClosesItems([String("\\"), String("")], true);
    MinifyUnformats(j);
  }
}
