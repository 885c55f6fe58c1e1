/** What a comment takes with it when a text is minified: itself and nothing else, at
    the start of a text, behind printed values and between any tokens. */
module MinifyComments {
  import opened Text
  import opened Json
  import opened Rendering
  import opened Minify
  import opened MinifyPrint
  import Parsing
  import PrintParse

  // ---------------------------------------------------------------- one comment

  lemma {:induction false} LineEnds(c: string, b: string)
    requires '\n' !in c
    ensures AfterLine(c + "\n" + b) == b && AfterLine(c) == ""
  {
    var t := c + "\n" + b;
    if c == "" {
      assert t == ['\n'] + b;
    } else {
      LineEnds(c[1..], b);
      assert t[1..] == c[1..] + "\n" + b;
    }
  }

  /** A one-line comment goes up to its line end and takes that, or up to the end. */
  lemma {:induction false} LineVanishes(c: string, b: string)
    requires '\n' !in c
    ensures Minified("//" + c + "\n" + b) == Minified(b)
    ensures Minified("//" + c) == ""
  {
    hide Minified, AfterLine;
    LineEnds(c, b);
    MinifiedStep("//" + c + "\n" + b);
    MinifiedStep("//" + c);
    MinifiedStep("");
    assert ("//" + c + "\n" + b)[2..] == c + "\n" + b && ("//" + c)[2..] == c;
  }

  lemma {:induction false} CommentEnds(c: string, b: string)
    requires Unclosed(c)
    ensures AfterComment(c + "*/" + b) == b && AfterComment(c) == ""
  {
    hide AfterComment;
    var t := c + "*/" + b;
    CommentStep(t);
    if c == "" {
      CommentStep("*");
      assert t[2..] == b;
    } else {
      CommentStep(c);
      CommentEnds(c[1..], b);
      assert t[1..] == c[1..] + "*/" + b && t[0] == c[0];
      assert |c| > 1 ==> t[1] == c[1];
    }
  }

  /** A multi-line comment goes up to the first star and slash behind its start, which
      the last star of its text may stand before, or up to the end. */
  lemma {:induction false} CommentVanishes(c: string, b: string)
    requires Unclosed(c)
    ensures Minified("/*" + c + "*/" + b) == Minified(b)
    ensures Minified("/*" + c) == ""
  {
    hide Minified, AfterComment;
    CommentEnds(c, b);
    MinifiedStep("/*" + c + "*/" + b);
    MinifiedStep("/*" + c);
    MinifiedStep("");
    assert ("/*" + c + "*/" + b)[2..] == c + "*/" + b && ("/*" + c)[2..] == c;
  }

  /** A slash that starts no comment is dropped alone. */
  lemma {:induction false} SlashVanishes(b: string)
    requires b != "" ==> b[0] != '/' && b[0] != '*'
    ensures Minified("/" + b) == Minified(b)
  {
    hide Minified;
    MinifiedStep("/" + b);
    assert ("/" + b)[1..] == b;
  }

  // ---------------------------------------------------------------- behind a value

  /** Behind the text of a value, in either format, a comment takes nothing of it. */
  lemma {:induction false} BehindValue(j: Json, format: bool, d: nat, c: string, b: string)
    requires Printable(j) && Closes(j, false)
    ensures '\n' !in c ==> Minified(Render(j, format, d) + ("//" + c + "\n" + b)) == Render(j, false, d) + Minified(b)
    ensures '\n' !in c ==> Minified(Render(j, format, d) + ("//" + c)) == Render(j, false, d)
    ensures Unclosed(c) ==> Minified(Render(j, format, d) + ("/*" + c + "*/" + b)) == Render(j, false, d) + Minified(b)
    ensures Unclosed(c) ==> Minified(Render(j, format, d) + ("/*" + c)) == Render(j, false, d)
  {
    hide Minified, Render, Closes, Unclosed, Printable;
    NoSuffix(Render(j, false, d));
    if '\n' !in c {
      LineVanishes(c, b);
      Keep(j, format, d, "//" + c + "\n" + b, false);
      Keep(j, format, d, "//" + c, false);
    }
    if Unclosed(c) {
      CommentVanishes(c, b);
      Keep(j, format, d, "/*" + c + "*/" + b, false);
      Keep(j, format, d, "/*" + c, false);
    }
  }

  // ---------------------------------------------------------------- between tokens

  /** A part of a text with comments: characters that are kept, a string literal as the
      printer writes it, a blank, or a comment with what stands between its marks. */
  datatype Part = Word(w: string) | Literal(s: string) | Blank(c: char) | Line(text: string) | Block(text: string)

  predicate Legal(p: Part)
  {
    match p
    case Word(w) => forall i :: 0 <= i < |w| ==> w[i] !in " \t\r\n/\""
    case Literal(s) => !EndsWithBackslash(s)
    case Blank(c) => c in " \t\r\n"
    case Line(c) => '\n' !in c
    case Block(c) => Unclosed(c)
  }

  function Spelled(p: Part): string
  {
    match p
    case Word(w) => w
    case Literal(s) => Quoted(s)
    case Blank(c) => [c]
    case Line(c) => "//" + c + "\n"
    case Block(c) => "/*" + c + "*/"
  }

  /** What is left of it. */
  function Token(p: Part): string
  {
    if p.Word? || p.Literal? then Spelled(p) else ""
  }

  function AllSpelled(ps: seq<Part>): string
  {
    if ps == [] then "" else Spelled(ps[0]) + AllSpelled(ps[1..])
  }

  function AllTokens(ps: seq<Part>): string
  {
    if ps == [] then "" else Token(ps[0]) + AllTokens(ps[1..])
  }

  lemma BlanksDrop(c: char)
    ensures c in " \t\r\n" <==> Droppable(c)
  {
    var blanks := " \t\r\n";
    assert blanks[0] == ' ' && blanks[1] == '\t' && blanks[2] == '\r' && blanks[3] == '\n';
  }

  lemma KeptIs(c: char)
    requires c !in " \t\r\n/\""
    ensures Kept(c)
  {
    var others := " \t\r\n/\"";
    assert others[0] == ' ' && others[1] == '\t' && others[2] == '\r' && others[3] == '\n';
    assert others[4] == '/' && others[5] == '\"';
  }

  lemma {:induction false} PartMinified(p: Part, x: string)
    requires Legal(p)
    ensures Minified(Spelled(p) + x) == Token(p) + Minified(x)
  {
    hide Minified, Quoted, EndsWithBackslash, Unclosed;
    NoPrefix(Minified(x));
    match p
    case Word(w) =>
      forall i | 0 <= i < |w|
        ensures Kept(w[i])
      {
        KeptIs(w[i]);
      }
      KeepAll(w, x);
    case Literal(s) => KeepQuoted(s, x);
    case Blank(c) =>
      BlanksDrop(c);
      DropAll([c], x);
    case Line(c) => LineVanishes(c, x);
    case Block(c) => CommentVanishes(c, x);
  }

  /** A text of any parts is minified to its tokens. */
  lemma {:induction false} PartsMinified(ps: seq<Part>)
    requires forall k :: 0 <= k < |ps| ==> Legal(ps[k])
    ensures Minified(AllSpelled(ps)) == AllTokens(ps)
  {
    hide Minified, Legal, Spelled, Token;
    if ps == [] {
      MinifiedStep("");
    } else {
      PartMinified(ps[0], AllSpelled(ps[1..]));
      PartsMinified(ps[1..]);
    }
  }

  /** So blanks and comments anywhere between the tokens of a printed tree vanish, and
      what is left is parsed as that tree. */
  lemma {:induction false} CommentedParses(ps: seq<Part>, j: Json, strtod: Parsing.Strtod)
    requires forall k :: 0 <= k < |ps| ==> Legal(ps[k])
    requires AllTokens(ps) == Render(j, false, 0)
    requires Representable(j) && Printable(j) && PrintParse.ReadsInts(strtod)
    ensures Minified(AllSpelled(ps)) == Render(j, false, 0)
    ensures Parsing.Parse(Minified(AllSpelled(ps)) + [NUL], true, strtod) ==
            if PrintParse.Nesting(j) <= Parsing.NESTING_LIMIT then Parsing.Parsed(j, [NUL]) else Parsing.Failed
  {
    hide Minified, Render, AllSpelled, AllTokens, Legal, Parsing.Parse, PrintParse.Nesting, Representable, Printable;
    PartsMinified(ps);
    PrintParse.ParseUndoesPrint(j, false, true, strtod);
  }

  /** A comment in front of an array leaves the array. */
  lemma LineBeforeArray()
    ensures Minified("//x\n[1]") == "[1]"
  {
    hide Minified;
    LineVanishes("x", "[1]");
    assert "//x\n[1]" == "//" + "x" + "\n" + "[1]";
    KeepAll("[1]", "");
    NoSuffix("[1]");
    MinifiedStep("");
  }
}
