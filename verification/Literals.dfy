/** The string literals of section 7 of RFC 8259 as the parser reads them, written with
    any of the escape sequences, not only those that the printer chooses. */
module Literals {
  import opened Text
  import opened Json
  import opened Strings
  import opened Parsing
  import opened StringCodec

  /** A piece of a literal: a character as it is, an escape sequence of one letter, or
      the `\u` escape sequence of a code point. */
  datatype Piece = Plain(c: char) | Short(letter: nat) | Point(codepoint: nat, escape: string)

  /** The letters of the short escape sequences, and what each stands for. */
  const LETTERS := ['\"', '\\', '/', 'b', 'f', 'n', 'r', 't']
  const MEANINGS := ['\"', '\\', '/', 0x08 as char, 0x0c as char, '\n', '\r', '\t']

  predicate Legal(p: Piece)
  {
    match p
    case Plain(c) => c != '\"' && c != '\\'
    case Short(letter) => letter < |LETTERS|
    case Point(codepoint, escape) => EscapesPoint(escape, codepoint)
  }

  /** How the piece is written. */
  function Written(p: Piece): string
    requires Legal(p)
  {
    match p
    case Plain(c) => [c]
    case Short(letter) => ['\\', LETTERS[letter]]
    case Point(_, escape) => escape
  }

  /** What it stands for, in UTF-8. */
  function Meant(p: Piece): string
    requires Legal(p)
  {
    match p
    case Plain(c) => [c]
    case Short(letter) => [MEANINGS[letter]]
    case Point(codepoint, _) => Utf8(codepoint)
  }

  predicate AllLegal(ps: seq<Piece>)
  {
    forall k :: 0 <= k < |ps| ==> Legal(ps[k])
  }

  function AllWritten(ps: seq<Piece>): string
    requires AllLegal(ps)
  {
    if ps == [] then "" else Written(ps[0]) + AllWritten(ps[1..])
  }

  function AllMeant(ps: seq<Piece>): string
    requires AllLegal(ps)
  {
    if ps == [] then "" else Meant(ps[0]) + AllMeant(ps[1..])
  }

  // ---------------------------------------------------------------- one piece

  lemma ShortMeans(letter: nat)
    requires letter < |LETTERS|
    ensures Simple(LETTERS[letter]) == Some(MEANINGS[letter]) && LETTERS[letter] != 'u'
  {
    assert forall i :: 0 <= i < |LETTERS| ==> Simple(LETTERS[i]) == Some(MEANINGS[i]) && LETTERS[i] != 'u';
  }

  /** There are no others. */
  lemma NoOther(c: char)
    ensures Simple(c).Some? <==> c in LETTERS
  {
    assert LETTERS[0] == '\"' && LETTERS[1] == '\\' && LETTERS[2] == '/' && LETTERS[3] == 'b';
    assert LETTERS[4] == 'f' && LETTERS[5] == 'n' && LETTERS[6] == 'r' && LETTERS[7] == 't';
  }

  lemma DigitsPlain(t: string, n: nat)
    requires Spells(t, n)
    ensures forall i :: 0 <= i < |t| ==> t[i] != '\\' && t[i] != '\"'
  {
    hide Writes;
    forall i | 0 <= i < |t|
      ensures t[i] != '\\' && t[i] != '\"'
    {
      HexValueExact(t[i], if i == 0 then n / 0x1000 else if i == 1 then n / 0x100 % 0x10
                          else if i == 2 then n / 0x10 % 0x10 else n % 0x10);
    }
  }

  /** The first pass goes over a `\u` escape sequence. */
  lemma {:induction false} ScanUnicode(digits: string, n: nat, v: string)
    requires Spells(digits, n) && Scan(v).Some?
    ensures Scan("\\u" + digits + v) == Some(6 + Scan(v).value)
  {
    hide Scan, Spells;
    var t := "\\u" + digits + v;
    DigitsPlain(digits, n);
    assert |digits| == 4 by {
      SpellsFour(digits, n);
    }
    ScanPlain(digits, v);
    assert t[2..] == digits + v;
    ScanUnfold(t);
  }

  lemma SpellsFour(digits: string, n: nat)
    requires Spells(digits, n)
    ensures |digits| == 4
  {
  }

  lemma {:induction false} ScanPoint(codepoint: nat, escape: string, v: string)
    requires EscapesPoint(escape, codepoint) && Scan(v).Some?
    ensures Scan(escape + v) == Some(|escape| + Scan(v).value)
  {
    hide Scan, Spells;
    if codepoint < 0x10000 {
      ScanUnicode(escape[2..], codepoint, v);
      assert "\\u" + escape[2..] + v == escape + v;
    } else {
      var high, low := escape[2..6], escape[8..];
      ScanUnicode(low, 0xDC00 + (codepoint - 0x10000) % 0x400, v);
      ScanUnicode(high, 0xD800 + (codepoint - 0x10000) / 0x400, "\\u" + low + v);
      assert "\\u" + high + ("\\u" + low + v) == escape + v;
    }
  }

  lemma ScanInside(u: string)
    requires Scan(u).Some?
    ensures Scan(u).value < |u|
  {
  }

  lemma {:induction false} PointReads(codepoint: nat, escape: string, u: string)
    requires EscapesPoint(escape, codepoint) && Scan(u).Some?
    ensures var t, n := escape + u, |escape| + Scan(u).value;
      Scan(t) == Some(n) && n < |t| && Unescape(t, n) == Prepend(Utf8(codepoint), Unescape(u, Scan(u).value))
  {
    hide Scan, Unescape, EscapesPoint, Utf8, Utf16Literal;
    var t, n := escape + u, |escape| + Scan(u).value;
    ScanInside(u);
    ScanPoint(codepoint, escape, u);
    PointHead(codepoint, escape);
    Utf16Reads(codepoint, escape, u, n);
    assert t[|escape|..] == u && t[0] == escape[0] && t[1] == escape[1];
    UnescapeUnfold(t, n);
  }

  /** Both passes over one piece. */
  lemma {:induction false} PieceReads(p: Piece, u: string)
    requires Legal(p) && Scan(u).Some?
    ensures Scan(Written(p) + u) == Some(|Written(p)| + Scan(u).value)
    ensures Unescape(Written(p) + u, |Written(p)| + Scan(u).value) == Prepend(Meant(p), Unescape(u, Scan(u).value))
  {
    hide Scan, Unescape, Simple, EscapesPoint, Utf8;
    var t, n := Written(p) + u, |Written(p)| + Scan(u).value;
    ScanInside(u);
    match p
    case Plain(c) =>
      TailOfConcat([c], u);
      ScanUnfold(t);
      UnescapeUnfold(t, n);
    case Short(letter) =>
      ShortMeans(letter);
      DropPair('\\', LETTERS[letter], u);
      ScanUnfold(t);
      UnescapeUnfold(t, n);
    case Point(codepoint, escape) =>
      PointReads(codepoint, escape, u);
  }

  lemma PointHead(codepoint: nat, escape: string)
    requires EscapesPoint(escape, codepoint)
    ensures |escape| >= 6 && escape[0] == '\\' && escape[1] == 'u'
  {
    assert escape[..2] == "\\u";
    assert escape[0] == escape[..2][0] && escape[1] == escape[..2][1];
  }

  // ---------------------------------------------------------------- whole literals

  lemma {:induction false} PiecesRead(ps: seq<Piece>, u: string)
    requires AllLegal(ps) && Scan(u).Some?
    ensures Scan(AllWritten(ps) + u) == Some(|AllWritten(ps)| + Scan(u).value)
    ensures Unescape(AllWritten(ps) + u, |AllWritten(ps)| + Scan(u).value)
      == Prepend(AllMeant(ps), Unescape(u, Scan(u).value))
  {
    hide Scan, Unescape, Legal, Written, Meant;
    if ps == [] {
      NoPrefix(u);
      NoPrefix(Unescape(u, Scan(u).value).out);
    } else {
      PiecesRead(ps[1..], u);
      PieceReads(ps[0], AllWritten(ps[1..]) + u);
      Assoc(Written(ps[0]), AllWritten(ps[1..]), u);
      Assoc(Meant(ps[0]), AllMeant(ps[1..]), Unescape(u, Scan(u).value).out);
    }
  }

  /** A literal of any pieces, whatever is behind it, is read as the string of their
      meanings. */
  lemma {:induction false} StringReads(ps: seq<Piece>, rest: string)
    requires AllLegal(ps)
    ensures ParseString("\"" + AllWritten(ps) + "\"" + rest) == Parsed(AllMeant(ps), rest)
  {
    hide Scan, Unescape, AllWritten, AllMeant, AllLegal;
    var u := "\"" + rest;
    var t := "\"" + AllWritten(ps) + "\"" + rest;
    EmptyReads(rest);
    PiecesRead(ps, u);
    assert t[1..] == AllWritten(ps) + u && t[0] == '\"';
    assert (AllWritten(ps) + u)[|AllWritten(ps)| + 1..] == rest;
    assert AllMeant(ps) + "" == AllMeant(ps);
  }

  /** So it is where a value is expected. */
  lemma {:induction false} LiteralReads(ps: seq<Piece>, rest: string, depth: nat, strtod: Strtod)
    requires AllLegal(ps)
    ensures ParseValue("\"" + AllWritten(ps) + "\"" + rest, depth, strtod) == Parsed(String(AllMeant(ps)), rest)
  {
    hide AllWritten, AllMeant, AllLegal, ParseLiteral;
    StringReads(ps, rest);
    StringFirst("\"" + AllWritten(ps) + "\"" + rest, depth, strtod);
  }

  lemma {:induction false} StringFirst(t: string, depth: nat, strtod: Strtod)
    requires t != "" && t[0] == '\"'
    ensures ParseValue(t, depth, strtod) ==
      (var r := ParseLiteral(t[1..]); if r.None? then Failed else Parsed(String(r.value.0), r.value.1))
  {
    hide ParseLiteral;
    assert "null"[0] == 'n' && "false"[0] == 'f' && "true"[0] == 't';
  }

  /** Whatever stops the second pass behind some pieces refuses the literal. */
  lemma {:induction false} StopRefuses(ps: seq<Piece>, u: string, depth: nat, strtod: Strtod)
    requires AllLegal(ps) && Scan(u).Some? && !Unescape(u, Scan(u).value).ok
    ensures ParseValue("\"" + (AllWritten(ps) + u), depth, strtod).Failed?
  {
    hide Scan, Unescape, AllWritten, AllMeant, AllLegal, ParseValue;
    var t := "\"" + (AllWritten(ps) + u);
    PiecesRead(ps, u);
    assert t[1..] == AllWritten(ps) + u && t[0] == '\"';
    StringFirst(t, depth, strtod);
  }

  /** Behind any pieces a backslash before another letter refuses the literal. */
  lemma {:induction false} OtherLetterRefused(ps: seq<Piece>, c: char, v: string, depth: nat, strtod: Strtod)
    requires AllLegal(ps) && c !in LETTERS && c != 'u' && Scan(v).Some?
    ensures ParseValue("\"" + AllWritten(ps) + ['\\', c] + v, depth, strtod).Failed?
  {
    hide ParseValue, Scan, Unescape, AllWritten, AllMeant, Simple;
    var u := ['\\', c] + v;
    NoOther(c);
    DropPair('\\', c, v);
    ScanUnfold(u);
    ScanInside(v);
    StopsAt(u, Scan(u).value);
    StopRefuses(ps, u, depth, strtod);
    assert "\"" + AllWritten(ps) + ['\\', c] + v == "\"" + (AllWritten(ps) + u);
  }

  lemma StopsAt(u: string, n: nat)
    requires 0 < n < |u| && u[0] == '\\' && u[1] != 'u' && Simple(u[1]).None?
    ensures Unescape(u, n) == Unescaped("", false)
  {
  }

  /** What may follow a high surrogate. */
  predicate LowFollows(v: string, m: nat)
  {
    |v| >= 6 && v[..2] == "\\u" && LowSurrogate(m) && Spells(v[2..6], m)
  }

  /** So does a low surrogate on its own, or a high one that no low one follows. */
  lemma {:induction false} LoneSurrogateRefused(ps: seq<Piece>, digits: string, n: nat, v: string, depth: nat,
                                                strtod: Strtod)
    requires AllLegal(ps) && Spells(digits, n) && Scan(v).Some?
    requires LowSurrogate(n) || (HighSurrogate(n) && forall m :: !LowFollows(v, m))
    ensures ParseValue("\"" + AllWritten(ps) + "\\u" + digits + v, depth, strtod).Failed?
  {
    hide ParseValue, Scan, Unescape, AllWritten, AllMeant, Spells, LowFollows, Utf16Literal;
    var u := "\\u" + digits + v;
    SpellsFour(digits, n);
    ScanUnicode(digits, n, v);
    ScanInside(v);
    ScanInside(u);
    Lone(u, digits, n, v);
    StopsThere(u, Scan(u).value);
    StopRefuses(ps, u, depth, strtod);
    assert "\"" + AllWritten(ps) + "\\u" + digits + v == "\"" + (AllWritten(ps) + u);
  }

  lemma StopsThere(u: string, n: nat)
    requires 0 < n < |u| && u[0] == '\\' && u[1] == 'u' && Utf16Literal(u, n).None?
    ensures Unescape(u, n) == Unescaped("", false)
  {
  }

  lemma LoneDigits(u: string, digits: string, n: nat, v: string)
    requires Spells(digits, n) && u == "\\u" + digits + v
    ensures |u| == 6 + |v| && Hex4(u[2..6]) == n
    ensures |v| >= 6 ==> u[6] == v[0] && u[7] == v[1] && u[8..12] == v[2..6]
  {
    hide Spells, Hex4, AllHex;
    SpellsFour(digits, n);
    assert u[2..6] == digits;
    Hex4Exact(digits, n);
    assert |v| >= 6 ==> u[8..12] == v[2..6];
  }

  lemma NoneFollows(v: string, m: nat)
    requires |v| >= 6 && v[0] == '\\' && v[1] == 'u' && m == Hex4(v[2..6]) && !LowFollows(v, m)
    ensures !LowSurrogate(m)
  {
    hide Hex4, AllHex, Spells;
    assert v[..2] == "\\u";
    Hex4Exact(v[2..6], m);
  }

  lemma Unpaired(u: string, n: int)
    requires 6 <= n < |u|
    requires var first := Hex4(u[2..6]);
      LowSurrogate(first)
      || (HighSurrogate(first) && (n < 12 || u[6] != '\\' || u[7] != 'u' || !LowSurrogate(Hex4(u[8..12]))))
    ensures Utf16Literal(u, n).None?
  {
    hide Hex4, Utf8;
  }

  lemma Lone(u: string, digits: string, n: nat, v: string)
    requires Spells(digits, n) && u == "\\u" + digits + v && Scan(v).Some? && Scan(v).value < |v|
    requires Scan(u) == Some(6 + Scan(v).value)
    requires LowSurrogate(n) || (HighSurrogate(n) && forall m :: !LowFollows(v, m))
    ensures Utf16Literal(u, Scan(u).value).None?
  {
    hide Scan, Spells, Hex4, AllHex, Utf16Literal, LowFollows;
    LoneDigits(u, digits, n, v);
    if HighSurrogate(n) && Scan(v).value >= 6 && v[0] == '\\' && v[1] == 'u' {
      NoneFollows(v, Hex4(v[2..6]));
    }
    Unpaired(u, Scan(u).value);
  }

  /** The letter e with an acute accent, with the digits of either case. */
  lemma EitherCase(depth: nat, strtod: Strtod)
    ensures Hex4("00E9") == Hex4("00e9") == 0xE9
    ensures ParseValue("\"\\u00E9\"", depth, strtod) == Parsed(String([0xC3 as char, 0xA9 as char]), "")
  {
    hide ParseValue, Hex4, AllWritten, AllMeant, Legal, Written, Meant;
    var p := Point(0xE9, "\\u00E9");
    AcuteRead();
    AcuteSpelled();
    OnePiece(p);
    LiteralReads([p], "", depth, strtod);
    assert "\"" + "\\u00E9" + "\"" + "" == "\"\\u00E9\"";
  }

  lemma AcuteDigits()
    ensures Spells("00E9", 0xE9) && Spells("00e9", 0xE9)
  {
  }

  lemma AcuteRead()
    ensures Hex4("00E9") == Hex4("00e9") == 0xE9
  {
    hide Hex4, Spells;
    AcuteDigits();
    Hex4Exact("00E9", 0xE9);
    Hex4Exact("00e9", 0xE9);
  }

  lemma AcuteSpelled()
    ensures var p := Point(0xE9, "\\u00E9");
      Legal(p) && Written(p) == "\\u00E9" && Meant(p) == [0xC3 as char, 0xA9 as char]
  {
    hide Spells;
    AcuteDigits();
    assert "\\u00E9"[2..] == "00E9" && "\\u00E9"[..2] == "\\u";
  }

  lemma OnePiece(p: Piece)
    requires Legal(p)
    ensures AllLegal([p]) && AllWritten([p]) == Written(p) && AllMeant([p]) == Meant(p)
  {
    hide Legal, Written, Meant;
    assert AllWritten([p]) == Written(p) + "" && AllMeant([p]) == Meant(p) + "";
  }
}
