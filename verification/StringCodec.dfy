/** What reading and writing string literals have to do with each other: the decoders
    undo the encoders, for every string and every code point. */
module StringCodec {
  import opened Text
  import opened Json
  import opened Rendering
  import opened Strings

  // ---------------------------------------------------------------- UTF-8

  function Tail(c: char): (r: Option<nat>)
    ensures r.Some? ==> r.value < 0x40
  {
    if 0x80 <= c as int < 0xC0 then Some(c as int - 0x80) else None
  }

  /** A reader of one code point, by the table in section 3 of RFC 3629. */
  function DecodeUtf8(s: string): Option<nat>
  {
    if |s| == 1 && s[0] as int < 0x80 then Some(s[0] as int)
    else if |s| == 2 && 0xC0 <= s[0] as int < 0xE0 && Tail(s[1]).Some? then
      Some((s[0] as int - 0xC0) * 0x40 + Tail(s[1]).value)
    else if |s| == 3 && 0xE0 <= s[0] as int < 0xF0 && Tail(s[1]).Some? && Tail(s[2]).Some? then
      Some((s[0] as int - 0xE0) * 0x1000 + Tail(s[1]).value * 0x40 + Tail(s[2]).value)
    else if |s| == 4 && 0xF0 <= s[0] as int < 0xF8 && Tail(s[1]).Some? && Tail(s[2]).Some? && Tail(s[3]).Some? then
      Some((s[0] as int - 0xF0) * 0x40000 + Tail(s[1]).value * 0x1000 + Tail(s[2]).value * 0x40 + Tail(s[3]).value)
    else None
  }

  lemma Utf8Decodes(codepoint: nat)
    requires codepoint < 0x110000
    ensures DecodeUtf8(Utf8(codepoint)) == Some(codepoint)
  {
    var high := codepoint / 0x40;
    assert codepoint / 0x1000 == high / 0x40 && codepoint / 0x40000 == high / 0x40 / 0x40;
    assert codepoint == high * 0x40 + codepoint % 0x40;
    assert high == high / 0x40 * 0x40 + high % 0x40;
    assert high / 0x40 == high / 0x40 / 0x40 * 0x40 + high / 0x40 % 0x40;
  }

  // ---------------------------------------------------------------- UTF-16

  lemma HexDigitValue(d: nat)
    requires d < 16
    ensures HexValue(HexDigit(d)) == Some(d) && HexDigit(d) != '\\' && HexDigit(d) != '\"'
  {
  }

  lemma HexReads(n: nat)
    requires n < 0x10000
    ensures Hex4(HexText(n)) == n
    ensures forall i :: 0 <= i < 4 ==> HexText(n)[i] != '\\' && HexText(n)[i] != '\"'
  {
    hide HexDigit, HexValue;
    HexDigitValue(n / 0x1000);
    HexDigitValue(n / 0x100 % 0x10);
    HexDigitValue(n / 0x10 % 0x10);
    HexDigitValue(n % 0x10);
    assert AllHex(HexText(n));
    assert n / 0x100 / 0x10 == n / 0x1000 && n / 0x10 / 0x10 == n / 0x100;
  }

  /** The text is an escape sequence of the code point, section 7 of RFC 8259: one `\u`
      or a surrogate pair of them, with digits of either case. */
  predicate EscapesPoint(t: string, codepoint: nat)
  {
    if codepoint < 0x10000 then
      !HighSurrogate(codepoint) && !LowSurrogate(codepoint)
      && |t| == 6 && t[..2] == "\\u" && Spells(t[2..], codepoint)
    else
      && codepoint < 0x110000 && |t| == 12
      && t[..2] == "\\u" && Spells(t[2..6], 0xD800 + (codepoint - 0x10000) / 0x400)
      && t[6..8] == "\\u" && Spells(t[8..], 0xDC00 + (codepoint - 0x10000) % 0x400)
  }

  /** Reading it yields the UTF-8 encoding of the code point. */
  lemma Utf16Reads(codepoint: nat, escape: string, rest: string, n: int)
    requires EscapesPoint(escape, codepoint) && |escape| <= n < |escape + rest|
    ensures Utf16Literal(escape + rest, n) == Some(Literal(Utf8(codepoint), |escape|))
  {
    hide Hex4, Spells, Utf8;
    var t := escape + rest;
    if codepoint < 0x10000 {
      assert t[2..6] == escape[2..];
      Hex4Exact(t[2..6], codepoint);
    } else {
      var high, low := 0xD800 + (codepoint - 0x10000) / 0x400, 0xDC00 + (codepoint - 0x10000) % 0x400;
      assert t[2..6] == escape[2..6] && t[8..12] == escape[8..] && t[6] == escape[6..8][0] && t[7] == escape[6..8][1];
      Hex4Exact(t[2..6], high);
      Hex4Exact(t[8..12], low);
      assert high % 0x400 == (codepoint - 0x10000) / 0x400;
      assert low % 0x400 == (codepoint - 0x10000) % 0x400;
    }
  }

  // ---------------------------------------------------------------- literals

  /** Both passes over one escaped character. */
  lemma {:induction false} EscapedReads(c: char, u: string)
    requires Scan(u).Some?
    ensures Scan(Escaped(c) + u) == Some(|Escaped(c)| + Scan(u).value)
    ensures Unescape(Escaped(c) + u, |Escaped(c)| + Scan(u).value) == Prepend([c], Unescape(u, Scan(u).value))
  {
    hide Scan, Unescape, Letter;
    if Letter(c).Some? {
      LetterReads(c, u);
    } else if c < ' ' {
      ControlReads(c, u);
    } else {
      PlainReads(c, u);
    }
  }

  lemma {:induction false} PlainReads(c: char, u: string)
    requires Scan(u).Some? && c >= ' ' && Letter(c).None?
    ensures Scan([c] + u) == Some(1 + Scan(u).value)
    ensures Unescape([c] + u, 1 + Scan(u).value) == Prepend([c], Unescape(u, Scan(u).value))
  {
    hide Scan, Unescape, Simple, Letter;
    PlainLetter(c);
    var t := [c] + u;
    TailOfConcat([c], u);
    ScanUnfold(t);
    UnescapeUnfold(t, 1 + Scan(u).value);
  }

  lemma PlainLetter(c: char)
    requires Letter(c).None?
    ensures c != '\\' && c != '\"'
  {
  }

  lemma {:induction false} LetterReads(c: char, u: string)
    requires Scan(u).Some? && Letter(c).Some?
    ensures var t := ['\\', Letter(c).value] + u;
      && Scan(t) == Some(2 + Scan(u).value)
      && Unescape(t, 2 + Scan(u).value) == Prepend([c], Unescape(u, Scan(u).value))
  {
    hide Scan, Unescape, Letter;
    DropPair('\\', Letter(c).value, u);
    LetterStep(['\\', Letter(c).value] + u, u, c);
  }

  lemma {:induction false} LetterStep(t: string, u: string, c: char)
    requires Scan(u).Some? && Letter(c).Some?
    requires |t| == |u| + 2 && t[0] == '\\' && t[1] == Letter(c).value && t[2..] == u
    ensures Scan(t) == Some(2 + Scan(u).value)
    ensures Unescape(t, 2 + Scan(u).value) == Prepend([c], Unescape(u, Scan(u).value))
  {
    hide Scan, Unescape, Simple, Letter;
    LetterSimple(c);
    ScanUnfold(t);
    UnescapeUnfold(t, 2 + Scan(u).value);
  }

  lemma LetterSimple(c: char)
    requires Letter(c).Some?
    ensures Simple(Letter(c).value) == Some(c) && Letter(c).value != 'u'
  {
  }

  lemma {:induction false} ControlReads(c: char, u: string)
    requires Scan(u).Some? && c < ' ' && Letter(c).None?
    ensures var t := ("\\" + Unicode(c)) + u;
      && Scan(t) == Some(6 + Scan(u).value)
      && Unescape(t, 6 + Scan(u).value) == Prepend([c], Unescape(u, Scan(u).value))
  {
    hide Scan, Unescape, HexText, Letter;
    var digits := HexText(c as nat);
    var t := ("\\" + Unicode(c)) + u;
    HexReads(c as nat);
    ScanPlain(digits, u);
    assert t[2..] == digits + u && t[2..6] == digits && t[6..] == u;
    ControlStep(t, u, c);
  }

  lemma {:induction false} ControlStep(t: string, u: string, c: char)
    requires Scan(u).Some? && c < ' '
    requires |t| == |u| + 6 && t[0] == '\\' && t[1] == 'u' && t[6..] == u && Hex4(t[2..6]) == c as nat
    requires Scan(t[2..]) == Some(4 + Scan(u).value)
    ensures Scan(t) == Some(6 + Scan(u).value)
    ensures Unescape(t, 6 + Scan(u).value) == Prepend([c], Unescape(u, Scan(u).value))
  {
    hide Scan, Unescape, Hex4;
    ScanUnfold(t);
    UnescapeUnfold(t, 6 + Scan(u).value);
  }

  lemma {:induction false} ScanUnfold(t: string)
    requires t != "" && t[0] != '\"'
    ensures t[0] == '\\' && |t| >= 2 && Scan(t[2..]).Some? ==> Scan(t) == Some(2 + Scan(t[2..]).value)
    ensures t[0] != '\\' && Scan(t[1..]).Some? ==> Scan(t) == Some(1 + Scan(t[1..]).value)
  {
  }

  lemma UnescapeUnfold(t: string, n: nat)
    requires 0 < n < |t|
    ensures t[0] != '\\' ==> Unescape(t, n) == Prepend([t[0]], Unescape(t[1..], n - 1))
    ensures t[0] == '\\' && t[1] == 'u' && Utf16Literal(t, n).Some? ==>
      var l := Utf16Literal(t, n).value; Unescape(t, n) == Prepend(l.bytes, Unescape(t[l.size..], n - l.size))
    ensures t[0] == '\\' && t[1] != 'u' && Simple(t[1]).Some? ==>
      Unescape(t, n) == Prepend([Simple(t[1]).value], Unescape(t[2..], n - 2))
  {
    hide Utf16Literal, Simple;
  }

  /** The first pass over plain characters. */
  lemma {:induction false} ScanPlain(a: string, u: string)
    requires forall i :: 0 <= i < |a| ==> a[i] != '\\' && a[i] != '\"'
    requires Scan(u).Some?
    ensures Scan(a + u) == Some(|a| + Scan(u).value)
  {
    hide Scan;
    if a == [] {
      NoPrefix(u);
    } else {
      ScanPlain(a[1..], u);
      TailOfConcat(a, u);
      ScanUnfold(a + u);
    }
  }

  lemma {:induction false} EmptyReads(rest: string)
    ensures Scan("\"" + rest) == Some(0) && Unescape("\"" + rest, 0) == Unescaped("", true)
  {
  }

  /** Reading an escaped string gives the string back. */
  lemma {:induction false} EscapeReads(s: string, rest: string)
    ensures Scan(EscapeAll(s) + ("\"" + rest)) == Some(|EscapeAll(s)|)
    ensures Unescape(EscapeAll(s) + ("\"" + rest), |EscapeAll(s)|) == Unescaped(s, true)
  {
    hide Escaped, Letter, Scan, Unescape;
    if s == [] {
      EmptyReads(rest);
      NoPrefix("\"" + rest);
    } else {
      EscapeReads(s[1..], rest);
      EscapedReads(s[0], EscapeAll(s[1..]) + ("\"" + rest));
      Assoc(Escaped(s[0]), EscapeAll(s[1..]), "\"" + rest);
      HeadTail(s);
    }
  }

  lemma {:induction false} QuotedReads(s: string, rest: string)
    ensures Quoted(s) + rest == "\"" + (EscapeAll(s) + ("\"" + rest))
    ensures ParseLiteral(EscapeAll(s) + ("\"" + rest)) == Some((s, rest))
  {
    hide Scan, Unescape, EscapeAll;
    EscapeReads(s, rest);
    var t := EscapeAll(s) + ("\"" + rest);
    assert t[|EscapeAll(s)| + 1..] == rest;
  }
}
