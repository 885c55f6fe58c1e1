/** String literals of libs/cjson/src/cJSON.c as `parse_string` reads them: a first
    pass that looks for the closing quote, a second one that unescapes. Both work on
    the text that follows the opening quote. */
module Strings {
  import opened Text
  import opened Json

  /** The length of the literal up to its closing quote, as the first pass finds it. */
  function Scan(t: string): (r: Option<nat>)
    ensures r.Some? ==> r.value < |t| && t[r.value] == '\"'
  {
    if t == "" then None
    else if t[0] == '\"' then Some(0)
    else
      var step := if t[0] == '\\' then 2 else 1;
      if |t| < step then None
      else
        var r := Scan(t[step..]);
        if r.None? then None else Some(r.value + step)
  }

  /** The escape sequences the first pass counts. */
  function Escapes(t: string): (r: nat)
    requires Scan(t).Some?
    ensures r <= Scan(t).value
  {
    if t[0] == '\"' then 0
    else if t[0] == '\\' then 1 + Escapes(t[2..])
    else Escapes(t[1..])
  }

  function HexValue(c: char): (r: Option<nat>)
    ensures r.Some? ==> r.value < 16
  {
    if '0' <= c <= '9' then Some(c as int - '0' as int)
    else if 'A' <= c <= 'F' then Some(c as int - 'A' as int + 10)
    else if 'a' <= c <= 'f' then Some(c as int - 'a' as int + 10)
    else None
  }

  predicate AllHex(t: string)
  {
    forall i :: 0 <= i < |t| ==> HexValue(t[i]).Some?
  }

  /** The number four hexadecimal digits stand for. */
  function HexNumber(t: string): (r: nat)
    requires |t| == 4 && AllHex(t)
    ensures r < 0x10000
  {
    HexValue(t[0]).value * 0x1000 + HexValue(t[1]).value * 0x100 + HexValue(t[2]).value * 0x10 + HexValue(t[3]).value
  }

  /** `parse_hex4`: malformed digits read as zero. */
  function Hex4(t: string): (r: nat)
    requires |t| == 4
    ensures r < 0x10000
  {
    if AllHex(t) then HexNumber(t) else 0
  }

  /** The digits of either case, section 7 of RFC 8259. */
  const LOWER_DIGITS := "0123456789abcdef"
  const UPPER_DIGITS := "0123456789ABCDEF"

  /** The character writes the digit. */
  predicate Writes(c: char, d: nat)
  {
    d < 16 && (c == LOWER_DIGITS[d] || c == UPPER_DIGITS[d])
  }

  /** The text writes the number with four digits, each of either case. */
  predicate Spells(t: string, n: nat)
  {
    && |t| == 4 && n < 0x10000
    && Writes(t[0], n / 0x1000) && Writes(t[1], n / 0x100 % 0x10)
    && Writes(t[2], n / 0x10 % 0x10) && Writes(t[3], n % 0x10)
  }

  /** A character is read as a digit exactly when it writes that digit. */
  lemma HexValueExact(c: char, d: nat)
    ensures HexValue(c) == Some(d) <==> Writes(c, d)
  {
    assert forall i :: 0 <= i < 10 ==> LOWER_DIGITS[i] as int == '0' as int + i;
    assert forall i :: 0 <= i < 10 ==> UPPER_DIGITS[i] as int == '0' as int + i;
    assert forall i :: 10 <= i < 16 ==> LOWER_DIGITS[i] as int == 'a' as int + i - 10;
    assert forall i :: 10 <= i < 16 ==> UPPER_DIGITS[i] as int == 'A' as int + i - 10;
  }

  /** Four characters read as the number that they spell, and as zero when they spell
      none. */
  lemma Hex4Exact(t: string, n: nat)
    requires |t| == 4
    ensures Spells(t, n) ==> Hex4(t) == n
    ensures AllHex(t) ==> Spells(t, Hex4(t))
    ensures !AllHex(t) ==> Hex4(t) == 0 && !Spells(t, n)
  {
    hide HexValue, Writes;
    HexValueExact(t[0], n / 0x1000);
    HexValueExact(t[1], n / 0x100 % 0x10);
    HexValueExact(t[2], n / 0x10 % 0x10);
    HexValueExact(t[3], n % 0x10);
    assert n / 0x100 / 0x10 == n / 0x1000 && n / 0x10 / 0x10 == n / 0x100;
    if AllHex(t) {
      var a, b, c, d := HexValue(t[0]).value, HexValue(t[1]).value, HexValue(t[2]).value, HexValue(t[3]).value;
      Nibbles(a, b, c, d);
      HexValueExact(t[0], a);
      HexValueExact(t[1], b);
      HexValueExact(t[2], c);
      HexValueExact(t[3], d);
    }
  }

  lemma Hex4Says(t: string)
    requires |t| == 4
    ensures forall n :: Spells(t, n) ==> Hex4(t) == n
    ensures (forall n :: !Spells(t, n)) ==> Hex4(t) == 0
  {
    hide Spells, Hex4;
    forall n | Spells(t, n)
      ensures Hex4(t) == n
    {
      Hex4Exact(t, n);
    }
    Hex4Exact(t, Hex4(t));
  }

  lemma Nibbles(a: nat, b: nat, c: nat, d: nat)
    requires a < 16 && b < 16 && c < 16 && d < 16
    ensures var n := a * 0x1000 + b * 0x100 + c * 0x10 + d;
      && n < 0x10000 && n / 0x1000 == a && n / 0x100 % 0x10 == b && n / 0x10 % 0x10 == c && n % 0x10 == d
  {
    var n := a * 0x1000 + b * 0x100 + c * 0x10 + d;
    var m := a * 0x100 + b * 0x10 + c;
    var l := a * 0x10 + b;
    assert n == m * 0x10 + d && n / 0x10 == m;
    assert m == l * 0x10 + c && n / 0x100 == l;
    assert n / 0x1000 == a;
  }

  function Byte(n: nat): char
    requires n < 0x100
  {
    n as char
  }

  /** The UTF-8 encoding, section 3 of RFC 3629. */
  function Utf8(codepoint: nat): (r: string)
    requires codepoint < 0x110000
    ensures 1 <= |r| <= 4 && (codepoint < 0x10000 ==> |r| <= 3) && (codepoint < 0x80 ==> |r| == 1)
  {
    if codepoint < 0x80 then [Byte(codepoint)]
    else if codepoint < 0x800 then [Byte(0xC0 + codepoint / 0x40), Byte(0x80 + codepoint % 0x40)]
    else if codepoint < 0x10000 then
      [Byte(0xE0 + codepoint / 0x1000), Byte(0x80 + codepoint / 0x40 % 0x40), Byte(0x80 + codepoint % 0x40)]
    else
      [Byte(0xF0 + codepoint / 0x40000), Byte(0x80 + codepoint / 0x1000 % 0x40),
       Byte(0x80 + codepoint / 0x40 % 0x40), Byte(0x80 + codepoint % 0x40)]
  }

  predicate HighSurrogate(n: nat)
  {
    0xD800 <= n <= 0xDBFF
  }

  predicate LowSurrogate(n: nat)
  {
    0xDC00 <= n <= 0xDFFF
  }

  datatype Literal = Literal(bytes: string, size: nat)

  /** `utf16_literal_to_utf8`: one `\u` sequence, or two of them for a surrogate pair. */
  function Utf16Literal(t: string, n: int): (r: Option<Literal>)
    requires 0 < n < |t|
    ensures r.Some? ==> (r.value.size == 6 || r.value.size == 12) && r.value.size <= n && 1 <= |r.value.bytes| <= 4
  {
    if n < 6 then None
    else
      var first := Hex4(t[2..6]);
      if LowSurrogate(first) then None
      else if HighSurrogate(first) then
        if n < 12 || t[6] != '\\' || t[7] != 'u' then None
        else
          var second := Hex4(t[8..12]);
          if !LowSurrogate(second) then None
          else Some(Literal(Utf8(0x10000 + first % 0x400 * 0x400 + second % 0x400), 12))
      else Some(Literal(Utf8(first), 6))
  }

  /** The character a one-letter escape sequence stands for. */
  function Simple(c: char): Option<char>
  {
    if c == 'b' then Some(8 as char)
    else if c == 'f' then Some(12 as char)
    else if c == 'n' then Some('\n')
    else if c == 'r' then Some('\r')
    else if c == 't' then Some('\t')
    else if c == '\"' || c == '\\' || c == '/' then Some(c)
    else None
  }

  /** What the second pass has stored when it stops, and whether it reached the end. */
  datatype Unescaped = Unescaped(out: string, ok: bool)

  function Prepend(s: string, u: Unescaped): Unescaped
  {
    u.(out := s + u.out)
  }

  /** The second pass, with `n` characters before the closing quote left. It may end
      one character behind the quote, when the two passes disagree. */
  function Unescape(t: string, n: int): Unescaped
    requires n < |t|
    decreases |t|
  {
    if n <= 0 then Unescaped("", true)
    else if t[0] != '\\' then Prepend([t[0]], Unescape(t[1..], n - 1))
    else if t[1] == 'u' then
      var literal := Utf16Literal(t, n);
      if literal.None? then Unescaped("", false)
      else Prepend(literal.value.bytes, Unescape(t[literal.value.size..], n - literal.value.size))
    else if Simple(t[1]).Some? then Prepend([Simple(t[1]).value], Unescape(t[2..], n - 2))
    else Unescaped("", false)
  }

  /** A string literal without its opening quote: its value and the text behind it. */
  function ParseLiteral(t: string): (r: Option<(string, string)>)
    ensures r.Some? ==> |r.value.1| < |t|
  {
    var end := Scan(t);
    if end.None? then None
    else
      var u := Unescape(t, end.value);
      if u.ok then Some((u.out, t[end.value + 1..])) else None
  }

  // ---------------------------------------------------------------- sizes

  /** One step of the first pass. */
  lemma {:induction false} ScanStep(t: string)
    requires Scan(t).Some? && t[0] != '\"'
    ensures var step := if t[0] == '\\' then 2 else 1;
      && |t| > step && Scan(t).value >= step && Scan(t[step..]) == Some(Scan(t).value - step)
      && Escapes(t) == step - 1 + Escapes(t[step..])
  {
  }

  /** The first pass walks `k` characters on; it may have to go one further. */
  lemma {:induction false} Walk(v: string, k: nat) returns (past: nat, e: nat)
    requires Scan(v).Some? && k <= Scan(v).value
    ensures past <= 1 && k + past <= Scan(v).value && 2 * e <= k + past
    ensures Scan(v[k + past..]) == Some(Scan(v).value - k - past)
    ensures Escapes(v) == e + Escapes(v[k + past..])
    decreases k, 1
  {
    hide Scan, Escapes;
    ScanHead(v);
    past, e := 0, 0;
    if k == 0 {
      DropDrop(v, 0, 0);
    } else {
      ScanStep(v);
      var step := if v[0] == '\\' then 2 else 1;
      if k < step {
        past, e := 1, 1;
      } else {
        past, e := WalkFrom(v, step, k);
      }
    }
  }

  lemma {:induction false} WalkFrom(v: string, step: nat, k: nat) returns (past: nat, e: nat)
    requires 1 <= step <= 2 && step <= |v| && Scan(v).Some? && step <= k <= Scan(v).value
    requires Scan(v[step..]) == Some(Scan(v).value - step) && Escapes(v) == step - 1 + Escapes(v[step..])
    ensures past <= 1 && k + past <= Scan(v).value && 2 * e <= k + past
    ensures Scan(v[k + past..]) == Some(Scan(v).value - k - past)
    ensures Escapes(v) == e + Escapes(v[k + past..])
    decreases k, 0
  {
    hide Scan, Escapes;
    past, e := Walk(v[step..], k - step);
    e := e + step - 1;
    DropDrop(v, step, k - step + past);
  }

  /** Without a backslash it goes on to the very place and counts nothing. */
  lemma {:induction false} WalkPlain(v: string, k: nat)
    requires Scan(v).Some? && k <= Scan(v).value && forall i :: 0 <= i < k ==> v[i] != '\\'
    ensures Scan(v[k..]) == Some(Scan(v).value - k) && Escapes(v) == Escapes(v[k..])
    decreases k
  {
    hide Scan, Escapes;
    ScanHead(v);
    if k == 0 {
      DropDrop(v, 0, 0);
    } else {
      ScanStep(v);
      WalkPlain(v[1..], k - 1);
      DropDrop(v, 1, k - 1);
    }
  }

  lemma {:induction false} ScanHead(t: string)
    requires Scan(t).Some?
    ensures t != "" && (t[0] == '\"' <==> Scan(t).value == 0)
  {
  }

  /** The length of a `\u` literal against its UTF-8 encoding. */
  lemma LiteralBytes(t: string, n: int)
    requires 0 < n < |t| && Utf16Literal(t, n).Some?
    ensures var l := Utf16Literal(t, n).value;
      |l.bytes| <= (if l.size == 12 then 4 else if AllHex(t[2..6]) then 3 else 1)
  {
  }

  /** Both passes from the same place: no more bytes than characters without the
      counted escapes. From the second half of a counted escape sequence there may be
      two more. */
  lemma {:induction false} UnescapeSize(t: string, ahead: nat)
    requires ahead <= 1 && ahead < |t| && Scan(t[ahead..]).Some?
    ensures var n := Scan(t[ahead..]).value + ahead;
      n < |t| && |Unescape(t, n).out| + Escapes(t[ahead..]) <= n + 2 * ahead
    decreases |t|, 3
  {
    hide Utf16Literal, Scan, Escapes, Unescape, Simple;
    var v := t[ahead..];
    var n := Scan(v).value + ahead;
    ScanHead(v);
    if n == 0 {
      UnescapeEnd(t);
    } else if ahead == 0 {
      DropDrop(t, 0, 0);
      FromStart(t, n);
    } else {
      FromSecondHalf(t, n);
    }
  }

  /** The case of both passes in one place. */
  lemma {:induction false} FromStart(t: string, n: nat)
    requires 0 < n < |t| && Scan(t) == Some(n)
    ensures |Unescape(t, n).out| + Escapes(t) <= n
    decreases |t|, 2
  {
    hide Utf16Literal, Scan, Escapes, Unescape, Simple;
    ScanHead(t);
    UnescapeShorter(t, n);
    ScanStep(t);
    if t[0] != '\\' {
      DropDrop(t, 1, 0);
      UnescapeSize(t[1..], 0);
    } else if t[1] == 'u' && Utf16Literal(t, n).Some? {
      SkipLiteral(t, n);
    } else if t[1] != 'u' && Simple(t[1]).Some? {
      DropDrop(t, 2, 0);
      UnescapeSize(t[2..], 0);
    }
  }

  /** The case of the second half of a counted escape sequence. */
  lemma {:induction false} FromSecondHalf(t: string, n: nat)
    requires 0 < n < |t| && Scan(t[1..]) == Some(n - 1)
    ensures |Unescape(t, n).out| + Escapes(t[1..]) <= n + 2
    decreases |t|, 2
  {
    hide Utf16Literal, Scan, Escapes, Unescape, Simple;
    ScanHead(t[1..]);
    UnescapeShorter(t, n);
    if t[0] != '\\' {
      DropDrop(t, 1, 0);
      UnescapeSize(t[1..], 0);
    } else if t[1] != '\"' {
      ScanStep(t[1..]);
      DropDrop(t, 1, if t[1] == '\\' then 2 else 1);
      if t[1] == 'u' && Utf16Literal(t, n).Some? {
        SkipLiteral(t, n);
      } else if t[1] != 'u' && Simple(t[1]).Some? {
        var next := if t[1] == '\\' then 1 else 0;
        DropDrop(t, 2, next);
        UnescapeSize(t[2..], next);
      }
    } else {
      UnescapeEnd(t[2..]);
    }
  }

  lemma {:induction false} UnescapeEnd(t: string)
    ensures forall n :: n <= 0 && n < |t| ==> Unescape(t, n) == Unescaped("", true)
  {
  }

  lemma UnescapeShorter(t: string, n: nat)
    requires 0 < n < |t|
    ensures t[0] != '\\' ==> |Unescape(t, n).out| == 1 + |Unescape(t[1..], n - 1).out|
    ensures t[0] == '\\' && t[1] != 'u' && Simple(t[1]).Some? ==>
      |Unescape(t, n).out| == 1 + |Unescape(t[2..], n - 2).out|
    ensures t[0] == '\\' && (if t[1] == 'u' then Utf16Literal(t, n).None? else Simple(t[1]).None?) ==>
      Unescape(t, n).out == ""
  {
    hide Utf16Literal, Simple;
  }

  /** The same across a `\u` literal; the `u` is no escape sequence of its own. */
  lemma {:induction false} SkipLiteral(t: string, n: nat)
    requires 0 < n < |t| && t[0] == '\\' && t[1] == 'u' && Utf16Literal(t, n).Some?
    requires Scan(t[2..]) == Some(n - 2)
    ensures |Unescape(t, n).out| + Escapes(t[2..]) + 1 <= n
    decreases |t|, 1
  {
    hide Utf16Literal, Scan, Escapes, Unescape, AllHex;
    UnescapeStep(t, n);
    LiteralBytes(t, n);
    if Utf16Literal(t, n).value.size == 6 && AllHex(t[2..6]) {
      HexPlain(t);
      WalkPlain(t[2..], 4);
      DropDrop(t, 2, 4);
      DropDrop(t[6..], 0, 0);
      UnescapeSize(t[6..], 0);
    } else {
      SkipMalformed(t, n, Utf16Literal(t, n).value.size);
    }
  }

  lemma {:induction false} SkipMalformed(t: string, n: nat, size: nat)
    requires size == 6 || size == 12
    requires size <= n < |t| && Scan(t[2..]) == Some(n - 2)
    ensures |Unescape(t[size..], n - size).out| + Escapes(t[2..]) + (if size == 12 then 4 else 1) + 1 <= n
    decreases |t|, 0
  {
    hide Scan, Escapes, Unescape;
    var past, e := Walk(t[2..], size - 2);
    DropDrop(t, 2, size - 2 + past);
    DropDrop(t, size, past);
    UnescapeSize(t[size..], past);
  }

  lemma UnescapeStep(t: string, n: nat)
    requires 0 < n < |t| && t[0] == '\\' && t[1] == 'u' && Utf16Literal(t, n).Some?
    ensures var l := Utf16Literal(t, n).value;
      |Unescape(t, n).out| == |l.bytes| + |Unescape(t[l.size..], n - l.size).out|
  {
    hide Utf16Literal;
  }

  lemma HexPlain(t: string)
    requires |t| >= 6 && AllHex(t[2..6])
    ensures forall i :: 0 <= i < 4 ==> t[2..][i] != '\\'
  {
    assert forall i :: 0 <= i < 4 ==> t[2..][i] == t[2..6][i];
  }
}
