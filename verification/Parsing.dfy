/** The grammar of `parse_value` of libs/cjson/src/cJSON.c as functions on the text
    that is left: what it reads and the text behind it, or failure. */
module Parsing {
  import opened Text
  import opened Json
  import opened Strings

  const NESTING_LIMIT := 1000

  /** What `strtod` makes of a text: the number saturated to `int` and how many
      characters belong to it. */
  datatype Numeral = Numeral(valueint: int, consumed: nat)

  type Strtod = f: string -> Numeral | forall s :: f(s).consumed <= |s|
    witness (s: string) => Numeral(0, 0)

  /** The result of a parsing function: what was read and the rest of the text. */
  datatype Parsed<+T> = Failed | Parsed(value: T, rest: string)

  predicate Blank(c: char)
  {
    c <= ' '
  }

  function DropBlanks(t: string): (r: string)
    ensures |r| <= |t|
  {
    if t != "" && Blank(t[0]) then DropBlanks(t[1..]) else t
  }

  /** `buffer_skip_whitespace`: where only blanks are left it stops on the last one. */
  function Skip(t: string): (r: string)
    ensures |r| <= |t| && (t != "" ==> r != "")
  {
    var r := DropBlanks(t);
    if r == "" && t != "" then t[|t| - 1..] else r
  }

  predicate NumberChar(c: char)
  {
    IsDigit(c) || c == '+' || c == '-' || c == 'e' || c == 'E' || c == '.'
  }

  /** The characters `parse_number` hands to `strtod`. */
  function NumberText(t: string): (r: string)
    ensures |r| <= |t| && r == t[..|r|]
  {
    if t != "" && NumberChar(t[0]) then [t[0]] + NumberText(t[1..]) else ""
  }

  function ParseNumber(t: string, strtod: Strtod): (r: Parsed<Json>)
    ensures r.Parsed? ==> |r.rest| < |t|
  {
    var n := strtod(NumberText(t));
    if n.consumed == 0 then Failed else Parsed(Number(n.valueint), t[n.consumed..])
  }

  function ParseString(t: string): (r: Parsed<string>)
    requires t != ""
    ensures r.Parsed? ==> |r.rest| < |t|
  {
    if t[0] != '\"' then Failed
    else
      var r := ParseLiteral(t[1..]);
      if r.None? then Failed else Parsed(r.value.0, r.value.1)
  }

  function ParseValue(t: string, depth: nat, strtod: Strtod): (r: Parsed<Json>)
    ensures r.Parsed? ==> |r.rest| < |t|
    decreases |t|, 1
  {
    if "null" <= t then Parsed(Null, t[4..])
    else if "false" <= t then Parsed(Bool(false), t[5..])
    else if "true" <= t then Parsed(Bool(true), t[4..])
    else if t == "" then Failed
    else if t[0] == '\"' then
      var s := ParseString(t);
      if s.Failed? then Failed else Parsed(String(s.value), s.rest)
    else if t[0] == '-' || IsDigit(t[0]) then ParseNumber(t, strtod)
    else if t[0] == '[' then ParseArray(t, depth, strtod)
    else if t[0] == '{' then ParseObject(t, depth, strtod)
    else Failed
  }

  function ParseArray(t: string, depth: nat, strtod: Strtod): (r: Parsed<Json>)
    requires t != "" && t[0] == '['
    ensures r.Parsed? ==> |r.rest| < |t|
    decreases |t|, 0
  {
    var u := Skip(t[1..]);
    if depth >= NESTING_LIMIT || u == "" then Failed
    else if u[0] == ']' then Parsed(Array([]), u[1..])
    else
      var items := ParseElements(u, depth + 1, strtod);
      if items.Failed? then Failed else Parsed(Array(items.value), items.rest)
  }

  /** The elements from the first one on, and the closing bracket. */
  function ParseElements(t: string, depth: nat, strtod: Strtod): (r: Parsed<seq<Json>>)
    ensures r.Parsed? ==> |r.rest| < |t|
    decreases |t|, 2
  {
    var item := ParseValue(Skip(t), depth, strtod);
    if item.Failed? then Failed
    else
      var u := Skip(item.rest);
      if u != "" && u[0] == ',' then
        var items := ParseElements(u[1..], depth, strtod);
        if items.Failed? then Failed else Parsed([item.value] + items.value, items.rest)
      else if u != "" && u[0] == ']' then Parsed([item.value], u[1..])
      else Failed
  }

  function ParseObject(t: string, depth: nat, strtod: Strtod): (r: Parsed<Json>)
    requires t != "" && t[0] == '{'
    ensures r.Parsed? ==> |r.rest| < |t|
    decreases |t|, 0
  {
    var u := Skip(t[1..]);
    if depth >= NESTING_LIMIT || u == "" then Failed
    else if u[0] == '}' then Parsed(Object([]), u[1..])
    else
      var members := ParseMembers(u, depth + 1, strtod);
      if members.Failed? then Failed else Parsed(Object(members.value), members.rest)
  }

  /** A key and its colon, with the blanks around them. */
  function ParseKey(t: string): (r: Parsed<string>)
    ensures r.Parsed? ==> |r.rest| < |t|
  {
    if t == "" then Failed
    else
      var name := ParseString(Skip(t));
      if name.Failed? then Failed
      else
        var u := Skip(name.rest);
        if u == "" || u[0] != ':' then Failed else Parsed(name.value, Skip(u[1..]))
  }

  /** A key and its value. */
  function ParseMember(t: string, depth: nat, strtod: Strtod): (r: Parsed<Member>)
    ensures r.Parsed? ==> |r.rest| < |t|
    decreases |t|, 2
  {
    var key := ParseKey(t);
    if key.Failed? then Failed
    else
      var item := ParseValue(key.rest, depth, strtod);
      if item.Failed? then Failed else Parsed(Member(key.value, item.value), item.rest)
  }

  function ParseMembers(t: string, depth: nat, strtod: Strtod): (r: Parsed<seq<Member>>)
    ensures r.Parsed? ==> |r.rest| < |t|
    decreases |t|, 3
  {
    var member := ParseMember(t, depth, strtod);
    if member.Failed? then Failed
    else
      var u := Skip(member.rest);
      if u != "" && u[0] == ',' then
        var members := ParseMembers(u[1..], depth, strtod);
        if members.Failed? then Failed else Parsed([member.value] + members.value, members.rest)
      else if u != "" && u[0] == '}' then Parsed([member.value], u[1..])
      else Failed
  }

  const BOM := [0xEF as char, 0xBB as char, 0xBF as char]

  /** `skip_utf8_bom`. */
  function SkipBom(t: string): (r: string)
    ensures |r| <= |t|
  {
    if |t| > 4 && BOM <= t then t[3..] else t
  }

  /** `cJSON_ParseWithLengthOpts`; a text given without its length ends with its NUL. */
  function Parse(t: string, requireNullTerminated: bool, strtod: Strtod): Parsed<Json>
  {
    if t == "" then Failed
    else
      var r := ParseValue(Skip(SkipBom(t)), 0, strtod);
      if r.Failed? || !requireNullTerminated then r
      else
        var u := Skip(r.rest);
        if u != "" && u[0] == '\0' then Parsed(r.value, u) else Failed
  }
}
