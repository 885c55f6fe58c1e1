/** The parser of libs/cjson/src/cJSON.c with its moving offset, proved against the
    functions of `Strings` and `Parsing`. Every read is inside the content and every
    byte of a string is stored inside the memory allocated for it. */
module Parser {
  import opened Text
  import opened Json
  import opened Strings
  import opened Parsing

  function More<T>(read: seq<T>, r: Parsed<seq<T>>): Parsed<seq<T>>
  {
    if r.Failed? then Failed else Parsed(read + r.value, r.rest)
  }

  /** `parse_hex4`. */
  method ParseHex4(input: string) returns (h: nat)
    requires |input| == 4
    ensures h == Hex4(input)
    ensures forall n :: Spells(input, n) ==> h == n
    ensures (forall n :: !Spells(input, n)) ==> h == 0
  {
    hide Spells;
    Hex4Says(input);
    h := 0;
    var i := 0;
    while i < 4
      invariant 0 <= i <= 4 && forall k :: 0 <= k < i ==> HexValue(input[k]).Some?
      invariant i == 0 ==> h == 0
      invariant i == 1 ==> h == HexValue(input[0]).value * 0x10
      invariant i == 2 ==> h == HexValue(input[0]).value * 0x100 + HexValue(input[1]).value * 0x10
      invariant i == 3 ==>
        h == HexValue(input[0]).value * 0x1000 + HexValue(input[1]).value * 0x100 + HexValue(input[2]).value * 0x10
      invariant i == 4 ==> h == HexNumber(input)
    {
      if '0' <= input[i] <= '9' {
        h := h + (input[i] as int - '0' as int);
      } else if 'A' <= input[i] <= 'F' {
        h := h + 10 + (input[i] as int - 'A' as int);
      } else if 'a' <= input[i] <= 'f' {
        h := h + 10 + (input[i] as int - 'a' as int);
      } else {
        return 0;
      }
      if i < 3 {
        h := h * 0x10;
      }
      i := i + 1;
    }
  }

  /** The encoding loop of `utf16_literal_to_utf8`: the last byte is stored first. */
  method EncodeUtf8(codepoint: nat, output: array<char>, at: nat) returns (end: nat)
    requires codepoint < 0x110000 && at + |Utf8(codepoint)| <= output.Length
    modifies output
    ensures end == at + |Utf8(codepoint)|
    ensures output[..end] == old(output[..at]) + Utf8(codepoint)
  {
    hide Utf8, Shifted;
    Utf8Bytes(codepoint);
    ghost var bytes := Utf8(codepoint);
    var length := Utf8Size(codepoint);
    var left, position := codepoint, length - 1;
    NoShift(codepoint);
    while position > 0
      invariant 0 <= position < length && left == Shifted(codepoint, length - 1 - position)
      invariant output[..at] == old(output[..at])
      invariant forall k {:trigger bytes[k]} :: position < k < length ==> output[at + k] == bytes[k]
    {
      assert bytes[position] as int == 0x80 + left % 0x40;
      output[at + position] := Byte(0x80 + left % 0x40);
      ShiftOnce(codepoint, length - 1 - position);
      left := left / 0x40;
      position := position - 1;
    }
    output[at] := Byte(FirstByteMark(length) + left);
    end := at + length;
    SameBytes(output[..end], old(output[..at]), bytes);
  }

  lemma {:induction false} NoShift(codepoint: nat)
    ensures Shifted(codepoint, 0) == codepoint
  {
  }

  lemma ShiftOnce(codepoint: nat, k: nat)
    ensures Shifted(codepoint, k + 1) == Shifted(codepoint, k) / 0x40
  {
  }

  /** `k` times `codepoint >>= 6`. */
  function Shifted(codepoint: nat, k: nat): nat
  {
    if k == 0 then codepoint else Shifted(codepoint, k - 1) / 0x40
  }

  function Utf8Size(codepoint: nat): (n: nat)
    ensures 1 <= n <= 4
  {
    if codepoint >= 0x10000 then 4 else if codepoint >= 0x800 then 3 else if codepoint >= 0x80 then 2 else 1
  }

  function FirstByteMark(size: nat): nat
  {
    if size == 4 then 0xF0 else if size == 3 then 0xE0 else if size == 2 then 0xC0 else 0
  }

  lemma {:induction false} Utf8Bytes(codepoint: nat)
    requires codepoint < 0x110000
    ensures var bytes, n := Utf8(codepoint), Utf8Size(codepoint);
      && |bytes| == n
      && (forall k {:trigger bytes[k]} :: 0 < k < n ==> bytes[k] as int == 0x80 + Shifted(codepoint, n - 1 - k) % 0x40)
      && bytes[0] as int == FirstByteMark(n) + Shifted(codepoint, n - 1) < 0x100
  {
    assert Shifted(codepoint, 1) == codepoint / 0x40;
    assert Shifted(codepoint, 2) == codepoint / 0x40 / 0x40 == codepoint / 0x1000;
    assert Shifted(codepoint, 3) == codepoint / 0x40 / 0x40 / 0x40 == codepoint / 0x40000;
  }

  class ParseBuffer {
    const content: string
    var offset: nat
    var depth: nat
    const strtod: Strtod

    constructor (content: string, strtod: Strtod)
      ensures this.content == content && this.strtod == strtod && offset == 0 && depth == 0
    {
      this.content, this.strtod := content, strtod;
      offset, depth := 0, 0;
    }

    ghost predicate Valid()
      reads this
    {
      offset <= |content|
    }

    /** The text that is left. */
    ghost function Left(): string
      requires Valid()
      reads this
    {
      content[offset..]
    }

    /** `buffer_skip_whitespace`. */
    method SkipWhitespace()
      requires Valid()
      modifies this`offset
      ensures Valid() && Left() == Skip(old(Left()))
    {
      if offset >= |content| {
        return;
      }
      while offset < |content| && content[offset] <= ' '
        invariant old(offset) <= offset <= |content|
        invariant DropBlanks(content[offset..]) == DropBlanks(old(content[offset..]))
      {
        DropDrop(content, offset, 1);
        offset := offset + 1;
      }
      if offset == |content| {
        DropDrop(content, old(offset), |content| - old(offset) - 1);
        offset := offset - 1;
      }
    }

    /** The first pass of `parse_string`: the place of the closing quote and the number
        of escape sequences before it. */
    method MeasureString(start: nat) returns (ok: bool, input_end: nat, skipped: nat)
      requires start <= |content|
      ensures ok <==> Scan(content[start..]).Some?
      ensures ok ==> input_end == start + Scan(content[start..]).value && skipped == Escapes(content[start..])
    {
      hide Scan, Escapes;
      ghost var t := content[start..];
      input_end, skipped := start, 0;
      while input_end < |content| && content[input_end] != '\"'
        invariant start <= input_end <= |content|
        invariant Scan(content[input_end..]).Some? <==> Scan(t).Some?
        invariant Scan(t).Some? ==> Scan(t).value == Scan(content[input_end..]).value + (input_end - start)
        invariant Scan(t).Some? ==> Escapes(t) == skipped + Escapes(content[input_end..])
        decreases |content| - input_end
      {
        ScanOne(content[input_end..]);
        if content[input_end] == '\\' {
          if input_end + 1 >= |content| {
            return false, 0, 0;
          }
          DropDrop(content, input_end, 2);
          skipped := skipped + 1;
          input_end := input_end + 1;
        } else {
          DropDrop(content, input_end, 1);
        }
        input_end := input_end + 1;
      }
      ScanDone(content[input_end..]);
      ok := input_end < |content|;
    }

    /** `utf16_literal_to_utf8`: stores the encoding and returns the length of the
        sequence, or 0. */
    method Utf16LiteralToUtf8(input_pointer: nat, input_end: nat, output: array<char>, at: nat)
      returns (sequence_length: nat, end: nat)
      requires input_pointer < input_end < |content|
      requires var l := Utf16Literal(content[input_pointer..], input_end - input_pointer);
        l.Some? ==> at + |l.value.bytes| <= output.Length
      requires at <= output.Length
      modifies output
      ensures var l := Utf16Literal(content[input_pointer..], input_end - input_pointer);
        && (l.None? ==> sequence_length == 0)
        && (l.Some? ==> sequence_length == l.value.size && end == at + |l.value.bytes|)
        && (l.Some? ==> output[..end] == old(output[..at]) + l.value.bytes)
    {
      hide Hex4, Utf8;
      if input_end - input_pointer < 6 {
        return 0, at;
      }
      ghost var t := content[input_pointer..];
      assert t[2..6] == content[input_pointer + 2..input_pointer + 6];
      var first := ParseHex4(content[input_pointer + 2..input_pointer + 6]);
      if LowSurrogate(first) {
        return 0, at;
      }
      var codepoint := first;
      sequence_length := 6;
      if HighSurrogate(first) {
        if input_end - input_pointer < 12 {
          return 0, at;
        }
        if content[input_pointer + 6] != '\\' || content[input_pointer + 7] != 'u' {
          return 0, at;
        }
        assert t[8..12] == content[input_pointer + 8..input_pointer + 12];
        var second := ParseHex4(content[input_pointer + 8..input_pointer + 12]);
        if !LowSurrogate(second) {
          return 0, at;
        }
        codepoint := 0x10000 + first % 0x400 * 0x400 + second % 0x400;
        sequence_length := 12;
      }
      end := EncodeUtf8(codepoint, output, at);
    }

    /** The second pass of `parse_string` into memory of the size measured. */
    method UnescapeInto(start: nat, input_end: nat, output: array<char>) returns (ok: bool, written: nat)
      requires start <= input_end < |content|
      requires |Unescape(content[start..], input_end - start).out| <= output.Length
      modifies output
      ensures var u := Unescape(content[start..], input_end - start);
        ok == u.ok && (ok ==> written == |u.out| && output[..written] == u.out)
    {
      hide Unescape, Utf16Literal;
      var input_pointer := start;
      written := 0;
      ghost var u := Unescape(content[start..], input_end - start);
      while input_pointer < input_end
        invariant start <= input_pointer <= input_end + 1 && input_pointer <= |content| && written <= output.Length
        invariant input_end - input_pointer < |content| - input_pointer
        invariant u == Prepend(output[..written], Unescape(content[input_pointer..], input_end - input_pointer))
        decreases input_end + 1 - input_pointer
      {
        ghost var t, n := content[input_pointer..], input_end - input_pointer;
        ghost var done := output[..written];
        UnescapeOne(t, n);
        if content[input_pointer] != '\\' {
          output[written] := content[input_pointer];
          PrependMore(done, [t[0]], Unescape(t[1..], n - 1), output[..written + 1]);
          DropDrop(content, input_pointer, 1);
          input_pointer, written := input_pointer + 1, written + 1;
        } else if content[input_pointer + 1] == 'u' {
          var sequence_length, end := Utf16LiteralToUtf8(input_pointer, input_end, output, written);
          if sequence_length == 0 {
            return false, written;
          }
          PrependMore(done, Utf16Literal(t, n).value.bytes,
                      Unescape(t[sequence_length..], n - sequence_length), output[..end]);
          DropDrop(content, input_pointer, sequence_length);
          input_pointer, written := input_pointer + sequence_length, end;
        } else if Simple(content[input_pointer + 1]).Some? {
          output[written] := Simple(content[input_pointer + 1]).value;
          PrependMore(done, [Simple(t[1]).value], Unescape(t[2..], n - 2), output[..written + 1]);
          DropDrop(content, input_pointer, 2);
          input_pointer, written := input_pointer + 2, written + 1;
        } else {
          return false, written;
        }
      }
      UnescapeEnd(content[input_pointer..]);
      NoSuffix(output[..written]);
      ok := true;
    }

    /** `parse_string`: the two passes and the allocation between them. */
    method ParseString() returns (ok: bool, valuestring: string)
      requires Valid() && offset < |content|
      modifies this`offset
      ensures Valid()
      ensures ok <==> Parsing.ParseString(old(Left())).Parsed?
      ensures ok ==> Parsing.ParseString(old(Left())) == Parsed(valuestring, Left())
    {
      hide Scan, Escapes, Unescape;
      valuestring := "";
      if content[offset] != '\"' {
        return false, "";
      }
      var start := offset + 1;
      DropDrop(content, offset, 1);
      var input_end, skipped;
      ok, input_end, skipped := MeasureString(start);
      if !ok {
        return;
      }
      ghost var t := content[start..];
      DropDrop(t, 0, 0);
      UnescapeSize(t, 0);
      var allocation_length := input_end - offset - skipped;
      var output := new char[allocation_length + 1];
      var written;
      ok, written := UnescapeInto(start, input_end, output);
      if ok {
        output[written] := NUL;
        valuestring := output[..written];
        DropDrop(content, start, input_end - start + 1);
        offset := input_end + 1;
      }
    }

    /** The loop of `parse_number`. */
    method NumberLength() returns (i: nat)
      requires Valid()
      ensures i == |NumberText(Left())|
    {
      hide NumberText;
      i := 0;
      while offset + i < |content| && NumberChar(content[offset + i])
        invariant offset + i <= |content|
        invariant |NumberText(Left())| == i + |NumberText(content[offset + i..])|
      {
        NumberTextStep(content[offset + i..]);
        DropDrop(content, offset + i, 1);
        i := i + 1;
      }
      NumberTextStep(content[offset + i..]);
    }

    /** `parse_number`. */
    method ParseNumber() returns (ok: bool, item: Json)
      requires Valid()
      modifies this`offset
      ensures Valid()
      ensures ok <==> Parsing.ParseNumber(old(Left()), strtod).Parsed?
      ensures ok ==> Parsing.ParseNumber(old(Left()), strtod) == Parsed(item, Left())
    {
      hide NumberText;
      var i := NumberLength();
      TakeDrop(content, offset, i);
      var number_c_string := content[offset..offset + i];
      var number := strtod(number_c_string);
      if number.consumed == 0 {
        return false, Invalid;
      }
      DropDrop(content, offset, number.consumed);
      offset := offset + number.consumed;
      return true, Number(number.valueint);
    }

    /** `strncmp` at the offset, where that many characters can be read. */
    predicate StartsWith(word: string)
      requires Valid()
      reads this
      ensures StartsWith(word) <==> word <= Left()
    {
      offset + |word| <= |content| && content[offset..offset + |word|] == word
    }

    /** `parse_value`. */
    method ParseValue() returns (ok: bool, item: Json)
      requires Valid()
      modifies this
      ensures ok <==> Parsing.ParseValue(old(Left()), old(depth), strtod).Parsed?
      ensures ok ==> Valid() && depth == old(depth)
      ensures ok ==> Parsing.ParseValue(old(Left()), old(depth), strtod) == Parsed(item, Left())
      decreases |content| - offset, 1
    {
      hide ParseArray, ParseObject, Parsing.ParseNumber, Parsing.ParseString;
      item := Invalid;
      if StartsWith("null") {
        DropDrop(content, offset, 4);
        offset := offset + 4;
        return true, Null;
      }
      if StartsWith("false") {
        DropDrop(content, offset, 5);
        offset := offset + 5;
        return true, Bool(false);
      }
      if StartsWith("true") {
        DropDrop(content, offset, 4);
        offset := offset + 4;
        return true, Bool(true);
      }
      if offset >= |content| {
        return false, Invalid;
      }
      if content[offset] == '\"' {
        var valuestring;
        ok, valuestring := ParseString();
        item := String(valuestring);
      } else if content[offset] == '-' || IsDigit(content[offset]) {
        ok, item := ParseNumber();
      } else if content[offset] == '[' {
        ok, item := ParseArrayText();
      } else if content[offset] == '{' {
        ok, item := ParseObjectText();
      } else {
        ok := false;
      }
    }

    /** `parse_array`. */
    method ParseArrayText() returns (ok: bool, item: Json)
      requires Valid() && offset < |content| && content[offset] == '['
      modifies this
      ensures ok <==> ParseArray(old(Left()), old(depth), strtod).Parsed?
      ensures ok ==> Valid() && depth == old(depth)
      ensures ok ==> ParseArray(old(Left()), old(depth), strtod) == Parsed(item, Left())
      decreases |content| - offset, 0
    {
      hide Skip, ParseElements, Parsing.ParseValue;
      item := Invalid;
      if depth >= NESTING_LIMIT {
        return false, Invalid;
      }
      depth := depth + 1;
      DropDrop(content, offset, 1);
      offset := offset + 1;
      SkipWhitespace();
      if offset < |content| && content[offset] == ']' {
        DropDrop(content, offset, 1);
        offset := offset + 1;
        depth := depth - 1;
        return true, Array([]);
      }
      if offset >= |content| {
        return false, Invalid;
      }
      var items;
      ok, items := ParseElementList();
      if ok {
        depth := depth - 1;
        item := Array(items);
      }
    }

    /** One element, from the character in front of it, and the blanks behind it. */
    method ParseElement() returns (ok: bool, item: Json)
      requires Valid() && offset < |content|
      modifies this
      ensures ok ==> Valid() && depth == old(depth) && offset > old(offset)
      ensures var r := ParseElements(old(content[offset + 1..]), old(depth), strtod);
        && (!ok ==> r == Failed)
        && (ok ==>
          var u := Left();
          r == if u != "" && u[0] == ',' then More([item], ParseElements(u[1..], depth, strtod))
               else if u != "" && u[0] == ']' then Parsed([item], u[1..])
               else Failed)
      decreases |content| - offset - 1, 2
    {
      hide Skip, ParseElements, Parsing.ParseValue;
      offset := offset + 1;
      ElementsUnfold(Left(), depth, strtod);
      SkipWhitespace();
      ok, item := ParseValue();
      if ok {
        SkipWhitespace();
      }
    }

    /** The loop of `parse_array` and what follows it. */
    method ParseElementList() returns (ok: bool, items: seq<Json>)
      requires Valid() && offset > 0
      modifies this
      ensures ok <==> ParseElements(old(Left()), old(depth), strtod).Parsed?
      ensures ok ==> Valid() && depth == old(depth)
      ensures ok ==> ParseElements(old(Left()), old(depth), strtod) == Parsed(items, Left())
      decreases |content| - offset, 3
    {
      hide Skip, ParseElements, Parsing.ParseValue;
      ghost var r := ParseElements(Left(), depth, strtod);
      items := [];
      NothingRead(r);
      offset := offset - 1;
      var more := true;
      while more
        invariant depth == old(depth) && old(offset) - 1 <= offset <= |content| && (more ==> offset < |content|)
        invariant more ==> r == More(items, ParseElements(content[offset + 1..], depth, strtod))
        invariant !more && offset < |content| && content[offset] == ']' ==> r == Parsed(items, content[offset + 1..])
        invariant !more && !(offset < |content| && content[offset] == ']') ==> r == Failed
        decreases more, |content| - offset
      {
        var item;
        ok, item := ParseElement();
        if !ok {
          return;
        }
        MoreRead(items, item,
                 if offset < |content| then ParseElements(content[offset + 1..], depth, strtod) else Failed);
        items := items + [item];
        more := offset < |content| && content[offset] == ',';
      }
      ok := offset < |content| && content[offset] == ']';
      if ok {
        offset := offset + 1;
      }
    }

    /** `parse_object`. */
    method ParseObjectText() returns (ok: bool, item: Json)
      requires Valid() && offset < |content| && content[offset] == '{'
      modifies this
      ensures ok <==> ParseObject(old(Left()), old(depth), strtod).Parsed?
      ensures ok ==> Valid() && depth == old(depth)
      ensures ok ==> ParseObject(old(Left()), old(depth), strtod) == Parsed(item, Left())
      decreases |content| - offset, 0
    {
      hide Skip, ParseMembers;
      item := Invalid;
      if depth >= NESTING_LIMIT {
        return false, Invalid;
      }
      depth := depth + 1;
      DropDrop(content, offset, 1);
      offset := offset + 1;
      SkipWhitespace();
      if offset < |content| && content[offset] == '}' {
        DropDrop(content, offset, 1);
        offset := offset + 1;
        depth := depth - 1;
        return true, Object([]);
      }
      if offset >= |content| {
        return false, Invalid;
      }
      var members;
      ok, members := ParseMemberList();
      if ok {
        depth := depth - 1;
        item := Object(members);
      }
    }

    /** One member and the blanks behind it. */
    method ParseNextMember() returns (ok: bool, member: Member)
      requires Valid() && offset < |content|
      modifies this
      ensures ok ==> Valid() && depth == old(depth) && offset > old(offset)
      ensures var r := ParseMembers(old(content[offset + 1..]), old(depth), strtod);
        && (!ok ==> r == Failed)
        && (ok ==>
          var u := Left();
          r == if u != "" && u[0] == ',' then More([member], ParseMembers(u[1..], depth, strtod))
               else if u != "" && u[0] == '}' then Parsed([member], u[1..])
               else Failed)
      decreases |content| - offset - 1, 3
    {
      hide Skip, ParseMembers, Parsing.ParseMember;
      MembersUnfold(content[offset + 1..], depth, strtod);
      ok, member := ParseMember();
      if ok {
        SkipWhitespace();
      }
    }

    /** The loop of `parse_object` and what follows it. */
    method ParseMemberList() returns (ok: bool, members: seq<Member>)
      requires Valid() && offset > 0
      modifies this
      ensures ok <==> ParseMembers(old(Left()), old(depth), strtod).Parsed?
      ensures ok ==> Valid() && depth == old(depth)
      ensures ok ==> ParseMembers(old(Left()), old(depth), strtod) == Parsed(members, Left())
      decreases |content| - offset, 4
    {
      hide Skip, ParseMembers, Parsing.ParseMember;
      ghost var r := ParseMembers(Left(), depth, strtod);
      members := [];
      NothingRead(r);
      offset := offset - 1;
      var more := true;
      while more
        invariant depth == old(depth) && old(offset) - 1 <= offset <= |content| && (more ==> offset < |content|)
        invariant more ==> r == More(members, ParseMembers(content[offset + 1..], depth, strtod))
        invariant !more && offset < |content| && content[offset] == '}' ==> r == Parsed(members, content[offset + 1..])
        invariant !more && !(offset < |content| && content[offset] == '}') ==> r == Failed
        decreases more, |content| - offset
      {
        var member;
        ok, member := ParseNextMember();
        if !ok {
          return;
        }
        MoreRead(members, member,
                 if offset < |content| then ParseMembers(content[offset + 1..], depth, strtod) else Failed);
        members := members + [member];
        more := offset < |content| && content[offset] == ',';
      }
      ok := offset < |content| && content[offset] == '}';
      if ok {
        offset := offset + 1;
      }
    }

    /** A key and its colon, from the character in front of it. */
    method ParseKeyText() returns (ok: bool, name: string)
      requires Valid() && offset < |content|
      modifies this`offset
      ensures ok <==> ParseKey(old(content[offset + 1..])).Parsed?
      ensures ok ==> Valid() && offset > old(offset)
      ensures ok ==> ParseKey(old(content[offset + 1..])) == Parsed(name, Left())
    {
      hide Skip, Parsing.ParseString;
      name := "";
      if offset + 1 >= |content| {
        return false, name;
      }
      offset := offset + 1;
      SkipWhitespace();
      ok, name := ParseString();
      if !ok {
        return;
      }
      SkipWhitespace();
      if offset >= |content| || content[offset] != ':' {
        return false, name;
      }
      DropDrop(content, offset, 1);
      offset := offset + 1;
      SkipWhitespace();
    }

    /** One member, from the character in front of it. */
    method ParseMember() returns (ok: bool, member: Member)
      requires Valid() && offset < |content|
      modifies this
      ensures ok <==> Parsing.ParseMember(old(content[offset + 1..]), old(depth), strtod).Parsed?
      ensures ok ==> Valid() && depth == old(depth)
      ensures ok ==> Parsing.ParseMember(old(content[offset + 1..]), old(depth), strtod) == Parsed(member, Left())
      decreases |content| - offset - 1, 2
    {
      hide ParseKey, Parsing.ParseValue;
      member := Member("", Invalid);
      var name, item;
      ok, name := ParseKeyText();
      if ok {
        ok, item := ParseValue();
        member := Member(name, item);
      }
    }

  }

  lemma {:induction false} NumberTextStep(t: string)
    ensures |NumberText(t)| == if t != "" && NumberChar(t[0]) then 1 + |NumberText(t[1..])| else 0
  {
  }

  lemma NothingRead<T>(r: Parsed<seq<T>>)
    ensures r == More([], r)
  {
    if r.Parsed? {
      NoPrefix(r.value);
    }
  }

  lemma MoreRead<T>(read: seq<T>, x: T, r: Parsed<seq<T>>)
    ensures More(read, More([x], r)) == More(read + [x], r)
  {
    if r.Parsed? {
      Assoc(read, [x], r.value);
    }
  }

  lemma {:induction false} ElementsUnfold(t: string, depth: nat, strtod: Strtod)
    ensures var item := Parsing.ParseValue(Skip(t), depth, strtod);
      ParseElements(t, depth, strtod) ==
        if item.Failed? then Failed
        else
          var u := Skip(item.rest);
          if u != "" && u[0] == ',' then More([item.value], ParseElements(u[1..], depth, strtod))
          else if u != "" && u[0] == ']' then Parsed([item.value], u[1..])
          else Failed
  {
    hide Skip, Parsing.ParseValue;
  }

  lemma {:induction false} MembersUnfold(t: string, depth: nat, strtod: Strtod)
    ensures var member := Parsing.ParseMember(t, depth, strtod);
      ParseMembers(t, depth, strtod) ==
        if member.Failed? then Failed
        else
          var u := Skip(member.rest);
          if u != "" && u[0] == ',' then More([member.value], ParseMembers(u[1..], depth, strtod))
          else if u != "" && u[0] == '}' then Parsed([member.value], u[1..])
          else Failed
  {
    hide Skip, Parsing.ParseMember;
  }

  /** One step of the second pass. */
  lemma UnescapeOne(t: string, n: nat)
    requires 0 < n < |t|
    ensures Unescape(t, n) ==
      if t[0] != '\\' then Prepend([t[0]], Unescape(t[1..], n - 1))
      else if t[1] == 'u' then
        var l := Utf16Literal(t, n);
        if l.None? then Unescaped("", false) else Prepend(l.value.bytes, Unescape(t[l.value.size..], n - l.value.size))
      else if Simple(t[1]).Some? then Prepend([Simple(t[1]).value], Unescape(t[2..], n - 2))
      else Unescaped("", false)
  {
    hide Utf16Literal, Simple;
  }

  lemma PrependMore(done: string, piece: string, u: Unescaped, stored: string)
    requires stored == done + piece
    ensures Prepend(stored, u) == Prepend(done, Prepend(piece, u))
  {
    Assoc(done, piece, u.out);
  }

  lemma {:induction false} ScanDone(t: string)
    ensures t == "" ==> Scan(t).None?
    ensures t != "" && t[0] == '\"' ==> Scan(t) == Some(0) && Escapes(t) == 0
  {
  }

  /** One step of the first pass, whether it succeeds or not. */
  lemma {:induction false} ScanOne(t: string)
    requires t != "" && t[0] != '\"'
    ensures t[0] == '\\' && |t| == 1 ==> Scan(t).None?
    ensures t[0] == '\\' && |t| > 1 ==>
      && (Scan(t).Some? <==> Scan(t[2..]).Some?)
      && (Scan(t).Some? ==> Scan(t).value == 2 + Scan(t[2..]).value && Escapes(t) == 1 + Escapes(t[2..]))
    ensures t[0] != '\\' ==>
      && (Scan(t).Some? <==> Scan(t[1..]).Some?)
      && (Scan(t).Some? ==> Scan(t).value == 1 + Scan(t[1..]).value && Escapes(t) == Escapes(t[1..]))
  {
  }

  /** `cJSON_ParseWithLengthOpts`; `end` is the place behind what was read. */
  method ParseText(value: string, requireNullTerminated: bool, strtod: Strtod) returns (ok: bool, item: Json, end: nat)
    ensures ok <==> Parse(value, requireNullTerminated, strtod).Parsed?
    ensures ok ==> end <= |value| && Parse(value, requireNullTerminated, strtod) == Parsed(item, value[end..])
  {
    hide Skip, Parsing.ParseValue;
    if |value| == 0 {
      return false, Invalid, 0;
    }
    var buffer := new ParseBuffer(value, strtod);
    DropDrop(value, 0, 0);
    if 4 < |value| && value[..3] == BOM {
      buffer.offset := 3;
    }
    buffer.SkipWhitespace();
    ok, item := buffer.ParseValue();
    if !ok {
      return false, Invalid, 0;
    }
    if requireNullTerminated {
      buffer.SkipWhitespace();
      if buffer.offset >= |value| || value[buffer.offset] != NUL {
        return false, Invalid, 0;
      }
    }
    end := buffer.offset;
  }
}
