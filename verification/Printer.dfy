/** The growing-buffer printer of libs/cjson/src/cJSON.c, proved against the text of
    `Rendering`: what it writes, when it succeeds, and that every store falls into
    the room the last `Ensure` reserved. The ghost string handed along is the text
    already in the buffer. */
module Printer {
  import opened Text
  import opened Json
  import opened Rendering

  const DEFAULT_BUFFER_SIZE := 256

  lemma {:induction false} JoinQuoted(done: string, s: string)
    ensures ((done + "\"") + EscapeAll(s)) + "\"" == done + Quoted(s)
  {
    hide EscapeAll;
  }

  lemma CommaSize(format: bool, more: bool)
    ensures |Comma(format, more)| == if !more then 0 else if format then 2 else 1
    ensures !more ==> Comma(format, more) == []
  {
  }

  /** What is left to print of an array, one element on. */
  lemma {:induction false} NextElement(now: string, items: seq<Json>, i: nat, format: bool, depth: nat)
    requires i < |items|
    ensures var c := Comma(format, i + 1 < |items|);
      && ((now + Render(items[i], format, depth)) + c) + RenderItems(items[i + 1..], format, depth)
        == now + RenderItems(items[i..], format, depth)
      && |now| + |Render(items[i], format, depth)| + |c| <= |now + RenderItems(items[i..], format, depth)|
    ensures PrintableItems(items[i..]) <==> Printable(items[i]) && PrintableItems(items[i + 1..])
  {
    hide Printable;
    var t, c := Render(items[i], format, depth), Comma(format, i + 1 < |items|);
    var r := RenderItems(items[i + 1..], format, depth);
    assert items[i..][1..] == items[i + 1..] && items[i..][0] == items[i];
    assert RenderItems(items[i..], format, depth) == t + (c + r);
    hide Render, RenderItems;
    JoinRest(now, t, c, r);
  }

  lemma JoinRest(a: string, b: string, c: string, d: string)
    ensures ((a + b) + c) + d == a + (b + (c + d))
  {
  }

  /** What is left to print of an object, one member on. */
  lemma {:induction false} NextMember(now: string, members: seq<Member>, i: nat, format: bool, depth: nat)
    requires i < |members|
    ensures var t := RenderMember(members[i], format, depth, i + 1 < |members|);
      && (now + t) + RenderMembers(members[i + 1..], format, depth) == now + RenderMembers(members[i..], format, depth)
      && |now| + |t| <= |now + RenderMembers(members[i..], format, depth)|
    ensures PrintableMembers(members[i..]) <==> Printable(members[i].item) && PrintableMembers(members[i + 1..])
  {
    hide RenderMember, Printable;
    assert members[i..][1..] == members[i + 1..] && members[i..][0] == members[i];
    Assoc(now, RenderMember(members[i], format, depth, i + 1 < |members|),
          RenderMembers(members[i + 1..], format, depth));
  }

  lemma {:induction false} JoinMember(done: string, m: Member, format: bool, depth: nat, more: bool)
    ensures var a, b, c, d, e := Indent(format, depth), Quoted(m.name), Colon(format), Render(m.item, format, depth),
        LineEnd(format, more);
      && ((((done + a) + b) + c) + d) + e == done + RenderMember(m, format, depth, more)
      && |RenderMember(m, format, depth, more)| == |a| + |b| + |c| + |d| + |e|
  {
    hide Indent, Quoted, Colon, Render, LineEnd;
    var a, b, c, d, e := Indent(format, depth), Quoted(m.name), Colon(format), Render(m.item, format, depth),
      LineEnd(format, more);
    JoinRest(done, a, b, c + (d + e));
    JoinRest((done + a) + b, c, d, e);
  }

  lemma {:induction false} NoItems(format: bool, depth: nat)
    ensures RenderItems([], format, depth) == [] && RenderMembers([], format, depth) == []
    ensures PrintableItems([]) && PrintableMembers([])
  {
  }

  lemma {:induction false} ArrayText(done: string, items: seq<Json>, format: bool, depth: nat)
    ensures var t := RenderItems(items, format, depth + 1);
      && ((done + "[") + t) + "]" == done + Render(Array(items), format, depth)
      && |Render(Array(items), format, depth)| == |t| + 2
    ensures Printable(Array(items)) == PrintableItems(items)
  {
    hide RenderItems, PrintableItems;
    JoinRest(done, "[", RenderItems(items, format, depth + 1), "]");
  }

  lemma {:induction false} ObjectText(done: string, members: seq<Member>, format: bool, depth: nat)
    ensures var t, z := RenderMembers(members, format, depth + 1), Indent(format, depth) + "}";
      && ((done + Opening(format)) + t) + z == done + Render(Object(members), format, depth)
      && |Render(Object(members), format, depth)| == |Opening(format)| + |t| + |z|
    ensures Printable(Object(members)) == PrintableMembers(members)
  {
    hide Opening, RenderMembers, Indent, PrintableMembers;
    JoinRest(done, Opening(format), RenderMembers(members, format, depth + 1), Indent(format, depth) + "}");
  }

  lemma LineEndSize(format: bool, more: bool)
    ensures |LineEnd(format, more)| == (if format then 1 else 0) + (if more then 1 else 0)
  {
  }

  class PrintBuffer {
    var buffer: array<char>
    var length: nat
    var offset: nat
    var depth: nat
    const noalloc: bool
    const format: bool

    constructor (buffer: array<char>, length: nat, noalloc: bool, format: bool)
      requires length <= buffer.Length && length <= INT_MAX
      ensures this.buffer == buffer && this.length == length && offset == 0 && depth == 0
      ensures this.noalloc == noalloc && this.format == format && Valid()
    {
      this.buffer, this.length, offset, depth := buffer, length, 0, 0;
      this.noalloc, this.format := noalloc, format;
    }

    ghost predicate Valid()
      reads `length, `buffer, `offset
    {
      && length <= buffer.Length && length <= INT_MAX
      && (offset < length || offset == length == 0)
    }

    /** The length the buffer can have at most. */
    ghost function Limit(): nat
      reads `length
    {
      if noalloc then length else INT_MAX
    }

    ghost predicate Has(text: string)
      reads `length, `buffer, buffer
    {
      |text| <= length <= buffer.Length && buffer[..|text|] == text
    }

    /** The buffer holds `text` and its terminating NUL. */
    ghost predicate Holds(text: string)
      reads `length, `buffer, buffer
    {
      Has(text) && |text| < length && buffer[|text|] == NUL
    }

    /** After a value is printed the offset may still stand before its end. */
    ghost predicate Printed(done: string, text: string)
      reads `length, `buffer, `offset, buffer
    {
      && Valid() && Holds(text) && |done| <= offset <= |text|
      && (noalloc || buffer.Length == length)
    }

    /** What no call may do: change a caller's buffer for another one or store behind
        `end` in it. */
    twostate predicate Kept(end: int)
      reads `length, `buffer, buffer
    {
      && (buffer == old(buffer) || (fresh(buffer) && !noalloc))
      && (noalloc ==>
            length == old(length) && forall k :: 0 <= k < buffer.Length && end < k ==> buffer[k] == old(buffer[k]))
    }

    /** The text so far ends at the offset. */
    ghost predicate Ready(done: string)
      reads `length, `buffer, `offset, buffer
    {
      Valid() && offset == |done| && Has(done) && (noalloc || buffer.Length == length)
    }

    /** Reallocation keeps the contents. */
    method Reallocate(newsize: nat)
      requires length <= buffer.Length && buffer.Length <= newsize
      modifies this`buffer
      ensures fresh(buffer) && buffer.Length == newsize
      ensures buffer[..old(buffer).Length] == old(buffer[..])
    {
      var present := buffer;
      var newbuffer := new char[newsize];
      for i := 0 to present.Length
        invariant newbuffer[..i] == present[..i]
      {
        newbuffer[i] := present[i];
      }
      buffer := newbuffer;
    }

    /** `ensure`; on success `needed` bytes from the offset on are free to store to. */
    method Ensure(needed: nat, ghost done: string) returns (ok: bool)
      requires Ready(done)
      modifies this`buffer, this`length
      ensures ok <==> |done| + needed + 1 <= Limit()
      ensures Ready(done)
      ensures ok ==> |done| + needed < length
      ensures buffer == old(buffer) || (fresh(buffer) && !noalloc)
      ensures noalloc ==> length == old(length)
    {
      if length > 0 && offset >= length {
        return false;
      }
      if needed > INT_MAX {
        return false;
      }
      var total := needed + offset + 1;
      if total <= length {
        return true;
      }
      if noalloc {
        return false;
      }
      var newsize;
      if total > INT_MAX / 2 {
        if total <= INT_MAX {
          newsize := INT_MAX;
        } else {
          return false;
        }
      } else {
        newsize := total * 2;
      }
      ghost var before := buffer[..];
      Reallocate(newsize);
      length := newsize;
      assert buffer[..|done|] == before[..|done|];
      return true;
    }

    /** Stores a piece of text where the text so far ends. */
    method Put(at: nat, t: string, ghost done: string)
      requires Has(done) && at == |done| && at + |t| <= length
      modifies buffer
      ensures Has(done + t)
      ensures forall k :: |done| + |t| <= k < buffer.Length ==> buffer[k] == old(buffer[k])
    {
      for i := 0 to |t|
        invariant buffer[..at] == done && buffer[at..at + i] == t[..i]
        invariant forall k :: at + i <= k < buffer.Length ==> buffer[k] == old(buffer[k])
      {
        buffer[at + i] := t[i];
        assert buffer[at..at + i + 1] == buffer[at..at + i] + [t[i]];
      }
      assert buffer[..at + |t|] == buffer[..at] + buffer[at..at + |t|];
    }

    /** `update_offset`. */
    method UpdateOffset(ghost done: string, ghost t: string)
      requires Printed(done, done + t) && NulFree(t)
      modifies this`offset
      ensures Ready(done + t)
    {
      ghost var text := done + t;
      var n := 0;
      while buffer[offset + n] != NUL
        invariant offset + n <= |text|
        decreases |text| - n
      {
        assert buffer[offset + n] == text[offset + n];
        n := n + 1;
      }
      offset := offset + n;
    }

    /** Terminates the text: `*output = '\0'`. */
    method Terminate(at: nat, ghost text: string)
      requires Valid() && Has(text) && at == |text| < length
      modifies buffer
      ensures Valid() && Holds(text)
      ensures forall k :: |text| < k < buffer.Length ==> buffer[k] == old(buffer[k])
    {
      buffer[at] := NUL;
      assert buffer[..at] == old(buffer[..at]);
    }

    /** `strcpy` of a fixed word into room reserved for it. */
    method PrintWord(word: string, ghost done: string) returns (ok: bool)
      requires Ready(done)
      modifies this, buffer
      ensures ok <==> |done| + |word| + 2 <= Limit()
      ensures depth == old(depth)
      ensures ok ==> Printed(done, done + word)
      ensures Kept(|done| + |word|)
    {
      ok := Ensure(|word| + 1, done);
      if ok {
        Put(offset, word, done);
        Terminate(offset + |word|, done + word);
      }
    }

    /** `print_number` of an `int`: the digits are copied one by one. */
    method PrintNumber(n: int, ghost done: string) returns (ok: bool)
      requires Ready(done)
      modifies this, buffer
      ensures ok <==> |done| + |SignedDecimal(n)| + 2 <= Limit()
      ensures depth == old(depth)
      ensures ok ==> Printed(done, done + SignedDecimal(n))
      ensures Kept(|done| + |SignedDecimal(n)|)
    {
      var digits := SignedDecimal(n);
      ok := Ensure(|digits| + 1, done);
      if ok {
        Put(offset, digits, done);
        Terminate(offset + |digits|, done + digits);
        offset := offset + |digits|;
      }
    }

    /** The first pass of `print_string_ptr`. */
    method CountEscapes(s: string) returns (escape_characters: nat)
      requires NulFree(s)
      ensures |s| + escape_characters == |EscapeAll(s)|
    {
      escape_characters := 0;
      var i := 0;
      while At(s, i) != NUL
        invariant i <= |s| && i + escape_characters + |EscapeAll(s[i..])| == |EscapeAll(s)|
        decreases |s| - i
      {
        assert s[i..][1..] == s[i + 1..];
        if Letter(s[i]).Some? {
          escape_characters := escape_characters + 1;
        } else if s[i] < ' ' {
          escape_characters := escape_characters + 5;
        }
        i := i + 1;
      }
    }

    /** One character of the second pass. */
    method PutEscaped(c: char, at: nat, ghost done: string) returns (end: nat)
      requires Has(done) && at == |done| && at + |Escaped(c)| <= length
      modifies buffer
      ensures end == at + |Escaped(c)| && Has(done + Escaped(c))
      ensures forall k :: end <= k < buffer.Length ==> buffer[k] == old(buffer[k])
    {
      end := at;
      if c >= ' ' && c != '\"' && c != '\\' {
        Put(end, [c], done);
      } else {
        Put(end, "\\", done);
        end := end + 1;
        if Letter(c).Some? {
          Put(end, [Letter(c).value], done + "\\");
          assert done + "\\" + [Letter(c).value] == done + Escaped(c);
        } else {
          Put(end, Unicode(c), done + "\\");
          end := end + 4;
          assert done + "\\" + Unicode(c) == done + Escaped(c);
        }
      }
      end := end + 1;
    }

    /** The second pass of `print_string_ptr`, into room already reserved. */
    method CopyEscaped(s: string, at: nat, ghost done: string) returns (end: nat)
      requires NulFree(s) && Has(done) && at == |done| && at + |EscapeAll(s)| <= length
      modifies buffer
      ensures end == at + |EscapeAll(s)| && Has(done + EscapeAll(s))
      ensures forall k :: end <= k < buffer.Length ==> buffer[k] == old(buffer[k])
    {
      var i := 0;
      ghost var now := done;
      end := at;
      NoPrefix(EscapeAll(s));
      while At(s, i) != NUL
        invariant i <= |s| && Has(now) && end == |now|
        invariant now + EscapeAll(s[i..]) == done + EscapeAll(s)
        invariant forall k :: at + |EscapeAll(s)| <= k < buffer.Length ==> buffer[k] == old(buffer[k])
        decreases |s| - i
      {
        hide Has, Escaped;
        assert s[i..][1..] == s[i + 1..];
        Assoc(now, Escaped(s[i]), EscapeAll(s[i + 1..]));
        end := PutEscaped(s[i], end, now);
        now := now + Escaped(s[i]);
        i := i + 1;
      }
      NoSuffix(now);
    }

    /** `print_string_ptr`. */
    method PrintString(s: string, ghost done: string) returns (ok: bool)
      requires NulFree(s)
      requires Ready(done)
      modifies this, buffer
      ensures ok <==> |done| + |Quoted(s)| + 2 <= Limit()
      ensures depth == old(depth)
      ensures ok ==> Printed(done, done + Quoted(s))
      ensures Kept(|done| + |Quoted(s)|)
    {
      hide Has, EscapeAll;
      var escape_characters := CountEscapes(s);
      var output_length := |s| + escape_characters;
      ok := Ensure(output_length + 3, done);
      if !ok {
        return;
      }
      Put(offset, "\"", done);
      var end := offset + 1;
      if escape_characters == 0 {
        NothingEscaped(s);
        Put(end, s, done + "\"");
        end := end + |s|;
      } else {
        end := CopyEscaped(s, end, done + "\"");
      }
      Put(end, "\"", done + "\"" + EscapeAll(s));
      JoinQuoted(done, s);
      Terminate(end + 1, done + Quoted(s));
    }

    /** Reserves `needed` bytes, stores a piece of punctuation and moves the offset
        behind it; the separators are also terminated. */
    method Emit(t: string, needed: nat, terminated: bool, ghost done: string) returns (ok: bool)
      requires |t| + (if terminated then 1 else 0) <= needed
      requires Ready(done)
      modifies this, buffer
      ensures ok <==> |done| + needed + 1 <= Limit()
      ensures ok ==> depth == old(depth) && Ready(done + t)
      ensures Kept(|done| + needed - 1)
    {
      ok := Ensure(needed, done);
      if ok {
        Put(offset, t, done);
        if terminated {
          Terminate(offset + |t|, done + t);
        }
        offset := offset + |t|;
      }
    }

    /** `print_value`. */
    method PrintValue(j: Json, ghost done: string) returns (ok: bool)
      requires Representable(j)
      requires Ready(done)
      modifies this, buffer
      ensures ok <==> Printable(j) && |done| + |Render(j, format, old(depth))| + 2 <= Limit()
      ensures ok ==> depth == old(depth) && Printed(done, done + Render(j, format, depth))
      ensures Kept(|done| + |Render(j, format, old(depth))|)
      decreases j, 0
    {
      match j
      case Invalid => return false;
      case Null => ok := PrintWord("null", done);
      case Bool(b) => ok := PrintWord(if b then "true" else "false", done);
      case Number(n) => ok := PrintNumber(n, done);
      case String(s) => ok := PrintString(s, done);
      case Array(items) => ok := PrintArray(items, done);
      case Object(members) => ok := PrintObject(members, done);
    }

    /** One element of an array and the comma behind it. */
    method PrintElement(j: Json, more: bool, ghost done: string) returns (ok: bool)
      requires Representable(j)
      requires Ready(done)
      modifies this, buffer
      ensures ok <==>
        Printable(j) && |done| + |Render(j, format, old(depth))| + |Comma(format, more)| + 2 <= Limit()
      ensures ok ==> depth == old(depth)
      ensures ok ==> var now := (done + Render(j, format, depth)) + Comma(format, more); Ready(now)
      ensures Kept(|done| + |Render(j, format, old(depth))| + |Comma(format, more)|)
      decreases j, 1
    {
      ok := PrintValue(j, done);
      if !ok {
        return;
      }
      hide Ready, Printed, Render, Printable, Comma;
      ghost var now := done + Render(j, format, depth);
      RenderNulFree(j, format, depth);
      UpdateOffset(done, Render(j, format, depth));
      CommaSize(format, more);
      if more {
        ok := Emit(Comma(format, more), if format then 3 else 2, true, now);
      } else {
        NoSuffix(now);
      }
    }

    /** The loop of `print_array`. */
    method PrintElements(items: seq<Json>, ghost done: string) returns (ok: bool)
      requires RepresentableItems(items)
      requires Ready(done)
      modifies this, buffer
      ensures ok ==> PrintableItems(items)
      ensures ok ==> depth == old(depth)
      ensures ok ==> var now := done + RenderItems(items, format, depth); Ready(now)
      ensures !ok && PrintableItems(items) ==>
        |done| + |RenderItems(items, format, old(depth))| + 2 > Limit()
      ensures Kept(|done| + |RenderItems(items, format, old(depth))|)
      decreases items, 2
    {
      hide Ready, Has, Render, RenderItems, Printable, PrintableItems, Representable;
      assert items[0..] == items && items[|items|..] == [];
      NoItems(format, depth);
      ghost var whole := done + RenderItems(items, format, depth);
      ghost var now := done;
      var i := 0;
      while i < |items|
        invariant i <= |items| && (PrintableItems(items[i..]) <==> PrintableItems(items))
        invariant Ready(now)
        invariant depth == old(depth) && now + RenderItems(items[i..], format, depth) == whole
        invariant Kept(|whole|)
      {
        var more := i + 1 < |items|;
        NextElement(now, items, i, format, depth);
        ok := PrintElement(items[i], more, now);
        if !ok {
          return;
        }
        now := (now + Render(items[i], format, depth)) + Comma(format, more);
        i := i + 1;
      }
      NoSuffix(now);
      ok := true;
    }

    /** The closing bracket and, for formatted objects, the tabs before it. */
    method Close(t: string, ghost done: string) returns (ok: bool)
      requires Ready(done)
      requires depth > 0
      modifies this, buffer
      ensures ok <==> |done| + |t| + 2 <= Limit()
      ensures ok ==> depth == old(depth) - 1 && Printed(done, done + t)
      ensures Kept(|done| + |t|)
    {
      ok := Ensure(|t| + 1, done);
      if ok {
        Put(offset, t, done);
        Terminate(offset + |t|, done + t);
        depth := depth - 1;
      }
    }

    /** `print_array`. */
    method PrintArray(items: seq<Json>, ghost done: string) returns (ok: bool)
      requires RepresentableItems(items)
      requires Ready(done)
      modifies this, buffer
      ensures ok <==>
        Printable(Array(items)) && |done| + |Render(Array(items), format, old(depth))| + 2 <= Limit()
      ensures ok ==> depth == old(depth) && Printed(done, done + Render(Array(items), format, depth))
      ensures Kept(|done| + |Render(Array(items), format, old(depth))|)
      decreases items, 3
    {
      hide Ready, Has, RenderItems, Render, Printable, PrintableItems, Representable, RepresentableItems;
      ArrayText(done, items, format, depth);
      ok := Emit("[", 1, false, done);
      if ok {
        depth := depth + 1;
        ok := PrintElements(items, done + "[");
      }
      if ok {
        ok := Close("]", (done + "[") + RenderItems(items, format, depth));
      }
    }

    /** The key of a member, with the tabs before and the colon behind it. */
    method PrintKey(name: string, ghost done: string) returns (ok: bool)
      requires NulFree(name)
      requires Ready(done)
      modifies this, buffer
      ensures ok ==> depth == old(depth)
      ensures ok ==> var now := ((done + Indent(format, depth)) + Quoted(name)) + Colon(format);
        Ready(now)
      ensures !ok ==> |done| + |Indent(format, old(depth))| + |Quoted(name)| + |Colon(format)| + 2 > Limit()
      ensures Kept(|done| + |Indent(format, old(depth))| + |Quoted(name)| + |Colon(format)|)
    {
      hide Ready, Has, Quoted;
      if format {
        ok := Emit(Tabs(depth), depth, false, done);
        if !ok {
          return;
        }
      } else {
        NoSuffix(done);
      }
      ghost var now := done + Indent(format, depth);
      ok := PrintString(name, now);
      if !ok {
        return;
      }
      QuotedNulFree(name);
      UpdateOffset(now, Quoted(name));
      ok := Emit(Colon(format), if format then 2 else 1, false, now + Quoted(name));
    }

    /** One member of an object and what ends its line. */
    method PrintMember(m: Member, more: bool, ghost done: string) returns (ok: bool)
      requires NulFree(m.name) && Representable(m.item)
      requires Ready(done)
      modifies this, buffer
      ensures ok <==>
        Printable(m.item) && |done| + |RenderMember(m, format, old(depth), more)| + 2 <= Limit()
      ensures ok ==> depth == old(depth)
      ensures ok ==> var now := done + RenderMember(m, format, depth, more); Ready(now)
      ensures Kept(|done| + |RenderMember(m, format, old(depth), more)|)
      decreases m, 1
    {
      JoinMember(done, m, format, depth, more);
      hide Ready, Has, Render, RenderMember, Quoted, Indent, Colon, LineEnd, Printable;
      ok := PrintKey(m.name, done);
      if !ok {
        return;
      }
      ghost var now := ((done + Indent(format, depth)) + Quoted(m.name)) + Colon(format);
      ok := PrintValue(m.item, now);
      if !ok {
        return;
      }
      RenderNulFree(m.item, format, depth);
      UpdateOffset(now, Render(m.item, format, depth));
      LineEndSize(format, more);
      ok := Emit(LineEnd(format, more), (if format then 1 else 0) + (if more then 1 else 0) + 1, true,
        now + Render(m.item, format, depth));
    }

    /** The loop of `print_object`. */
    method PrintMembers(members: seq<Member>, ghost done: string) returns (ok: bool)
      requires RepresentableMembers(members)
      requires Ready(done)
      modifies this, buffer
      ensures ok ==> PrintableMembers(members)
      ensures ok ==> depth == old(depth)
      ensures ok ==> var now := done + RenderMembers(members, format, depth); Ready(now)
      ensures !ok && PrintableMembers(members) ==>
        |done| + |RenderMembers(members, format, old(depth))| + 2 > Limit()
      ensures Kept(|done| + |RenderMembers(members, format, old(depth))|)
      decreases members, 2
    {
      hide Ready, Has, RenderMember, RenderMembers, Printable, PrintableMembers, Representable;
      assert members[0..] == members && members[|members|..] == [];
      NoItems(format, depth);
      ghost var whole := done + RenderMembers(members, format, depth);
      ghost var now := done;
      var i := 0;
      while i < |members|
        invariant i <= |members| && (PrintableMembers(members[i..]) <==> PrintableMembers(members))
        invariant Ready(now)
        invariant depth == old(depth) && now + RenderMembers(members[i..], format, depth) == whole
        invariant Kept(|whole|)
      {
        var more := i + 1 < |members|;
        NextMember(now, members, i, format, depth);
        ok := PrintMember(members[i], more, now);
        if !ok {
          return;
        }
        now := now + RenderMember(members[i], format, depth, more);
        i := i + 1;
      }
      NoSuffix(now);
      ok := true;
    }

    /** `print_object`. */
    method PrintObject(members: seq<Member>, ghost done: string) returns (ok: bool)
      requires RepresentableMembers(members)
      requires Ready(done)
      modifies this, buffer
      ensures ok <==>
        Printable(Object(members)) && |done| + |Render(Object(members), format, old(depth))| + 2 <= Limit()
      ensures ok ==> depth == old(depth) && Printed(done, done + Render(Object(members), format, depth))
      ensures Kept(|done| + |Render(Object(members), format, old(depth))|)
      decreases members, 3
    {
      hide Ready, Has, RenderMembers, Render, Printable, PrintableMembers, Representable, RepresentableMembers, Indent;
      ObjectText(done, members, format, depth);
      ok := Emit(Opening(format), if format then 3 else 2, false, done);
      if ok {
        depth := depth + 1;
        ok := PrintMembers(members, done + Opening(format));
      }
      if ok {
        ok := Close(Indent(format, depth - 1) + "}", (done + Opening(format)) + RenderMembers(members, format, depth));
      }
    }
  }

  /** `cJSON_PrintPreallocated` succeeds exactly when the buffer is as long as the
      text and two more bytes, and stores the text, its NUL and nothing behind them. */
  method PrintPreallocated(j: Json, buffer: array?<char>, length: int, format: bool) returns (ok: bool)
    requires Representable(j) && length <= INT_MAX && (buffer != null ==> length <= buffer.Length)
    modifies if buffer == null then {} else {buffer}
    ensures ok <==> buffer != null && Printable(j) && |Render(j, format, 0)| + 2 <= length
    ensures ok ==> var n := |Render(j, format, 0)|;
      && buffer[..n] == Render(j, format, 0) && buffer[n] == NUL
      && buffer[n + 1..] == old(buffer[n + 1..])
  {
    if length < 0 || buffer == null {
      return false;
    }
    var p := new PrintBuffer(buffer, length, true, format);
    assert p.Ready("");
    NoPrefix(Render(j, format, 0));
    ok := p.PrintValue(j, "");
  }

  /** The copy of the first bytes of a buffer. */
  method Trim(buffer: array<char>, size: nat) returns (copy: array<char>)
    requires size <= buffer.Length
    ensures fresh(copy) && copy[..] == buffer[..size]
  {
    copy := new char[size];
    for i := 0 to size
      invariant copy[..i] == buffer[..i]
    {
      copy[i] := buffer[i];
    }
  }

  /** `print` behind `cJSON_Print` and `cJSON_PrintUnformatted`: the result is the text
      and its NUL, in an allocation of just that size. */
  method Print(j: Json, format: bool) returns (printed: array?<char>)
    requires Representable(j)
    ensures printed != null <==> Printable(j) && |Render(j, format, 0)| + 2 <= INT_MAX
    ensures printed != null ==> fresh(printed) && printed[..] == Render(j, format, 0) + [NUL]
  {
    hide Render, Printable, Representable;
    var buffer := new char[DEFAULT_BUFFER_SIZE];
    var p := new PrintBuffer(buffer, DEFAULT_BUFFER_SIZE, false, format);
    assert p.Ready("");
    NoPrefix(Render(j, format, 0));
    var ok := p.PrintValue(j, "");
    if !ok {
      return null;
    }
    RenderNulFree(j, format, 0);
    p.UpdateOffset("", Render(j, format, 0));
    printed := Trim(p.buffer, p.offset + 1);
    printed[p.offset] := NUL;
    assert printed[..] == printed[..p.offset] + [NUL];
  }

  /** `cJSON_PrintBuffered`; its result keeps the length the buffer has grown to. */
  method PrintBuffered(j: Json, prebuffer: int, format: bool) returns (printed: array?<char>)
    requires Representable(j) && prebuffer <= INT_MAX
    ensures printed != null <==> prebuffer >= 0 && Printable(j) && |Render(j, format, 0)| + 2 <= INT_MAX
    ensures printed != null ==> var n := |Render(j, format, 0)|;
      fresh(printed) && n < printed.Length && printed[..n] == Render(j, format, 0) && printed[n] == NUL
  {
    if prebuffer < 0 {
      return null;
    }
    var buffer := new char[prebuffer];
    var p := new PrintBuffer(buffer, prebuffer, false, format);
    assert p.Ready("");
    NoPrefix(Render(j, format, 0));
    var ok := p.PrintValue(j, "");
    if !ok {
      return null;
    }
    return p.buffer;
  }
}
