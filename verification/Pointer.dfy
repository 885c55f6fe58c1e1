/** JSON Pointer (RFC 6901) in libs/cjson/src/cJSON_Utils.c: escaping, matching a
    key against a token, array indices, resolving a pointer and finding the
    pointer of a node. A node is named by its position, the list of child
    indices that leads to it; two pointers to items are equal exactly when the
    positions are. */
module Pointer {
  import opened Text
  import opened Json

  type Path = seq<nat>

  const SIZE_LIMIT: nat := 0x1_0000_0000_0000_0000  // one past the largest size_t

  // ---------------------------------------------------------------- escaping

  function EncodeChar(c: char): string
  {
    if c == '/' then "~1" else if c == '~' then "~0" else [c]
  }

  function Encode(s: string): string
  {
    if s == [] then [] else EncodeChar(s[0]) + Encode(s[1..])
  }

  lemma {:induction false} EncodeSnoc(s: string, i: nat)
    requires i < |s|
    ensures Encode(s[..i + 1]) == Encode(s[..i]) + EncodeChar(s[i])
    ensures |Encode(s[..i + 1])| <= |Encode(s)|
  {
    EncodeAppend(s[..i], [s[i]]);
    assert s[..i + 1] == s[..i] + [s[i]];
    assert Encode([s[i]]) == EncodeChar(s[i]) + Encode([]);
    EncodeAppend(s[..i + 1], s[i + 1..]);
    assert s == s[..i + 1] + s[i + 1..];
  }

  lemma {:induction false} EncodeAppend(s: string, t: string)
    ensures Encode(s + t) == Encode(s) + Encode(t)
  {
    if s == [] {
      assert s + t == t;
      NoPrefix(Encode(t));
    } else {
      EncodeAppend(s[1..], t);
      assert (s + t)[1..] == s[1..] + t && (s + t)[0] == s[0];
      Assoc(EncodeChar(s[0]), Encode(s[1..]), Encode(t));
    }
  }

  method PointerEncodedLength(text: string) returns (length: nat)
    ensures length == |Encode(text)|
  {
    length := 0;
    var i := 0;
    while i < |text|
      invariant i <= |text| && length == |Encode(text[..i])|
    {
      EncodeSnoc(text, i);
      if text[i] == '~' || text[i] == '/' {
        length := length + 1;
      }
      i, length := i + 1, length + 1;
    }
    assert text[..i] == text;
  }

  /** Writes the escaped key and its NUL at `start` and nothing else. */
  method EncodeStringAsPointer(destination: array<char>, start: nat, source: string)
    requires start + |Encode(source)| < destination.Length
    modifies destination
    ensures destination[..] == old(destination[..start]) + Encode(source) + ['\0']
      + old(destination[start + |Encode(source)| + 1..])
  {
    hide Encode;
    var i, d := 0, start;
    ghost var written := [];
    EncodeNothing();
    while i < |source|
      invariant i <= |source| && written == Encode(source[..i])
      invariant d == start + |written| <= start + |Encode(source)|
      invariant forall k :: 0 <= k < |written| ==> destination[start + k] == written[k]
      invariant forall k :: 0 <= k < start || d <= k < destination.Length ==> destination[k] == old(destination[k])
    {
      EncodeSnoc(source, i);
      if source[i] == '/' {
        destination[d] := '~';
        destination[d + 1] := '1';
        d := d + 1;
      } else if source[i] == '~' {
        destination[d] := '~';
        destination[d + 1] := '0';
        d := d + 1;
      } else {
        destination[d] := source[i];
      }
      written := written + EncodeChar(source[i]);
      i, d := i + 1, d + 1;
    }
    assert source[..i] == source;
    destination[d] := '\0';
    Spliced(old(destination[..]), destination[..], start, written);
  }

  lemma EncodeNothing()
    ensures Encode("") == ""
  {
  }

  /** A text and its NUL stored into the middle of a buffer. */
  lemma Spliced(before: string, after: string, start: nat, text: string)
    requires start + |text| < |before| == |after|
    requires forall k :: 0 <= k < |text| ==> after[start + k] == text[k]
    requires after[start + |text|] == '\0'
    requires forall k :: 0 <= k < start || start + |text| < k < |before| ==> after[k] == before[k]
    ensures after == before[..start] + text + ['\0'] + before[start + |text| + 1..]
  {
  }

  /** RFC 6901 section 3: every `~` of a token is followed by `0` or `1`. */
  predicate ValidToken(token: string)
  {
    if token == [] then true
    else if token[0] == '~' then At(token, 1) in "01" && |token| > 1 && ValidToken(token[2..])
    else token[0] != '/' && ValidToken(token[1..])
  }

  /** RFC 6901 section 4: the key a token names. */
  function Unescape(token: string): string
    requires ValidToken(token)
  {
    if token == [] then []
    else if token[0] == '~' then [if token[1] == '0' then '~' else '/'] + Unescape(token[2..])
    else [token[0]] + Unescape(token[1..])
  }

  lemma {:induction false} EncodeUnescape(key: string)
    ensures ValidToken(Encode(key)) && Unescape(Encode(key)) == key
  {
    if key != [] {
      EncodeUnescape(key[1..]);
      var e, r := Encode(key), Encode(key[1..]);
      if key[0] == '/' || key[0] == '~' {
        assert e[2..] == r;
      } else {
        assert e[1..] == r;
      }
    }
  }

  // ------------------------------------------------------- matching one token

  predicate TokenEnds(pointer: string)
  {
    pointer == [] || pointer[0] == '/'
  }

  /** `compare_pointers`. */
  function MatchesToken(name: string, pointer: string, cs: bool): bool
    decreases |pointer|
  {
    if name == [] || TokenEnds(pointer) then !TokenEnds(pointer) == (name != [])
    else if pointer[0] == '~' then
      && ((At(pointer, 1) == '0' && name[0] == '~') || (At(pointer, 1) == '1' && name[0] == '/'))
      && MatchesToken(name[1..], pointer[2..], cs)
    else
      && (if cs then name[0] == pointer[0] else ToLower(name[0]) == ToLower(pointer[0]))
      && MatchesToken(name[1..], pointer[1..], cs)
  }

  method ComparePointers(name: string, pointer: string, caseSensitive: bool) returns (equal: bool)
    requires NulFree(name) && NulFree(pointer)
    ensures equal == MatchesToken(name, pointer, caseSensitive)
  {
    var n, p := 0, 0;
    while At(name, n) != '\0' && At(pointer, p) != '\0' && At(pointer, p) != '/'
      invariant n <= |name| && p <= |pointer|
      invariant MatchesToken(name, pointer, caseSensitive)
        == MatchesToken(name[n..], pointer[p..], caseSensitive)
      decreases |pointer| - p
    {
      assert name[n..][1..] == name[n + 1..] && pointer[p..][1..] == pointer[p + 1..];
      if pointer[p] == '~' {
        if (At(pointer, p + 1) != '0' || name[n] != '~') && (At(pointer, p + 1) != '1' || name[n] != '/') {
          return false;
        }
        assert pointer[p..][2..] == pointer[p + 2..];
        p := p + 1;
      } else if (!caseSensitive && ToLower(name[n]) != ToLower(pointer[p]))
             || (caseSensitive && name[n] != pointer[p]) {
        return false;
      }
      n, p := n + 1, p + 1;
    }
    return (At(pointer, p) != '\0' && At(pointer, p) != '/') == (At(name, n) != '\0');
  }

  lemma {:induction false} UnescapeHead(token: string)
    requires '/' !in token
    ensures token == [] ==> ValidToken(token) && Unescape(token) == []
    ensures token != [] && token[0] != '~' ==>
      && ValidToken(token) == ValidToken(token[1..])
      && (ValidToken(token) ==> Unescape(token) == [token[0]] + Unescape(token[1..]))
    ensures token != [] && token[0] == '~' ==>
      && ValidToken(token) == (|token| > 1 && (token[1] == '0' || token[1] == '1') && ValidToken(token[2..]))
      && (ValidToken(token) ==> Unescape(token) == [if token[1] == '0' then '~' else '/'] + Unescape(token[2..]))
  {
  }

  lemma {:induction false} MatchHead(name: string, token: string, rest: string)
    requires '/' !in token && TokenEnds(rest)
    ensures token == [] || name == [] ==> MatchesToken(name, token + rest, true) == (name == [] && token == [])
    ensures name != [] && token != [] && token[0] != '~' ==>
      MatchesToken(name, token + rest, true)
      == (name[0] == token[0] && MatchesToken(name[1..], token[1..] + rest, true))
    ensures name != [] && token != [] && token[0] == '~' ==>
      MatchesToken(name, token + rest, true)
      == (|token| > 1 && ((token[1] == '0' && name[0] == '~') || (token[1] == '1' && name[0] == '/')) &&
          MatchesToken(name[1..], token[2..] + rest, true))
  {
    var pointer := token + rest;
    if token == [] {
      assert pointer == rest;
    } else if token[0] == '~' {
      assert |token| > 1 ==> pointer[2..] == token[2..] + rest;
    } else {
      assert pointer[1..] == token[1..] + rest;
    }
  }

  /** A token matches a key exactly when it is well formed and unescapes to it. */
  lemma {:induction false} MatchIsUnescape(name: string, token: string, rest: string)
    requires '/' !in token && TokenEnds(rest)
    ensures MatchesToken(name, token + rest, true) <==> ValidToken(token) && Unescape(token) == name
    decreases |token|
  {
    hide MatchesToken, ValidToken, Unescape;
    UnescapeHead(token);
    MatchHead(name, token, rest);
    if token != [] && name != [] {
      HeadTail(name);
      if token[0] != '~' {
        MatchIsUnescape(name[1..], token[1..], rest);
      } else if |token| > 1 {
        MatchIsUnescape(name[1..], token[2..], rest);
      }
    }
  }

  /** One escaped character against one character of the name. */
  lemma {:induction false} MatchOne(name: string, c: char, tail: string, cs: bool)
    requires name != []
    ensures MatchesToken(name, EncodeChar(c) + tail, cs)
      <==> SameKey([name[0]], [c], cs) && MatchesToken(name[1..], tail, cs)
  {
    var pointer := EncodeChar(c) + tail;
    assert Fold([name[0]]) == [ToLower(name[0])] && Fold([c]) == [ToLower(c)];
    if c == '/' || c == '~' {
      assert pointer[2..] == tail;
    } else {
      assert pointer[1..] == tail;
    }
  }

  lemma SameKeyCons(a: string, b: string, cs: bool)
    requires a != [] && b != []
    ensures SameKey(a, b, cs) <==> SameKey([a[0]], [b[0]], cs) && SameKey(a[1..], b[1..], cs)
  {
    assert a == [a[0]] + a[1..] && b == [b[0]] + b[1..];
    if !cs {
      FoldCons(a);
      FoldCons(b);
      FoldCons([a[0]]);
      FoldCons([b[0]]);
    }
  }

  lemma {:induction false} FoldCons(a: string)
    requires a != []
    ensures Fold(a)[0] == ToLower(a[0]) && Fold(a)[1..] == Fold(a[1..])
    ensures Fold(a) == [ToLower(a[0])] + Fold(a[1..])
  {
    assert Fold(a) == [ToLower(a[0])] + Fold(a[1..]);
  }

  /** An escaped key matches exactly the keys the order identifies with it. */
  lemma {:induction false} MatchEncoded(name: string, key: string, rest: string, cs: bool)
    requires TokenEnds(rest)
    ensures MatchesToken(name, Encode(key) + rest, cs) <==> SameKey(name, key, cs)
    decreases |key|
  {
    var pointer := Encode(key) + rest;
    if key == [] {
      NoPrefix(rest);
    } else if name != [] {
      MatchEncoded(name[1..], key[1..], rest, cs);
      MatchOne(name, key[0], Encode(key[1..]) + rest, cs);
      Assoc(EncodeChar(key[0]), Encode(key[1..]), rest);
      SameKeyCons(name, key, cs);
    }
  }

  // ------------------------------------------------------------ array indices

  function DigitRun(s: string): (n: nat)
    ensures n <= |s|
    ensures forall i :: 0 <= i < n ==> IsDigit(s[i])
    ensures n < |s| ==> !IsDigit(s[n])
  {
    if s == [] || !IsDigit(s[0]) then 0 else 1 + DigitRun(s[1..])
  }

  /** `decode_array_index_from_pointer`, with the wrap-around of `size_t`. */
  function DecodeIndex(pointer: string): (r: Option<nat>)
    ensures r.Some? ==> r.value < SIZE_LIMIT
  {
    var n := DigitRun(pointer);
    if At(pointer, 0) == '0' && !TokenEnds(pointer[1..]) then None
    else if !TokenEnds(pointer[n..]) then None
    else Some(DecimalValue(pointer[..n]) % SIZE_LIMIT)
  }

  method DecodeArrayIndexFromPointer(pointer: string) returns (index: Option<nat>)
    requires NulFree(pointer)
    ensures index == DecodeIndex(pointer)
  {
    if At(pointer, 0) == '0' && At(pointer, 1) != '\0' && At(pointer, 1) != '/' {
      assert pointer[1..][0] == pointer[1];
      return None;
    }
    var parsed, position := 0, 0;
    while '0' <= At(pointer, position) <= '9'
      invariant position <= DigitRun(pointer)
      invariant parsed == DecimalValue(pointer[..position]) % SIZE_LIMIT
      decreases |pointer| - position
    {
      var digit := At(pointer, position) as int - '0' as int;
      assert pointer[..position + 1][..position] == pointer[..position];
      ghost var v := DecimalValue(pointer[..position]);
      assert DecimalValue(pointer[..position + 1]) == 10 * v + digit;
      WrapStep(v, digit);
      parsed, position := (10 * parsed + digit) % SIZE_LIMIT, position + 1;
    }
    if At(pointer, position) != '\0' && At(pointer, position) != '/' {
      return None;
    }
    return Some(parsed);
  }

  lemma WrapStep(v: nat, digit: nat)
    ensures (10 * (v % SIZE_LIMIT) + digit) % SIZE_LIMIT == (10 * v + digit) % SIZE_LIMIT
  {
    var q, r := v / SIZE_LIMIT, v % SIZE_LIMIT;
    var low := 10 * r + digit;
    assert 10 * v + digit == low + (10 * q) * SIZE_LIMIT;
    ModPlusMultiple(low, 10 * q);
  }

  lemma {:induction false} ModPlusMultiple(x: nat, k: nat)
    ensures (x + k * SIZE_LIMIT) % SIZE_LIMIT == x % SIZE_LIMIT
  {
    if k > 0 {
      ModPlusMultiple(x, k - 1);
      assert x + k * SIZE_LIMIT == (x + (k - 1) * SIZE_LIMIT) + SIZE_LIMIT;
    }
  }

  /** The printed index of an element is read back. */
  lemma {:induction false} DecodePrinted(index: nat, rest: string)
    requires index < SIZE_LIMIT && TokenEnds(rest)
    ensures DecodeIndex(Decimal(index) + rest) == Some(index)
  {
    hide Decimal, DecimalValue, DigitRun;
    var d := Decimal(index);
    var pointer := d + rest;
    DigitRunExact(d, rest);
    DropPrefix(d, rest);
    DecimalRoundTrip(index);
    DecimalStart(index);
  }

  /** The array index of section 4 of RFC 6901: a zero alone, or digits of which the
      first one is not zero. */
  predicate ArrayIndex(token: string)
  {
    token == "0" ||
    (token != "" && token[0] in "123456789" && forall i :: 0 <= i < |token| ==> token[i] in "0123456789")
  }

  lemma DigitIs(c: char)
    ensures IsDigit(c) <==> c in "0123456789"
    ensures IsDigit(c) && c != '0' <==> c in "123456789"
  {
    var all, others := "0123456789", "123456789";
    assert forall i :: 0 <= i < 10 ==> all[i] as int == '0' as int + i;
    assert forall i :: 0 <= i < 9 ==> others[i] as int == '1' as int + i;
    if IsDigit(c) {
      assert c == all[c as int - '0' as int];
      assert c != '0' ==> c == others[c as int - '1' as int];
    }
  }

  lemma {:induction false} IndexDigits(token: string)
    ensures ArrayIndex(token) <==>
            token != "" && (forall i :: 0 <= i < |token| ==> IsDigit(token[i])) && (token[0] == '0' ==> token == "0")
  {
    hide IsDigit;
    forall i | 0 <= i < |token|
      ensures IsDigit(token[i]) <==> token[i] in "0123456789"
    {
      DigitIs(token[i]);
    }
    if token != "" {
      DigitIs(token[0]);
    }
    DigitIs('0');
  }

  /** These are exactly the printed numbers. */
  lemma {:induction false} IndexIsDecimal(token: string)
    requires ArrayIndex(token)
    ensures forall i :: 0 <= i < |token| ==> IsDigit(token[i])
    ensures Decimal(DecimalValue(token)) == token
    decreases |token|
  {
    IndexDigits(token);
    var n := |token| - 1;
    if n > 0 {
      IndexDigits(token[..n]);
      IndexIsDecimal(token[..n]);
      IndexNotZero(token[..n]);
    }
    DecimalOfLast(token);
  }

  lemma {:induction false} IndexNotZero(token: string)
    requires ArrayIndex(token) && token != "0"
    requires forall i :: 0 <= i < |token| ==> IsDigit(token[i])
    ensures DecimalValue(token) > 0
    decreases |token|
  {
    IndexDigits(token);
    var n := |token| - 1;
    if n > 0 {
      IndexDigits(token[..n]);
      IndexNotZero(token[..n]);
    }
  }

  lemma {:induction false} DecimalOfLast(token: string)
    requires token != "" && forall i :: 0 <= i < |token| ==> IsDigit(token[i])
    requires |token| > 1 ==> DecimalValue(token[..|token| - 1]) > 0 &&
                             Decimal(DecimalValue(token[..|token| - 1])) == token[..|token| - 1]
    ensures Decimal(DecimalValue(token)) == token
  {
  }

  lemma {:induction false} IndexAccepted(token: string, rest: string)
    requires ArrayIndex(token) && TokenEnds(rest) && forall i :: 0 <= i < |token| ==> IsDigit(token[i])
    ensures DecodeIndex(token + rest) == Some(DecimalValue(token) % SIZE_LIMIT)
  {
    hide DecimalValue, DigitRun, ArrayIndex;
    IndexDigits(token);
    DigitRunExact(token, rest);
    DropPrefix(token, rest);
    assert (token + rest)[0] == token[0];
    assert token == "0" ==> (token + rest)[1..] == rest;
  }

  lemma {:induction false} IndexRefused(token: string, rest: string)
    requires token != "" && !ArrayIndex(token) && '/' !in token && TokenEnds(rest)
    ensures DecodeIndex(token + rest).None?
  {
    hide DecimalValue, DigitRun, ArrayIndex;
    IndexDigits(token);
    var pointer := token + rest;
    var n := DigitRun(pointer);
    if n < |token| {
      assert pointer[n..][0] == token[n] && token[n] in token;
    } else {
      assert forall i :: 0 <= i < |token| ==> token[i] == pointer[i];
      assert pointer[1..][0] == token[1] && token[1] in token;
    }
  }

  /** What is taken for an index, behind any token: nothing reads as zero, an array index
      as its number in the width of `size_t`, and anything else is refused: other
      characters and leading zeros. */
  lemma {:induction false} IndexExact(token: string, rest: string)
    requires '/' !in token && TokenEnds(rest)
    ensures token == "" ==> DecodeIndex(token + rest) == Some(0)
    ensures ArrayIndex(token) ==>
      exists n: nat :: token == Decimal(n) && DecodeIndex(token + rest) == Some(n % SIZE_LIMIT)
    ensures token != "" && !ArrayIndex(token) ==> DecodeIndex(token + rest).None?
  {
    hide Decimal, DecimalValue, ArrayIndex, IsDigit, DigitRun, DecodeIndex;
    if token == "" {
      EmptyIndex(rest);
    } else if ArrayIndex(token) {
      IndexIsDecimal(token);
      IndexAccepted(token, rest);
    } else {
      IndexRefused(token, rest);
    }
  }

  lemma {:induction false} EmptyIndex(rest: string)
    requires TokenEnds(rest)
    ensures DecodeIndex("" + rest) == Some(0) && !ArrayIndex("")
  {
    assert "" + rest == rest;
    assert rest[..0] == "" && DecimalValue("") == 0;
  }

  lemma DropPrefix<T>(a: seq<T>, b: seq<T>)
    ensures (a + b)[..|a|] == a && (a + b)[|a|..] == b
  {
  }

  lemma {:induction false} DecimalStart(n: nat)
    ensures Decimal(n)[0] == '0' ==> |Decimal(n)| == 1
  {
  }

  lemma {:induction false} DigitRunExact(digits: string, rest: string)
    requires forall i :: 0 <= i < |digits| ==> IsDigit(digits[i])
    requires rest == [] || !IsDigit(rest[0])
    ensures DigitRun(digits + rest) == |digits|
  {
    var s := digits + rest;
    var n := DigitRun(s);
    assert rest != [] ==> !IsDigit(s[|digits|]);
  }

  // ------------------------------------------------------------ resolving

  function SkipToken(pointer: string): (r: string)
    ensures |r| <= |pointer| && TokenEnds(r)
  {
    if TokenEnds(pointer) then pointer else SkipToken(pointer[1..])
  }

  lemma {:induction false} SkipTokenExact(token: string, rest: string)
    requires '/' !in token && TokenEnds(rest)
    ensures SkipToken(token + rest) == rest
  {
    if token == [] {
      assert token + rest == rest;
    } else {
      assert (token + rest)[1..] == token[1..] + rest;
      SkipTokenExact(token[1..], rest);
    }
  }

  lemma {:induction false} EncodeSlashFree(key: string)
    ensures '/' !in Encode(key)
  {
    if key != [] {
      EncodeSlashFree(key[1..]);
    }
  }

  function FindToken(members: seq<Member>, pointer: string, cs: bool): (i: nat)
    ensures i <= |members|
    ensures i < |members| ==> MatchesToken(members[i].name, pointer, cs)
    ensures forall k :: 0 <= k < i ==> !MatchesToken(members[k].name, pointer, cs)
  {
    if members == [] || MatchesToken(members[0].name, pointer, cs) then 0
    else 1 + FindToken(members[1..], pointer, cs)
  }

  /** The child a token selects, or `None`. */
  function SelectChild(j: Json, pointer: string, cs: bool): (r: Option<nat>)
    ensures r.Some? ==> r.value < ChildCount(j)
  {
    match j
    case Array(items) =>
      var index := DecodeIndex(pointer);
      if index.Some? && index.value < |items| then index else None
    case Object(members) =>
      var i := FindToken(members, pointer, cs);
      if i < |members| then Some(i) else None
    case _ => None
  }

  function ChildCount(j: Json): nat
  {
    match j
    case Array(items) => |items|
    case Object(members) => |members|
    case _ => 0
  }

  function Child(j: Json, i: nat): (c: Json)
    requires i < ChildCount(j)
    ensures c < j
  {
    if j.Array? then j.items[i] else j.members[i].item
  }

  predicate ValidPath(j: Json, path: Path)
    decreases path
  {
    path == [] || (path[0] < ChildCount(j) && ValidPath(Child(j, path[0]), path[1..]))
  }

  function NodeAt(j: Json, path: Path): Json
    requires ValidPath(j, path)
    decreases path
  {
    if path == [] then j else NodeAt(Child(j, path[0]), path[1..])
  }

  function Prepend(i: nat, path: Option<Path>): Option<Path>
  {
    if path.None? then None else Some([i] + path.value)
  }

  /** `get_item_from_pointer`: the position of the node, or `None` for NULL. */
  function Resolve(j: Json, pointer: string, cs: bool): (r: Option<Path>)
    ensures r.Some? ==> ValidPath(j, r.value)
    decreases |pointer|
  {
    if pointer == [] || pointer[0] != '/' then Some([])
    else
      var child := SelectChild(j, pointer[1..], cs);
      if child.None? then None
      else Prepend(child.value, Resolve(Child(j, child.value), SkipToken(pointer[1..]), cs))
  }

  method GetItemFromPointer(root: Json, text: string, caseSensitive: bool)
    returns (position: Option<Path>)
    requires NulFree(text)
    ensures position == Resolve(root, text, caseSensitive)
  {
    hide SelectChild, Child, SkipToken, FindToken, DecodeIndex, ValidPath;
    var current, pointer := root, text;
    var path: Path := [];
    AfterNothing(Resolve(root, text, caseSensitive));
    while At(pointer, 0) == '/'
      invariant NulFree(pointer)
      invariant Resolve(root, text, caseSensitive) == After(path, Resolve(current, pointer, caseSensitive))
      decreases |pointer|
    {
      pointer := pointer[1..];
      SelectedChild(current, pointer, caseSensitive);
      var child := None;
      if current.Array? {
        var index := DecodeArrayIndexFromPointer(pointer);
        if index.None? {
          return None;
        }
        child := if index.value < |current.items| then index else None;
      } else if current.Object? {
        var i := FirstMatch(current.members, pointer, caseSensitive);
        child := if i < |current.members| then Some(i) else None;
      }
      assert child == SelectChild(current, pointer, caseSensitive);
      if child.None? {
        return None;
      }
      pointer := NextToken(pointer);
      AfterStep(path, child.value, Resolve(Child(current, child.value), pointer, caseSensitive));
      current, path := Child(current, child.value), path + [child.value];
    }
    NoSuffix(path);
    position := Some(path);
  }

  lemma {:induction false} SelectedChild(j: Json, pointer: string, cs: bool)
    ensures SelectChild(j, pointer, cs) ==
      if j.Array? then
        var index := DecodeIndex(pointer);
        if index.Some? && index.value < |j.items| then index else None
      else if j.Object? && FindToken(j.members, pointer, cs) < |j.members| then Some(FindToken(j.members, pointer, cs))
      else None
  {
    hide DecodeIndex, FindToken;
  }

  /** The loop over the members of an object. */
  method FirstMatch(members: seq<Member>, pointer: string, caseSensitive: bool) returns (i: nat)
    ensures i == FindToken(members, pointer, caseSensitive)
  {
    i := 0;
    while i < |members| && !MatchesToken(members[i].name, pointer, caseSensitive)
      invariant i <= |members|
      invariant forall k :: 0 <= k < i ==> !MatchesToken(members[k].name, pointer, caseSensitive)
    {
      i := i + 1;
    }
  }

  /** The loop that skips to the next path token or the end of the string. */
  method NextToken(text: string) returns (pointer: string)
    requires NulFree(text)
    ensures NulFree(pointer) && |pointer| <= |text| && pointer == SkipToken(text)
  {
    pointer := text;
    while At(pointer, 0) != '\0' && At(pointer, 0) != '/'
      invariant NulFree(pointer) && |pointer| <= |text| && SkipToken(pointer) == SkipToken(text)
      decreases |pointer|
    {
      pointer := pointer[1..];
    }
  }

  lemma AfterNothing(rest: Option<Path>)
    ensures After([], rest) == rest
  {
    if rest.Some? {
      NoPrefix(rest.value);
    }
  }

  function After(path: Path, rest: Option<Path>): Option<Path>
  {
    if rest.None? then None else Some(path + rest.value)
  }

  lemma AfterStep(path: Path, i: nat, rest: Option<Path>)
    ensures After(path, Prepend(i, rest)) == After(path + [i], rest)
  {
    if rest.Some? {
      assert path + ([i] + rest.value) == path + [i] + rest.value;
    }
  }

  // ------------------------------------------------------ finding the pointer

  /** `cJSONUtils_FindPointerFromObjectTo`: depth-first search for the target. */
  function FindPointer(j: Json, here: Path, target: Path): Option<string>
    decreases j
  {
    if here == target then Some("")
    else
      match j
      case Array(items) => FindInItems(items, 0, here, target)
      case Object(members) => FindInMembers(members, 0, here, target)
      case _ => None
  }

  function FindInItems(items: seq<Json>, index: nat, here: Path, target: Path): Option<string>
    decreases items
  {
    if items == [] then None
    else
      match FindPointer(items[0], here + [index], target)
      case Some(p) => Some("/" + Decimal(index) + p)
      case None => FindInItems(items[1..], index + 1, here, target)
  }

  function FindInMembers(members: seq<Member>, index: nat, here: Path, target: Path): Option<string>
    decreases members
  {
    if members == [] then None
    else
      match FindPointer(members[0].item, here + [index], target)
      case Some(p) => Some("/" + Encode(members[0].name) + p)
      case None => FindInMembers(members[1..], index + 1, here, target)
  }

  /** The pointer of a position, read off the path. */
  function PathString(j: Json, path: Path): string
    requires ValidPath(j, path)
    decreases path
  {
    if path == [] then ""
    else StepString(j, path[0]) + PathString(Child(j, path[0]), path[1..])
  }

  function StepString(j: Json, i: nat): (s: string)
    requires i < ChildCount(j)
    ensures s != [] && s[0] == '/'
  {
    "/" + if j.Array? then Decimal(i) else Encode(j.members[i].name)
  }

  /** The search ignores positions it does not lead to. */
  lemma {:induction false} FindElsewhere(j: Json, here: Path, target: Path)
    requires !(here <= target)
    ensures FindPointer(j, here, target) == None
    decreases j
  {
    match j {
      case Array(items) => FindElsewhereItems(items, 0, here, target);
      case Object(members) => FindElsewhereMembers(members, 0, here, target);
      case _ =>
    }
  }

  lemma {:induction false} FindElsewhereItems(items: seq<Json>, index: nat, here: Path, target: Path)
    requires forall k :: index <= k < index + |items| ==> !(here + [k] <= target)
    ensures FindInItems(items, index, here, target) == None
    decreases items
  {
    if items != [] {
      FindElsewhere(items[0], here + [index], target);
      FindElsewhereItems(items[1..], index + 1, here, target);
    }
  }

  lemma {:induction false} FindElsewhereMembers(members: seq<Member>, index: nat, here: Path, target: Path)
    requires forall k :: index <= k < index + |members| ==> !(here + [k] <= target)
    ensures FindInMembers(members, index, here, target) == None
    decreases members
  {
    if members != [] {
      FindElsewhere(members[0].item, here + [index], target);
      FindElsewhereMembers(members[1..], index + 1, here, target);
    }
  }

  lemma {:induction false} FindFinds(j: Json, here: Path, path: Path)
    requires ValidPath(j, path)
    ensures FindPointer(j, here, here + path) == Some(PathString(j, path))
    decreases j
  {
    if path == [] {
      assert here + path == here;
    } else {
      match j {
        case Array(items) => FindFindsItem(items, 0, here, path);
        case Object(members) => FindFindsMember(members, 0, here, path);
      }
    }
  }

  lemma OnPath(here: Path, path: Path)
    requires path != []
    ensures (here + [path[0]]) + path[1..] == here + path
  {
  }

  lemma OffPath(here: Path, path: Path, index: nat)
    requires path != [] && path[0] != index
    ensures !(here + [index] <= here + path)
  {
    assert (here + path)[|here|] != (here + [index])[|here|];
  }

  lemma {:induction false} FindFindsItem(items: seq<Json>, index: nat, here: Path, path: Path)
    requires path != [] && index <= path[0] < index + |items|
    requires ValidPath(items[path[0] - index], path[1..])
    ensures FindInItems(items, index, here, here + path)
      == Some("/" + Decimal(path[0]) + PathString(items[path[0] - index], path[1..]))
    decreases items
  {
    hide FindPointer, PathString, ValidPath, Decimal;
    if path[0] == index {
      OnPath(here, path);
      FindFinds(items[0], here + [index], path[1..]);
    } else {
      OffPath(here, path, index);
      FindElsewhere(items[0], here + [index], here + path);
      FindFindsItem(items[1..], index + 1, here, path);
    }
  }

  lemma {:induction false} FindFindsMember(members: seq<Member>, index: nat, here: Path, path: Path)
    requires path != [] && index <= path[0] < index + |members|
    requires ValidPath(members[path[0] - index].item, path[1..])
    ensures FindInMembers(members, index, here, here + path)
      == Some("/" + Encode(members[path[0] - index].name) + PathString(members[path[0] - index].item, path[1..]))
    decreases members
  {
    hide FindPointer, PathString, ValidPath, Encode;
    if path[0] == index {
      OnPath(here, path);
      FindFinds(members[0].item, here + [index], path[1..]);
    } else {
      OffPath(here, path, index);
      FindElsewhere(members[0].item, here + [index], here + path);
      FindFindsMember(members[1..], index + 1, here, path);
    }
  }

  // ------------------------------------------------------------ round trip

  /** Array lengths are counted in `size_t`. */
  predicate Addressable(j: Json)
    decreases j
  {
    match j
    case Array(items) =>
      |items| <= SIZE_LIMIT && forall i :: 0 <= i < |items| ==> Addressable(items[i])
    case Object(members) =>
      forall i :: 0 <= i < |members| ==> Addressable(members[i].item)
    case _ => true
  }

  /** On the way to the node no earlier sibling has a key that matches. */
  predicate Unambiguous(j: Json, path: Path, cs: bool)
    requires ValidPath(j, path)
    decreases path
  {
    path == []
    || ((j.Object? ==> FindKey(j.members, j.members[path[0]].name, cs) == path[0])
        && Unambiguous(Child(j, path[0]), path[1..], cs))
  }

  lemma {:induction false} SelectPrinted(j: Json, i: nat, rest: string, cs: bool)
    requires i < ChildCount(j) && Addressable(j) && TokenEnds(rest)
    ensures SelectChild(j, StepString(j, i)[1..] + rest, cs)
      == Some(if j.Object? then FindKey(j.members, j.members[i].name, cs) else i)
    ensures SkipToken(StepString(j, i)[1..] + rest) == rest
  {
    if j.Array? {
      var d := Decimal(i);
      assert StepString(j, i)[1..] == d;
      DecodePrinted(i, rest);
      SkipTokenExact(d, rest);
    } else {
      var key := j.members[i].name;
      assert StepString(j, i)[1..] == Encode(key);
      EncodeSlashFree(key);
      SkipTokenExact(Encode(key), rest);
      FindTokenIsFindKey(j.members, key, rest, cs);
      assert SameKey(key, j.members[i].name, cs);
    }
  }

  lemma {:induction false} FindTokenIsFindKey(members: seq<Member>, key: string, rest: string, cs: bool)
    requires TokenEnds(rest)
    ensures FindToken(members, Encode(key) + rest, cs) == FindKey(members, key, cs)
  {
    var i, k := FindToken(members, Encode(key) + rest, cs), FindKey(members, key, cs);
    if i < |members| {
      MatchEncoded(members[i].name, key, rest, cs);
    }
    if k < |members| {
      MatchEncoded(members[k].name, key, rest, cs);
    }
  }

  /** Resolving the printed pointer gives back the position exactly when it is
      unambiguous. */
  lemma {:induction false} ResolvePrinted(j: Json, path: Path, cs: bool)
    requires ValidPath(j, path) && Addressable(j)
    ensures Resolve(j, PathString(j, path), cs) == Some(path) <==> Unambiguous(j, path, cs)
    ensures TokenEnds(PathString(j, path))
    decreases path
  {
    if path != [] {
      ResolvePrinted(Child(j, path[0]), path[1..], cs);
      ResolveStep(j, path, cs);
      PrependInjective(path, SelectChild(j, PathString(j, path)[1..], cs).value,
                       Resolve(Child(j, SelectChild(j, PathString(j, path)[1..], cs).value),
                               PathString(Child(j, path[0]), path[1..]), cs));
    }
  }

  lemma {:induction false} ResolveStep(j: Json, path: Path, cs: bool)
    requires ValidPath(j, path) && Addressable(j) && path != []
    requires TokenEnds(PathString(Child(j, path[0]), path[1..]))
    ensures var tail := PathString(Child(j, path[0]), path[1..]);
      var chosen := SelectChild(j, PathString(j, path)[1..], cs);
      && chosen.Some?
      && (chosen.value == path[0] <==> j.Array? || FindKey(j.members, j.members[path[0]].name, cs) == path[0])
      && Resolve(j, PathString(j, path), cs) == Prepend(chosen.value, Resolve(Child(j, chosen.value), tail, cs))
  {
    hide SelectChild, StepString, Addressable, FindKey, SkipToken;
    var step, tail := StepString(j, path[0]), PathString(Child(j, path[0]), path[1..]);
    TailOfConcat(step, tail);
    SelectPrinted(j, path[0], tail, cs);
  }

  lemma PrependInjective(path: Path, i: nat, rest: Option<Path>)
    requires path != []
    ensures Prepend(i, rest) == Some(path) <==> i == path[0] && rest == Some(path[1..])
  {
    assert path == [path[0]] + path[1..];
    if rest.Some? {
      assert ([i] + rest.value)[1..] == rest.value;
    }
  }

  lemma {:induction false} DistinctUnambiguous(j: Json, path: Path, cs: bool)
    requires ValidPath(j, path) && WellFormed(j, cs)
    ensures Unambiguous(j, path, cs)
    decreases path
  {
    if path != [] {
      if j.Object? {
        DenoteAt(j.members, path[0], cs);
      }
      DistinctUnambiguous(Child(j, path[0]), path[1..], cs);
    }
  }

  /** The pointer found for a node leads back to it exactly when no earlier
      sibling on the way matches; with distinct keys it always does. */
  lemma {:induction false} PointerRoundTrip(j: Json, path: Path, cs: bool)
    requires ValidPath(j, path) && Addressable(j)
    ensures var found := FindPointer(j, [], path);
      && found.Some?
      && (Resolve(j, found.value, cs) == Some(path) <==> Unambiguous(j, path, cs))
      && (WellFormed(j, cs) ==> Resolve(j, found.value, cs) == Some(path))
  {
    FindFinds(j, [], path);
    assert [] + path == path;
    ResolvePrinted(j, path, cs);
    if WellFormed(j, cs) {
      DistinctUnambiguous(j, path, cs);
    }
  }

  /** A repeated key misleads: the pointer found for the second `a` leads to the first. */
  lemma RepeatedKeyMisleads()
    ensures var j := Object([Member("a", Number(1)), Member("a", Number(2))]);
      FindPointer(j, [], [1]) == Some("/a") && Resolve(j, "/a", true) == Some([0])
  {
    var j := Object([Member("a", Number(1)), Member("a", Number(2))]);
    var path: Path := [1];
    assert Child(j, 1) == Number(2) && path[1..] == [];
    assert ValidPath(j, path);
    FindFinds(j, [], path);
    NoPrefix(path);
    assert Encode("a") == "a";
    assert PathString(j, path) == "/" + "a" + "" == "/a";
    assert [] + path == path;
    assert "/a"[1..] == Encode("a") + "";
    FindTokenIsFindKey(j.members, "a", "", true);
    SkipTokenExact("a", "");
    assert SelectChild(j, "/a"[1..], true) == Some(0);
    assert SkipToken("/a"[1..]) == "";
    assert Resolve(Child(j, 0), "", true) == Some([]);
    assert [0] + [] == [0];
  }
}
