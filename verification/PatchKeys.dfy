/** Which keys `apply_patch` can address: what `decode_pointer_inplace` makes of
    an escaped key, and what the case-insensitive lookup of `detach_path` removes. */
module PatchKeys {
  import opened Text
  import opened Json
  import opened Pointer
  import opened Patch

  /** The key has no `/`, and every other character than `~` stands in the escaped
      key where it stands in the key. */
  predicate Survives(key: string)
  {
    '/' !in key && |Encode(key)| >= |key| && forall j :: 0 <= j < |key| ==> key[j] == '~' || Encode(key)[j] == key[j]
  }

  lemma {:induction false} EncodeLength(key: string)
    ensures |Encode(key)| >= |key|
  {
    if key != [] {
      EncodeLength(key[1..]);
    }
  }

  /** How many characters of the escaped key stand for the first `j` of the key. */
  function Offset(key: string, j: nat): nat
    requires j <= |key|
  {
    |Encode(key[..j])|
  }

  lemma WholeSplit<T>(s: seq<T>, i: nat)
    requires i <= |s|
    ensures s[..i] + s[i..] == s
  {
  }

  lemma MiddleOf<T>(a: seq<T>, b: seq<T>, c: seq<T>)
    ensures forall p :: 0 <= p < |b| ==> ((a + b) + c)[|a| + p] == b[p]
  {
  }

  lemma {:induction false} OffsetStep(key: string, j: nat)
    requires j < |key|
    ensures j <= Offset(key, j)
    ensures Offset(key, j + 1) == Offset(key, j) + |EncodeChar(key[j])| <= |Encode(key)|
    ensures forall p :: 0 <= p < |EncodeChar(key[j])| ==> Encode(key)[Offset(key, j) + p] == EncodeChar(key[j])[p]
  {
    hide Encode;
    var head, c := key[..j], EncodeChar(key[j]);
    EncodeLength(head);
    EncodeSnoc(key, j);
    EncodeAppend(key[..j + 1], key[j + 1..]);
    WholeSplit(key, j + 1);
    MiddleOf(Encode(head), c, Encode(key[j + 1..]));
  }

  /** The character the decoder leaves at position `j` of an escaped key: a tilde
      is written in place, a slash one place behind it. */
  function DecodedChar(key: string, j: nat): char
    requires j < |key|
  {
    EncodeLength(key);
    if key[j] == '~' then '~' else if j > 0 && key[j - 1] == '/' then '/' else Encode(key)[j]
  }

  /** What the buffer holds before the `j`-th character of the key is decoded. */
  ghost predicate Partly(key: string, buffer: string, j: nat)
    requires j <= |key|
  {
    && |key| <= |buffer| == |Encode(key)|
    && (forall p :: 0 <= p < j ==> buffer[p] == DecodedChar(key, p))
    && (j < |buffer| ==> buffer[j] == if j > 0 && key[j - 1] == '/' then '/' else Encode(key)[j])
    && forall p :: j < p < |buffer| ==> buffer[p] == Encode(key)[p]
  }

  /** Position `j` is still unread unless a slash came just before it. */
  lemma {:induction false} ReadAhead(key: string, j: nat)
    requires j <= |key|
    ensures j <= Offset(key, j) <= |Encode(key)|
    ensures j > 0 && key[j - 1] == '/' ==> Offset(key, j) > j
  {
    hide Encode, Offset;
    if j > 0 {
      OffsetStep(key, j - 1);
    } else {
      OffsetStart(key);
    }
  }

  lemma OffsetStart(key: string)
    ensures Offset(key, 0) == 0
  {
    assert key[..0] == [];
  }

  /** Decoding one character. */
  lemma DecodeOne(key: string, buffer: string, j: nat) returns (next: string)
    requires j < |key| && Partly(key, buffer, j)
    ensures j <= Offset(key, j) <= |buffer| && j + 1 <= Offset(key, j + 1) <= |buffer|
    ensures Partly(key, next, j + 1) && |next| == |buffer|
    ensures DecodeFrom(buffer, j, Offset(key, j)) == DecodeFrom(next, j + 1, Offset(key, j + 1))
  {
    hide Encode, Offset;
    ReadAhead(key, j);
    ReadAhead(key, j + 1);
    OffsetStep(key, j);
    var i, e := Offset(key, j), EncodeChar(key[j]);
    assert buffer[i] == e[0];
    next := if key[j] == '~' then buffer[j := '~'] else if key[j] == '/' then buffer[j + 1 := '/'] else buffer;
    if key[j] == '~' || key[j] == '/' {
      assert buffer[i + 1] == e[1];
    }
  }

  lemma {:induction false} DecodeRun(key: string, buffer: string, j: nat)
    requires j <= |key| && Partly(key, buffer, j)
    ensures j <= Offset(key, j) <= |buffer|
    ensures var r := DecodeFrom(buffer, j, Offset(key, j));
      |r| == |key| && forall p :: 0 <= p < |key| ==> r[p] == DecodedChar(key, p)
    decreases |key| - j
  {
    hide Encode;
    ReadAhead(key, j);
    if j < |key| {
      hide Offset, DecodedChar, DecodeFrom;
      var next := DecodeOne(key, buffer, j);
      DecodeRun(key, next, j + 1);
    } else {
      assert key[..j] == key;
    }
  }

  /** What `apply_patch` makes of a key it finds escaped in a path. */
  function Decoded(key: string): string
  {
    DecodeInPlace(Encode(key))
  }

  /** The decoder keeps the length of a key and leaves `DecodedChar` everywhere. */
  lemma DecodedIs(key: string)
    ensures |Decoded(key)| == |key|
    ensures forall p :: 0 <= p < |key| ==> Decoded(key)[p] == DecodedChar(key, p)
  {
    EncodeLength(key);
    OffsetStart(key);
    assert Partly(key, Encode(key), 0);
    DecodeRun(key, Encode(key), 0);
  }

  function FirstSlash(key: string): (n: nat)
    ensures n <= |key| && '/' !in key[..n] && (n < |key| ==> key[n] == '/')
  {
    if key == [] || key[0] == '/' then 0
    else
      var n := FirstSlash(key[1..]);
      assert key[..n + 1] == [key[0]] + key[1..][..n];
      n + 1
  }

  /** The decoder gives a key back exactly when the key survives it. */
  lemma {:induction false} DecodeExact(key: string)
    ensures DecodeInPlace(Encode(key)) == key <==> Survives(key)
  {
    hide Encode, DecodeInPlace;
    EncodeLength(key);
    DecodedIs(key);
    var j := FirstSlash(key);
    if j < |key| {
      assert key[j] in key;
      if j > 0 {
        assert key[j - 1] == key[..j][j - 1];
      }
      EncodeSlashFree(key);
      assert Encode(key)[j] in Encode(key);
      assert Decoded(key)[j] != key[j];
    } else {
      assert key[..j] == key;
      assert Survives(key) <==> forall p :: 0 <= p < |key| ==> DecodedChar(key, p) == key[p];
    }
  }

  // ------------------------------------------------- decoding again and again

  /** How many leading characters of a key the decoder leaves alone. */
  function Settled(key: string, j: nat := 0): (n: nat)
    requires j <= |key|
    ensures j <= n <= |key|
    ensures forall p :: j <= p < n ==> DecodedChar(key, p) == key[p]
    ensures n < |key| ==> DecodedChar(key, n) != key[n]
    decreases |key| - j
  {
    if j == |key| || DecodedChar(key, j) != key[j] then j else Settled(key, j + 1)
  }

  /** Behind the first `j` characters the escaped form of settled ones goes on
      with tildes and zeros only, and none of them is a slash. */
  lemma {:induction false} SettledPrefix(key: string, j: nat)
    requires j <= |key| && forall p :: 0 <= p < j ==> DecodedChar(key, p) == key[p]
    ensures forall p :: 0 <= p < j ==> key[p] != '/'
    ensures j <= Offset(key, j) <= |Encode(key)|
    ensures forall q :: j <= q < Offset(key, j) ==> Encode(key)[q] in "~0"
  {
    hide Encode, Offset;
    ReadAhead(key, j);
    if j > 0 {
      SettledPrefix(key, j - 1);
      OffsetStep(key, j - 1);
      EncodeSlashFree(key);
      assert DecodedChar(key, j - 1) == key[j - 1];
      assert Encode(key)[j - 1] in Encode(key);
      var o, e := Offset(key, j - 1), EncodeChar(key[j - 1]);
      forall q | j <= q < Offset(key, j)
        ensures Encode(key)[q] in "~0"
      {
        if q >= o {
          assert Encode(key)[o + (q - o)] == e[q - o];
        }
      }
    } else {
      OffsetStart(key);
    }
  }

  /** The first character that changes becomes another one even without case. */
  lemma {:induction false} FirstChange(key: string)
    requires Settled(key) < |key|
    ensures var j := Settled(key); ToLower(DecodedChar(key, j)) != ToLower(key[j])
  {
    hide Encode, Offset;
    var j := Settled(key);
    SettledPrefix(key, j);
    OffsetStep(key, j);
    assert Encode(key)[Offset(key, j)] == EncodeChar(key[j])[0];
    assert DecodedChar(key, j) in "~0";
  }

  /** A second decoding leaves the first character alone that the first one changed. */
  lemma {:induction false} SettledGrows(key: string)
    requires Decoded(key) != key
    ensures |Decoded(key)| == |key| && Settled(Decoded(key)) > Settled(key)
  {
    hide Encode, DecodeInPlace;
    var again, j := Decoded(key), Settled(key);
    DecodedIs(key);
    assert j < |key|;
    forall p | 0 <= p <= j
      ensures DecodedChar(again, p) == again[p]
    {
      assert forall q :: 0 <= q < p ==> again[q] == key[q];
      DecodedTwice(key, again, p);
    }
  }

  lemma DecodedTwice(key: string, again: string, j: nat)
    requires j < |key| == |again| && again[j] == DecodedChar(key, j)
    requires forall p :: 0 <= p < j ==> again[p] == key[p]
    ensures DecodedChar(again, j) == again[j]
  {
    hide Encode, Offset;
    EncodeLength(key);
    EncodeLength(again);
    if key[j] != '~' && (j == 0 || key[j - 1] != '/') && again[j] != '~' {
      assert again[..j] == key[..j];
      SameOffset(key, again, j);
      OffsetStep(key, j);
      OffsetStep(again, j);
      var o := Offset(key, j);
      if o == j {
        assert Encode(key)[o + 0] == EncodeChar(key[j])[0];
        assert Encode(again)[o + 0] == EncodeChar(again[j])[0];
      }
    }
  }

  lemma {:induction false} SameOffset(a: string, b: string, j: nat)
    requires j <= |a| && j <= |b| && a[..j] == b[..j]
    ensures Offset(a, j) == Offset(b, j) <= |Encode(a)| && Offset(b, j) <= |Encode(b)|
    ensures Encode(a)[..Offset(a, j)] == Encode(b)[..Offset(b, j)]
  {
    EncodeAppend(a[..j], a[j..]);
    EncodeAppend(b[..j], b[j..]);
    WholeSplit(a, j);
    WholeSplit(b, j);
  }

  /** Decoding does not mind case. */
  lemma {:induction false} DecodedFold(key: string)
    ensures Decoded(Fold(key)) == Fold(Decoded(key))
  {
    hide Encode, DecodeInPlace;
    DecodedIs(key);
    DecodedIs(Fold(key));
    EncodeLength(key);
    EncodeFold(key);
    forall p | 0 <= p < |key|
      ensures DecodedChar(Fold(key), p) == ToLower(DecodedChar(key, p))
    {
    }
  }

  lemma {:induction false} EncodeFold(key: string)
    ensures Encode(Fold(key)) == Fold(Encode(key))
  {
    if key != [] {
      EncodeFold(key[1..]);
      FoldCons(key);
      FoldAppend(EncodeChar(key[0]), Encode(key[1..]));
      FoldChar(key[0]);
    }
  }

  lemma FoldChar(c: char)
    ensures Fold(EncodeChar(c)) == EncodeChar(ToLower(c))
  {
    assert "~1"[1..] == "1" && "~0"[1..] == "0";
  }

  lemma {:induction false} FoldAppend(a: string, b: string)
    ensures Fold(a + b) == Fold(a) + Fold(b)
  {
    assert |Fold(a + b)| == |Fold(a) + Fold(b)|;
    assert forall i :: 0 <= i < |a + b| ==> Fold(a + b)[i] == (Fold(a) + Fold(b))[i];
  }

  /** Whether a key survives does not depend on case. */
  lemma {:induction false} SurvivesFold(key: string)
    ensures Survives(Fold(key)) <==> Survives(key)
  {
    hide Encode, DecodeInPlace, Survives, Fold;
    DecodeExact(key);
    DecodeExact(Fold(key));
    DecodedFold(key);
    if Decoded(key) != key {
      DecodedIs(key);
      var j := Settled(key);
      FirstChange(key);
      assert Fold(Decoded(key))[j] != Fold(key)[j];
    }
  }

  /** How much of a key decoding may still change; case does not matter. */
  function Unsettled(key: string): nat
  {
    |key| - Settled(Fold(key))
  }

  /** What decodes to a key that does not survive does not survive either, and has
      more left to change: decoders make no cycles but fixed points. */
  lemma {:induction false} DecodesToLess(key: string, other: string)
    requires Fold(Decoded(key)) == Fold(other) && !Survives(other)
    ensures !Survives(key) && Unsettled(other) < Unsettled(key)
  {
    hide Encode, DecodeInPlace, Survives, Fold, Decoded, Settled;
    SurvivesFold(key);
    SurvivesFold(other);
    DecodedFold(key);
    DecodeExact(Fold(key));
    assert DecodeInPlace(Encode(Fold(key))) == Decoded(Fold(key)) by { DecodedUnfold(Fold(key)); }
    SettledGrows(Fold(key));
    DecodedIs(key);
  }

  lemma {:induction false} DecodedUnfold(key: string)
    ensures Decoded(key) == DecodeInPlace(Encode(key))
  {
  }

  /** Keys without `~` and `/` survive, and a key with `/` never does. */
  lemma {:induction false} PlainSurvives(key: string)
    requires '~' !in key && '/' !in key
    ensures Encode(key) == key && Survives(key)
  {
    if key != [] {
      PlainSurvives(key[1..]);
      assert key == [key[0]] + key[1..];
    }
  }

  /** `detach_path` takes exactly the member its path names when and only when
      no earlier member has a key that differs by case. */
  lemma {:induction false} DetachExact(members: seq<Member>, i: nat)
    requires i < |members| && FindKey(members, members[i].name, true) == i
    requires Survives(members[i].name)
    ensures DetachChild(Object(members), DecodeInPlace(Encode(members[i].name)))
        == Detached(members[i].item, Object(RemoveAt(members, i)))
      <==> FindKey(members, members[i].name, false) == i
  {
    hide DecodeInPlace, Encode, Survives, DecodeIndex;
    var key := members[i].name;
    DecodeExact(key);
    var k := FindKey(members, key, false);
    assert SameKey(key, members[i].name, false);
    if k < i {
      var p, q := RemoveAt(members, k), RemoveAt(members, i);
      assert p[i - 1] == members[i] && q[i - 1] == members[i - 1];
      assert !SameKey(key, members[i - 1].name, true);
    }
  }
}
