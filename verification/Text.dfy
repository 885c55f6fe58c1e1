/** C strings, their orders and their decimal notation.

    A C string is the sequence of the characters before its terminating NUL, so
    the end of the sequence stands for the NUL. A byte is a `char` whose code is
    below 256; nothing here depends on that bound. */
module Text {

  const NUL := '\0'

  function Max(a: nat, b: nat): nat
  {
    if a < b then b else a
  }

  predicate NulFree(s: string)
  {
    forall i :: 0 <= i < |s| ==> s[i] != '\0'
  }

  /** The character at position `i`, reading the terminating NUL at the end. */
  function At(s: string, i: nat): char
  {
    if i < |s| then s[i] else '\0'
  }

  /** `tolower` in the C locale. */
  function ToLower(c: char): char
  {
    if 'A' <= c <= 'Z' then (c as int + 32) as char else c
  }

  function Fold(s: string): (r: string)
    ensures |r| == |s|
    ensures forall i :: 0 <= i < |s| ==> r[i] == ToLower(s[i])
  {
    if s == [] then [] else [ToLower(s[0])] + Fold(s[1..])
  }

  /** `strcmp`: only the sign of the result carries meaning. */
  function StrCmp(a: string, b: string): int
  {
    if a == [] then (if b == [] then 0 else -1)
    else if b == [] then 1
    else if a[0] != b[0] then a[0] as int - b[0] as int
    else StrCmp(a[1..], b[1..])
  }

  /** The order behind `compare_strings`. */
  function Compare(a: string, b: string, caseSensitive: bool): int
  {
    if caseSensitive then StrCmp(a, b) else StrCmp(Fold(a), Fold(b))
  }

  /** Keys that the chosen order cannot tell apart. */
  predicate SameKey(a: string, b: string, caseSensitive: bool)
  {
    if caseSensitive then a == b else Fold(a) == Fold(b)
  }

  lemma {:induction false} StrCmpZero(a: string, b: string)
    ensures StrCmp(a, b) == 0 <==> a == b
  {
    if a != [] && b != [] && a[0] == b[0] {
      StrCmpZero(a[1..], b[1..]);
      assert a == [a[0]] + a[1..] && b == [b[0]] + b[1..];
    }
  }

  lemma {:induction false} StrCmpFlip(a: string, b: string)
    ensures StrCmp(a, b) == -StrCmp(b, a)
  {
    if a != [] && b != [] && a[0] == b[0] {
      StrCmpFlip(a[1..], b[1..]);
    }
  }

  lemma {:induction false} StrCmpTransitive(a: string, b: string, c: string)
    requires StrCmp(a, b) <= 0 && StrCmp(b, c) <= 0
    ensures StrCmp(a, c) <= 0
    ensures StrCmp(a, b) < 0 || StrCmp(b, c) < 0 ==> StrCmp(a, c) < 0
  {
    if a != [] && b != [] && c != [] && a[0] == b[0] == c[0] {
      StrCmpTransitive(a[1..], b[1..], c[1..]);
    }
  }

  lemma CompareZero(a: string, b: string, cs: bool)
    ensures Compare(a, b, cs) == 0 <==> SameKey(a, b, cs)
  {
    StrCmpZero(a, b);
    StrCmpZero(Fold(a), Fold(b));
  }

  lemma CompareFlip(a: string, b: string, cs: bool)
    ensures Compare(a, b, cs) == -Compare(b, a, cs)
  {
    StrCmpFlip(a, b);
    StrCmpFlip(Fold(a), Fold(b));
  }

  lemma CompareTransitive(a: string, b: string, c: string, cs: bool)
    requires Compare(a, b, cs) <= 0 && Compare(b, c, cs) <= 0
    ensures Compare(a, c, cs) <= 0
    ensures Compare(a, b, cs) < 0 || Compare(b, c, cs) < 0 ==> Compare(a, c, cs) < 0
  {
    if cs {
      StrCmpTransitive(a, b, c);
    } else {
      StrCmpTransitive(Fold(a), Fold(b), Fold(c));
    }
  }

  /** What the first characters decide. */
  lemma {:induction false} StrCmpHead(a: string, b: string)
    ensures a == [] ==> StrCmp(a, b) == if b == [] then 0 else -1
    ensures a != [] && b == [] ==> StrCmp(a, b) == 1
    ensures a != [] && b != [] ==>
      StrCmp(a, b) == if a[0] != b[0] then a[0] as int - b[0] as int else StrCmp(a[1..], b[1..])
  {
  }

  /** `case_insensitive_strcmp` and the last loop of `compare_strings`. */
  method CaseInsensitiveCompare(string1: string, string2: string) returns (difference: int)
    requires NulFree(string1) && NulFree(string2)
    ensures difference == 0 <==> Compare(string1, string2, false) == 0
    ensures difference < 0 <==> Compare(string1, string2, false) < 0
  {
    hide StrCmp, Fold;
    var i := 0;
    var a, b := Fold(string1), Fold(string2);
    StrCmpZero(a, b);
    DropDrop(a, 0, 0);
    DropDrop(b, 0, 0);
    while ToLower(At(string1, i)) == ToLower(At(string2, i))
      invariant i <= |string1| && i <= |string2|
      invariant StrCmp(a, b) == StrCmp(a[i..], b[i..])
      decreases |string1| - i
    {
      StrCmpHead(a[i..], b[i..]);
      if At(string1, i) == '\0' {
        return 0;
      }
      DropDrop(a, i, 1);
      DropDrop(b, i, 1);
      i := i + 1;
    }
    StrCmpHead(a[i..], b[i..]);
    difference := ToLower(At(string1, i)) as int - ToLower(At(string2, i)) as int;
  }

  // ---------------------------------------------------------------- decimals

  function DigitChar(d: nat): (c: char)
    requires d < 10
    ensures '0' <= c <= '9' && c as int - '0' as int == d
  {
    ('0' as int + d) as char
  }

  predicate IsDigit(c: char)
  {
    '0' <= c <= '9'
  }

  /** Conversion `%lu` of `sprintf`. */
  function Decimal(n: nat): (r: string)
    ensures |r| > 0
    ensures forall i :: 0 <= i < |r| ==> IsDigit(r[i])
    ensures r[0] == '0' ==> r == "0"
  {
    if n < 10 then [DigitChar(n)] else Decimal(n / 10) + [DigitChar(n % 10)]
  }

  /** Conversion `%d` of `sprintf`. */
  function SignedDecimal(n: int): (r: string)
    ensures |r| > 0
    ensures n >= 0 ==> r == Decimal(n)
    ensures n < 0 ==> r == "-" + Decimal(-n)
  {
    if n < 0 then "-" + Decimal(-n) else Decimal(n)
  }

  function DecimalValue(s: string): nat
    requires forall i :: 0 <= i < |s| ==> IsDigit(s[i])
  {
    if s == [] then 0
    else
      assert IsDigit(s[|s| - 1]);
      10 * DecimalValue(s[..|s| - 1]) + (s[|s| - 1] as int - '0' as int)
  }

  lemma {:induction false} DecimalRoundTrip(n: nat)
    ensures DecimalValue(Decimal(n)) == n
  {
    var d := Decimal(n);
    if n < 10 {
      assert d[..0] == [];
      assert DecimalValue([]) == 0;
      assert DecimalValue(d) == 10 * DecimalValue(d[..|d| - 1]) + (d[|d| - 1] as int - '0' as int);
    } else {
      DecimalRoundTrip(n / 10);
      assert d[..|d| - 1] == Decimal(n / 10);
    }
  }

  // ---------------------------------------------------------------- sequences

  lemma Assoc<T>(a: seq<T>, b: seq<T>, c: seq<T>)
    ensures (a + b) + c == a + (b + c)
  {
  }

  lemma NoPrefix<T>(a: seq<T>)
    ensures [] + a == a
  {
  }

  lemma NoSuffix<T>(a: seq<T>)
    ensures a + [] == a
  {
  }

  lemma TailOfConcat<T>(a: seq<T>, b: seq<T>)
    requires a != []
    ensures (a + b)[1..] == a[1..] + b && (a + b)[0] == a[0]
  {
  }

  lemma DropDrop<T>(s: seq<T>, i: nat, j: nat)
    requires i + j <= |s|
    ensures s[i..][j..] == s[i + j..]
  {
  }

  lemma HeadTail<T>(s: seq<T>)
    requires s != []
    ensures s == [s[0]] + s[1..]
  {
  }

  lemma DropPair<T>(a: T, b: T, s: seq<T>)
    ensures ([a, b] + s)[0] == a && ([a, b] + s)[1] == b && ([a, b] + s)[2..] == s
  {
  }

  lemma TakeDrop<T>(s: seq<T>, i: nat, n: nat)
    requires i + n <= |s|
    ensures s[i..i + n] == s[i..][..n]
  {
  }

  lemma SameBytes(a: string, b: string, c: string)
    requires |a| == |b| + |c| && a[..|b|] == b
    requires forall k :: 0 <= k < |c| ==> a[|b| + k] == c[k]
    ensures a == b + c
  {
    assert a == a[..|b|] + a[|b|..];
    assert a[|b|..] == c;
  }
}
