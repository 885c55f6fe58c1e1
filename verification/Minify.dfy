/** `cJSON_Minify` of libs/cjson/src/cJSON.c: the text it leaves, as a function, and
    the loop that compacts a buffer in place. */
module Minify {
  import opened Text

  /** The blanks that are dropped. */
  predicate Droppable(c: char)
  {
    c == ' ' || c == '\t' || c == '\r' || c == '\n'
  }

  /** The text behind a one-line comment. */
  function AfterLine(t: string): (r: string)
    ensures |r| <= |t|
  {
    if t == "" then "" else if t[0] == '\n' then t[1..] else AfterLine(t[1..])
  }

  /** The text behind a multi-line comment. */
  function AfterComment(t: string): (r: string)
    ensures |r| <= |t|
  {
    if t == "" then "" else if t[0] == '*' && At(t, 1) == '/' then t[2..] else AfterComment(t[1..])
  }

  /** How many characters `minify_string` copies behind the opening quote: up to a
      quote without a backslash directly before it. */
  function StringLength(t: string): (n: nat)
    ensures n <= |t|
  {
    if t == "" then 0
    else if t[0] == '\"' then 1
    else if t[0] == '\\' && At(t, 1) == '\"' then 2 + StringLength(t[2..])
    else 1 + StringLength(t[1..])
  }

  function Minified(t: string): (r: string)
    ensures |r| <= |t|
    decreases |t|
  {
    if t == "" then ""
    else if Droppable(t[0]) then Minified(t[1..])
    else if t[0] == '/' then
      if At(t, 1) == '/' then Minified(AfterLine(t[2..]))
      else if At(t, 1) == '*' then Minified(AfterComment(t[2..]))
      else Minified(t[1..])
    else if t[0] == '\"' then
      var n := StringLength(t[1..]);
      ("\"" + t[1..1 + n]) + Minified(t[1 + n..])
    else [t[0]] + Minified(t[1..])
  }

  // ---------------------------------------------------------------- the loops

  /** From a place on a buffer still holds the text it had, and its NUL. */
  ghost predicate Holds(json: array<char>, from: nat, text: string)
    reads json
  {
    |text| < json.Length && forall k :: from <= k <= |text| ==> json[k] == At(text, k)
  }

  /** `skip_oneline_comment`. */
  method SkipOnelineComment(json: array<char>, input: nat, ghost text: string) returns (end: nat)
    requires Holds(json, input, text) && NulFree(text) && input + 2 <= |text|
    ensures input + 2 <= end <= |text| && text[end..] == AfterLine(text[input + 2..])
    ensures if '\n' in text[input + 2..]
            then input + 2 < end && text[end - 1] == '\n' && '\n' !in text[input + 2..end - 1]
            else end == |text|
  {
    end := input + 2;
    while json[end] != NUL
      invariant input + 2 <= end <= |text| && '\n' !in text[input + 2..end]
      invariant AfterLine(text[end..]) == AfterLine(text[input + 2..])
      decreases |text| - end
    {
      DropDrop(text, end, 1);
      if json[end] == '\n' {
        end := end + 1;
        return;
      }
      end := end + 1;
    }
  }

  /** Nothing in the text ends a multi-line comment. */
  predicate Unclosed(s: string)
  {
    forall i :: 0 <= i < |s| - 1 ==> s[i] != '*' || s[i + 1] != '/'
  }

  lemma {:induction false} CommentStep(t: string)
    requires t != ""
    ensures AfterComment(t) == if t[0] == '*' && At(t, 1) == '/' then t[2..] else AfterComment(t[1..])
    ensures AfterComment("") == ""
  {
  }

  /** `skip_multiline_comment`. */
  method SkipMultilineComment(json: array<char>, input: nat, ghost text: string) returns (end: nat)
    requires Holds(json, input, text) && NulFree(text) && input + 2 <= |text|
    ensures input + 2 <= end <= |text| && text[end..] == AfterComment(text[input + 2..])
    ensures if Unclosed(text[input + 2..]) then end == |text|
            else input + 4 <= end && text[end - 2] == '*' && text[end - 1] == '/' && Unclosed(text[input + 2..end - 1])
  {
    hide AfterComment;
    end := input + 2;
    CommentStep("*");
    while json[end] != NUL
      invariant input + 2 <= end <= |text|
      invariant forall i :: input + 2 <= i < end ==> text[i] != '*' || At(text, i + 1) != '/'
      invariant AfterComment(text[end..]) == AfterComment(text[input + 2..])
      decreases |text| - end
    {
      CommentStep(text[end..]);
      DropDrop(text, end, 1);
      if json[end] == '*' && json[end + 1] == '/' {
        DropDrop(text, end, 2);
        end := end + 2;
        return;
      }
      end := end + 1;
    }
    assert text[end..] == "";
  }

  lemma {:induction false} StringStep(t: string)
    ensures StringLength(t) ==
      if t == "" then 0
      else if t[0] == '\"' then 1
      else if t[0] == '\\' && At(t, 1) == '\"' then 2 + StringLength(t[2..])
      else 1 + StringLength(t[1..])
  {
  }

  /** `minify_string`: copies a literal to a place that is not behind it. */
  method MinifyString(json: array<char>, input: nat, output: nat, ghost text: string)
    returns (inputEnd: nat, outputEnd: nat)
    requires Holds(json, output, text) && NulFree(text)
    requires output <= input < |text| && text[input] == '\"'
    modifies json
    ensures var n := 1 + StringLength(text[input + 1..]);
      && inputEnd == input + n <= |text| && outputEnd == output + n
      && forall k :: output <= k < outputEnd ==> json[k] == text[k + (input - output)]
    ensures Holds(json, outputEnd, text)
    ensures forall k :: 0 <= k < json.Length && !(output <= k < outputEnd) ==> json[k] == old(json[k])
  {
    hide StringLength;
    json[output] := json[input];
    inputEnd, outputEnd := input + 1, output + 1;
    while json[inputEnd] != NUL
      invariant input < inputEnd <= |text| && outputEnd - output == inputEnd - input
      invariant forall k :: output <= k < outputEnd ==> json[k] == text[k + (input - output)]
      invariant forall k :: 0 <= k < json.Length && !(output <= k < outputEnd) ==> json[k] == old(json[k])
      invariant inputEnd + StringLength(text[inputEnd..]) == input + 1 + StringLength(text[input + 1..])
      decreases |text| - inputEnd
    {
      StringStep(text[inputEnd..]);
      DropDrop(text, inputEnd, 1);
      json[outputEnd] := json[inputEnd];
      if json[inputEnd] == '\"' {
        json[outputEnd] := '\"';
        inputEnd, outputEnd := inputEnd + 1, outputEnd + 1;
        return;
      } else if json[inputEnd] == '\\' && json[inputEnd + 1] == '\"' {
        DropDrop(text, inputEnd, 2);
        json[outputEnd + 1] := json[inputEnd + 1];
        inputEnd, outputEnd := inputEnd + 1, outputEnd + 1;
      }
      inputEnd, outputEnd := inputEnd + 1, outputEnd + 1;
    }
    StringStep(text[inputEnd..]);
  }

  /** The same with the text stored so far. */
  method CopyLiteral(json: array<char>, input: nat, output: nat, ghost text: string)
    returns (inputEnd: nat, outputEnd: nat)
    requires Holds(json, output, text) && NulFree(text)
    requires output <= input < |text| && text[input] == '\"'
    modifies json
    ensures var n := 1 + StringLength(text[input + 1..]);
      && inputEnd == input + n <= |text| && outputEnd == output + n
      && json[..outputEnd] == old(json[..output]) + text[input..][..n]
    ensures Holds(json, outputEnd, text)
    ensures forall k :: outputEnd <= k < json.Length ==> json[k] == old(json[k])
  {
    hide StringLength;
    inputEnd, outputEnd := MinifyString(json, input, output, text);
    ghost var n := inputEnd - input;
    forall k | 0 <= k < n
      ensures json[output + k] == text[input..][..n][k]
    {
    }
    SameBytes(json[..outputEnd], old(json[..output]), text[input..][..n]);
  }

  method CopyChar(json: array<char>, input: nat, output: nat, ghost text: string)
    requires Holds(json, output, text) && output <= input < |text|
    modifies json
    ensures Holds(json, output + 1, text) && json[..output + 1] == old(json[..output]) + [text[input]]
    ensures forall k :: output < k < json.Length ==> json[k] == old(json[k])
  {
    json[output] := json[input];
  }

  lemma HoldsAt(json: array<char>, from: nat, text: string, k: nat)
    requires Holds(json, from, text) && from <= k <= |text| && NulFree(text)
    ensures |text| < json.Length && json[k] == At(text, k) && (json[k] == NUL <==> k == |text|)
    ensures k < |text| ==> text[k..] != "" && text[k..][0] == json[k]
    ensures k < |text| ==> At(text[k..], 1) == json[k + 1] && (json[k + 1] == NUL <==> k + 1 == |text|)
  {
  }

  lemma HoldsOn(json: array<char>, from: nat, text: string, to: nat)
    requires Holds(json, from, text) && from <= to
    ensures Holds(json, to, text)
  {
  }

  /** `cJSON_Minify`: the buffer holds the minified text and its NUL; what was stored
      behind them is unchanged. */
  method MinifyInPlace(json: array<char>, ghost text: string)
    requires Holds(json, 0, text) && NulFree(text)
    modifies json
    ensures var n := |Minified(text)|;
      && n < json.Length && json[..n] == Minified(text) && json[n] == NUL
      && forall k :: n < k < json.Length ==> json[k] == old(json[k])
  {
    hide Minified, StringLength, AfterLine, AfterComment, Holds, Droppable, Unclosed;
    var input, into := 0, 0;
    NoPrefix(Minified(text));
    assert text[0..] == text;
    HoldsAt(json, 0, text, 0);
    while json[input] != NUL
      invariant 0 <= into <= input <= |text| < json.Length && Holds(json, into, text)
      invariant json[..into] + Minified(text[input..]) == Minified(text)
      invariant forall k :: into <= k < json.Length ==> json[k] == old(json[k])
      decreases |text| - input
    {
      HoldsAt(json, into, text, input);
      HoldsOn(json, into, text, input);
      MinifiedStep(text[input..]);
      DropDrop(text, input, 1);
      var c := json[input];
      if Droppable(c) {
        input := input + 1;
      } else if c == '/' {
        if json[input + 1] == '/' {
          DropDrop(text, input, 2);
          input := SkipOnelineComment(json, input, text);
        } else if json[input + 1] == '*' {
          DropDrop(text, input, 2);
          input := SkipMultilineComment(json, input, text);
        } else {
          input := input + 1;
        }
      } else if c == '\"' {
        ghost var done, n := json[..into], 1 + StringLength(text[input + 1..]);
        DropDrop(text, input, n);
        Assoc(done, text[input..][..n], Minified(text[input + n..]));
        input, into := CopyLiteral(json, input, into, text);
      } else {
        Assoc(json[..into], [c], Minified(text[input + 1..]));
        CopyChar(json, input, into, text);
        input, into := input + 1, into + 1;
      }
    }
    HoldsAt(json, into, text, input);
    MinifiedStep(text[input..]);
    NoSuffix(json[..into]);
    json[into] := NUL;
    assert json[..into] == Minified(text);
  }

  lemma {:induction false} MinifiedStep(t: string)
    ensures Minified(t) ==
      if t == "" then ""
      else if Droppable(t[0]) then Minified(t[1..])
      else if t[0] == '/' then
        if At(t, 1) == '/' then Minified(AfterLine(t[2..]))
        else if At(t, 1) == '*' then Minified(AfterComment(t[2..]))
        else Minified(t[1..])
      else if t[0] == '\"' then t[..1 + StringLength(t[1..])] + Minified(t[1 + StringLength(t[1..])..])
      else [t[0]] + Minified(t[1..])
  {
    if t != "" && t[0] == '\"' {
      var n := StringLength(t[1..]);
      assert t[..1 + n] == "\"" + t[1..1 + n];
    }
  }
}
