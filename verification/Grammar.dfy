/** Texts of the grammar of RFC 8259 with blanks wherever it allows them, strings with any
    escape sequences, and numbers as `strtod` reads them: the parser of
    libs/cjson/src/cJSON.c reads every one of them as the tree it stands for, exactly when
    it is not nested deeper than the parser goes. */
module Grammar {
  import opened Text
  import opened Json
  import opened Parsing
  import Literals
  import PrintParse

  // ---------------------------------------------------------------- texts

  /** How a value is written: blanks are kept where they stand. */
  datatype Written =
    | Word(j: Json)
    | Digits(digits: string)
    | Quote(pieces: seq<Literals.Piece>)
    | List(inner: string, items: seq<Item>)
    | Table(inner: string, fields: seq<Field>)

  datatype Item = Item(before: string, value: Written, after: string)

  datatype Field = Field(before: string, name: seq<Literals.Piece>, gap: string, space: string, value: Written,
                         after: string)

  predicate Spaces(s: string)
  {
    forall i :: 0 <= i < |s| ==> s[i] <= ' '
  }

  /** The words of the grammar, characters of numbers that `strtod` takes to the end,
      legal pieces of strings, blanks where blanks may stand. */
  predicate Legal(w: Written, strtod: Strtod)
    decreases w
  {
    match w
    case Word(j) => j.Null? || j.Bool?
    case Digits(digits) =>
      && digits != "" && (digits[0] == '-' || digits[0] in "0123456789")
      && (forall i :: 0 <= i < |digits| ==> digits[i] in "0123456789+-eE.")
      && strtod(digits).consumed == |digits|
    case Quote(pieces) => Literals.AllLegal(pieces)
    case List(inner, items) => Spaces(inner) && LegalItems(items, strtod)
    case Table(inner, fields) => Spaces(inner) && LegalFields(fields, strtod)
  }

  predicate LegalItems(items: seq<Item>, strtod: Strtod)
    decreases items
  {
    items == [] || (LegalItem(items[0], strtod) && LegalItems(items[1..], strtod))
  }

  predicate LegalItem(item: Item, strtod: Strtod)
    decreases item
  {
    Spaces(item.before) && Legal(item.value, strtod) && Spaces(item.after)
  }

  predicate LegalFields(fields: seq<Field>, strtod: Strtod)
    decreases fields
  {
    fields == [] || (LegalField(fields[0], strtod) && LegalFields(fields[1..], strtod))
  }

  predicate LegalField(field: Field, strtod: Strtod)
    decreases field
  {
    && Spaces(field.before) && Literals.AllLegal(field.name) && Spaces(field.gap) && Spaces(field.space)
    && Legal(field.value, strtod) && Spaces(field.after)
  }

  /** The text. */
  function Spelling(w: Written, strtod: Strtod): string
    requires Legal(w, strtod)
    decreases w
  {
    match w
    case Word(j) => if j.Null? then "null" else if j.b then "true" else "false"
    case Digits(digits) => digits
    case Quote(pieces) => Quoted(pieces)
    case List(inner, items) => ['['] + (inner + ItemsText(items, strtod) + [']'])
    case Table(inner, fields) => ['{'] + (inner + FieldsText(fields, strtod) + ['}'])
  }

  function Quoted(pieces: seq<Literals.Piece>): string
    requires Literals.AllLegal(pieces)
  {
    "\"" + Literals.AllWritten(pieces) + "\""
  }

  function ItemsText(items: seq<Item>, strtod: Strtod): string
    requires LegalItems(items, strtod)
    decreases items
  {
    if items == [] then ""
    else ItemText(items[0], strtod) + if |items| == 1 then "" else [','] + ItemsText(items[1..], strtod)
  }

  function ItemText(item: Item, strtod: Strtod): string
    requires LegalItem(item, strtod)
    decreases item
  {
    item.before + (Spelling(item.value, strtod) + item.after)
  }

  function FieldsText(fields: seq<Field>, strtod: Strtod): string
    requires LegalFields(fields, strtod)
    decreases fields
  {
    if fields == [] then ""
    else FieldText(fields[0], strtod) + if |fields| == 1 then "" else [','] + FieldsText(fields[1..], strtod)
  }

  function FieldText(field: Field, strtod: Strtod): string
    requires LegalField(field, strtod)
    decreases field
  {
    field.before
    + (Quoted(field.name) + (field.gap + ([':'] + (field.space + (Spelling(field.value, strtod) + field.after)))))
  }

  /** The tree it stands for. */
  function Tree(w: Written, strtod: Strtod): Json
    requires Legal(w, strtod)
    decreases w
  {
    match w
    case Word(j) => j
    case Digits(digits) => Number(strtod(digits).valueint)
    case Quote(pieces) => String(Literals.AllMeant(pieces))
    case List(_, items) => Array(ItemsTree(items, strtod))
    case Table(_, fields) => Object(FieldsTree(fields, strtod))
  }

  function ItemsTree(items: seq<Item>, strtod: Strtod): seq<Json>
    requires LegalItems(items, strtod)
    decreases items
  {
    if items == [] then [] else [ItemTree(items[0], strtod)] + ItemsTree(items[1..], strtod)
  }

  function ItemTree(item: Item, strtod: Strtod): Json
    requires LegalItem(item, strtod)
    decreases item
  {
    Tree(item.value, strtod)
  }

  function FieldsTree(fields: seq<Field>, strtod: Strtod): seq<Member>
    requires LegalFields(fields, strtod)
    decreases fields
  {
    if fields == [] then [] else [FieldTree(fields[0], strtod)] + FieldsTree(fields[1..], strtod)
  }

  function FieldTree(field: Field, strtod: Strtod): Member
    requires LegalField(field, strtod)
    decreases field
  {
    Member(Literals.AllMeant(field.name), Tree(field.value, strtod))
  }

  // ---------------------------------------------------------------- pieces of the proof

  lemma SpacesBlank(s: string)
    ensures Spaces(s) <==> PrintParse.Blanks(s)
  {
  }

  lemma SpacesConcat(a: string, b: string)
    requires Spaces(a) && Spaces(b)
    ensures Spaces(a + b)
  {
  }

  /** Blanks before something that is not blank are skipped, however often. */
  lemma Skips(ws: string, t: string)
    requires Spaces(ws) && PrintParse.Starts(t)
    ensures Skip(ws + t) == t && Skip(t) == t
  {
    SpacesBlank(ws);
    PrintParse.SkipsBlanks(ws, t);
    PrintParse.SkipsBlanks("", t);
    NoPrefix(t);
  }

  /** What stands behind a value: blanks, a separator and anything. */
  lemma Behind(ws: string, c: char, x: string)
    requires Spaces(ws) && !Blank(c) && !NumberChar(c)
    ensures PrintParse.EndsNumber(ws + ([c] + x)) && Skip(ws + ([c] + x)) == [c] + x
    ensures ([c] + x)[0] == c && ([c] + x)[1..] == x
  {
    hide Skip;
    PrintParse.Separator(c, x);
    Skips(ws, [c] + x);
    SpacesBlank(ws);
    PrintParse.BlanksEndNumber(ws, [c] + x);
  }

  lemma {:induction false} SpellingStarts(w: Written, strtod: Strtod)
    requires Legal(w, strtod)
    ensures PrintParse.Starts(Spelling(w, strtod)) && Spelling(w, strtod)[0] != ']'
  {
    hide Literals.AllWritten, ItemsText, FieldsText;
    match w
    case Digits(digits) =>
      DigitsStart(digits);
    case _ =>
  }

  lemma DigitsStart(digits: string)
    requires digits != "" && (digits[0] == '-' || digits[0] in "0123456789")
    ensures digits[0] == '-' || IsDigit(digits[0])
  {
    var all := "0123456789";
    assert forall i :: 0 <= i < 10 ==> IsDigit(all[i]);
  }

  lemma DigitsNumber(digits: string)
    requires forall i :: 0 <= i < |digits| ==> digits[i] in "0123456789+-eE."
    ensures forall i :: 0 <= i < |digits| ==> NumberChar(digits[i])
  {
    var all := "0123456789+-eE.";
    assert forall i :: 0 <= i < 15 ==> NumberChar(all[i]);
  }

  lemma {:induction false} DigitsRead(digits: string, depth: nat, rest: string, strtod: Strtod)
    requires Legal(Digits(digits), strtod) && PrintParse.EndsNumber(rest)
    ensures ParseValue(digits + rest, depth, strtod) == Parsed(Number(strtod(digits).valueint), rest)
  {
    DigitsStart(digits);
    DigitsNumber(digits);
    PrintParse.NumberTextReads(digits, rest);
    var t := digits + rest;
    assert t[|digits|..] == rest && t[0] == digits[0];
    NumberFirst(t, depth, strtod);
  }

  lemma {:induction false} NumberFirst(t: string, depth: nat, strtod: Strtod)
    requires t != "" && (t[0] == '-' || IsDigit(t[0]))
    ensures ParseValue(t, depth, strtod) == ParseNumber(t, strtod)
  {
    hide ParseNumber;
    assert "null"[0] == 'n' && "false"[0] == 'f' && "true"[0] == 't';
  }

  // ---------------------------------------------------------------- values

  /** Every text of a value is read as its tree, in any place. */
  lemma {:induction false} ValueReads(w: Written, depth: nat, rest: string, strtod: Strtod)
    requires Legal(w, strtod) && PrintParse.EndsNumber(rest) && depth <= NESTING_LIMIT
    ensures ParseValue(Spelling(w, strtod) + rest, depth, strtod)
      == if depth + PrintParse.Nesting(Tree(w, strtod)) <= NESTING_LIMIT then Parsed(Tree(w, strtod), rest) else Failed
    decreases w, 0
  {
    hide ParseValue, Literals.AllLegal, Literals.AllWritten, Literals.AllMeant, ItemsText, FieldsText, ItemsTree,
         FieldsTree;
    match w
    case Word(j) => PrintParse.WordReads(j, depth, rest, strtod);
    case Digits(digits) => DigitsRead(digits, depth, rest, strtod);
    case Quote(pieces) => Literals.LiteralReads(pieces, rest, depth, strtod);
    case List(inner, items) => ListReads(inner, items, depth, rest, strtod);
    case Table(inner, fields) => TableReads(inner, fields, depth, rest, strtod);
  }

  lemma Enclosed(open: char, inner: string, body: string, close: char, rest: string)
    ensures ([open] + (inner + body + [close])) + rest == [open] + (inner + (body + ([close] + rest)))
  {
    Assoc([open], inner + body + [close], rest);
    Assoc(inner + body, [close], rest);
    Assoc(inner, body, [close] + rest);
  }

  lemma {:induction false} ListReads(inner: string, items: seq<Item>, depth: nat, rest: string, strtod: Strtod)
    requires Spaces(inner) && LegalItems(items, strtod) && depth <= NESTING_LIMIT
    ensures ParseValue((['['] + (inner + ItemsText(items, strtod) + [']'])) + rest, depth, strtod)
      == if depth + 1 + PrintParse.NestingItems(ItemsTree(items, strtod)) <= NESTING_LIMIT
         then Parsed(Array(ItemsTree(items, strtod)), rest) else Failed
    decreases items, 2
  {
    hide ParseElements, ItemsText, ItemsTree, LegalItems, PrintParse.NestingItems, Skip, ParseValue;
    var body, end := ItemsText(items, strtod), [']'] + rest;
    var u := inner + (body + end);
    Enclosed('[', inner, body, ']', rest);
    PrintParse.BracketValue(['['] + u, u, depth, strtod);
    if items == [] {
      NoItems(strtod);
      NoPrefix(end);
      Behind(inner, ']', rest);
    } else {
      var start := ItemsStart(items, end, strtod);
      Assoc(inner, items[0].before, start);
      FirstLegal(items, strtod);
      SpacesConcat(inner, items[0].before);
      Skips(inner + items[0].before, start);
      if depth < NESTING_LIMIT {
        ElementsRead(inner, items, depth + 1, rest, strtod);
        ElementsSkipped(u, start, depth + 1, strtod);
      }
    }
  }

  lemma {:induction false} NoItems(strtod: Strtod)
    ensures LegalItems([], strtod) && ItemsText([], strtod) == "" && ItemsTree([], strtod) == []
    ensures PrintParse.NestingItems([]) == 0
  {
  }

  lemma {:induction false} FirstLegal(items: seq<Item>, strtod: Strtod)
    requires items != [] && LegalItems(items, strtod)
    ensures Spaces(items[0].before) && Legal(items[0].value, strtod) && Spaces(items[0].after)
    ensures LegalItems(items[1..], strtod)
  {
    hide Legal;
  }

  /** Where the first element starts behind its blanks. */
  lemma {:induction false} ItemsStart(items: seq<Item>, end: string, strtod: Strtod) returns (start: string)
    requires items != [] && LegalItems(items, strtod)
    ensures ItemsText(items, strtod) + end == items[0].before + start
    ensures PrintParse.Starts(start) && start[0] != ']'
  {
    hide Spelling, Legal;
    FirstLegal(items, strtod);
    var item := items[0];
    var more := if |items| == 1 then "" else [','] + ItemsText(items[1..], strtod);
    start := Spelling(item.value, strtod) + (item.after + (more + end));
    SpellingStarts(item.value, strtod);
    assert ItemText(item, strtod) + more + end == item.before + start;
  }

  lemma {:induction false} ElementsSkipped(t: string, u: string, depth: nat, strtod: Strtod)
    requires Skip(t) == u && Skip(u) == u
    ensures ParseElements(t, depth, strtod) == ParseElements(u, depth, strtod)
  {
    hide ParseValue, Skip;
  }

  /** Elements up to the bracket that closes them. */
  lemma {:induction false} ElementsRead(ws: string, items: seq<Item>, depth: nat, rest: string, strtod: Strtod)
    requires Spaces(ws) && items != [] && LegalItems(items, strtod) && depth <= NESTING_LIMIT
    ensures ParseElements(ws + (ItemsText(items, strtod) + ([']'] + rest)), depth, strtod)
      == if depth + PrintParse.NestingItems(ItemsTree(items, strtod)) <= NESTING_LIMIT
         then Parsed(ItemsTree(items, strtod), rest) else Failed
    decreases items, 1
  {
    hide ParseValue, ParseElements, Spelling, Tree, Legal, LegalItems, ItemsText, ItemsTree, Skip, PrintParse.Nesting,
         PrintParse.NestingItems, PrintParse.EndsNumber, Spaces;
    var item, tail := items[0], items[1..];
    FirstLegal(items, strtod);
    var c := if tail == [] then ']' else ',';
    var x := if tail == [] then rest else ItemsText(tail, strtod) + ([']'] + rest);
    var t, after := Spelling(item.value, strtod), item.after + ([c] + x);
    ItemsSplit(items, rest, strtod);
    Assoc(ws, item.before, t + after);
    SpacesConcat(ws, item.before);
    SpellingStarts(item.value, strtod);
    PrintParse.StartsConcat(t, after);
    Skips(ws + item.before, t + after);
    Behind(item.after, c, x);
    ValueReads(item.value, depth, after, strtod);
    ElementsStep((ws + item.before) + (t + after), after, [c] + x, depth, strtod);
    if tail != [] {
      EmptySpaces();
      NoPrefix(x);
      ElementsRead("", tail, depth, rest, strtod);
    } else {
      NoSuffix([Tree(item.value, strtod)]);
    }
  }

  lemma EmptySpaces()
    ensures Spaces("")
  {
  }

  lemma {:induction false} ItemsSplit(items: seq<Item>, rest: string, strtod: Strtod)
    requires items != [] && LegalItems(items, strtod)
    requires Legal(items[0].value, strtod) && LegalItems(items[1..], strtod)
    ensures var item, tail := items[0], items[1..];
      && ItemsText(items, strtod) + ([']'] + rest)
         == item.before
            + (Spelling(item.value, strtod)
               + (item.after + if tail == [] then [']'] + rest else [','] + (ItemsText(tail, strtod) + ([']'] + rest))))
      && ItemsTree(items, strtod) == [Tree(item.value, strtod)] + ItemsTree(tail, strtod)
      && PrintParse.NestingItems(ItemsTree(items, strtod))
         == Max(PrintParse.Nesting(Tree(item.value, strtod)), PrintParse.NestingItems(ItemsTree(tail, strtod)))
      && (tail == [] ==> ItemsTree(tail, strtod) == [] && PrintParse.NestingItems(ItemsTree(tail, strtod)) == 0)
  {
    hide Spelling, Tree, PrintParse.Nesting, Legal;
    var item, tail, end := items[0], items[1..], [']'] + rest;
    var t := Spelling(item.value, strtod);
    Assoc(item.before, t + item.after, end);
    Assoc(t, item.after, end);
    if tail != [] {
      var more := ItemsText(tail, strtod);
      Assoc(item.before + (t + item.after), [','] + more, end);
      Assoc([','], more, end);
      Assoc(item.before, t + item.after, [','] + (more + end));
      Assoc(t, item.after, [','] + (more + end));
    } else {
      NoSuffix(ItemText(item, strtod));
    }
    assert ItemsTree(items, strtod)[1..] == ItemsTree(tail, strtod);
  }

  lemma {:induction false} ElementsStep(t: string, after: string, u: string, depth: nat, strtod: Strtod)
    requires Skip(after) == u && u != "" && (u[0] == ',' || u[0] == ']')
    ensures var item := ParseValue(Skip(t), depth, strtod);
      item.Failed? || item.rest == after ==>
        ParseElements(t, depth, strtod) ==
          if item.Failed? then Failed
          else if u[0] == ']' then Parsed([item.value], u[1..])
          else
            var items := ParseElements(u[1..], depth, strtod);
            if items.Failed? then Failed else Parsed([item.value] + items.value, items.rest)
  {
    hide ParseValue, Skip;
  }

  // ---------------------------------------------------------------- objects

  lemma {:induction false} TableReads(inner: string, fields: seq<Field>, depth: nat, rest: string, strtod: Strtod)
    requires Spaces(inner) && LegalFields(fields, strtod) && depth <= NESTING_LIMIT
    ensures ParseValue((['{'] + (inner + FieldsText(fields, strtod) + ['}'])) + rest, depth, strtod)
      == if depth + 1 + PrintParse.NestingMembers(FieldsTree(fields, strtod)) <= NESTING_LIMIT
         then Parsed(Object(FieldsTree(fields, strtod)), rest) else Failed
    decreases fields, 3
  {
    hide ParseMembers, FieldsText, FieldsTree, LegalFields, PrintParse.NestingMembers, Skip, ParseValue;
    var body, end := FieldsText(fields, strtod), ['}'] + rest;
    var u := inner + (body + end);
    Enclosed('{', inner, body, '}', rest);
    PrintParse.BraceValue(u, depth, strtod);
    if fields == [] {
      NoFields(strtod);
      NoPrefix(end);
      Behind(inner, '}', rest);
    } else {
      var start := FieldsStart(fields, end, strtod);
      Assoc(inner, fields[0].before, start);
      FirstField(fields, strtod);
      SpacesConcat(inner, fields[0].before);
      Skips(inner + fields[0].before, start);
      if depth < NESTING_LIMIT {
        MembersRead(inner, fields, depth + 1, rest, strtod);
        MembersSkipped(u, start, depth + 1, strtod);
      }
    }
  }

  lemma {:induction false} NoFields(strtod: Strtod)
    ensures LegalFields([], strtod) && FieldsText([], strtod) == "" && FieldsTree([], strtod) == []
    ensures PrintParse.NestingMembers([]) == 0
  {
  }

  lemma {:induction false} FirstField(fields: seq<Field>, strtod: Strtod)
    requires fields != [] && LegalFields(fields, strtod)
    ensures LegalField(fields[0], strtod) && Spaces(fields[0].before) && Spaces(fields[0].after)
    ensures LegalFields(fields[1..], strtod)
  {
    hide Legal;
  }

  lemma QuoteFirst(pieces: seq<Literals.Piece>)
    requires Literals.AllLegal(pieces)
    ensures Quoted(pieces) != "" && Quoted(pieces)[0] == '\"'
  {
    hide Literals.AllWritten, Literals.AllLegal;
  }

  /** Where the first key starts behind its blanks. */
  lemma {:induction false} FieldsStart(fields: seq<Field>, end: string, strtod: Strtod) returns (start: string)
    requires fields != [] && LegalFields(fields, strtod)
    ensures FieldsText(fields, strtod) + end == fields[0].before + start
    ensures PrintParse.Starts(start) && start[0] == '\"'
  {
    hide Spelling, Legal, Literals.AllWritten, Literals.AllLegal, Quoted;
    FirstField(fields, strtod);
    var f, q := fields[0], Quoted(fields[0].name);
    var more := if |fields| == 1 then "" else [','] + FieldsText(fields[1..], strtod);
    var value := f.gap + ([':'] + (f.space + (Spelling(f.value, strtod) + f.after)));
    start := q + (value + (more + end));
    QuotedReads(f.name, value + (more + end));
    QuoteFirst(f.name);
    Assoc(FieldText(f, strtod), more, end);
    Assoc(f.before, q + value, more + end);
    Assoc(q, value, more + end);
  }

  lemma {:induction false} MembersSkipped(t: string, u: string, depth: nat, strtod: Strtod)
    requires Skip(t) == u && Skip(u) == u && t != "" && u != ""
    ensures ParseMembers(t, depth, strtod) == ParseMembers(u, depth, strtod)
  {
    hide ParseValue, ParseString, Skip;
    assert ParseMember(t, depth, strtod) == ParseMember(u, depth, strtod);
  }

  /** Members up to the brace that closes them. */
  lemma {:induction false} MembersRead(ws: string, fields: seq<Field>, depth: nat, rest: string, strtod: Strtod)
    requires Spaces(ws) && fields != [] && LegalFields(fields, strtod) && depth <= NESTING_LIMIT
    ensures ParseMembers(ws + (FieldsText(fields, strtod) + (['}'] + rest)), depth, strtod)
      == if depth + PrintParse.NestingMembers(FieldsTree(fields, strtod)) <= NESTING_LIMIT
         then Parsed(FieldsTree(fields, strtod), rest) else Failed
    decreases fields, 1
  {
    hide ParseMember, ParseMembers, FieldTree, LegalField, LegalFields, FieldsText, FieldsTree, Skip,
         PrintParse.Nesting, PrintParse.NestingMembers, PrintParse.EndsNumber, Spaces, Spelling, Legal, Tree;
    var f, tail := fields[0], fields[1..];
    FirstField(fields, strtod);
    var c := if tail == [] then '}' else ',';
    var x := if tail == [] then rest else FieldsText(tail, strtod) + (['}'] + rest);
    FieldsSplit(fields, rest, strtod);
    Behind(f.after, c, x);
    MemberReads(ws, f, depth, c, x, strtod);
    PrintParse.MembersStep(ws + (FieldText(f, strtod) + ([c] + x)), f.after + ([c] + x), [c] + x, depth, strtod);
    if tail != [] {
      EmptySpaces();
      NoPrefix(x);
      MembersRead("", tail, depth, rest, strtod);
    } else {
      NoSuffix([FieldTree(f, strtod)]);
    }
  }

  lemma {:induction false} FieldsSplit(fields: seq<Field>, rest: string, strtod: Strtod)
    requires fields != [] && LegalFields(fields, strtod)
    requires LegalField(fields[0], strtod) && LegalFields(fields[1..], strtod)
    ensures var f, tail := fields[0], fields[1..];
      && FieldsText(fields, strtod) + (['}'] + rest)
         == FieldText(f, strtod)
            + (if tail == [] then ['}'] + rest else [','] + (FieldsText(tail, strtod) + (['}'] + rest)))
      && FieldsTree(fields, strtod) == [FieldTree(f, strtod)] + FieldsTree(tail, strtod)
      && PrintParse.NestingMembers(FieldsTree(fields, strtod))
         == Max(PrintParse.Nesting(FieldTree(f, strtod).item), PrintParse.NestingMembers(FieldsTree(tail, strtod)))
      && (tail == [] ==> FieldsTree(tail, strtod) == [] && PrintParse.NestingMembers(FieldsTree(tail, strtod)) == 0)
  {
    hide FieldText, FieldTree, PrintParse.Nesting, LegalField;
    var f, tail, end := fields[0], fields[1..], ['}'] + rest;
    if tail != [] {
      var more := FieldsText(tail, strtod);
      Assoc(FieldText(f, strtod), [','] + more, end);
      Assoc([','], more, end);
    } else {
      NoSuffix(FieldText(f, strtod));
    }
    assert FieldsTree(fields, strtod)[1..] == FieldsTree(tail, strtod);
  }

  /** One member: a key, a colon and a value, with the blanks around them. */
  lemma {:induction false} MemberReads(ws: string, f: Field, depth: nat, c: char, x: string, strtod: Strtod)
    requires Spaces(ws) && LegalField(f, strtod) && depth <= NESTING_LIMIT && (c == ',' || c == '}')
    ensures ParseMember(ws + (FieldText(f, strtod) + ([c] + x)), depth, strtod)
      == if depth + PrintParse.Nesting(FieldTree(f, strtod).item) <= NESTING_LIMIT
         then Parsed(FieldTree(f, strtod), f.after + ([c] + x)) else Failed
    decreases f, 1
  {
    hide ParseValue, ParseMember, ParseString, Spelling, Tree, Legal, Skip, PrintParse.Nesting, PrintParse.EndsNumber,
         Spaces, Quoted, Literals.AllWritten, Literals.AllMeant, Literals.AllLegal, ParseKey;
    var t, after := Spelling(f.value, strtod), f.after + ([c] + x);
    var value := f.space + (t + after);
    FieldSplit(ws, f, [c] + x, strtod);
    SpacesConcat(ws, f.before);
    QuotedReads(f.name, f.gap + ([':'] + value));
    Skips(ws + f.before, Quoted(f.name) + (f.gap + ([':'] + value)));
    Behind(f.gap, ':', value);
    SpellingStarts(f.value, strtod);
    PrintParse.StartsConcat(t, after);
    Skips(f.space, t + after);
    Behind(f.after, c, x);
    ValueReads(f.value, depth, after, strtod);
    KeyStep((ws + f.before) + (Quoted(f.name) + (f.gap + ([':'] + value))), f.gap + ([':'] + value),
            Literals.AllMeant(f.name), value, depth, strtod);
  }

  lemma {:induction false} FieldSplit(ws: string, f: Field, end: string, strtod: Strtod)
    requires LegalField(f, strtod)
    ensures ws + (FieldText(f, strtod) + end)
      == (ws + f.before)
         + (Quoted(f.name) + (f.gap + ([':'] + (f.space + (Spelling(f.value, strtod) + (f.after + end))))))
  {
    hide Spelling, Legal, Quoted, Literals.AllLegal;
    var q, t := Quoted(f.name), Spelling(f.value, strtod);
    Assoc(f.before, q + (f.gap + ([':'] + (f.space + (t + f.after)))), end);
    Assoc(q, f.gap + ([':'] + (f.space + (t + f.after))), end);
    Assoc(f.gap, [':'] + (f.space + (t + f.after)), end);
    Assoc([':'], f.space + (t + f.after), end);
    Assoc(f.space, t + f.after, end);
    Assoc(t, f.after, end);
    Assoc(ws, f.before, q + (f.gap + ([':'] + (f.space + (t + (f.after + end))))));
  }

  lemma {:induction false} QuotedReads(pieces: seq<Literals.Piece>, rest: string)
    requires Literals.AllLegal(pieces)
    ensures ParseString(Quoted(pieces) + rest) == Parsed(Literals.AllMeant(pieces), rest)
    ensures PrintParse.Starts(Quoted(pieces) + rest)
  {
    hide ParseString, Literals.AllWritten, Literals.AllMeant, Literals.AllLegal;
    Literals.StringReads(pieces, rest);
  }

  lemma {:induction false} KeyStep(t: string, behind: string, name: string, value: string, depth: nat, strtod: Strtod)
    requires t != "" && ParseString(Skip(t)) == Parsed(name, behind) && Skip(behind) == [':'] + value
    ensures ParseMember(t, depth, strtod) ==
      var item := ParseValue(Skip(value), depth, strtod);
      if item.Failed? then Failed else Parsed(Member(name, item.value), item.rest)
  {
    hide ParseString, ParseValue, Skip;
    TailOfConcat([':'], value);
  }

  // ---------------------------------------------------------------- whole texts

  lemma {:induction false} NoBom(before: string, w: Written, rest: string, strtod: Strtod)
    requires Legal(w, strtod) && Spaces(before)
    ensures var t := before + (Spelling(w, strtod) + rest);
      |t| > 0 && t[0] != BOM[0]
  {
    hide Literals.AllWritten, ItemsText, FieldsText;
    var s := Spelling(w, strtod);
    SpellingStarts(w, strtod);
    match w
    case Digits(digits) => DigitsStart(digits);
    case _ =>
  }

  lemma PrefixHead(a: string, b: string)
    requires a != "" && b != ""
    ensures a <= b ==> b[0] == a[0]
  {
  }

  lemma BomSkipped(t: string)
    requires |t| > 1 && t[0] != BOM[0]
    ensures SkipBom(t) == t && SkipBom(BOM + t) == t
  {
    assert (BOM + t)[3..] == t && BOM <= BOM + t;
    PrefixHead(BOM, t);
  }

  /** Where only blanks are left the parser stops on the last one, here the NUL. */
  lemma {:induction false} StopsOnNul(ws: string)
    requires Spaces(ws)
    ensures Skip(ws + [NUL]) == [NUL] && PrintParse.EndsNumber(ws + [NUL])
  {
    hide Skip;
    AllDropped(ws + [NUL]);
    assert (ws + [NUL])[|ws|..] == [NUL];
    assert ws != "" ==> (ws + [NUL])[0] == ws[0];
    assert !IsDigit(NUL) && !NumberChar(NUL);
    OnlyBlanks(ws + [NUL]);
  }

  lemma {:induction false} AllDropped(t: string)
    requires Spaces(t)
    ensures DropBlanks(t) == ""
  {
    if t != "" {
      AllDropped(t[1..]);
    }
  }

  lemma OnlyBlanks(t: string)
    requires t != "" && DropBlanks(t) == ""
    ensures Skip(t) == t[|t| - 1..]
  {
    hide DropBlanks;
  }

  /** A whole text with blanks around it and its NUL is read as its tree up to the NUL, if
      and only if it is nested at most as deep as the parser goes. A byte order mark in
      front makes no difference. */
  lemma {:induction false} GrammarReads(before: string, w: Written, after: string, strtod: Strtod)
    requires Legal(w, strtod) && Spaces(before) && Spaces(after)
    ensures var text, tree := before + (Spelling(w, strtod) + (after + [NUL])), Tree(w, strtod);
      Parse(text, true, strtod) == Parse(BOM + text, true, strtod)
        == if PrintParse.Nesting(tree) <= NESTING_LIMIT then Parsed(tree, [NUL]) else Failed
    ensures var text, tree := before + (Spelling(w, strtod) + (after + [NUL])), Tree(w, strtod);
      Parse(text, false, strtod) == Parse(BOM + text, false, strtod)
        == if PrintParse.Nesting(tree) <= NESTING_LIMIT then Parsed(tree, after + [NUL]) else Failed
  {
    hide ParseValue, Spelling, Tree, Legal, Skip, SkipBom, PrintParse.Nesting, PrintParse.EndsNumber, Spaces;
    var s, end := Spelling(w, strtod), after + [NUL];
    StopsOnNul(after);
    SpellingStarts(w, strtod);
    PrintParse.StartsConcat(s, end);
    Skips(before, s + end);
    NoBom(before, w, end, strtod);
    BomSkipped(before + (s + end));
    ValueReads(w, 0, end, strtod);
  }

  /** Nor does it end in a text that is given with its length, but for one character: a
      mark is skipped only where two more bytes follow, and the rest is no value. */
  lemma {:induction false} ShortAfterBom(c: char, requireNullTerminated: bool, strtod: Strtod)
    ensures Parse(BOM + [c], requireNullTerminated, strtod).Failed?
  {
    var t := BOM + [c];
    assert t[0] == BOM[0] && !Blank(t[0]);
    assert DropBlanks(t) == t;
    assert "null"[0] == 'n' && "false"[0] == 'f' && "true"[0] == 't';
  }
}
