/**
 * What a generated header means to a C++ compiler: string declarations, the table of
 * pointers to them, and the lookup function.
 */
module HeaderReader {
  import opened BinaryPoly
  import opened CppLexer
  import opened HeaderText
  import opened Results

  /** A row of the table, its pointers followed. */
  datatype Entry = Entry(name: seq<byte>, data: seq<byte>) | Sentinel

  type Variables = map<string, seq<byte>>

  // ----- Initializers -----

  datatype Adjacent = Adjacent(bytes: seq<byte>, rest: seq<Token>)

  /** Adjacent literals are concatenated: phase 6 of section 5.2 [lex.phases] of ISO/IEC 14882:2017. */
  function TakeLiterals(ts: seq<Token>): (r: Adjacent)
    ensures |r.rest| <= |ts|
    ensures |ts| > 0 && ts[0].Literal? ==> |r.rest| < |ts|
  {
    if ts == [] || !ts[0].Literal? then Adjacent([], ts)
    else
      var more := TakeLiterals(ts[1..]);
      Adjacent(ts[0].bytes + more.bytes, more.rest)
  }

  /** The characters of an array up to the first NUL: a string made from a pointer alone. */
  function UpToNul(bytes: seq<byte>): seq<byte> {
    if bytes == [] || bytes[0] == 0 then [] else [bytes[0]] + UpToNul(bytes[1..])
  }

  datatype Initializer = Initializer(value: seq<byte>, rest: seq<Token>)

  const STRING_OF := [Word("std"), SCOPE, Word("string"), Punct('(')]

  /**
   * Either a literal, or `std::string(literal, count)`. The array of a literal ends with a NUL that
   * the count may include, and nothing beyond it can be read.
   */
  function ParseInitializer(ts: seq<Token>): (r: Option<Initializer>)
    ensures r.Some? ==> |r.value.rest| < |ts|
  {
    if |ts| > 0 && ts[0].Literal? then
      var a := TakeLiterals(ts);
      if [Punct(';')] <= a.rest then Some(Initializer(UpToNul(a.bytes), a.rest[1..])) else None
    else if STRING_OF <= ts && |ts| > 4 && ts[4].Literal? then
      var a := TakeLiterals(ts[4..]);
      if |a.rest| >= 4 && a.rest[0] == Punct(',') && a.rest[1].Number? && a.rest[2] == Punct(')') && a.rest[3] == Punct(';')
         && a.rest[1].value <= |a.bytes| + 1
      then Some(Initializer((a.bytes + [0])[..a.rest[1].value], a.rest[4..]))
      else None
    else None
  }

  // ----- Declarations and table -----

  const DECLARE := [Word("static"), Word("const"), Word("std"), SCOPE, Word("string")]

  const MEMBER := [Word("const"), Word("std"), SCOPE, Word("string"), Punct('*')]

  const TABLE :=
    [Word("static"), Word("const"), Word("struct"), Word("embedded_file"), Punct('{')]
    + (MEMBER + [Word("name"), Punct(';')])
    + (MEMBER + [Word("data"), Punct(';')])
    + [Punct('}'), Word("embedded_files"), Punct('['), Punct(']'), Punct('='), Punct('{')]

  const LAST_ROW := [Punct('{'), Word("NULL"), Punct(','), Word("NULL"), Punct('}'), Punct('}'), Punct(';')]

  predicate IsRow(ts: seq<Token>) {
    && |ts| >= 8
    && ts[0] == Punct('{') && ts[1] == Punct('&') && ts[2].Word? && ts[3] == Punct(',')
    && ts[4] == Punct('&') && ts[5].Word? && ts[6] == Punct('}') && ts[7] == Punct(',')
  }

  function PrependEntry(entry: Entry, o: Option<seq<Entry>>): Option<seq<Entry>> {
    match o
    case None => None
    case Some(more) => Some([entry] + more)
  }

  /** The rows of the table. Each must point to declared variables, and the last one to nothing. */
  function ParseRows(ts: seq<Token>, vars: Variables): (r: Option<seq<Entry>>)
    ensures r.Some? ==> |r.value| > 0 && r.value[|r.value| - 1] == Sentinel
    ensures r.Some? ==> Sentinel !in r.value[..|r.value| - 1]
    decreases |ts|
  {
    if ts == LAST_ROW then Some([Sentinel])
    else if IsRow(ts) && ts[2].text in vars && ts[5].text in vars then
      PrependEntry(Entry(vars[ts[2].text], vars[ts[5].text]), ParseRows(ts[8..], vars))
    else None
  }

  /** Declarations of distinct variables, then the table. */
  function ParseUnit(ts: seq<Token>, vars: Variables): (r: Option<seq<Entry>>)
    ensures r.Some? ==> |r.value| > 0 && r.value[|r.value| - 1] == Sentinel
    ensures r.Some? ==> Sentinel !in r.value[..|r.value| - 1]
    decreases |ts|
  {
    if TABLE <= ts then ParseRows(ts[|TABLE|..], vars)
    else if DECLARE <= ts && |ts| > 7 && ts[5].Word? && ts[5].text !in vars && ts[6] == Punct('=') then
      match ParseInitializer(ts[7..])
      case None => None
      case Some(init) => ParseUnit(init.rest, vars[ts[5].text := init.value])
    else None
  }

  /** The tokens of the lookup function that `FindEmbeddedFile` models. */
  const FIND_PARTS: seq<seq<Token>> :=
    [
      [Word("static"), Word("bool")],
      [Word("find_embedded_file"), Punct('(')],
      [Word("const")],
      [Word("std"), SCOPE, Word("string")],
      [Punct('&'), Word("name"), Punct(',')],
      [Word("std"), SCOPE, Word("string")],
      [Punct('&'), Word("data"), Punct(')'), Punct('{')],
      [Word("const"), Word("struct")],
      [Word("embedded_file"), Punct('*'), Word("p"), Punct(';')],
      [Word("for"), Punct('('), Word("p"), Punct('=')],
      [Word("embedded_files"), Punct(';')],
      [Word("p"), Operator('-', '>'), Word("name")],
      [Operator('!', '='), Word("NULL"), Punct(';')],
      [Word("p"), Operator('+', '+'), Punct(')'), Punct('{')],
      [Word("if"), Punct('(')],
      [Punct('*'), Word("p"), Operator('-', '>'), Word("name")],
      [Operator('=', '='), Word("name"), Punct(')'), Punct('{')],
      [Word("data"), Punct('=')],
      [Punct('*'), Word("p"), Operator('-', '>')],
      [Word("data"), Punct(';')],
      [Word("return")],
      [Word("true"), Punct(';')],
      [Punct('}')],
      [Punct('}')],
      [Word("return")],
      [Word("false"), Punct(';')],
      [Punct('}')]
    ]

  const FIND := Joined(FIND_PARTS)

  /** The include guard, and the header that declares strings. */
  const GUARD := [Directive("#ifndef TRANSLATION_FILES_H"), Directive("#define TRANSLATION_FILES_H"), Directive("#include <string>")]

  const ENDING := FIND + [Directive("#endif /* TRANSLATION_FILES_H */")]

  /** The table that a header defines, or None when it does not compile or has another lookup function. */
  function ReadHeader(text: string): (r: Option<seq<Entry>>)
    ensures r.Some? ==> |r.value| > 0 && r.value[|r.value| - 1] == Sentinel
    ensures r.Some? ==> Sentinel !in r.value[..|r.value| - 1]
  {
    match Lex(text)
    case None => None
    case Some(ts) =>
      if |ts| < |GUARD| + |ENDING| || ts[..|GUARD|] != GUARD || ts[|ts| - |ENDING|..] != ENDING then None
      else ParseUnit(ts[|GUARD|..|ts| - |ENDING|], map[])
  }

  // ----- The lookup function -----

  /**
   * `find_embedded_file`: the data of the first entry with the name. Without one, `data` keeps
   * its value.
   */
  method FindEmbeddedFile(table: seq<Entry>, name: seq<byte>, data: seq<byte>) returns (found: bool, result: seq<byte>)
    requires |table| > 0 && table[|table| - 1] == Sentinel
    requires Sentinel !in table[..|table| - 1]
    ensures found <==> exists i :: 0 <= i < |table| - 1 && table[i].name == name
    ensures found ==> exists i :: 0 <= i < |table| - 1 && IsFirst(table, i, name) && result == table[i].data
    ensures !found ==> result == data
  {
    var p := 0;
    while table[p] != Sentinel
      invariant 0 <= p < |table|
      invariant forall j :: 0 <= j < p ==> table[j] != Sentinel && table[j].name != name
      decreases |table| - p
    {
      if table[p].name == name {
        assert IsFirst(table, p, name);
        return true, table[p].data;
      }
      p := p + 1;
    }
    return false, data;
  }

  ghost predicate IsFirst(table: seq<Entry>, i: nat, name: seq<byte>)
    requires i < |table|
  {
    && table[i] != Sentinel && table[i].name == name
    && forall j :: 0 <= j < i ==> table[j] != Sentinel && table[j].name != name
  }
}
