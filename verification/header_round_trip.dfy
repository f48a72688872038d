/** Reading a generated header and looking files up in it. */
module HeaderRoundTrip {
  import opened BinaryPoly
  import opened CppLexer
  import opened HeaderFrame
  import opened HeaderLexing
  import opened HeaderReader
  import opened HeaderText
  import opened Results

  ghost predicate SafeNames(files: seq<File>) {
    forall i :: 0 <= i < |files| ==> LiteralSafe(files[i].name)
  }

  /** None of the first n files is empty. */
  ghost predicate NoneEmpty(files: seq<File>, n: nat)
    requires n <= |files|
  {
    forall i :: 0 <= i < n ==> files[i].contents != []
  }

  // ----- Data literals -----

  /** The printed contents are read as literals that concatenate to the contents, in front of anything. */
  lemma DataReadsBack(contents: seq<byte>, tail: string)
    requires contents != []
    ensures Lex(DataText(contents) + tail) == Prepend(LiteralTokens(Chunks(contents)), Lex(tail))
    ensures TakeLiterals(LiteralTokens(Chunks(contents))) == Adjacent(contents, [])
  {
    hide Lex, Literals, Unclosed;
    var chunks := Chunks(contents);
    UnclosedCloses(contents);
    LexLiterals(chunks);
    TakeAllLiterals(chunks, []);
    assert LiteralTokens(chunks) + [] == LiteralTokens(chunks);
    ChunksShape(contents);
  }

  lemma {:induction false} TakeAllLiterals(chunks: seq<seq<byte>>, rest: seq<Token>)
    requires rest == [] || !rest[0].Literal?
    ensures TakeLiterals(LiteralTokens(chunks) + rest) == Adjacent(Joined(chunks), rest)
  {
    var ts := LiteralTokens(chunks) + rest;
    if chunks == [] {
      assert ts == rest;
    } else {
      TakeAllLiterals(chunks[1..], rest);
      assert ts[1..] == LiteralTokens(chunks[1..]) + rest;
    }
  }

  /** Different contents give different texts. */
  lemma DataTextInjective(a: seq<byte>, b: seq<byte>)
    requires DataText(a) == DataText(b)
    ensures a == b
  {
    hide Lex, Chunks, DataText;
    DataTextLength(a);
    DataTextLength(b);
    if a != [] && b != [] {
      DataReadsBack(a, "");
      DataReadsBack(b, "");
      LexEnd();
      assert LiteralTokens(Chunks(a)) + [] == LiteralTokens(Chunks(a));
      assert LiteralTokens(Chunks(b)) + [] == LiteralTokens(Chunks(b));
    }
  }

  lemma LexEnd()
    ensures Lex("") == Some([])
  {
  }

  /** The initializer of a file is a run of literals exactly when the file is not empty. */
  lemma InitializerReadable(contents: seq<byte>, tail: string)
    requires Lex(tail).Some?
    ensures Lex(DataText(contents) + (DataEnd(|contents|) + tail)).Some? <==> contents != []
  {
    hide Lex, Decimal, LiteralTokens;
    var end := DataEnd(|contents|) + tail;
    if contents != [] {
      DataReadsBack(contents, end);
      LexDataEnd(|contents|);
    } else {
      LexOpenLiteral(",", "  " + Decimal(0) + ");\n\n" + tail);
      EmptyText(tail);
    }
  }

  lemma EmptyText(tail: string)
    ensures DataText([]) + (DataEnd(0) + tail) == "\"" + "," + "\n" + ("  " + Decimal(0) + ");\n\n" + tail)
  {
    hide Decimal;
    assert DataText([]) == "\"";
    assert ",\n  " == "," + "\n" + "  ";
  }

  // ----- Lexing all declarations and rows -----

  function DeclarationTokens(files: seq<File>, n: nat): seq<Token>
    requires n <= |files| && SafeNames(files)
  {
    if n == 0 then []
    else DeclarationTokens(files, n - 1) + (NameTokens(n, files[n - 1].name) + DataTokens(n, files[n - 1].contents))
  }

  function TableTokens(n: nat): seq<Token> {
    if n == 0 then [] else TableTokens(n - 1) + RowTokens(n)
  }

  lemma {:induction false} LexAllDeclarations(files: seq<File>, n: nat)
    requires n <= |files| && SafeNames(files) && NoneEmpty(files, n)
    ensures Lexes(AllDeclarations(files, n), DeclarationTokens(files, n))
  {
    hide Lexes, Declarations, NameTokens, DataTokens, LiteralSafe;
    if n == 0 {
      LexNothing();
    } else {
      LexAllDeclarations(files, n - 1);
      LexDeclarations(n, files[n - 1]);
      LexJoin(AllDeclarations(files, n - 1), DeclarationTokens(files, n - 1),
              Declarations(n, files[n - 1]), NameTokens(n, files[n - 1].name) + DataTokens(n, files[n - 1].contents));
    }
  }

  lemma {:induction false} LexRows(n: nat)
    ensures Lexes(Rows(n), TableTokens(n))
  {
    hide Lexes, Row, RowTokens;
    if n == 0 {
      LexNothing();
    } else {
      LexRows(n - 1);
      LexRow(n);
      LexJoin(Rows(n - 1), TableTokens(n - 1), Row(n), RowTokens(n));
    }
  }

  function BodyTokens(files: seq<File>): seq<Token>
    requires SafeNames(files)
  {
    DeclarationTokens(files, |files|) + (TABLE + (TableTokens(|files|) + LAST_ROW))
  }

  lemma LexBodyText(files: seq<File>)
    requires SafeNames(files) && NoneEmpty(files, |files|)
    ensures Lexes(HeaderText.Body(files), BodyTokens(files))
  {
    hide Lexes, AllDeclarations, DeclarationTokens, Rows, TableTokens, TABLE, TABLE_START, TABLE_END, LAST_ROW, SafeNames, NoneEmpty;
    var n := |files|;
    LexAllDeclarations(files, n);
    LexTableStart();
    LexRows(n);
    LexTableEnd();
    LexJoin(Rows(n), TableTokens(n), TABLE_END, LAST_ROW);
    LexJoin(TABLE_START, TABLE, Rows(n) + TABLE_END, TableTokens(n) + LAST_ROW);
    LexJoin(AllDeclarations(files, n), DeclarationTokens(files, n),
            TABLE_START + (Rows(n) + TABLE_END), TABLE + (TableTokens(n) + LAST_ROW));
    assert AllDeclarations(files, n) + (TABLE_START + (Rows(n) + TABLE_END)) == HeaderText.Body(files);
  }

  // ----- Parsing declarations -----

  lemma DecimalInjective(i: nat, j: nat)
    requires Decimal(i) == Decimal(j)
    ensures i == j
  {
    hide Decimal, DecimalValue;
    DecimalReadsBack(i);
    DecimalReadsBack(j);
  }

  /** The variables of different files, and the two of one file, have different names. */
  lemma IdsDistinct(i: nat, j: nat)
    ensures NameId(i) == NameId(j) ==> i == j
    ensures DataId(i) == DataId(j) ==> i == j
    ensures NameId(i) != DataId(j)
  {
    hide Decimal, NAME_ID, DATA_ID;
    IdStartsDiffer();
    if NameId(i) == NameId(j) {
      assert NameId(i)[|NAME_ID|..] == Decimal(i) && NameId(j)[|NAME_ID|..] == Decimal(j);
      DecimalInjective(i, j);
    }
    if DataId(i) == DataId(j) {
      assert DataId(i)[|DATA_ID|..] == Decimal(i) && DataId(j)[|DATA_ID|..] == Decimal(j);
      DecimalInjective(i, j);
    }
    assert NameId(i)[17] == NAME_ID[17] && DataId(j)[17] == DATA_ID[17];
  }

  lemma IdStartsDiffer()
    ensures |NAME_ID| == |DATA_ID| == 22 && NAME_ID[17] != DATA_ID[17]
  {
  }

  lemma {:induction false} NoNul(bytes: seq<byte>)
    requires forall i :: 0 <= i < |bytes| ==> bytes[i] != 0
    ensures UpToNul(bytes) == bytes
  {
    if bytes != [] {
      NoNul(bytes[1..]);
    }
  }

  lemma ParseName(name: string, rest: seq<Token>)
    requires LiteralSafe(name)
    ensures ParseInitializer(NameInitializer(name) + rest) == Some(Initializer(NameBytes(name), rest))
  {
    var ts := NameInitializer(name) + rest;
    NoNul(NameBytes(name));
    assert ts[1..] == [Punct(';')] + rest && ts[1..][1..] == rest;
    assert TakeLiterals(ts[1..]) == Adjacent([], ts[1..]);
    assert TakeLiterals(ts) == Adjacent(NameBytes(name) + [], ts[1..]);
    assert NameBytes(name) + [] == NameBytes(name);
  }

  /** The count makes the string as long as the contents, whatever bytes they have. */
  lemma ParseData(contents: seq<byte>, rest: seq<Token>)
    requires contents != []
    ensures ParseInitializer(DataInitializer(contents) + rest) == Some(Initializer(contents, rest))
  {
    hide Chunks, Joined, TakeLiterals;
    var chunks, n := Chunks(contents), |contents|;
    var ts := DataInitializer(contents) + rest;
    ChunksShape(contents);
    var after := CountTokens(n) + rest;
    assert ts[..4] == STRING_OF && ts[4..] == LiteralTokens(chunks) + after;
    assert ts[4] == Literal(chunks[0]);
    assert after[0] == Punct(',');
    TakeAllLiterals(chunks, after);
    assert after[4..] == rest;
    assert (contents + [0])[..n] == contents;
  }

  lemma ParseDeclaration(id: string, init: seq<Token>, value: seq<byte>, rest: seq<Token>, vars: Variables)
    requires ParseInitializer(init + rest) == Some(Initializer(value, rest))
    requires id !in vars
    ensures ParseUnit(DECLARE + [Word(id), Punct('=')] + init + rest, vars) == ParseUnit(rest, vars[id := value])
  {
    hide ParseInitializer;
    var ts := DECLARE + [Word(id), Punct('=')] + init + rest;
    assert ts[..5] == DECLARE && ts[5] == Word(id) && ts[6] == Punct('=') && ts[7..] == init + rest;
    assert ts[2] == Word("std") && TABLE[2] == Word("struct");
    assert Word("std") != Word("struct");
    assert !(TABLE <= ts);
  }

  /** The variables that the first n files declare. */
  ghost function Declared(files: seq<File>, n: nat): Variables
    requires n <= |files| && SafeNames(files)
  {
    if n == 0 then map[]
    else Declared(files, n - 1)[NameId(n) := NameBytes(files[n - 1].name)][DataId(n) := files[n - 1].contents]
  }

  lemma {:induction false} DeclaredMeans(files: seq<File>, n: nat, i: nat)
    requires n <= |files| && SafeNames(files) && 0 < i
    ensures NameId(i) in Declared(files, n) <==> i <= n
    ensures DataId(i) in Declared(files, n) <==> i <= n
    ensures i <= n ==> Declared(files, n)[NameId(i)] == NameBytes(files[i - 1].name)
    ensures i <= n ==> Declared(files, n)[DataId(i)] == files[i - 1].contents
  {
    hide NameId, DataId, LiteralSafe;
    if n > 0 {
      DeclaredMeans(files, n - 1, i);
      IdsDistinct(i, n);
      IdsDistinct(n, i);
    }
  }

  lemma ParseFile(files: seq<File>, n: nat, rest: seq<Token>)
    requires 0 < n <= |files| && SafeNames(files) && files[n - 1].contents != []
    ensures ParseUnit(NameTokens(n, files[n - 1].name) + DataTokens(n, files[n - 1].contents) + rest, Declared(files, n - 1))
         == ParseUnit(rest, Declared(files, n))
  {
    hide ParseUnit, ParseInitializer, NameId, DataId, LiteralSafe, NameInitializer, DataInitializer, DECLARE;
    var name, contents := files[n - 1].name, files[n - 1].contents;
    var before := Declared(files, n - 1);
    DeclaredMeans(files, n - 1, n);
    IdsDistinct(n, n);
    var data := DataTokens(n, contents) + rest;
    ParseName(name, data);
    ParseDeclaration(NameId(n), NameInitializer(name), NameBytes(name), data, before);
    assert NameTokens(n, name) + DataTokens(n, contents) + rest == NameTokens(n, name) + data;
    ParseData(contents, rest);
    ParseDeclaration(DataId(n), DataInitializer(contents), contents, rest, before[NameId(n) := NameBytes(name)]);
  }

  lemma {:induction false} ParseFiles(files: seq<File>, n: nat, rest: seq<Token>)
    requires n <= |files| && SafeNames(files) && NoneEmpty(files, n)
    ensures ParseUnit(DeclarationTokens(files, n) + rest, map[]) == ParseUnit(rest, Declared(files, n))
  {
    hide ParseUnit, NameTokens, DataTokens, LiteralSafe;
    if n == 0 {
      assert DeclarationTokens(files, n) + rest == rest;
    } else {
      var last := NameTokens(n, files[n - 1].name) + DataTokens(n, files[n - 1].contents);
      assert DeclarationTokens(files, n) + rest == DeclarationTokens(files, n - 1) + (last + rest);
      ParseFiles(files, n - 1, last + rest);
      ParseFile(files, n, rest);
    }
  }

  // ----- Parsing the table -----

  /** The rows of the table: the files in their order. */
  ghost function Entries(files: seq<File>, n: nat): (es: seq<Entry>)
    requires n <= |files| && SafeNames(files)
    ensures |es| == n
    ensures forall i :: 0 <= i < n ==> es[i] == Entry(NameBytes(files[i].name), files[i].contents)
  {
    if n == 0 then [] else Entries(files, n - 1) + [Entry(NameBytes(files[n - 1].name), files[n - 1].contents)]
  }

  ghost function PrependEntries(es: seq<Entry>, o: Option<seq<Entry>>): Option<seq<Entry>> {
    match o
    case None => None
    case Some(more) => Some(es + more)
  }

  lemma ParseRow(files: seq<File>, i: nat, rest: seq<Token>)
    requires 0 < i <= |files| && SafeNames(files)
    ensures ParseRows(RowTokens(i) + rest, Declared(files, |files|))
         == PrependEntry(Entry(NameBytes(files[i - 1].name), files[i - 1].contents), ParseRows(rest, Declared(files, |files|)))
  {
    hide NameId, DataId, LiteralSafe, Declared;
    var ts := RowTokens(i) + rest;
    DeclaredMeans(files, |files|, i);
    assert ts[8..] == rest;
    assert ts[1] == Punct('&') && LAST_ROW[1] == Word("NULL");
    assert IsRow(ts);
  }

  lemma {:induction false} ParseTable(files: seq<File>, n: nat, rest: seq<Token>)
    requires n <= |files| && SafeNames(files)
    ensures ParseRows(TableTokens(n) + rest, Declared(files, |files|))
         == PrependEntries(Entries(files, n), ParseRows(rest, Declared(files, |files|)))
  {
    hide ParseRows, RowTokens, LiteralSafe, Declared;
    var vars := Declared(files, |files|);
    var o := ParseRows(rest, vars);
    if n == 0 {
      assert TableTokens(n) + rest == rest;
      assert o.Some? ==> [] + o.value == o.value;
    } else {
      assert TableTokens(n) + rest == TableTokens(n - 1) + (RowTokens(n) + rest);
      ParseTable(files, n - 1, RowTokens(n) + rest);
      ParseRow(files, n, rest);
      var e := Entry(NameBytes(files[n - 1].name), files[n - 1].contents);
      assert o.Some? ==> Entries(files, n - 1) + ([e] + o.value) == Entries(files, n) + o.value;
    }
  }

  ghost function Table(files: seq<File>): seq<Entry>
    requires SafeNames(files)
  {
    Entries(files, |files|) + [Sentinel]
  }

  lemma ParseBodyTokens(files: seq<File>)
    requires SafeNames(files) && NoneEmpty(files, |files|)
    ensures ParseUnit(BodyTokens(files), map[]) == Some(Table(files))
  {
    hide ParseRows, DeclarationTokens, TableTokens, TABLE, LAST_ROW, SafeNames, NoneEmpty, Declared;
    var n := |files|;
    var rows := TableTokens(n) + LAST_ROW;
    ParseFiles(files, n, TABLE + rows);
    assert (TABLE + rows)[..|TABLE|] == TABLE && (TABLE + rows)[|TABLE|..] == rows;
    ParseTable(files, n, LAST_ROW);
    ParseLastRow(Declared(files, n));
  }

  lemma ParseLastRow(vars: Variables)
    ensures ParseRows(LAST_ROW, vars) == Some([Sentinel])
  {
  }

  // ----- The whole header -----

  lemma LexPreamble()
    ensures Lexes(PREAMBLE, GUARD)
  {
    hide Lexes, PREAMBLE;
    LexDirective("#ifndef TRANSLATION_FILES_H");
    LexDirective("#define TRANSLATION_FILES_H");
    LexDirective("#include <string>");
    LexBlank('\n');
    var a, b, c := "#ifndef TRANSLATION_FILES_H", "#define TRANSLATION_FILES_H", "#include <string>";
    LexJoin(b + "\n", [Directive(b)], "\n", []);
    LexJoin(c + "\n", [Directive(c)], "\n", []);
    LexJoin(a + "\n", [Directive(a)], b + "\n" + "\n", [Directive(b)] + []);
    LexJoin(a + "\n" + (b + "\n" + "\n"), [Directive(a)] + ([Directive(b)] + []), c + "\n" + "\n", [Directive(c)] + []);
    PreambleText();
    assert [Directive(a)] + ([Directive(b)] + []) + ([Directive(c)] + []) == GUARD;
  }

  lemma PreambleText()
    ensures "#ifndef TRANSLATION_FILES_H" + "\n" + ("#define TRANSLATION_FILES_H" + "\n" + "\n") + ("#include <string>" + "\n" + "\n") == PREAMBLE
  {
    assert "#ifndef TRANSLATION_FILES_H" + "\n" == "#ifndef TRANSLATION_FILES_H\n";
    assert "#define TRANSLATION_FILES_H" + "\n" + "\n" == "#define TRANSLATION_FILES_H\n\n";
    assert "#include <string>" + "\n" + "\n" == "#include <string>\n\n";
  }

  lemma LexEnding()
    ensures Lexes(CODE + GUARD_END, ENDING)
  {
    hide Lexes, LOOKUP, FIND;
    LexLookup();
    LexBlank('\n');
    LexJoin(LOOKUP, FIND, "\n", []);
    LexDirective("#endif /* TRANSLATION_FILES_H */");
    assert "#endif /* TRANSLATION_FILES_H */" + "\n" == GUARD_END;
    LexJoin(CODE, FIND + [], GUARD_END, [Directive("#endif /* TRANSLATION_FILES_H */")]);
    assert FIND + [] == FIND;
  }

  /** The header is read as the include guard, the tokens of the body and the lookup function. */
  lemma HeaderTokens(files: seq<File>)
    requires SafeNames(files) && NoneEmpty(files, |files|)
    ensures Lex(Header(files)) == Some(GUARD + BodyTokens(files) + ENDING)
  {
    hide Lex, BodyTokens, HeaderText.Body, PREAMBLE, CODE, GUARD_END, GUARD, ENDING, SafeNames, NoneEmpty;
    LexPreamble();
    LexBodyText(files);
    LexEnding();
    LexJoin(PREAMBLE, GUARD, HeaderText.Body(files), BodyTokens(files));
    LexJoin(PREAMBLE + HeaderText.Body(files), GUARD + BodyTokens(files), CODE + GUARD_END, ENDING);
    LexEnd();
    var ts := GUARD + BodyTokens(files) + ENDING;
    assert Header(files) + "" == Header(files) && ts + [] == ts;
  }

  lemma ReadTokens(text: string, ts: seq<Token>)
    requires Lex(text) == Some(GUARD + ts + ENDING)
    ensures ReadHeader(text) == ParseUnit(ts, map[])
  {
    hide Lex, ParseUnit, GUARD, ENDING;
    var all := GUARD + ts + ENDING;
    assert all[..|GUARD|] == GUARD && all[|all| - |ENDING|..] == ENDING && all[|GUARD|..|all| - |ENDING|] == ts;
  }

  /** The first empty file makes the header unreadable. */
  lemma LexEmptyAt(files: seq<File>, k: nat)
    requires SafeNames(files) && k < |files| && files[k].contents == [] && NoneEmpty(files, k)
    ensures Lex(Header(files)) == None
  {
    hide Lex, AllDeclarations, Declarations, DeclarationTokens, AfterDeclarations, Rows, TABLE_START, TABLE_END, LiteralSafe, PREAMBLE,
         GUARD, CODE, GUARD_END, HeaderText.Body;
    var after := AfterDeclarations(files, k + 1) + TABLE_START + Rows(|files|) + TABLE_END;
    var tail := after + (CODE + GUARD_END);
    LexPreamble();
    LexAllDeclarations(files, k);
    LexJoin(PREAMBLE, GUARD, AllDeclarations(files, k), DeclarationTokens(files, k));
    LexEmptyFile(k + 1, files[k], tail);
    HeaderSplit(files, k);
  }

  lemma HeaderSplit(files: seq<File>, k: nat)
    requires k < |files|
    ensures var after := AfterDeclarations(files, k + 1) + TABLE_START + Rows(|files|) + TABLE_END;
            Header(files) == PREAMBLE + AllDeclarations(files, k) + (Declarations(k + 1, files[k]) + (after + (CODE + GUARD_END)))
  {
    hide AllDeclarations, Declarations, AfterDeclarations, Rows, TABLE_START, TABLE_END, PREAMBLE, CODE, GUARD_END, HeaderText.Body;
    BodySplit(files, k);
  }

  lemma BodySplit(files: seq<File>, k: nat)
    requires k < |files|
    ensures HeaderText.Body(files)
         == AllDeclarations(files, k)
            + (Declarations(k + 1, files[k]) + (AfterDeclarations(files, k + 1) + TABLE_START + Rows(|files|) + TABLE_END))
  {
    hide AllDeclarations, Declarations, AfterDeclarations, Rows, TABLE_START, TABLE_END;
    DeclarationsSplit(files, k + 1);
    DeclarationsNext(files, k + 1);
  }

  function AfterDeclarations(files: seq<File>, n: nat): string
    requires n <= |files|
    decreases |files| - n
  {
    if n == |files| then "" else Declarations(n + 1, files[n]) + AfterDeclarations(files, n + 1)
  }

  lemma DeclarationsNext(files: seq<File>, n: nat)
    requires 0 < n <= |files|
    ensures AllDeclarations(files, n) == AllDeclarations(files, n - 1) + Declarations(n, files[n - 1])
  {
  }

  lemma {:induction false} DeclarationsSplit(files: seq<File>, n: nat)
    requires n <= |files|
    ensures AllDeclarations(files, |files|) == AllDeclarations(files, n) + AfterDeclarations(files, n)
    decreases |files| - n
  {
    hide Declarations;
    if n < |files| {
      DeclarationsSplit(files, n + 1);
    }
  }

  /**
   * A generated header whose names are safe in a literal can be read exactly when no file is empty,
   * and then it defines the table of the files.
   */
  lemma HeaderReadsBack(files: seq<File>)
    requires SafeNames(files)
    ensures ReadHeader(Header(files)) == if NoneEmpty(files, |files|) then Some(Table(files)) else None
  {
    hide ReadHeader, Header, Lex, ParseUnit, SafeNames, BodyTokens, GUARD, ENDING;
    if NoneEmpty(files, |files|) {
      HeaderTokens(files);
      ReadTokens(Header(files), BodyTokens(files));
      ParseBodyTokens(files);
    } else {
      var k := FirstEmpty(files);
      LexEmptyAt(files, k);
      ReadNothing(Header(files));
    }
  }

  lemma ReadNothing(text: string)
    requires Lex(text) == None
    ensures ReadHeader(text) == None
  {
  }

  lemma FirstEmpty(files: seq<File>) returns (k: nat)
    requires !NoneEmpty(files, |files|)
    ensures k < |files| && files[k].contents == [] && NoneEmpty(files, k)
  {
    k := 0;
    while files[k].contents != []
      invariant k < |files| && NoneEmpty(files, k)
      decreases |files| - k
    {
      k := k + 1;
    }
  }

  /** A header with an empty file is an example of one that does not compile. */
  lemma EmptyFileExample()
    ensures ReadHeader(Header([File("wazn_fr.qm", [])])) == None
  {
    hide ReadHeader, Header;
    var files := [File("wazn_fr.qm", [])];
    ExampleName();
    assert files[0].contents == [];
    HeaderReadsBack(files);
  }

  lemma ExampleName()
    ensures LiteralSafe("wazn_fr.qm")
  {
  }

  // ----- Looking files up -----

  ghost predicate FirstFile(files: seq<File>, i: nat, name: seq<byte>)
    requires i < |files| && SafeNames(files)
  {
    NameBytes(files[i].name) == name && forall j :: 0 <= j < i ==> NameBytes(files[j].name) != name
  }

  /**
   * The promise of the generator: writing the header of the files, compiling it and calling the
   * lookup function gives back the contents of the first file with the name, and fails when there is none.
   */
  method EmbedAndFind(files: seq<File>, name: seq<byte>, data: seq<byte>) returns (found: bool, result: seq<byte>)
    requires SafeNames(files) && NoneEmpty(files, |files|)
    ensures found <==> exists i :: 0 <= i < |files| && NameBytes(files[i].name) == name
    ensures found ==> exists i :: 0 <= i < |files| && FirstFile(files, i, name) && result == files[i].contents
    ensures !found ==> result == data
  {
    hide ReadHeader, Header, LiteralSafe;
    var text := Generate(files);
    HeaderReadsBack(files);
    var table := ReadHeader(text).value;
    found, result := FindEmbeddedFile(table, name, data);
    assert forall i :: 0 <= i < |files| ==> table[i] == Entry(NameBytes(files[i].name), files[i].contents);
    if found {
      ghost var i :| 0 <= i < |table| - 1 && IsFirst(table, i, name) && result == table[i].data;
      assert FirstFile(files, i, name);
    }
  }
}
