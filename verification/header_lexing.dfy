/** The tokens of the generated text. */
module HeaderLexing {
  import opened BinaryPoly
  import opened CppLexer
  import opened CppPieces
  import opened HeaderReader
  import opened HeaderText
  import opened Results
  import opened Segment

  // ----- Numbers -----

  /** A printed number is read as itself. */
  lemma {:induction false} DecimalReadsBack(n: nat)
    ensures IsDecimal(Decimal(n)) && DecimalValue(Decimal(n)) == n
    ensures n > 0 ==> Decimal(n)[0] != '0'
  {
    if n >= 10 {
      DecimalReadsBack(n / 10);
      var s := Decimal(n);
      assert s[..|s| - 1] == Decimal(n / 10) && s[0] == Decimal(n / 10)[0];
    } else {
      assert [DigitChar(n)][..0] == "";
    }
  }

  lemma HexReadsBack(b: byte)
    ensures IsHexDigit(DigitChar(b / 16)) && IsHexDigit(DigitChar(b % 16))
    ensures HexValue([DigitChar(b / 16), DigitChar(b % 16)]) == b
  {
    var h, l := DigitChar(b / 16), DigitChar(b % 16);
    assert HexDigitValue(h) == b / 16 && HexDigitValue(l) == b % 16;
    assert [h][..0] == "";
    assert HexValue([h]) == b / 16;
    assert [h, l][..1] == [h];
  }

  // ----- Literals -----

  /** An escape takes its own two digits and nothing of what follows, be it another escape or a quote. */
  lemma EscapeIsOneByte(b: byte, rest: string)
    requires rest == "" || !IsHexDigit(rest[0])
    ensures LexChar(Escape(b) + rest) == Some(CppLexer.Body([b], rest))
  {
    hide HexValue;
    var digits := [DigitChar(b / 16), DigitChar(b % 16)];
    var s := Escape(b) + rest;
    HexReadsBack(b);
    assert s[2..] == digits + rest;
    RunEnds(digits, rest, IsHexDigit);
    assert s[2..][..2] == digits && s[2..][2..] == rest;
  }

  lemma {:induction false} EscapesFirst(bytes: seq<byte>)
    requires bytes != []
    ensures Escapes(bytes) == Escape(bytes[0]) + Escapes(bytes[1..])
  {
    hide Escape;
    var n := |bytes|;
    if n == 1 {
      assert bytes[..0] == [] && bytes[1..] == [];
      EscapesNone();
    } else {
      EscapesFirst(bytes[..n - 1]);
      assert bytes[..n - 1][1..] == bytes[1..][..n - 2];
    }
  }

  lemma EscapesStart(bytes: seq<byte>, tail: string)
    ensures !IsHexDigit((Escapes(bytes) + "\"" + tail)[0])
  {
    if bytes != [] {
      EscapesFirst(bytes);
    }
  }

  /** The escapes of any bytes, NUL among them, are read as these bytes. */
  lemma {:induction false} EscapesReadBack(bytes: seq<byte>, tail: string)
    ensures LexBody(Escapes(bytes) + "\"" + tail) == Some(CppLexer.Body(bytes, tail))
  {
    hide LexChar, IsHexDigit, Escapes;
    if bytes == [] {
      EscapesNone();
      assert Escapes(bytes) + "\"" + tail == "\"" + tail;
      assert ("\"" + tail)[1..] == tail;
    } else {
      var rest := Escapes(bytes[1..]) + "\"" + tail;
      EscapesFirst(bytes);
      assert Escapes(bytes) + "\"" + tail == Escape(bytes[0]) + rest;
      EscapesStart(bytes[1..], tail);
      EscapeIsOneByte(bytes[0], rest);
      EscapesReadBack(bytes[1..], tail);
      assert [bytes[0]] + bytes[1..] == bytes;
    }
  }

  /** A name that stands for itself in a string literal. */
  predicate LiteralSafe(name: string) {
    IsCString(name) && forall i :: 0 <= i < |name| ==> name[i] !in ['"', '\\', '\n', '\r']
  }

  function NameBytes(name: string): (b: seq<byte>)
    requires LiteralSafe(name)
    ensures |b| == |name| && forall i :: 0 <= i < |name| ==> b[i] == name[i] as int
  {
    seq(|name|, i requires 0 <= i < |name| => name[i] as int)
  }

  lemma {:induction false} NameReadsBack(name: string, tail: string)
    requires LiteralSafe(name)
    ensures LexBody(name + "\"" + tail) == Some(CppLexer.Body(NameBytes(name), tail))
  {
    var s := name + "\"" + tail;
    if name == "" {
      assert s[1..] == tail;
    } else {
      NameReadsBack(name[1..], tail);
      assert s[1..] == name[1..] + "\"" + tail;
      assert s[0] == name[0];
      assert [name[0] as int] + NameBytes(name[1..]) == NameBytes(name);
    }
  }

  // ----- Tokens of the lines -----

  function NameTokens(i: nat, name: string): seq<Token>
    requires LiteralSafe(name)
  {
    DECLARE + [Word(NameId(i)), Punct('=')] + NameInitializer(name)
  }

  function NameInitializer(name: string): seq<Token>
    requires LiteralSafe(name)
  {
    [Literal(NameBytes(name)), Punct(';')]
  }

  function LiteralTokens(chunks: seq<seq<byte>>): (ts: seq<Token>)
    ensures |ts| == |chunks| && forall k :: 0 <= k < |ts| ==> ts[k] == Literal(chunks[k])
  {
    seq(|chunks|, k requires 0 <= k < |chunks| => Literal(chunks[k]))
  }

  function DataTokens(i: nat, contents: seq<byte>): seq<Token> {
    DECLARE + [Word(DataId(i)), Punct('=')] + DataInitializer(contents)
  }

  function CountTokens(n: nat): seq<Token> {
    [Punct(','), Number(n), Punct(')'), Punct(';')]
  }

  function DataInitializer(contents: seq<byte>): seq<Token> {
    STRING_OF + LiteralTokens(Chunks(contents)) + CountTokens(|contents|)
  }

  function RowTokens(i: nat): seq<Token> {
    [Punct('{'), Punct('&'), Word(NameId(i)), Punct(','), Punct('&'), Word(DataId(i)), Punct('}'), Punct(',')]
  }

  // ----- Lexing the lines -----

  lemma LexSpaced(w: string, b: string, ts: seq<Token>)
    requires IsWord(w) && Lexes(b, ts)
    ensures Lexes(w + " " + b, [Word(w)] + ts)
  {
    hide Lexes;
    LexBlank(' ');
    LexJoin(" ", [], b, ts);
    assert [] + ts == ts;
    LexWordThen(w, " " + b, ts);
    assert w + (" " + b) == w + " " + b;
  }

  /** A mark followed by blanks. */
  lemma LexMark(c: char, blanks: string)
    requires IsPunct(c) && AllBlank(blanks) && (StartsOperator(c) ==> blanks != "")
    ensures Lexes([c] + blanks, [Punct(c)])
  {
    hide Lexes;
    LexNothing();
    LexBlanks(blanks, "", []);
    assert blanks + "" == blanks;
    if blanks == "" {
      LexPunct(c);
      assert [c] + blanks == [c];
    } else {
      LexPunctThen(c, blanks, []);
      assert [Punct(c)] + [] == [Punct(c)];
    }
  }

  /** `std::string` and what follows it. */
  lemma LexStdString(b: string, ts: seq<Token>)
    requires b != "" && !IsWordChar(b[0]) && Lexes(b, ts)
    ensures Lexes("std::string" + b, [Word("std"), SCOPE, Word("string")] + ts)
  {
    hide Lexes;
    LexWordThen("string", b, ts);
    LexOperator(':', ':');
    LexJoin("::", [SCOPE], "string" + b, [Word("string")] + ts);
    LexWordThen("std", "::" + ("string" + b), [SCOPE] + ([Word("string")] + ts));
    assert "std" + ("::" + ("string" + b)) == "std::string" + b;
    assert [Word("std")] + ([SCOPE] + ([Word("string")] + ts)) == [Word("std"), SCOPE, Word("string")] + ts;
  }

  lemma Words()
    ensures IsWord("static") && IsWord("const") && IsWord("struct") && IsWord("name") && IsWord("data") && IsWord("NULL")
  {
  }

  lemma DeclarationText()
    ensures "static" + " " + ("const" + " " + ("std::string" + " ")) == DECLARATION
  {
  }

  lemma LexDeclaration()
    ensures Lexes(DECLARATION, DECLARE)
  {
    hide Lexes, IsWord, DECLARATION;
    Words();
    DeclarationText();
    LexBlank(' ');
    LexStdString(" ", []);
    var std := [Word("std"), SCOPE, Word("string")] + [];
    LexSpaced("const", "std::string" + " ", std);
    LexSpaced("static", "const" + " " + ("std::string" + " "), [Word("const")] + std);
    assert [Word("static")] + ([Word("const")] + std) == DECLARE;
  }

  lemma IdsAreWords(i: nat)
    ensures IsWord(NameId(i)) && IsWord(DataId(i))
  {
    hide Decimal, DecimalValue;
    DecimalReadsBack(i);
    IdStarts();
  }

  lemma IdStarts()
    ensures IsWord(NAME_ID) && IsWord(DATA_ID)
  {
  }

  lemma LexAssign(id: string, b: string, ts: seq<Token>)
    requires IsWord(id) && Lexes(b, ts)
    ensures Lexes(DECLARATION + id + " = " + b, DECLARE + [Word(id), Punct('=')] + ts)
  {
    hide Lexes, IsWord, DECLARATION, DECLARE;
    LexMark('=', " ");
    LexJoin(['='] + " ", [Punct('=')], b, ts);
    LexSpaced(id, ['='] + " " + b, [Punct('=')] + ts);
    LexDeclaration();
    LexJoin(DECLARATION, DECLARE, id + " " + (['='] + " " + b), [Word(id)] + ([Punct('=')] + ts));
    assert " " + (['='] + " ") == " = ";
    assert DECLARATION + (id + " " + (['='] + " " + b)) == DECLARATION + id + (" " + (['='] + " ")) + b;
    assert DECLARE + ([Word(id)] + ([Punct('=')] + ts)) == DECLARE + [Word(id), Punct('=')] + ts;
  }

  lemma LexNameLine(i: nat, name: string)
    requires LiteralSafe(name)
    ensures Lexes(NameLine(i, name), NameTokens(i, name))
  {
    hide Lexes, IsWord, DECLARATION, DECLARE, NameId, LiteralSafe;
    forall tail: string
      ensures LexBody(name + "\"" + tail) == Some(CppLexer.Body(NameBytes(name), tail))
    {
      NameReadsBack(name, tail);
    }
    LexLiteral(name, NameBytes(name));
    LexMark(';', "\n");
    LexJoin("\"" + name + "\"", [Literal(NameBytes(name))], [';'] + "\n", [Punct(';')]);
    IdsAreWords(i);
    var b := "\"" + name + "\"" + ([';'] + "\n");
    LexAssign(NameId(i), b, [Literal(NameBytes(name))] + [Punct(';')]);
    NameLineText(i, name, b);
    assert [Literal(NameBytes(name))] + [Punct(';')] == NameInitializer(name);
  }

  lemma NameLineText(i: nat, name: string, b: string)
    requires b == "\"" + name + "\"" + ([';'] + "\n")
    ensures NameLine(i, name) == DECLARATION + NameId(i) + " = " + b
  {
    hide DECLARATION, NameId;
    assert " = \"" == " = " + "\"";
    assert "\";\n" == "\"" + ([';'] + "\n");
  }

  lemma LexDataStart(i: nat)
    ensures Lexes(DataStart(i), DECLARE + [Word(DataId(i)), Punct('=')] + STRING_OF)
  {
    hide Lexes, IsWord, DECLARATION, DECLARE, DataId;
    LexPunct('(');
    LexStdString("(", [Punct('(')]);
    IdsAreWords(i);
    LexAssign(DataId(i), "std::string" + "(", [Word("std"), SCOPE, Word("string")] + [Punct('(')]);
    assert [Word("std"), SCOPE, Word("string")] + [Punct('(')] == STRING_OF;
    assert DECLARATION + DataId(i) + " = " + ("std::string" + "(") == DECLARATION + DataId(i) + (" = " + "std::string(");
    assert " = " + "std::string(" == " = std::string(";
  }

  lemma LexOpening(b: string, ts: seq<Token>)
    requires Lexes("\"" + b, ts)
    ensures Lexes(OPENING + b, ts)
  {
    hide Lexes;
    LexBlank('\n');
    LexBlank(' ');
    LexJoin([' '], [], "\"" + b, ts);
    LexJoin([' '], [], [' '] + ("\"" + b), [] + ts);
    LexJoin(['\n'], [], [' '] + ([' '] + ("\"" + b)), [] + ([] + ts));
    assert ['\n'] + ([' '] + ([' '] + ("\"" + b))) == OPENING + b;
    assert [] + ([] + ([] + ts)) == ts;
  }

  /** The literals of the chunks are read one by one. */
  lemma {:induction false} LexLiterals(chunks: seq<seq<byte>>)
    ensures Lexes(Literals(chunks), LiteralTokens(chunks))
  {
    hide Lexes, OPENING;
    if chunks == [] {
      LexNothing();
    } else {
      var first := Escapes(chunks[0]);
      forall tail: string
        ensures LexBody(first + "\"" + tail) == Some(CppLexer.Body(chunks[0], tail))
      {
        EscapesReadBack(chunks[0], tail);
      }
      LexLiteral(first, chunks[0]);
      assert "\"" + (first + "\"") == "\"" + first + "\"";
      LexOpening(first + "\"", [Literal(chunks[0])]);
      LexLiterals(chunks[1..]);
      LexJoin(OPENING + (first + "\""), [Literal(chunks[0])], Literals(chunks[1..]), LiteralTokens(chunks[1..]));
      assert OPENING + (first + "\"") + Literals(chunks[1..]) == Literals(chunks);
      assert [Literal(chunks[0])] + LiteralTokens(chunks[1..]) == LiteralTokens(chunks);
    }
  }

  lemma LexDataEnd(n: nat)
    ensures Lexes(DataEnd(n), CountTokens(n))
  {
    hide Lexes, Decimal, DecimalValue;
    LexMark(';', "\n\n");
    LexPunct(')');
    LexJoin(")", [Punct(')')], [';'] + "\n\n", [Punct(';')]);
    DecimalReadsBack(n);
    LexNumberThen(Decimal(n), ")" + ([';'] + "\n\n"), [Punct(')')] + [Punct(';')]);
    LexMark(',', "\n  ");
    LexJoin([','] + "\n  ", [Punct(',')], Decimal(n) + (")" + ([';'] + "\n\n")), [Number(n)] + ([Punct(')')] + [Punct(';')]));
    assert [','] + "\n  " == ",\n  " && ")" + ([';'] + "\n\n") == ");\n\n";
    assert ",\n  " + (Decimal(n) + ");\n\n") == DataEnd(n);
    assert [Punct(',')] + ([Number(n)] + ([Punct(')')] + [Punct(';')])) == CountTokens(n);
  }

  /** The declarations of a file that is not empty. */
  lemma LexDeclarations(i: nat, file: File)
    requires LiteralSafe(file.name) && file.contents != []
    ensures Lexes(Declarations(i, file), NameTokens(i, file.name) + DataTokens(i, file.contents))
  {
    hide Lexes, DECLARE, NameLine, DataStart, DataEnd, Unclosed, Literals, NameTokens, CountTokens, STRING_OF, LiteralSafe;
    var n := |file.contents|;
    var chunks := Chunks(file.contents);
    LexNameLine(i, file.name);
    LexDataStart(i);
    LexLiterals(chunks);
    LexDataEnd(n);
    UnclosedCloses(file.contents);
    var start := DECLARE + [Word(DataId(i)), Punct('=')] + STRING_OF;
    LexJoin(DataStart(i), start, Literals(chunks), LiteralTokens(chunks));
    LexJoin(DataStart(i) + Literals(chunks), start + LiteralTokens(chunks), DataEnd(n), CountTokens(n));
    assert start + LiteralTokens(chunks) + CountTokens(n) == DataTokens(i, file.contents);
    LexJoin(NameLine(i, file.name), NameTokens(i, file.name),
            DataStart(i) + Literals(chunks) + DataEnd(n), DataTokens(i, file.contents));
  }

  /** The declarations of an empty file are no sequence of tokens: a quote opens a literal that its line ends. */
  lemma LexEmptyFile(i: nat, file: File, tail: string)
    requires LiteralSafe(file.name) && file.contents == []
    ensures Lex(Declarations(i, file) + tail) == None
  {
    hide Lex, DECLARE, NameLine, DataStart, NameTokens, STRING_OF, LiteralSafe, Decimal;
    LexNameLine(i, file.name);
    LexDataStart(i);
    var start := DECLARE + [Word(DataId(i)), Punct('=')] + STRING_OF;
    LexJoin(NameLine(i, file.name), NameTokens(i, file.name), DataStart(i), start);
    var rest := "  " + Decimal(0) + ");\n\n" + tail;
    LexOpenLiteral(",", rest);
    EmptyFileText(i, file, tail);
  }

  lemma EmptyFileText(i: nat, file: File, tail: string)
    requires file.contents == []
    ensures Declarations(i, file) + tail
         == NameLine(i, file.name) + DataStart(i) + ("\"" + "," + "\n" + ("  " + Decimal(0) + ");\n\n" + tail))
  {
    hide NameLine, DataStart, Decimal;
    assert DataText([]) == "\"";
    assert ",\n  " == "," + "\n" + "  ";
  }

  // ----- Lexing the table -----

  lemma LexMember(w: string)
    requires IsWord(w)
    ensures Lexes("const" + " " + ("std::string" + (" " + ("*" + (w + ";\n")))), MEMBER + [Word(w), Punct(';')])
  {
    hide Lexes, IsWord;
    Words();
    LexMark(';', "\n");
    assert [';'] + "\n" == ";\n";
    LexWordThen(w, ";\n", [Punct(';')]);
    LexPunct('*');
    LexJoin("*", [Punct('*')], w + ";\n", [Word(w)] + [Punct(';')]);
    LexBlank(' ');
    var b := "*" + (w + ";\n");
    var ts := [Punct('*')] + ([Word(w)] + [Punct(';')]);
    LexJoin(" ", [], b, ts);
    LexStdString(" " + b, [] + ts);
    LexSpaced("const", "std::string" + (" " + b), [Word("std"), SCOPE, Word("string")] + ([] + ts));
    assert [Word("const")] + ([Word("std"), SCOPE, Word("string")] + ([] + ts)) == MEMBER + [Word(w), Punct(';')];
  }

  lemma LexIndent(b: string, ts: seq<Token>)
    requires Lexes(b, ts)
    ensures Lexes("  " + b, ts)
  {
    hide Lexes;
    LexBlanks("  ", b, ts);
  }

  const STRUCT_LINE := "static const struct embedded_file {\n"
  const NAME_MEMBER := "  const std::string *name;\n"
  const DATA_MEMBER := "  const std::string *data;\n"
  const ARRAY_LINE := "} embedded_files[] = {\n"

  lemma LexStructLine()
    ensures Lexes(STRUCT_LINE, [Word("static"), Word("const"), Word("struct"), Word("embedded_file"), Punct('{')])
  {
    hide Lexes, IsWord, STRUCT_LINE;
    Words();
    TableWords();
    LexMark('{', "\n");
    LexSpaced("embedded_file", ['{'] + "\n", [Punct('{')]);
    var b := "embedded_file" + " " + (['{'] + "\n");
    LexSpaced("struct", b, [Word("embedded_file")] + [Punct('{')]);
    LexSpaced("const", "struct" + " " + b, [Word("struct")] + ([Word("embedded_file")] + [Punct('{')]));
    LexSpaced("static", "const" + " " + ("struct" + " " + b),
              [Word("const")] + ([Word("struct")] + ([Word("embedded_file")] + [Punct('{')])));
    StructText();
    assert [Word("static")] + ([Word("const")] + ([Word("struct")] + ([Word("embedded_file")] + [Punct('{')])))
        == [Word("static"), Word("const"), Word("struct"), Word("embedded_file"), Punct('{')];
  }

  lemma TableWords()
    ensures IsWord("embedded_file") && IsWord("embedded_files")
  {
  }

  lemma StructText()
    ensures "static" + " " + ("const" + " " + ("struct" + " " + ("embedded_file" + " " + (['{'] + "\n")))) == STRUCT_LINE
  {
  }

  lemma MemberText(w: string)
    ensures "  " + ("const" + " " + ("std::string" + (" " + ("*" + (w + ";\n"))))) == "  const std::string *" + (w + ";\n")
  {
    assert "  " + ("const" + " " + ("std::string" + (" " + "*"))) == "  const std::string *";
  }

  lemma MemberLines()
    ensures "  const std::string *" + ("name" + ";\n") == NAME_MEMBER
    ensures "  const std::string *" + ("data" + ";\n") == DATA_MEMBER
  {
  }

  lemma LexMembers()
    ensures Lexes(NAME_MEMBER, MEMBER + [Word("name"), Punct(';')])
    ensures Lexes(DATA_MEMBER, MEMBER + [Word("data"), Punct(';')])
  {
    hide Lexes, IsWord, MEMBER, NAME_MEMBER, DATA_MEMBER;
    Words();
    MemberText("name");
    MemberText("data");
    MemberLines();
    LexMember("name");
    LexMember("data");
    LexIndent("const" + " " + ("std::string" + (" " + ("*" + ("name" + ";\n")))), MEMBER + [Word("name"), Punct(';')]);
    LexIndent("const" + " " + ("std::string" + (" " + ("*" + ("data" + ";\n")))), MEMBER + [Word("data"), Punct(';')]);
  }

  lemma LexArrayLine()
    ensures Lexes(ARRAY_LINE, [Punct('}'), Word("embedded_files"), Punct('['), Punct(']'), Punct('='), Punct('{')])
  {
    hide Lexes, IsWord, ARRAY_LINE;
    TableWords();
    LexMark('{', "\n");
    LexMark('=', " ");
    LexJoin(['='] + " ", [Punct('=')], ['{'] + "\n", [Punct('{')]);
    LexMark(']', " ");
    LexPunct('[');
    LexJoin("[", [Punct('[')], [']'] + " ", [Punct(']')]);
    var b := ['='] + " " + (['{'] + "\n");
    LexJoin("[" + ([']'] + " "), [Punct('[')] + [Punct(']')], b, [Punct('=')] + [Punct('{')]);
    var c := "[" + ([']'] + " ") + b;
    var ts := [Punct('[')] + [Punct(']')] + ([Punct('=')] + [Punct('{')]);
    LexWordThen("embedded_files", c, ts);
    LexMark('}', " ");
    LexJoin(['}'] + " ", [Punct('}')], "embedded_files" + c, [Word("embedded_files")] + ts);
    ArrayText();
    assert [Punct('}')] + ([Word("embedded_files")] + ts)
        == [Punct('}'), Word("embedded_files"), Punct('['), Punct(']'), Punct('='), Punct('{')];
  }

  lemma ArrayText()
    ensures ['}'] + " " + ("embedded_files" + ("[" + ([']'] + " ") + (['='] + " " + (['{'] + "\n")))) == ARRAY_LINE
  {
  }

  lemma LexTableStart()
    ensures Lexes(TABLE_START, TABLE)
  {
    hide Lexes, STRUCT_LINE, NAME_MEMBER, DATA_MEMBER, ARRAY_LINE, MEMBER, TABLE_START;
    TableStartText();
    LexStructLine();
    LexMembers();
    LexArrayLine();
    var a := [Word("static"), Word("const"), Word("struct"), Word("embedded_file"), Punct('{')];
    var n, d := MEMBER + [Word("name"), Punct(';')], MEMBER + [Word("data"), Punct(';')];
    LexJoin(STRUCT_LINE, a, NAME_MEMBER, n);
    LexJoin(STRUCT_LINE + NAME_MEMBER, a + n, DATA_MEMBER, d);
    LexJoin(STRUCT_LINE + NAME_MEMBER + DATA_MEMBER, a + n + d,
            ARRAY_LINE, [Punct('}'), Word("embedded_files"), Punct('['), Punct(']'), Punct('='), Punct('{')]);
  }

  lemma TableStartText()
    ensures TABLE_START == STRUCT_LINE + NAME_MEMBER + DATA_MEMBER + ARRAY_LINE
  {
  }

  lemma LexRow(i: nat)
    ensures Lexes(Row(i), RowTokens(i))
  {
    hide Lexes, IsWord, NameId, DataId;
    IdsAreWords(i);
    LexMark(',', "\n");
    LexPunct('}');
    LexJoin("}", [Punct('}')], [','] + "\n", [Punct(',')]);
    LexWordThen(DataId(i), "}" + ([','] + "\n"), [Punct('}')] + [Punct(',')]);
    LexPunct('&');
    var d := DataId(i) + ("}" + ([','] + "\n"));
    var ds := [Word(DataId(i))] + ([Punct('}')] + [Punct(',')]);
    LexJoin("&", [Punct('&')], d, ds);
    LexMark(',', " ");
    LexJoin([','] + " ", [Punct(',')], "&" + d, [Punct('&')] + ds);
    var c, cs := [','] + " " + ("&" + d), [Punct(',')] + ([Punct('&')] + ds);
    LexWordThen(NameId(i), c, cs);
    LexJoin("&", [Punct('&')], NameId(i) + c, [Word(NameId(i))] + cs);
    LexPunct('{');
    LexJoin("{", [Punct('{')], "&" + (NameId(i) + c), [Punct('&')] + ([Word(NameId(i))] + cs));
    LexIndent("{" + ("&" + (NameId(i) + c)), [Punct('{')] + ([Punct('&')] + ([Word(NameId(i))] + cs)));
    RowText(i);
    assert [Punct('{')] + ([Punct('&')] + ([Word(NameId(i))] + cs)) == RowTokens(i);
  }

  lemma RowText(i: nat)
    ensures "  " + ("{" + ("&" + (NameId(i) + ([','] + " " + ("&" + (DataId(i) + ("}" + ([','] + "\n")))))))) == Row(i)
  {
    hide NameId, DataId;
    assert "  " + ("{" + "&") == "  {&";
    assert [','] + " " + "&" == ", &";
    assert "}" + ([','] + "\n") == "},\n";
  }

  lemma LexTableEnd()
    ensures Lexes(TABLE_END, LAST_ROW)
  {
    hide Lexes, IsWord, TABLE_END;
    Words();
    LexMark(';', "\n\n");
    LexPunct('}');
    LexJoin("}", [Punct('}')], [';'] + "\n\n", [Punct(';')]);
    LexMark('}', "\n");
    var b, bs := ['}'] + "\n" + ("}" + ([';'] + "\n\n")), [Punct('}')] + ([Punct('}')] + [Punct(';')]);
    LexJoin(['}'] + "\n", [Punct('}')], "}" + ([';'] + "\n\n"), [Punct('}')] + [Punct(';')]);
    LexWordThen("NULL", b, bs);
    LexMark(',', " ");
    LexJoin([','] + " ", [Punct(',')], "NULL" + b, [Word("NULL")] + bs);
    var c, cs := [','] + " " + ("NULL" + b), [Punct(',')] + ([Word("NULL")] + bs);
    LexWordThen("NULL", c, cs);
    LexPunct('{');
    LexJoin("{", [Punct('{')], "NULL" + c, [Word("NULL")] + cs);
    LexIndent("{" + ("NULL" + c), [Punct('{')] + ([Word("NULL")] + cs));
    TableEndText();
    assert [Punct('{')] + ([Word("NULL")] + cs) == LAST_ROW;
  }

  lemma TableEndText()
    ensures "  " + ("{" + ("NULL" + ([','] + " " + ("NULL" + (['}'] + "\n" + ("}" + ([';'] + "\n\n"))))))) == TABLE_END
  {
  }
}
