/** The tokens of the lookup function. */
module HeaderFrame {
  import opened CppLexer
  import opened CppPieces
  import opened HeaderReader
  import opened HeaderText

  lemma Keywords()
    ensures IsWord("static") && IsWord("bool") && IsWord("const") && IsWord("struct") && IsWord("for") && IsWord("if")
    ensures IsWord("return") && IsWord("true") && IsWord("false") && IsWord("NULL")
  {
  }

  lemma Names()
    ensures IsWord("std") && IsWord("string") && IsWord("name") && IsWord("data") && IsWord("p")
    ensures IsWord("find_embedded_file") && IsWord("embedded_file") && IsWord("embedded_files")
  {
  }

  lemma LexPart(lead: string, ps: Pieces, text: string, tokens: seq<Token>)
    requires AllBlank(lead) && Apart(ps) && text == lead + Text(ps) && tokens == Tokens(ps)
    ensures Lexes(text, tokens)
  {
    hide Lexes;
    PiecesLex(ps);
    LexBlanks(lead, Text(ps), tokens);
  }

  lemma LexStaticBool()
    ensures Lexes("static bool ", [Word("static"), Word("bool")])
  {
    hide Lexes, IsWord;
    Keywords();
    LexPart("",
            Then(W("static", " "), Then(W("bool", " "), End)),
            "static bool ", [Word("static"), Word("bool")]);
  }

  lemma LexFindEmbeddedFile()
    ensures Lexes("find_embedded_file(", [Word("find_embedded_file"), Punct('(')])
  {
    hide Lexes, IsWord;
    Names();
    LexPart("",
            Then(W("find_embedded_file", ""), Then(P('(', ""), End)),
            "find_embedded_file(", [Word("find_embedded_file"), Punct('(')]);
  }

  lemma LexConst()
    ensures Lexes("const ", [Word("const")])
  {
    hide Lexes, IsWord;
    Keywords();
    LexPart("", Then(W("const", " "), End), "const ", [Word("const")]);
  }

  lemma LexString()
    ensures Lexes("std::string ", [Word("std"), SCOPE, Word("string")])
  {
    hide Lexes, IsWord;
    Names();
    LexPart("",
            Then(W("std", ""), Then(O(':', ':', ""), Then(W("string", " "), End))),
            "std::string ", [Word("std"), SCOPE, Word("string")]);
  }

  lemma LexName()
    ensures Lexes("&name, ", [Punct('&'), Word("name"), Punct(',')])
  {
    hide Lexes, IsWord;
    Names();
    LexPart("",
            Then(P('&', ""), Then(W("name", ""), Then(P(',', " "), End))),
            "&name, ", [Punct('&'), Word("name"), Punct(',')]);
  }

  lemma LexData()
    ensures Lexes("&data) {\n", [Punct('&'), Word("data"), Punct(')'), Punct('{')])
  {
    hide Lexes, IsWord;
    Names();
    LexPart("",
            Then(P('&', ""), Then(W("data", ""), Then(P(')', " "), Then(P('{', "\n"), End)))),
            "&data) {\n", [Punct('&'), Word("data"), Punct(')'), Punct('{')]);
  }

  lemma LexConstStruct()
    ensures Lexes("  const struct ", [Word("const"), Word("struct")])
  {
    hide Lexes, IsWord;
    Keywords();
    LexPart("  ",
            Then(W("const", " "), Then(W("struct", " "), End)),
            "  const struct ", [Word("const"), Word("struct")]);
  }

  lemma LexEmbeddedFile()
    ensures Lexes("embedded_file *p;\n", [Word("embedded_file"), Punct('*'), Word("p"), Punct(';')])
  {
    hide Lexes, IsWord;
    Names();
    LexPart("",
            Then(W("embedded_file", " "), Then(P('*', ""), Then(W("p", ""), Then(P(';', "\n"), End)))),
            "embedded_file *p;\n", [Word("embedded_file"), Punct('*'), Word("p"), Punct(';')]);
  }

  lemma LexFor()
    ensures Lexes("  for (p = ", [Word("for"), Punct('('), Word("p"), Punct('=')])
  {
    hide Lexes, IsWord;
    Keywords();
    Names();
    LexPart("  ",
            Then(W("for", " "), Then(P('(', ""), Then(W("p", " "), Then(P('=', " "), End)))),
            "  for (p = ", [Word("for"), Punct('('), Word("p"), Punct('=')]);
  }

  lemma LexEmbeddedFiles()
    ensures Lexes("embedded_files; ", [Word("embedded_files"), Punct(';')])
  {
    hide Lexes, IsWord;
    Names();
    LexPart("",
            Then(W("embedded_files", ""), Then(P(';', " "), End)),
            "embedded_files; ", [Word("embedded_files"), Punct(';')]);
  }

  lemma LexNameOf()
    ensures Lexes("p->name ", [Word("p"), Operator('-', '>'), Word("name")])
  {
    hide Lexes, IsWord;
    Names();
    LexPart("",
            Then(W("p", ""), Then(O('-', '>', ""), Then(W("name", " "), End))),
            "p->name ", [Word("p"), Operator('-', '>'), Word("name")]);
  }

  lemma LexNotNull()
    ensures Lexes("!= NULL; ", [Operator('!', '='), Word("NULL"), Punct(';')])
  {
    hide Lexes, IsWord;
    Keywords();
    LexPart("",
            Then(O('!', '=', " "), Then(W("NULL", ""), Then(P(';', " "), End))),
            "!= NULL; ", [Operator('!', '='), Word("NULL"), Punct(';')]);
  }

  lemma LexAdvance()
    ensures Lexes("p++) {\n", [Word("p"), Operator('+', '+'), Punct(')'), Punct('{')])
  {
    hide Lexes, IsWord;
    Names();
    LexPart("",
            Then(W("p", ""), Then(O('+', '+', ""), Then(P(')', " "), Then(P('{', "\n"), End)))),
            "p++) {\n", [Word("p"), Operator('+', '+'), Punct(')'), Punct('{')]);
  }

  lemma LexIf()
    ensures Lexes("    if (", [Word("if"), Punct('(')])
  {
    hide Lexes, IsWord;
    Keywords();
    LexPart("    ", Then(W("if", " "), Then(P('(', ""), End)), "    if (", [Word("if"), Punct('(')]);
  }

  lemma LexNameAt()
    ensures Lexes("*p->name ", [Punct('*'), Word("p"), Operator('-', '>'), Word("name")])
  {
    hide Lexes, IsWord;
    Names();
    LexPart("",
            Then(P('*', ""), Then(W("p", ""), Then(O('-', '>', ""), Then(W("name", " "), End)))),
            "*p->name ", [Punct('*'), Word("p"), Operator('-', '>'), Word("name")]);
  }

  lemma LexEqual()
    ensures Lexes("== name) {\n", [Operator('=', '='), Word("name"), Punct(')'), Punct('{')])
  {
    hide Lexes, IsWord;
    Names();
    LexPart("",
            Then(O('=', '=', " "), Then(W("name", ""), Then(P(')', " "), Then(P('{', "\n"), End)))),
            "== name) {\n", [Operator('=', '='), Word("name"), Punct(')'), Punct('{')]);
  }

  lemma LexAssign()
    ensures Lexes("      data = ", [Word("data"), Punct('=')])
  {
    hide Lexes, IsWord;
    Names();
    LexPart("      ",
            Then(W("data", " "), Then(P('=', " "), End)),
            "      data = ", [Word("data"), Punct('=')]);
  }

  lemma LexAt()
    ensures Lexes("*p->", [Punct('*'), Word("p"), Operator('-', '>')])
  {
    hide Lexes, IsWord;
    Names();
    LexPart("",
            Then(P('*', ""), Then(W("p", ""), Then(O('-', '>', ""), End))),
            "*p->", [Punct('*'), Word("p"), Operator('-', '>')]);
  }

  lemma LexValue()
    ensures Lexes("data;\n", [Word("data"), Punct(';')])
  {
    hide Lexes, IsWord;
    Names();
    LexPart("", Then(W("data", ""), Then(P(';', "\n"), End)), "data;\n", [Word("data"), Punct(';')]);
  }

  lemma LexReturn()
    ensures Lexes("      return ", [Word("return")])
  {
    hide Lexes, IsWord;
    Keywords();
    LexPart("      ", Then(W("return", " "), End), "      return ", [Word("return")]);
  }

  lemma LexTrue()
    ensures Lexes("true;\n", [Word("true"), Punct(';')])
  {
    hide Lexes, IsWord;
    Keywords();
    LexPart("", Then(W("true", ""), Then(P(';', "\n"), End)), "true;\n", [Word("true"), Punct(';')]);
  }

  lemma LexCloseIf()
    ensures Lexes("    }\n", [Punct('}')])
  {
    hide Lexes, IsWord;
    LexPart("    ", Then(P('}', "\n"), End), "    }\n", [Punct('}')]);
  }

  lemma LexCloseFor()
    ensures Lexes("  }\n", [Punct('}')])
  {
    hide Lexes, IsWord;
    LexPart("  ", Then(P('}', "\n"), End), "  }\n", [Punct('}')]);
  }

  lemma LexReturnLast()
    ensures Lexes("  return ", [Word("return")])
  {
    hide Lexes, IsWord;
    Keywords();
    LexPart("  ", Then(W("return", " "), End), "  return ", [Word("return")]);
  }

  lemma LexFalse()
    ensures Lexes("false;\n", [Word("false"), Punct(';')])
  {
    hide Lexes, IsWord;
    Keywords();
    LexPart("", Then(W("false", ""), Then(P(';', "\n"), End)), "false;\n", [Word("false"), Punct(';')]);
  }

  lemma LexCloseFind()
    ensures Lexes("}\n", [Punct('}')])
  {
    hide Lexes, IsWord;
    LexPart("", Then(P('}', "\n"), End), "}\n", [Punct('}')]);
  }

  /** Text in parts is read part by part. */
  lemma {:induction false} PartsLex(texts: seq<string>, tokens: seq<seq<Token>>)
    requires |texts| == |tokens| && forall i :: 0 <= i < |texts| ==> Lexes(texts[i], tokens[i])
    ensures Lexes(Joined(texts), Joined(tokens))
  {
    hide Lexes;
    if texts == [] {
      LexNothing();
    } else {
      PartsLex(texts[1..], tokens[1..]);
      LexJoin(texts[0], tokens[0], Joined(texts[1..]), Joined(tokens[1..]));
    }
  }

  /** The lookup function is read as the tokens of the reader. */
  lemma LexLookup()
    ensures Lexes(LOOKUP, FIND)
  {
    hide Lexes;
    LexStaticBool();
    LexFindEmbeddedFile();
    LexConst();
    LexString();
    LexName();
    LexData();
    LexConstStruct();
    LexEmbeddedFile();
    LexFor();
    LexEmbeddedFiles();
    LexNameOf();
    LexNotNull();
    LexAdvance();
    LexIf();
    LexNameAt();
    LexEqual();
    LexAssign();
    LexAt();
    LexValue();
    LexReturn();
    LexTrue();
    LexCloseIf();
    LexCloseFor();
    LexReturnLast();
    LexFalse();
    LexCloseFind();
    PartsLex(LOOKUP_PARTS, FIND_PARTS);
  }
}
