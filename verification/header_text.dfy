/** The text of the generated header, and the program that prints it. */
module HeaderText {
  import opened BinaryPoly

  datatype File = File(name: string, contents: seq<byte>)

  // ----- Number formats -----

  function DigitChar(d: nat): char
    requires d < 16
  {
    if d < 10 then '0' + d as char else 'a' + (d - 10) as char
  }

  /** The format `%d` of a number that is not negative. */
  function Decimal(n: nat): (s: string)
    ensures s != ""
  {
    if n < 10 then [DigitChar(n)] else Decimal(n / 10) + [DigitChar(n % 10)]
  }

  /** The format `\x%02x` of a byte. */
  function Escape(b: byte): (s: string)
    ensures |s| == 4
  {
    ['\\', 'x', DigitChar(b / 16), DigitChar(b % 16)]
  }

  function Escapes(bytes: seq<byte>): (s: string)
    ensures |s| == 4 * |bytes|
  {
    if bytes == [] then "" else Escapes(bytes[..|bytes| - 1]) + Escape(bytes[|bytes| - 1])
  }

  // ----- The literals of a file's contents -----

  const OPENING := "\n  \""

  /** The contents in chunks of 16 bytes, the last one shorter where need be. */
  function Chunks(bytes: seq<byte>): (cs: seq<seq<byte>>)
    ensures bytes == [] ==> cs == []
    ensures bytes != [] ==> cs != []
  {
    if bytes == [] then []
    else if |bytes| <= 16 then [bytes]
    else [bytes[..16]] + Chunks(bytes[16..])
  }

  /** One literal per chunk, each on its own line. */
  function Literals(chunks: seq<seq<byte>>): string {
    if chunks == [] then ""
    else OPENING + Escapes(chunks[0]) + "\"" + Literals(chunks[1..])
  }

  /** What the loop has printed so far: the same literals, the last of them still open. */
  function Unclosed(bytes: seq<byte>): string {
    if bytes == [] then ""
    else if |bytes| <= 16 then OPENING + Escapes(bytes)
    else OPENING + Escapes(bytes[..16]) + "\"" + Unclosed(bytes[16..])
  }

  /** What is printed before one more byte. */
  function Separator(j: nat): string {
    if j % 16 != 0 then "" else if j > 0 then "\"" + OPENING else OPENING
  }

  lemma {:induction false} UnclosedStep(bytes: seq<byte>, b: byte)
    ensures Unclosed(bytes + [b]) == Unclosed(bytes) + Separator(|bytes|) + Escape(b)
  {
    hide Escape, Escapes, OPENING;
    var more := bytes + [b];
    EscapesStep(bytes, b);
    if |bytes| > 16 {
      UnclosedStep(bytes[16..], b);
      assert more[..16] == bytes[..16] && more[16..] == bytes[16..] + [b];
      assert (|bytes| - 16) % 16 == |bytes| % 16;
    } else if |bytes| == 16 {
      assert more[..16] == bytes && more[16..] == [] + [b];
      EscapesStep([], b);
      EscapesNone();
    } else if bytes != [] {
      assert |bytes| % 16 == |bytes|;
    } else {
      EscapesNone();
    }
  }

  lemma EscapesNone()
    ensures Escapes([]) == ""
  {
  }

  lemma EscapesStep(bytes: seq<byte>, b: byte)
    ensures Escapes(bytes + [b]) == Escapes(bytes) + Escape(b)
  {
    var more := bytes + [b];
    assert more[..|more| - 1] == bytes;
  }

  /** The closing quote completes the literals: unless there are none. */
  lemma {:induction false} UnclosedCloses(bytes: seq<byte>)
    requires bytes != []
    ensures Unclosed(bytes) + "\"" == Literals(Chunks(bytes))
  {
    if |bytes| > 16 {
      var rest := Chunks(bytes[16..]);
      UnclosedCloses(bytes[16..]);
      assert Chunks(bytes)[0] == bytes[..16] && Chunks(bytes)[1..] == rest;
    } else {
      assert [bytes][1..] == [];
      assert Literals([bytes]) == OPENING + Escapes(bytes) + "\"" + Literals([]);
    }
  }

  /** What the program prints for the contents, up to the quote after the loop. */
  function DataText(contents: seq<byte>): string {
    Unclosed(contents) + "\""
  }

  // ----- Lines -----

  const PREAMBLE :=
    "#ifndef TRANSLATION_FILES_H\n"
    + "#define TRANSLATION_FILES_H\n\n"
    + "#include <string>\n\n"

  const DECLARATION := "static const std::string "
  const NAME_ID := "translation_file_name_"
  const DATA_ID := "translation_file_data_"

  function NameId(i: nat): string {
    NAME_ID + Decimal(i)
  }

  function DataId(i: nat): string {
    DATA_ID + Decimal(i)
  }

  function NameLine(i: nat, name: string): string {
    DECLARATION + NameId(i) + " = \"" + name + "\";\n"
  }

  function DataStart(i: nat): string {
    DECLARATION + DataId(i) + " = std::string("
  }

  function DataEnd(n: nat): string {
    ",\n  " + Decimal(n) + ");\n\n"
  }

  function Declarations(i: nat, file: File): string {
    NameLine(i, file.name) + (DataStart(i) + DataText(file.contents) + DataEnd(|file.contents|))
  }

  /** The declarations of the first n files, numbered from one. */
  function AllDeclarations(files: seq<File>, n: nat): string
    requires n <= |files|
  {
    if n == 0 then "" else AllDeclarations(files, n - 1) + Declarations(n, files[n - 1])
  }

  const TABLE_START :=
    "static const struct embedded_file {\n"
    + "  const std::string *name;\n"
    + "  const std::string *data;\n"
    + "} embedded_files[] = {\n"

  function Row(i: nat): string {
    "  {&" + NameId(i) + ", &" + DataId(i) + "},\n"
  }

  function Rows(n: nat): string {
    if n == 0 then "" else Rows(n - 1) + Row(n)
  }

  const TABLE_END := "  {NULL, NULL}\n" + "};\n\n"

  /** The lookup function, every line in one or more parts. */
  const LOOKUP_PARTS: seq<string> :=
    [
      "static bool ", "find_embedded_file(", "const ", "std::string ", "&name, ", "std::string ", "&data) {\n",
      "  const struct ", "embedded_file *p;\n",
      "  for (p = ", "embedded_files; ", "p->name ", "!= NULL; ", "p++) {\n",
      "    if (", "*p->name ", "== name) {\n",
      "      data = ", "*p->", "data;\n",
      "      return ", "true;\n",
      "    }\n",
      "  }\n",
      "  return ", "false;\n",
      "}\n"
    ]

  const LOOKUP := Joined(LOOKUP_PARTS)

  const CODE := LOOKUP + "\n"
  const GUARD_END := "#endif /* TRANSLATION_FILES_H */\n"

  function Body(files: seq<File>): string {
    AllDeclarations(files, |files|) + TABLE_START + Rows(|files|) + TABLE_END
  }

  function Header(files: seq<File>): string {
    PREAMBLE + Body(files) + (CODE + GUARD_END)
  }

  // ----- The program -----

  /** Prints the literals of one file, a byte at a time. */
  method PrintContents(output: string, contents: seq<byte>) returns (out: string, j: nat)
    ensures out == output + DataText(contents)
    ensures j == |contents|
  {
    hide Unclosed, Escape, OPENING;
    out, j := output, 0;
    UnclosedNone();
    assert contents[..0] == [];
    while j < |contents|
      invariant j <= |contents|
      invariant out == output + Unclosed(contents[..j])
    {
      UnclosedStep(contents[..j], contents[j]);
      assert contents[..j] + [contents[j]] == contents[..j + 1];
      if j % 16 == 0 {
        if j > 0 {
          out := out + "\"";
        }
        out := out + OPENING;
      }
      out := out + Escape(contents[j]);
      j := j + 1;
    }
    assert contents[..j] == contents;
    out := out + "\"";
  }

  lemma UnclosedNone()
    ensures Unclosed([]) == ""
  {
  }

  /** Prints the two declarations of every file. */
  method PrintDeclarations(output: string, files: seq<File>) returns (out: string)
    ensures out == output + AllDeclarations(files, |files|)
  {
    hide NameLine, DataStart, DataText, DataEnd;
    out := output;
    var i: nat := 1;
    while i <= |files|
      invariant 1 <= i <= |files| + 1
      invariant out == output + AllDeclarations(files, i - 1)
    {
      var file := files[i - 1];
      ghost var before := out;
      out := out + NameLine(i, file.name);
      out := out + DataStart(i);
      var j;
      out, j := PrintContents(out, file.contents);
      out := out + DataEnd(j);
      assert out == before + Declarations(i, file);
      i := i + 1;
    }
  }

  /** Prints the table of the files and its sentinel. */
  method PrintTable(output: string, n: nat) returns (out: string)
    ensures out == output + TABLE_START + Rows(n) + TABLE_END
  {
    hide Row, TABLE_START, TABLE_END;
    out := output + TABLE_START;
    var i: nat := 1;
    while i <= n
      invariant 1 <= i <= n + 1
      invariant out == output + TABLE_START + Rows(i - 1)
    {
      out := out + Row(i);
      i := i + 1;
    }
    out := out + TABLE_END;
  }

  /** `main`: the header of the files. */
  method Generate(files: seq<File>) returns (out: string)
    ensures out == Header(files)
  {
    hide AllDeclarations, Rows, PREAMBLE, TABLE_START, TABLE_END, CODE, GUARD_END;
    out := PREAMBLE;
    out := PrintDeclarations(out, files);
    out := PrintTable(out, |files|);
    out := out + CODE;
    out := out + GUARD_END;
  }

  // ----- The shape of the literals -----

  function Joined<T>(parts: seq<seq<T>>): seq<T> {
    if parts == [] then [] else parts[0] + Joined(parts[1..])
  }

  /** The chunks are the contents, all of 16 bytes but the last. */
  lemma {:induction false} ChunksShape(bytes: seq<byte>)
    ensures Joined(Chunks(bytes)) == bytes
    ensures |Chunks(bytes)| == (|bytes| + 15) / 16
    ensures forall k :: 0 <= k < |Chunks(bytes)| ==>
              0 < |Chunks(bytes)[k]| <= 16 && (k < |Chunks(bytes)| - 1 ==> |Chunks(bytes)[k]| == 16)
  {
    var cs := Chunks(bytes);
    if |bytes| > 16 {
      ChunksShape(bytes[16..]);
      assert cs[1..] == Chunks(bytes[16..]);
    } else if bytes != [] {
      assert cs[1..] == [];
    }
  }

  /** The length of the printed text, counted without looking at any byte. */
  lemma {:induction false} DataTextLength(bytes: seq<byte>)
    ensures |DataText(bytes)| == if bytes == [] then 1 else 4 * |bytes| + 5 * ((|bytes| + 15) / 16)
  {
    if |bytes| > 16 {
      DataTextLength(bytes[16..]);
    }
  }
}
