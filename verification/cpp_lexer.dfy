/**
 * The lexical rules of C++ that a list of string declarations needs: phases 3 and 5 of
 * section 5.2 [lex.phases], escapes of section 5.13.3 [lex.ccon] and string literals of
 * section 5.13.5 [lex.string] of ISO/IEC 14882:2017.
 */
module CppLexer {
  import opened BinaryPoly
  import opened Results
  import opened Segment

  datatype Token =
    | Word(text: string)
    | Number(value: nat)
    | Literal(bytes: seq<byte>)
    | Operator(a: char, b: char)
    | Punct(c: char)
    | Directive(line: string)

  const SCOPE := Operator(':', ':')

  predicate IsBlank(c: char) {
    c == ' ' || c == '\n' || c == '\t'
  }

  predicate IsWordStart(c: char) {
    'a' <= c <= 'z' || 'A' <= c <= 'Z' || c == '_'
  }

  predicate IsWordChar(c: char) {
    IsWordStart(c) || IsDigit(c)
  }

  predicate IsHexDigit(c: char) {
    IsDigit(c) || 'a' <= c <= 'f' || 'A' <= c <= 'F'
  }

  function HexDigitValue(c: char): (v: nat)
    requires IsHexDigit(c)
    ensures v < 16
  {
    if IsDigit(c) then DigitValue(c)
    else if 'a' <= c <= 'f' then c as int - 'a' as int + 10
    else c as int - 'A' as int + 10
  }

  /** The two characters are one token. */
  predicate IsOperator(a: char, b: char) {
    || (a == ':' && b == ':') || (a == '-' && b == '>') || (a == '+' && b == '+')
    || (a == '!' && b == '=') || (a == '=' && b == '=')
  }

  /** The character may be the first of such a token. */
  predicate StartsOperator(c: char) {
    c == ':' || c == '-' || c == '+' || c == '!' || c == '='
  }

  predicate IsPunct(c: char) {
    !IsBlank(c) && !IsWordChar(c) && c != '"' && c != '#'
  }

  predicate InLine(c: char) {
    c != '\n'
  }

  /** How many characters at the start of s have a property: the longest match. */
  function Run(s: string, p: char -> bool): (n: nat)
    ensures n <= |s|
    ensures forall i :: 0 <= i < n ==> p(s[i])
    ensures n < |s| ==> !p(s[n])
  {
    if s == "" || !p(s[0]) then 0 else 1 + Run(s[1..], p)
  }

  lemma {:induction false} RunEnds(a: string, b: string, p: char -> bool)
    requires forall i :: 0 <= i < |a| ==> p(a[i])
    requires b == "" || !p(b[0])
    ensures Run(a + b, p) == |a|
  {
    if a == "" {
      assert a + b == b;
    } else {
      assert (a + b)[1..] == a[1..] + b;
      RunEnds(a[1..], b, p);
    }
  }

  // ----- Literals -----

  function HexValue(s: string): nat
    requires forall i :: 0 <= i < |s| ==> IsHexDigit(s[i])
  {
    if s == "" then 0 else 16 * HexValue(s[..|s| - 1]) + HexDigitValue(s[|s| - 1])
  }

  function DecimalValue(s: string): nat
    requires AllDigits(s)
  {
    if s == "" then 0 else 10 * DecimalValue(s[..|s| - 1]) + DigitValue(s[|s| - 1])
  }

  /** Digits that stand for a decimal number: with a leading zero they would be octal. */
  predicate IsDecimal(s: string) {
    AllDigits(s) && s != "" && (s[0] != '0' || |s| == 1)
  }

  datatype Body = Body(bytes: seq<byte>, rest: string)

  /** The first character or escape sequence of a literal's body. Hexadecimal escapes take every hexadecimal digit. */
  function LexChar(s: string): (r: Option<Body>)
    requires s != "" && s[0] != '"'
    ensures r.Some? ==> |r.value.rest| < |s|
  {
    if s[0] == '\n' || s[0] == '\r' || s[0] as int >= 256 then None
    else if s[0] != '\\' then Some(Body([s[0] as int], s[1..]))
    else if |s| < 2 || s[1] != 'x' then None
    else
      var n := Run(s[2..], IsHexDigit);
      if n == 0 || HexValue(s[2..][..n]) >= 256 then None
      else Some(Body([HexValue(s[2..][..n])], s[2..][n..]))
  }

  /** The rest of a literal after its opening quote, up to and without its closing quote. */
  function LexBody(s: string): (r: Option<Body>)
    ensures r.Some? ==> |r.value.rest| < |s|
    decreases |s|
  {
    if s == "" then None
    else if s[0] == '"' then Some(Body([], s[1..]))
    else
      match LexChar(s)
      case None => None
      case Some(first) =>
        match LexBody(first.rest)
        case None => None
        case Some(more) => Some(Body(first.bytes + more.bytes, more.rest))
  }

  // ----- Tokens -----

  datatype Step = Bad | Skip(rest: string) | Take(token: Token, rest: string)

  /** What stands at the start of a text. */
  function Next(s: string): (r: Step)
    requires s != ""
    ensures !r.Bad? ==> |r.rest| < |s|
  {
    if IsBlank(s[0]) then Skip(s[1..])
    else if IsWordStart(s[0]) then
      var n := Run(s, IsWordChar);
      Take(Word(s[..n]), s[n..])
    else if IsDigit(s[0]) then
      var n := Run(s, IsWordChar);
      if IsDecimal(s[..n]) then Take(Number(DecimalValue(s[..n])), s[n..]) else Bad
    else if s[0] == '"' then
      match LexBody(s[1..])
      case None => Bad
      case Some(body) => Take(Literal(body.bytes), body.rest)
    else if s[0] == '#' then
      var n := Run(s, InLine);
      Take(Directive(s[..n]), s[n..])
    else if |s| >= 2 && IsOperator(s[0], s[1]) then Take(Operator(s[0], s[1]), s[2..])
    else Take(Punct(s[0]), s[1..])
  }

  function Prepend(ts: seq<Token>, o: Option<seq<Token>>): Option<seq<Token>> {
    match o
    case None => None
    case Some(more) => Some(ts + more)
  }

  /** The tokens of a text, or None when it cannot be split into tokens. */
  function Lex(s: string): Option<seq<Token>>
    decreases |s|
  {
    if s == "" then Some([])
    else
      match Next(s)
      case Bad => None
      case Skip(rest) => Lex(rest)
      case Take(token, rest) => Prepend([token], Lex(rest))
  }

  // ----- Lexing in parts -----

  /** Whatever follows a, it is read as these tokens and what follows is read as if it stood alone. */
  ghost predicate Lexes(a: string, ts: seq<Token>) {
    forall tail: string :: Lex(a + tail) == Prepend(ts, Lex(tail))
  }

  lemma LexSkip(s: string)
    requires s != "" && Next(s).Skip?
    ensures Lex(s) == Prepend([], Lex(Next(s).rest))
  {
    hide Next;
    var o := Lex(Next(s).rest);
    assert o.Some? ==> [] + o.value == o.value;
  }

  lemma LexTake(s: string)
    requires s != "" && Next(s).Take?
    ensures Lex(s) == Prepend([Next(s).token], Lex(Next(s).rest))
  {
  }

  lemma PrependTwice(ts: seq<Token>, us: seq<Token>, o: Option<seq<Token>>)
    ensures Prepend(ts, Prepend(us, o)) == Prepend(ts + us, o)
  {
    if o.Some? {
      assert ts + (us + o.value) == ts + us + o.value;
    }
  }

  lemma LexJoin(a: string, ts: seq<Token>, b: string, us: seq<Token>)
    requires Lexes(a, ts) && Lexes(b, us)
    ensures Lexes(a + b, ts + us)
  {
    hide Lex;
    forall tail: string
      ensures Lex(a + b + tail) == Prepend(ts + us, Lex(tail))
    {
      assert a + b + tail == a + (b + tail);
      PrependTwice(ts, us, Lex(tail));
    }
  }

  lemma LexNothing()
    ensures Lexes("", [])
  {
    forall tail: string
      ensures Lex("" + tail) == Prepend([], Lex(tail))
    {
      assert "" + tail == tail;
      assert Lex(tail).Some? ==> [] + Lex(tail).value == Lex(tail).value;
    }
  }

  lemma LexBlank(c: char)
    requires IsBlank(c)
    ensures Lexes([c], [])
  {
    hide Lex;
    forall tail: string
      ensures Lex([c] + tail) == Prepend([], Lex(tail))
    {
      assert ([c] + tail)[1..] == tail;
      LexSkip([c] + tail);
    }
  }

  lemma LexPunct(c: char)
    requires IsPunct(c) && !StartsOperator(c)
    ensures Lexes([c], [Punct(c)])
  {
    hide Lex;
    forall tail: string
      ensures Lex([c] + tail) == Prepend([Punct(c)], Lex(tail))
    {
      assert ([c] + tail)[1..] == tail;
      LexTake([c] + tail);
    }
  }

  /** A punctuator of one character is ended by anything that does not make it longer. */
  lemma LexPunctThen(c: char, b: string, ts: seq<Token>)
    requires IsPunct(c) && b != "" && !IsOperator(c, b[0]) && Lexes(b, ts)
    ensures Lexes([c] + b, [Punct(c)] + ts)
  {
    hide Lex, LexBody;
    forall tail: string
      ensures Lex([c] + b + tail) == Prepend([Punct(c)] + ts, Lex(tail))
    {
      var s := [c] + b + tail;
      assert s == [c] + (b + tail);
      assert s[1] == b[0] && s[1..] == b + tail;
      LexTake(s);
      PrependTwice([Punct(c)], ts, Lex(tail));
    }
  }

  lemma LexOperator(a: char, b: char)
    requires IsOperator(a, b)
    ensures Lexes([a, b], [Operator(a, b)])
  {
    hide Lex, LexBody;
    forall tail: string
      ensures Lex([a, b] + tail) == Prepend([Operator(a, b)], Lex(tail))
    {
      assert ([a, b] + tail)[2..] == tail;
      LexTake([a, b] + tail);
    }
  }

  /** A directive is the rest of its line. */
  lemma LexDirective(line: string)
    requires line != "" && line[0] == '#' && forall i :: 0 <= i < |line| ==> InLine(line[i])
    ensures Lexes(line + "\n", [Directive(line)])
  {
    hide Lex, LexBody;
    forall tail: string
      ensures Lex(line + "\n" + tail) == Prepend([Directive(line)], Lex(tail))
    {
      var s := line + "\n" + tail;
      assert s == line + ("\n" + tail);
      RunEnds(line, "\n" + tail, InLine);
      assert s[..|line|] == line && s[|line|..] == "\n" + tail;
      assert Next(s) == Take(Directive(line), "\n" + tail);
      LexTake(s);
      assert ("\n" + tail)[1..] == tail;
      LexSkip("\n" + tail);
      PrependTwice([Directive(line)], [], Lex(tail));
      assert [Directive(line)] + [] == [Directive(line)];
    }
  }

  predicate IsWord(w: string) {
    w != "" && IsWordStart(w[0]) && forall i :: 0 <= i < |w| ==> IsWordChar(w[i])
  }

  /** A word is ended by anything that cannot continue it. */
  lemma LexWordThen(w: string, b: string, ts: seq<Token>)
    requires IsWord(w) && b != "" && !IsWordChar(b[0]) && Lexes(b, ts)
    ensures Lexes(w + b, [Word(w)] + ts)
  {
    hide Lex, LexBody;
    forall tail: string
      ensures Lex(w + b + tail) == Prepend([Word(w)] + ts, Lex(tail))
    {
      var s := w + b + tail;
      assert s == w + (b + tail);
      assert (b + tail)[0] == b[0];
      RunEnds(w, b + tail, IsWordChar);
      assert s[..|w|] == w && s[|w|..] == b + tail;
      assert Next(s) == Take(Word(w), b + tail);
      LexTake(s);
      PrependTwice([Word(w)], ts, Lex(tail));
    }
  }

  lemma LexNumberThen(d: string, b: string, ts: seq<Token>)
    requires IsDecimal(d) && b != "" && !IsWordChar(b[0]) && Lexes(b, ts)
    ensures Lexes(d + b, [Number(DecimalValue(d))] + ts)
  {
    hide Lex, LexBody, DecimalValue;
    forall tail: string
      ensures Lex(d + b + tail) == Prepend([Number(DecimalValue(d))] + ts, Lex(tail))
    {
      var s := d + b + tail;
      assert s == d + (b + tail);
      assert (b + tail)[0] == b[0];
      assert IsDigit(d[0]);
      RunEnds(d, b + tail, IsWordChar);
      assert s[..|d|] == d && s[|d|..] == b + tail;
      assert Next(s) == Take(Number(DecimalValue(d)), b + tail);
      LexTake(s);
      PrependTwice([Number(DecimalValue(d))], ts, Lex(tail));
    }
  }

  /** A literal is what its body says it is. */
  lemma LexLiteral(body: string, bytes: seq<byte>)
    requires forall tail: string :: LexBody(body + "\"" + tail) == Some(Body(bytes, tail))
    ensures Lexes("\"" + body + "\"", [Literal(bytes)])
  {
    hide Lex, LexBody;
    forall tail: string
      ensures Lex("\"" + body + "\"" + tail) == Prepend([Literal(bytes)], Lex(tail))
    {
      var s := "\"" + body + "\"" + tail;
      assert s[1..] == body + "\"" + tail;
      assert Next(s) == Take(Literal(bytes), tail);
      LexTake(s);
    }
  }

  /** A literal that reaches the end of its line is an error. */
  lemma LexOpenLiteral(body: string, tail: string)
    requires forall i :: 0 <= i < |body| ==> body[i] !in ['"', '\\', '\n', '\r']
    ensures Lex("\"" + body + "\n" + tail) == None
  {
    var s := "\"" + body + "\n" + tail;
    assert s[1..] == body + "\n" + tail;
    UnclosedBody(body, tail);
    assert Next(s) == Bad;
  }

  lemma {:induction false} UnclosedBody(body: string, tail: string)
    requires forall i :: 0 <= i < |body| ==> body[i] !in ['"', '\\', '\n', '\r']
    ensures LexBody(body + "\n" + tail) == None
  {
    var s := body + "\n" + tail;
    if body != "" {
      UnclosedBody(body[1..], tail);
      assert s[1..] == body[1..] + "\n" + tail;
    }
  }
}
