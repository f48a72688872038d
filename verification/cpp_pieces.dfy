/** Lexing text that is given in pieces. */
module CppPieces {
  import opened CppLexer

  /** A word, a punctuator or an operator, and the blanks behind it. */
  datatype Piece =
    | W(word: string, gap: string)
    | P(c: char, gap: string)
    | O(a: char, b: char, gap: string)

  datatype Pieces = End | Then(head: Piece, tail: Pieces)

  function Spelling(p: Piece): string {
    match p
    case W(word, gap) => word + gap
    case P(c, gap) => [c] + gap
    case O(a, b, gap) => [a, b] + gap
  }

  function Text(ps: Pieces): string {
    match ps
    case End => ""
    case Then(p, rest) => Spelling(p) + Text(rest)
  }

  function Tokens(ps: Pieces): seq<Token> {
    match ps
    case End => []
    case Then(W(word, _), rest) => [Word(word)] + Tokens(rest)
    case Then(P(c, _), rest) => [Punct(c)] + Tokens(rest)
    case Then(O(a, b, _), rest) => [Operator(a, b)] + Tokens(rest)
  }

  predicate AllBlank(s: string) {
    forall i :: 0 <= i < |s| ==> IsBlank(s[i])
  }

  /** The text behind a piece starts with this, if anything follows. */
  function Behind(p: Piece, rest: Pieces): string {
    if p.gap != "" then p.gap else if rest.Then? then Spelling(rest.head) else ""
  }

  /** The piece can be read, and what follows does not change how. */
  predicate Stands(p: Piece, rest: Pieces) {
    && AllBlank(p.gap)
    && var next := Behind(p, rest);
       match p
       case W(word, _) => IsWord(word) && next != "" && !IsWordChar(next[0])
       case P(c, _) => IsPunct(c) && (StartsOperator(c) ==> next != "" && !IsOperator(c, next[0]))
       case O(a, b, _) => IsOperator(a, b)
  }

  predicate Apart(ps: Pieces) {
    match ps
    case End => true
    case Then(p, rest) => Stands(p, rest) && Apart(rest)
  }

  lemma {:induction false} LexBlanks(s: string, b: string, ts: seq<Token>)
    requires AllBlank(s) && Lexes(b, ts)
    ensures Lexes(s + b, ts)
  {
    hide Lexes;
    if s == "" {
      assert s + b == b;
    } else {
      LexBlanks(s[1..], b, ts);
      LexBlank(s[0]);
      LexJoin([s[0]], [], s[1..] + b, ts);
      assert s + b == [s[0]] + (s[1..] + b) && [] + ts == ts;
    }
  }

  /** The text of pieces that stand apart is read as their tokens, whatever follows. */
  lemma {:induction false} PiecesLex(ps: Pieces)
    requires Apart(ps)
    ensures Lexes(Text(ps), Tokens(ps))
  {
    hide Lexes, IsWord, AllBlank;
    if ps == End {
      LexNothing();
    } else {
      var p, rest := ps.head, ps.tail;
      PiecesLex(rest);
      var b, ts := p.gap + Text(rest), Tokens(rest);
      LexBlanks(p.gap, Text(rest), ts);
      match p
      case W(word, gap) =>
        LexWordThen(word, b, ts);
        assert word + b == word + gap + Text(rest);
      case P(c, gap) =>
        if StartsOperator(c) {
          LexPunctThen(c, b, ts);
        } else {
          LexPunct(c);
          LexJoin([c], [Punct(c)], b, ts);
        }
        assert [c] + b == [c] + gap + Text(rest);
      case O(a, c, gap) =>
        LexOperator(a, c);
        LexJoin([a, c], [Operator(a, c)], b, ts);
        assert [a, c] + b == [a, c] + gap + Text(rest);
    }
  }
}
