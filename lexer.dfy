/**
 * The `Lexer` class: its fields are updated in place by `NextToken` (the
 * original's `get_next_tok`) and `AddOp`. Each mutating method is proved to
 * move the abstract state `State()` exactly as the pure function
 * `LexerSpec.NextTok` (resp. a map update) does.
 */
module Lexing {
  import opened Tokens
  import opened LexerSpec

  class Lexer {
    /** The character stream, read front to back through `pos`. */
    const input: string
    var pos: nat
    /** The look-ahead character (`static int last_char`); starts as a space. */
    var lastChar: CharOrEof
    var identifierStr: string
    /** The text of the most recent number token; the original converts it with strtod. */
    var numberText: string
    var curTok: int
    var opPrecedence: map<SChar, int>
    /** Whether `NextToken` has run at least once; before that `curTok` and `numberText` are unset. */
    ghost var primed: bool

    ghost function Src(): Source
      reads this
      requires pos <= |input|
    {
      Source(input[pos..], lastChar)
    }

    ghost function State(): LexState
      reads this
      requires pos <= |input|
    {
      LexState(Src(), identifierStr, numberText, curTok, opPrecedence)
    }

    ghost predicate Valid()
      reads this
    {
      pos <= |input| && (primed ==> Coherent(State()))
    }

    /** A lexer over `input`; the token and number fields are left unset, as in the original. */
    constructor (input: string)
      ensures Valid() && !primed
      ensures this.input == input && Src() == Source(input, ' ' as int)
      ensures identifierStr == "" && opPrecedence == map[]
    {
      this.input := input;
      pos := 0;
      lastChar := ' ' as int;
      identifierStr := "";
      numberText := "";
      curTok := TokEof;
      opPrecedence := map[];
      primed := false;
    }

    /** `last_char = getchar()`. */
    method ReadChar()
      requires pos <= |input|
      modifies this`pos, this`lastChar
      ensures pos <= |input|
      ensures Src() == GetChar(old(Src()))
    {
      if pos < |input| {
        lastChar := input[pos] as int;
        pos := pos + 1;
        assert input[pos - 1..][1..] == input[pos..];
      } else {
        lastChar := EOF;
      }
    }

    /** The whitespace loop of `get_next_tok`. */
    method SkipWhitespace()
      requires pos <= |input|
      modifies this`pos, this`lastChar
      ensures pos <= |input|
      ensures Src() == SkipSpace(old(Src()))
    {
      while IsSpace(lastChar) || lastChar == '\n' as int
        invariant pos <= |input|
        invariant SkipSpace(Src()) == SkipSpace(old(Src()))
        decreases Remaining(Src())
      {
        ReadChar();
      }
    }

    /**
     * The do-while loops of `get_next_tok` that collect an identifier or a number:
     * take the look-ahead and read on while it continues the run.
     */
    method CollectRun(k: Run) returns (text: string)
      requires pos <= |input| && InRun(k, lastChar)
      modifies this`pos, this`lastChar
      ensures pos <= |input|
      ensures (Src(), text) == Munch(k, old(Src()), "")
    {
      text := [];
      text := text + [lastChar as char];
      ReadChar();
      while InRun(k, lastChar)
        invariant pos <= |input|
        invariant Munch(k, Src(), text) == Munch(k, old(Src()), "")
        decreases Remaining(Src())
      {
        text := text + [lastChar as char];
        ReadChar();
      }
    }

    /** The comment loop of `get_next_tok`: read up to a line end or EOF. */
    method SkipCommentText()
      requires pos <= |input|
      modifies this`pos, this`lastChar
      ensures pos <= |input|
      ensures Src() == SkipToEol(old(Src()))
    {
      while lastChar != EOF && lastChar != '\n' as int && lastChar != '\r' as int
        invariant pos <= |input|
        invariant SkipToEol(Src()) == SkipToEol(old(Src()))
        decreases Remaining(Src())
      {
        ReadChar();
      }
    }

    /** The identifier branch of `get_next_tok`: collect the word, then classify it. */
    method LexWord()
      requires pos <= |input| && IsIdentStart(lastChar)
      modifies this`pos, this`lastChar, this`identifierStr, this`curTok
      ensures pos <= |input|
      ensures (Src(), identifierStr) == Munch(Word, old(Src()), "")
      ensures curTok == Keyword(identifierStr)
    {
      identifierStr := CollectRun(Word);
      if identifierStr == "def" {
        curTok := TokDef;
      } else if identifierStr == "extern" {
        curTok := TokExtern;
      } else {
        curTok := TokIdentifier;
      }
    }

    /** The number branch of `get_next_tok`: collect the digits and dots. */
    method LexNumber()
      requires pos <= |input| && IsNumberStart(lastChar)
      modifies this`pos, this`lastChar, this`numberText, this`curTok
      ensures pos <= |input|
      ensures (Src(), numberText) == Munch(Numeral, old(Src()), "")
      ensures curTok == TokNumber
    {
      var numStr := CollectRun(Numeral);
      numberText := numStr;
      curTok := TokNumber;
    }

    /** `get_next_tok`: classify the next token, record it in `curTok` and return it. */
    method NextToken() returns (tok: int)
      requires Valid()
      modifies this
      ensures Valid() && primed
      ensures State() == NextTok(old(State()))
      ensures tok == curTok
      decreases Remaining(Src())
    {
      ghost var st0 := State();
      SkipWhitespace();
      ghost var s := Src();
      assert s == SkipSpace(st0.src);

      // Identifier or keyword
      if lastChar == '_' as int || IsAlpha(lastChar) {
        LexWord();
        primed := true;
        WordStep(st0);
        assert State() == NextTok(st0);
        return curTok;
      }

      // Number
      if IsDigit(lastChar) || lastChar == '.' as int {
        LexNumber();
        primed := true;
        NumberStep(st0);
        assert State() == NextTok(st0);
        return curTok;
      }

      // Comment
      if lastChar == '#' as int {
        SkipCommentText();
        if lastChar != EOF {
          CommentStep(st0);
          assert State() == st0.(src := Src());
          assert Valid() by {
            if primed {
              CoherentIgnoresSource(st0, Src());
            }
          }
          tok := NextToken();
          return;
        }
      }

      // End of input
      if lastChar == EOF {
        curTok := TokEof;
        primed := true;
        EndStep(st0);
        assert State() == NextTok(st0);
        return curTok;
      }

      // Any other character is its own token
      var thisChar := lastChar;
      ReadChar();
      curTok := thisChar;
      primed := true;
      OtherStep(st0);
      return curTok;
    }

    /** `get_cur_tok`: the most recent token, read without changing anything. */
    function CurTok(): (t: int)
      reads this
      requires Valid() && primed
      ensures t < 0 ==> IsReserved(t)
    {
      curTok
    }

    /** `get_tok_value<std::string_view>`: the text of the last word token. */
    function TokenText(): (text: string)
      reads this
      requires Valid()
      ensures primed && IsWordToken(curTok) ==> IsIdentifier(text) && curTok == Keyword(text)
    {
      identifierStr
    }

    /** `get_tok_value<double>`, kept as the number's text. */
    function TokenNumber(): (text: string)
      reads this
      requires Valid() && primed
      ensures curTok == TokNumber ==> IsNumeral(text)
    {
      numberText
    }

    /** `add_op`: set the precedence of `op`, replacing any earlier entry. */
    method AddOp(op: SChar, prec: int)
      requires Valid()
      modifies this`opPrecedence
      ensures Valid()
      ensures opPrecedence == old(opPrecedence)[op := prec]
      ensures State() == old(State()).(ops := opPrecedence)
    {
      opPrecedence := opPrecedence[op := prec];
    }

    /** `get_op_prec`: the precedence of `op`, or -1 when it is not an operator. */
    function OpPrec(op: SChar): (p: int)
      reads this
      ensures op !in opPrecedence ==> p == -1
      ensures op in opPrecedence ==> p == opPrecedence[op]
    {
      Prec(opPrecedence, op)
    }
  }

  lemma CoherentIgnoresSource(st: LexState, src: Source)
    requires Coherent(st)
    ensures Coherent(st.(src := src))
  {
  }

  // The branches of `NextTok`, one lemma each, so that `NextToken` can use them one at a time.

  lemma WordStep(st: LexState)
    requires IsIdentStart(SkipSpace(st.src).last)
    ensures var (s', w) := Munch(Word, SkipSpace(st.src), "");
      NextTok(st) == st.(src := s', ident := w, cur := Keyword(w))
  {
  }

  lemma NumberStep(st: LexState)
    requires IsNumberStart(SkipSpace(st.src).last)
    ensures var (s', w) := Munch(Numeral, SkipSpace(st.src), "");
      NextTok(st) == st.(src := s', num := w, cur := TokNumber)
  {
  }

  lemma CommentStep(st: LexState)
    requires SkipSpace(st.src).last == '#' as int && SkipToEol(SkipSpace(st.src)).last != EOF
    ensures NextTok(st) == NextTok(st.(src := SkipToEol(SkipSpace(st.src))))
  {
  }

  lemma EndStep(st: LexState)
    requires var s := SkipSpace(st.src);
      s.last == EOF || (s.last == '#' as int && SkipToEol(s).last == EOF)
    ensures var s := SkipSpace(st.src);
      NextTok(st) == st.(src := if s.last == EOF then s else SkipToEol(s), cur := TokEof)
  {
  }

  lemma OtherStep(st: LexState)
    requires var s := SkipSpace(st.src);
      !IsIdentStart(s.last) && !IsNumberStart(s.last) && s.last != '#' as int && s.last != EOF
    ensures var s := SkipSpace(st.src);
      NextTok(st) == st.(src := GetChar(s), cur := s.last)
  {
  }
}
