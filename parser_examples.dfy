/**
 * Concrete inputs traced through the lexer and parser specifications, with the
 * operator table the parser's driver installs ('>' 10, '+' and '-' 20, '*' 40).
 * Each lemma walks the token stream one `get_next_tok` at a time.
 */
module ParserExamples {
  import opened Tokens
  import opened LexerSpec
  import opened LexerFacts
  import opened Ast
  import opened ParserSpec
  import opened ParserFacts

  /** The table installed by the driver before parsing (`add_op` calls). */
  const DriverOps: map<SChar, int> := map['>' as int := 10, '+' as int := 20, '-' as int := 20, '*' as int := 40]

  /** What the examples need of a table: the driver's precedences for `+`, `-`, `*`, and EOF not an operator. */
  predicate DriverLike(ops: map<SChar, int>) {
    && Prec(ops, '+' as int) == 20 && Prec(ops, '-' as int) == 20 && Prec(ops, '*' as int) == 40
    && Prec(ops, Narrow(TokEof)) == -1
  }

  lemma DriverOpsIsDriverLike()
    ensures DriverLike(DriverOps)
  {
    assert Narrow(TokEof) == -1;
  }

  /** A fresh lexer over `input` with table `ops`, after the driver's first `get_next_tok`. */
  function Primed(input: string, ops: map<SChar, int>): LexState {
    NextTok(LexState(Source(input, ' ' as int), "", "", TokEof, ops))
  }

  /** The initial look-ahead is a space, so the first token is that of the input's first character. */
  lemma PrimedIsFirstToken(input: string, ops: map<SChar, int>)
    ensures Primed(input, ops) == NextTok(LexState(Fresh(input), "", "", TokEof, ops))
  {
    var st := LexState(Fresh(input), "", "", TokEof, ops);
    assert AllSpace(" ");
    LeadingSpaceIgnored(st, " ", input);
    assert " " + input == [' '] + input;
    FreshCons(" ", input);
  }

  // Single-token steps used below, each for a state whose unread input is known.

  lemma Digit(st: LexState, d: char, t: string)
    requires IsDigitChar(d) && EndsRun(Numeral, t) && st.src == Fresh([d] + t)
    ensures NextTok(st) == st.(src := Fresh(t), num := [d], cur := TokNumber)
  {
    NumberToken(st, [d], t);
    assert st.(src := Fresh([d] + t)) == st;
  }

  lemma Letter(st: LexState, a: char, t: string)
    requires IsLetter(a) && EndsRun(Word, t) && st.src == Fresh([a] + t)
    ensures NextTok(st) == st.(src := Fresh(t), ident := [a], cur := TokIdentifier)
  {
    IdentifierToken(st, [a], t);
    assert st.(src := Fresh([a] + t)) == st;
  }

  lemma Punct(st: LexState, c: char, t: string)
    requires (IsOpChar(c) || c == '(' || c == ')' || c == ',') && st.src == Fresh([c] + t)
    ensures NextTok(st) == st.(src := Fresh(t), cur := c as int)
  {
    SingleCharToken(st, c, t);
    assert st.(src := Fresh([c] + t)) == st;
  }

  lemma SpaceLetter(st: LexState, a: char, t: string)
    requires IsLetter(a) && EndsRun(Word, t) && st.src == Fresh([' ', a] + t)
    ensures NextTok(st) == st.(src := Fresh(t), ident := [a], cur := TokIdentifier)
  {
    assert [' ', a] + t == [' '] + ([a] + t);
    assert AllSpace([' ']);
    LeadingSpaceIgnored(st, [' '], [a] + t);
    assert st.(src := Fresh([' '] + ([a] + t))) == st;
    Letter(st.(src := Fresh([a] + t)), a, t);
  }

  /** An operator character of the driver's table. */
  predicate IsOpChar(c: char) {
    c == '+' || c == '-' || c == '*'
  }

  /** A comment line is skipped: `# c` then a line break then `1` lexes as the number `1`. */
  lemma CommentThenNumber(st: LexState)
    ensures NextTok(st.(src := Fresh("# c\n1"))) == st.(src := Fresh(""), num := "1", cur := TokNumber)
  {
    assert NoLineEnd(" c");
    assert "# c\n1" == "#" + " c" + ['\n'] + "1";
    CommentSkipped(st, " c", '\n', "1");
    assert "1" == ['1'] + "";
    Digit(st.(src := Fresh("1")), '1', "");
  }

  /** Several dots do not split a number: `1.2.3` is one number token. */
  lemma DottedNumber(st: LexState)
    ensures NextTok(st.(src := Fresh("1.2.3"))) == st.(src := Fresh(""), num := "1.2.3", cur := TokNumber)
  {
    assert IsNumeral("1.2.3");
    assert "1.2.3" + "" == "1.2.3";
    NumberToken(st, "1.2.3", "");
  }

  /** A digit character. */
  predicate IsDigitChar(c: char) {
    '0' <= c <= '9'
  }

  /** An operator then a one-digit number: two tokens. */
  lemma OpThenDigit(st: LexState, o: char, d: char, t: string) returns (st1: LexState, st2: LexState)
    requires IsOpChar(o) && IsDigitChar(d) && EndsRun(Numeral, t) && st.src == Fresh([o, d] + t)
    ensures st1 == st.(src := Fresh([d] + t), cur := o as int) && NextTok(st) == st1
    ensures st2 == st.(src := Fresh(t), num := [d], cur := TokNumber) && NextTok(st1) == st2
  {
    assert [o, d] + t == [o] + ([d] + t);
    Punct(st, o, [d] + t);
    st1 := st.(src := Fresh([d] + t), cur := o as int);
    Digit(st1, d, t);
    st2 := st1.(src := Fresh(t), num := [d], cur := TokNumber);
  }

  /**
   * The token stream of `a o b p c` for digits `a`, `b`, `c` and operators `o`, `p`:
   * each state follows the one before it by one `get_next_tok`.
   */
  predicate ThreeTerms(a: char, o: char, b: char, p: char, c: char,
                       s0: LexState, s1: LexState, s2: LexState, s3: LexState, s4: LexState, s5: LexState)
  {
    && s0.cur == TokNumber && s0.num == [a] && NextTok(s0) == s1
    && s1.cur == o as int && NextTok(s1) == s2
    && s2.cur == TokNumber && s2.num == [b] && NextTok(s2) == s3
    && s3.cur == p as int && NextTok(s3) == s4
    && s4.cur == TokNumber && s4.num == [c] && NextTok(s4) == s5
    && s5.cur == TokEof
  }

  /** Lexing `a o b p c` gives the stream above. */
  lemma LexThreeTerms(a: char, o: char, b: char, p: char, c: char, ops: map<SChar, int>)
    returns (s0: LexState, s1: LexState, s2: LexState, s3: LexState, s4: LexState, s5: LexState)
    requires IsDigitChar(a) && IsDigitChar(b) && IsDigitChar(c) && IsOpChar(o) && IsOpChar(p)
    ensures ThreeTerms(a, o, b, p, c, s0, s1, s2, s3, s4, s5)
    ensures s0 == Primed([a, o, b, p, c], ops) && s1.ops == ops && s3.ops == ops
  {
    var input := [a, o, b, p, c];
    var init := LexState(Fresh(input), "", "", TokEof, ops);
    s0 := init.(src := Fresh([o, b, p, c]), num := [a], cur := TokNumber);
    assert Primed(input, ops) == s0 by {
      PrimedIsFirstToken(input, ops);
      assert input == [a] + [o, b, p, c];
      Digit(init, a, [o, b, p, c]);
    }
    assert [o, b, p, c] == [o, b] + [p, c];
    s1, s2 := OpThenDigit(s0, o, b, [p, c]);
    assert [p, c] == [p, c] + "";
    s3, s4 := OpThenDigit(s2, p, c, "");
    s5 := s4.(cur := TokEof);
    assert NextTok(s4) == s5 by {
      AtEnd(s4);
    }
  }

  /**
   * One round of the `parse_binop_rhs` loop over `op number`, when the operator
   * after the number does not bind tighter: the number becomes the right child.
   */
  lemma BinopLeft(v: Variant, prec: int, lhs: Expr, sA: LexState, sB: LexState, sC: LexState)
    requires sA.cur != TokEof && prec <= Prec(sA.ops, Narrow(sA.cur))
    requires NextTok(sA) == sB && sB.cur == TokNumber && NextTok(sB) == sC
    requires Prec(sC.ops, Narrow(sC.cur)) <= Prec(sA.ops, Narrow(sA.cur))
    ensures ParseBinopRhs(v, prec, lhs, sA)
      == ParseBinopRhs(v, prec, Binary(Narrow(sA.cur), Some(lhs), Number(sB.num)), sC)
  {
    PrimaryDispatch(v, sB);
    LooserPass(v, prec, lhs, sA);
  }

  /**
   * One round of the `parse_binop_rhs` loop over `op number`, corrected, when the
   * operator after the number binds tighter: the recursive call at one more than
   * the operator's precedence is handed the number and supplies the right child.
   */
  lemma TighterRoundCorrected(prec: int, lhs: Expr, sA: LexState, sB: LexState, sC: LexState, inner: Expr, sD: LexState)
    requires prec <= Prec(sA.ops, Narrow(sA.cur))
    requires NextTok(sA) == sB && sB.cur == TokNumber && NextTok(sB) == sC
    requires Prec(sA.ops, Narrow(sA.cur)) < Prec(sC.ops, Narrow(sC.cur))
    requires ParseBinopRhs(Corrected, Prec(sA.ops, Narrow(sA.cur)) + 1, Number(sB.num), sC) == Parsed(Ok(inner), sD)
    ensures BinopRound(Corrected, prec, lhs, sA) == Continue(Binary(Narrow(sA.cur), Some(lhs), inner), sD)
  {
    PrimaryDispatch(Corrected, sB);
    PassMerges(Corrected, prec, lhs, sA);
    TighterMerge(Corrected, lhs, Narrow(sA.cur), Prec(sA.ops, Narrow(sA.cur)), Number(sB.num), sC);
  }

  /** The loop after a round like the one above goes on from the merged node. */
  lemma BinopTighterCorrected(prec: int, lhs: Expr, sA: LexState, sB: LexState, sC: LexState, inner: Expr, sD: LexState)
    requires prec <= Prec(sA.ops, Narrow(sA.cur))
    requires NextTok(sA) == sB && sB.cur == TokNumber && NextTok(sB) == sC
    requires Prec(sA.ops, Narrow(sA.cur)) < Prec(sC.ops, Narrow(sC.cur))
    requires ParseBinopRhs(Corrected, Prec(sA.ops, Narrow(sA.cur)) + 1, Number(sB.num), sC) == Parsed(Ok(inner), sD)
    ensures ParseBinopRhs(Corrected, prec, lhs, sA)
      == ParseBinopRhs(Corrected, prec, Binary(Narrow(sA.cur), Some(lhs), inner), sD)
  {
    TighterRoundCorrected(prec, lhs, sA, sB, sC, inner, sD);
    ContinueStep(Corrected, prec, lhs, sA);
  }

  /** How `1+2*3` parses as written, given its token stream. */
  lemma PlusTimesTreeAsWritten(s0: LexState, s1: LexState, s2: LexState, s3: LexState, s4: LexState, s5: LexState)
    requires ThreeTerms('1', '+', '2', '*', '3', s0, s1, s2, s3, s4, s5)
    requires DriverLike(s1.ops) && s3.ops == s1.ops
    ensures ParseExpression(AsWritten, s0).result
      == Ok(Binary('+' as int, None, Binary('*' as int, Some(Number("1")), Number("3"))))
  {
    var one, three := Number("1"), Number("3");
    // The recursive call continues from `1`, not from `2`.
    var lost := Binary('*' as int, Some(one), three);
    assert ParseBinopRhs(AsWritten, 21, one, s3) == Parsed(Ok(lost), s5) by {
      BinopLeft(AsWritten, 21, one, s3, s4, s5);
    }
    var broken := Binary('+' as int, None, lost);
    PrimaryDispatch(AsWritten, s2);
    PassMerges(AsWritten, 0, one, s1);
    TighterMerge(AsWritten, one, '+' as int, 20, Number("2"), s3);
    ContinueStep(AsWritten, 0, one, s1);
    assert ParseBinopRhs(AsWritten, 0, broken, s5) == Parsed(Ok(broken), s5);
  }

  /** How `1+2*3` parses when corrected, given its token stream. */
  lemma PlusTimesTreeCorrected(s0: LexState, s1: LexState, s2: LexState, s3: LexState, s4: LexState, s5: LexState)
    requires ThreeTerms('1', '+', '2', '*', '3', s0, s1, s2, s3, s4, s5)
    requires DriverLike(s1.ops) && s3.ops == s1.ops
    ensures ParseExpression(Corrected, s0).result
      == Ok(Binary('+' as int, Some(Number("1")), Binary('*' as int, Some(Number("2")), Number("3"))))
  {
    var one, two, three := Number("1"), Number("2"), Number("3");
    // The recursive call continues from `2`.
    var times := Binary('*' as int, Some(two), three);
    PrimaryDispatch(Corrected, s0);
    BinopLeft(Corrected, 21, two, s3, s4, s5);
    BinopTighterCorrected(0, one, s1, s2, s3, times, s5);
  }

  /**
   * `1+2*3` as written: the `*` binds tighter, so the recursive call is handed the
   * left operand `1`; the `2` is lost and the `+` node has no left child.
   */
  lemma PlusTimesAsWritten(ops: map<SChar, int>)
    requires DriverLike(ops)
    ensures ParseExpression(AsWritten, Primed("1+2*3", ops)).result
      == Ok(Binary('+' as int, None, Binary('*' as int, Some(Number("1")), Number("3"))))
  {
    var s0, s1, s2, s3, s4, s5 := LexThreeTerms('1', '+', '2', '*', '3', ops);
    PlusTimesTreeAsWritten(s0, s1, s2, s3, s4, s5);
  }

  /** `1+2*3` with the recursive call handed the right operand: `1+(2*3)`. */
  lemma PlusTimesCorrected(ops: map<SChar, int>)
    requires DriverLike(ops)
    ensures ParseExpression(Corrected, Primed("1+2*3", ops)).result
      == Ok(Binary('+' as int, Some(Number("1")), Binary('*' as int, Some(Number("2")), Number("3"))))
  {
    var s0, s1, s2, s3, s4, s5 := LexThreeTerms('1', '+', '2', '*', '3', ops);
    PlusTimesTreeCorrected(s0, s1, s2, s3, s4, s5);
  }

  /**
   * How `1 o 2 p 3` parses when `p` binds no tighter than `o`, given its token
   * stream: the first operator is reduced first, `(1 o 2) p 3`.
   */
  lemma LeftGroupedTree(v: Variant, o: char, p: char,
                        s0: LexState, s1: LexState, s2: LexState, s3: LexState, s4: LexState, s5: LexState)
    requires IsOpChar(o) && IsOpChar(p)
    requires ThreeTerms('1', o, '2', p, '3', s0, s1, s2, s3, s4, s5)
    requires DriverLike(s1.ops) && s3.ops == s1.ops
    requires Prec(s1.ops, p as int) <= Prec(s1.ops, o as int)
    ensures ParseExpression(v, s0).result
      == Ok(Binary(p as int, Some(Binary(o as int, Some(Number("1")), Number("2"))), Number("3")))
  {
    var first := Binary(o as int, Some(Number("1")), Number("2"));
    PrimaryDispatch(v, s0);
    BinopLeft(v, 0, Number("1"), s1, s2, s3);
    BinopLeft(v, 0, first, s3, s4, s5);
  }

  /** Operators of equal precedence group to the left: `1-2-3` is `(1-2)-3`. */
  lemma MinusIsLeftAssociative(v: Variant, ops: map<SChar, int>)
    requires DriverLike(ops)
    ensures ParseExpression(v, Primed("1-2-3", ops)).result
      == Ok(Binary('-' as int, Some(Binary('-' as int, Some(Number("1")), Number("2"))), Number("3")))
  {
    var s0, s1, s2, s3, s4, s5 := LexThreeTerms('1', '-', '2', '-', '3', ops);
    LeftGroupedTree(v, '-', '-', s0, s1, s2, s3, s4, s5);
  }

  /** A tighter operator first is reduced first: `1*2+3` is `(1*2)+3`. */
  lemma TimesPlusGroupsLeft(v: Variant, ops: map<SChar, int>)
    requires DriverLike(ops)
    ensures ParseExpression(v, Primed("1*2+3", ops)).result
      == Ok(Binary('+' as int, Some(Binary('*' as int, Some(Number("1")), Number("2"))), Number("3")))
  {
    var s0, s1, s2, s3, s4, s5 := LexThreeTerms('1', '*', '2', '+', '3', ops);
    LeftGroupedTree(v, '*', '+', s0, s1, s2, s3, s4, s5);
  }

  /** A one-letter name that is not a keyword. */
  predicate IsLetter(c: char) {
    'a' <= c <= 'z'
  }

  /** The token stream of `f(a b)` for one-letter names `f`, `a`, `b`. */
  lemma LexNoCommas(f: char, a: char, b: char, ops: map<SChar, int>)
    returns (t0: LexState, t1: LexState, t2: LexState, t3: LexState, t4: LexState)
    requires IsLetter(f) && IsLetter(a) && IsLetter(b)
    ensures t0 == Primed([f, '(', a, ' ', b, ')'], ops)
    ensures t0.cur == TokIdentifier && t0.ident == [f] && NextTok(t0) == t1
    ensures t1.cur == '(' as int && NextTok(t1) == t2
    ensures t2.cur == TokIdentifier && t2.ident == [a] && NextTok(t2) == t3
    ensures t3.cur == TokIdentifier && t3.ident == [b] && NextTok(t3) == t4
    ensures t4.cur == ')' as int
  {
    var input := [f, '(', a, ' ', b, ')'];
    var init := LexState(Fresh(input), "", "", TokEof, ops);
    t0 := init.(src := Fresh(['(', a, ' ', b, ')']), ident := [f], cur := TokIdentifier);
    t1 := t0.(src := Fresh([a, ' ', b, ')']), cur := '(' as int);
    t2 := t1.(src := Fresh([' ', b, ')']), ident := [a], cur := TokIdentifier);
    t3 := t2.(src := Fresh([')']), ident := [b], cur := TokIdentifier);
    t4 := t3.(src := Fresh([]), cur := ')' as int);
    assert Primed(input, ops) == t0 by {
      PrimedIsFirstToken(input, ops);
      assert input == [f] + ['(', a, ' ', b, ')'];
      Letter(init, f, ['(', a, ' ', b, ')']);
    }
    assert NextTok(t0) == t1 by {
      assert ['(', a, ' ', b, ')'] == ['('] + [a, ' ', b, ')'];
      Punct(t0, '(', [a, ' ', b, ')']);
    }
    assert NextTok(t1) == t2 by {
      assert [a, ' ', b, ')'] == [a] + [' ', b, ')'];
      Letter(t1, a, [' ', b, ')']);
    }
    assert NextTok(t2) == t3 by {
      assert [' ', b, ')'] == [' ', b] + [')'];
      SpaceLetter(t2, b, [')']);
    }
    assert NextTok(t3) == t4 by {
      assert [')'] == [')'] + [];
      Punct(t3, ')', []);
    }
  }

  /** `f(a b)`: a name, `(`, identifiers with no separator between them, `)`. */
  lemma PrototypeWithoutCommas(ops: map<SChar, int>)
    ensures ParsePrototype(Primed("f(a b)", ops)).result == Ok(Prototype("f", ["a", "b"]))
  {
    var t0, t1, t2, t3, t4 := LexNoCommas('f', 'a', 'b', ops);
    assert ParseParams(t4, ["a", "b"]) == (["a", "b"], t4);
    assert ["a"] + [t3.ident] == ["a", "b"];
    assert ParseParams(t3, ["a"]) == (["a", "b"], t4);
    assert [] + [t2.ident] == ["a"];
    assert ParseParams(t2, []) == (["a", "b"], t4);
  }

  /** The token stream of `f(a, b)` up to the comma. */
  lemma LexWithComma(f: char, a: char, b: char, ops: map<SChar, int>)
    returns (t0: LexState, t1: LexState, t2: LexState, t3: LexState)
    requires IsLetter(f) && IsLetter(a) && IsLetter(b)
    ensures t0 == Primed([f, '(', a, ',', ' ', b, ')'], ops)
    ensures t0.cur == TokIdentifier && t0.ident == [f] && NextTok(t0) == t1
    ensures t1.cur == '(' as int && NextTok(t1) == t2
    ensures t2.cur == TokIdentifier && t2.ident == [a] && NextTok(t2) == t3
    ensures t3.cur == ',' as int
  {
    var input := [f, '(', a, ',', ' ', b, ')'];
    var init := LexState(Fresh(input), "", "", TokEof, ops);
    t0 := init.(src := Fresh(['(', a, ',', ' ', b, ')']), ident := [f], cur := TokIdentifier);
    t1 := t0.(src := Fresh([a, ',', ' ', b, ')']), cur := '(' as int);
    t2 := t1.(src := Fresh([',', ' ', b, ')']), ident := [a], cur := TokIdentifier);
    t3 := t2.(src := Fresh([' ', b, ')']), cur := ',' as int);
    assert Primed(input, ops) == t0 by {
      PrimedIsFirstToken(input, ops);
      assert input == [f] + ['(', a, ',', ' ', b, ')'];
      Letter(init, f, ['(', a, ',', ' ', b, ')']);
    }
    assert NextTok(t0) == t1 by {
      assert ['(', a, ',', ' ', b, ')'] == ['('] + [a, ',', ' ', b, ')'];
      Punct(t0, '(', [a, ',', ' ', b, ')']);
    }
    assert NextTok(t1) == t2 by {
      assert [a, ',', ' ', b, ')'] == [a] + [',', ' ', b, ')'];
      Letter(t1, a, [',', ' ', b, ')']);
    }
    assert NextTok(t2) == t3 by {
      assert [',', ' ', b, ')'] == [','] + [' ', b, ')'];
      Punct(t2, ',', [' ', b, ')']);
    }
  }

  /** `f(a, b)`: the comma ends the parameter list, and `)` is missing where it is expected. */
  lemma PrototypeWithCommaFails(ops: map<SChar, int>)
    ensures ParsePrototype(Primed("f(a, b)", ops)).result == Fail(ExpectedProtoClose)
  {
    var t0, t1, t2, t3 := LexWithComma('f', 'a', 'b', ops);
    assert [] + [t2.ident] == ["a"];
    assert ParseParams(t2, []) == (["a"], t3);
  }
}
