/**
 * Properties of the parser specification that hold for every token stream:
 * the argument and parameter loops collect in source order, `parse_primary`
 * dispatches on the current token, and, pass by pass, the `parse_binop_rhs`
 * loop merges operands; as written, meeting a tighter operator breaks the tree.
 */
module ParserFacts {
  import opened Tokens
  import opened LexerSpec
  import opened Ast
  import opened ParserSpec

  /** `acc` put in front of the arguments of a successful parse; a failure is kept as it is. */
  function Prepend(acc: seq<Expr>, p: Parsed<seq<Expr>>): Parsed<seq<Expr>> {
    if p.result.Ok? then Parsed(Ok(acc + p.result.value), p.rest) else p
  }

  /**
   * The argument loop does not depend on what it was handed: starting from `acc`
   * gives the same outcome and state as starting from nothing, with `acc` in front.
   */
  lemma {:induction false} ArgsAccumulate(v: Variant, s: LexState, acc: seq<Expr>)
    decreases Rank(s)
    ensures ParseArgs(v, s, acc) == Prepend(acc, ParseArgs(v, s, []))
  {
    var e := ParseExpression(v, s);
    if e.result.Fail? {
      assert ParseArgs(v, s, acc) == Parsed(Fail(e.result.diag), e.rest);
      assert ParseArgs(v, s, []) == Parsed(Fail(e.result.diag), e.rest);
    } else {
      var x := e.result.value;
      assert [] + [x] == [x];
      if e.rest.cur == ')' as int {
        assert ParseArgs(v, s, acc) == Parsed(Ok(acc + [x]), e.rest);
        assert ParseArgs(v, s, []) == Parsed(Ok([x]), e.rest);
      } else if e.rest.cur != ',' as int {
        assert ParseArgs(v, s, acc) == Parsed(Fail(ExpectedArgDelimiter), e.rest);
        assert ParseArgs(v, s, []) == Parsed(Fail(ExpectedArgDelimiter), e.rest);
      } else {
        var t := NextTok(e.rest);
        assert ParseArgs(v, s, acc) == ParseArgs(v, t, acc + [x]);
        assert ParseArgs(v, s, []) == ParseArgs(v, t, [x]);
        ArgsAccumulate(v, t, acc + [x]);
        ArgsAccumulate(v, t, [x]);
        var q := ParseArgs(v, t, []);
        if q.result.Ok? {
          ConcatAssoc(acc, [x], q.result.value);
        }
      }
    }
  }

  /**
   * One round of the argument loop, from an empty list: the expression parsed
   * first is the first argument, and a `,` after it hands the rest of the list
   * to the next round; anything but `)` or `,` is "expected ')' or ','".
   */
  lemma ArgsInSourceOrder(v: Variant, s: LexState)
    ensures var e := ParseExpression(v, s);
      e.result.Fail? ==> ParseArgs(v, s, []) == Parsed(Fail(e.result.diag), e.rest)
    ensures var e := ParseExpression(v, s);
      e.result.Ok? && e.rest.cur == ')' as int ==> ParseArgs(v, s, []) == Parsed(Ok([e.result.value]), e.rest)
    ensures var e := ParseExpression(v, s);
      e.result.Ok? && e.rest.cur != ')' as int && e.rest.cur != ',' as int ==>
      ParseArgs(v, s, []) == Parsed(Fail(ExpectedArgDelimiter), e.rest)
    ensures var e := ParseExpression(v, s);
      var q := ParseArgs(v, NextTok(e.rest), []);
      e.result.Ok? && e.rest.cur == ',' as int ==>
      && ParseArgs(v, s, []).rest == q.rest
      && (ParseArgs(v, s, []).result.Ok? <==> q.result.Ok?)
      && (q.result.Ok? ==> ParseArgs(v, s, []).result.value == [e.result.value] + q.result.value)
  {
    var e := ParseExpression(v, s);
    if e.result.Ok? {
      assert [] + [e.result.value] == [e.result.value];
      if e.rest.cur == ',' as int {
        ArgsAccumulate(v, NextTok(e.rest), [e.result.value]);
        assert ParseArgs(v, s, []) == ParseArgs(v, NextTok(e.rest), [e.result.value]);
      }
    }
  }

  /** `parse_primary` dispatches on the current token; any other token is "unknown token". */
  lemma PrimaryDispatch(v: Variant, s: LexState)
    ensures s.cur == TokIdentifier ==> ParsePrimary(v, s) == ParseIdentifierExpr(v, s)
    ensures s.cur == TokNumber ==> ParsePrimary(v, s) == Parsed(Ok(Number(s.num)), NextTok(s))
    ensures s.cur == '(' as int ==> ParsePrimary(v, s) == ParseParenExpr(v, s)
    ensures s.cur != TokIdentifier && s.cur != TokNumber && s.cur != '(' as int ==>
      ParsePrimary(v, s) == Parsed(Fail(UnknownToken), s)
  {
  }

  /**
   * Parentheses build no node: the result is the inner expression itself, and
   * an inner expression not followed by `)` is "expected ')'".
   */
  lemma ParenExprCases(v: Variant, s: LexState)
    requires s.cur == '(' as int
    ensures var e := ParseExpression(v, NextTok(s));
      e.result.Fail? ==> ParseParenExpr(v, s) == Parsed(Fail(e.result.diag), e.rest)
    ensures var e := ParseExpression(v, NextTok(s));
      e.result.Ok? && e.rest.cur != ')' as int ==> ParseParenExpr(v, s) == Parsed(Fail(ExpectedCloseParen), e.rest)
    ensures var e := ParseExpression(v, NextTok(s));
      e.result.Ok? && e.rest.cur == ')' as int ==> ParseParenExpr(v, s) == Parsed(Ok(e.result.value), NextTok(e.rest))
  {
  }

  /**
   * An identifier not followed by `(` is a reference to the variable named by
   * that identifier, and only the identifier is eaten.
   */
  lemma PlainVariable(v: Variant, s: LexState)
    requires s.cur == TokIdentifier && NextTok(s).cur != '(' as int
    ensures ParseIdentifierExpr(v, s) == ParseVariableExpr(s)
    ensures ParseIdentifierExpr(v, s) == Parsed(Ok(Variable(s.ident)), NextTok(s))
  {
  }

  /** `f()`: a call with no arguments, and the `)` is eaten. */
  lemma EmptyCall(v: Variant, s: LexState)
    requires s.cur == TokIdentifier && NextTok(s).cur == '(' as int && NextTok(NextTok(s)).cur == ')' as int
    ensures ParseIdentifierExpr(v, s) == Parsed(Ok(Call(s.ident, [])), NextTok(NextTok(NextTok(s))))
  {
  }

  /** A call's arguments are exactly what the argument loop collected after `(`. */
  lemma CallArguments(v: Variant, s: LexState)
    requires s.cur == TokIdentifier && NextTok(s).cur == '(' as int && NextTok(NextTok(s)).cur != ')' as int
    ensures var a := ParseArgs(v, NextTok(NextTok(s)), []);
      && (ParseIdentifierExpr(v, s).result.Ok? <==> a.result.Ok?)
      && (a.result.Ok? ==> ParseIdentifierExpr(v, s) == Parsed(Ok(Call(s.ident, a.result.value)), NextTok(a.rest)))
      && (a.result.Fail? ==> ParseIdentifierExpr(v, s) == Parsed(Fail(a.result.diag), a.rest))
  {
  }

  lemma ConcatAssoc<T>(a: seq<T>, b: seq<T>, c: seq<T>)
    ensures (a + b) + c == a + (b + c)
  {
  }

  /**
   * The parameter loop does not depend on what it was handed: starting from `acc`
   * gives the names collected from nothing, with `acc` in front.
   */
  lemma {:induction false} ParamsAccumulate(s: LexState, acc: seq<string>)
    decreases Rank(s)
    ensures ParseParams(s, acc) == (acc + ParseParams(s, []).0, ParseParams(s, []).1)
  {
    if s.cur == TokIdentifier {
      ParamsAccumulate(NextTok(s), acc + [s.ident]);
      ParamsAccumulate(NextTok(s), [s.ident]);
      ConcatAssoc(acc, [s.ident], ParseParams(NextTok(s), []).0);
      assert [] + [s.ident] == [s.ident];
    } else {
      assert acc + [] == acc;
    }
  }

  /** The names are those of the identifier tokens read, in the order they were read. */
  lemma ParamsInSourceOrder(s: LexState)
    requires s.cur == TokIdentifier
    ensures ParseParams(s, []).0 == [s.ident] + ParseParams(NextTok(s), []).0
    ensures ParseParams(s, []).1 == ParseParams(NextTok(s), []).1
  {
    ParamsAccumulate(NextTok(s), [s.ident]);
    assert [] + [s.ident] == [s.ident];
  }

  /** A round that goes on leaves the rest of the loop to the new `lhs` and state. */
  lemma ContinueStep(v: Variant, prec: int, lhs: Expr, s: LexState)
    requires BinopRound(v, prec, lhs, s).Continue?
    ensures var o := BinopRound(v, prec, lhs, s);
      ParseBinopRhs(v, prec, lhs, s) == ParseBinopRhs(v, prec, o.lhs, o.rest)
  {
  }

  /**
   * A pass at or above `prec` eats the operator and parses a primary: a failure
   * is returned as it is, and a success goes on to `Merge`.
   */
  lemma PassMerges(v: Variant, prec: int, lhs: Expr, s: LexState)
    requires prec <= Prec(s.ops, Narrow(s.cur))
    ensures var r := ParsePrimary(v, NextTok(s));
      r.result.Fail? ==> BinopRound(v, prec, lhs, s) == Return(r)
    ensures var r := ParsePrimary(v, NextTok(s));
      r.result.Ok? ==>
      BinopRound(v, prec, lhs, s) == Merge(v, lhs, Narrow(s.cur), Prec(s.ops, Narrow(s.cur)), r.result.value, r.rest)
  {
  }

  /**
   * When the operator after the right operand `rhs` binds tighter, the recursive
   * call at `curPrec + 1` is handed `lhs` as written and `rhs` when corrected; its
   * failure is returned, and its result becomes the right child, with no left
   * child as written and `lhs` when corrected.
   */
  lemma TighterMerge(v: Variant, lhs: Expr, curOp: SChar, curPrec: int, rhs: Expr, t: LexState)
    requires curPrec < Prec(t.ops, Narrow(t.cur))
    ensures var r2 := ParseBinopRhs(v, curPrec + 1, if v == AsWritten then lhs else rhs, t);
      r2.result.Fail? ==> Merge(v, lhs, curOp, curPrec, rhs, t) == Return(r2)
    ensures var r2 := ParseBinopRhs(v, curPrec + 1, if v == AsWritten then lhs else rhs, t);
      r2.result.Ok? ==>
      Merge(v, lhs, curOp, curPrec, rhs, t)
      == Continue(Binary(curOp, if v == AsWritten then None else Some(lhs), r2.result.value), r2.rest)
  {
  }

  /**
   * When the operator after the right operand `rhs` does not bind tighter, the
   * node is built from `lhs` and `rhs`, in that order, and nothing more is read.
   */
  lemma LooserMerge(v: Variant, lhs: Expr, curOp: SChar, curPrec: int, rhs: Expr, t: LexState)
    requires Prec(t.ops, Narrow(t.cur)) <= curPrec
    ensures Merge(v, lhs, curOp, curPrec, rhs, t) == Continue(Binary(curOp, Some(lhs), rhs), t)
  {
  }

  /**
   * A whole pass whose right operand, whatever primary it is, is not followed by
   * a tighter operator: the loop goes on from `lhs op rhs`, so operators of
   * equal or falling precedence group to the left.
   */
  lemma LooserPass(v: Variant, prec: int, lhs: Expr, s: LexState)
    requires prec <= Prec(s.ops, Narrow(s.cur))
    requires var r := ParsePrimary(v, NextTok(s));
      r.result.Ok? && Prec(r.rest.ops, Narrow(r.rest.cur)) <= Prec(s.ops, Narrow(s.cur))
    ensures var r := ParsePrimary(v, NextTok(s));
      ParseBinopRhs(v, prec, lhs, s) == ParseBinopRhs(v, prec, Binary(Narrow(s.cur), Some(lhs), r.result.value), r.rest)
  {
    var r := ParsePrimary(v, NextTok(s));
    PassMerges(v, prec, lhs, s);
    LooserMerge(v, lhs, Narrow(s.cur), Prec(s.ops, Narrow(s.cur)), r.result.value, r.rest);
    ContinueStep(v, prec, lhs, s);
  }

  /**
   * As written, a pass that meets a tighter operator after its right operand
   * goes on with a node that has no left child.
   */
  lemma TighterRound(prec: int, lhs: Expr, s: LexState)
    requires var r := ParsePrimary(AsWritten, NextTok(s));
      prec <= Prec(s.ops, Narrow(s.cur)) < Prec(r.rest.ops, Narrow(r.rest.cur))
    ensures var o := BinopRound(AsWritten, prec, lhs, s);
      o.Continue? ==> o.lhs.lhs.None?
  {
    var r := ParsePrimary(AsWritten, NextTok(s));
    PassMerges(AsWritten, prec, lhs, s);
    if r.result.Ok? {
      TighterMerge(AsWritten, lhs, Narrow(s.cur), Prec(s.ops, Narrow(s.cur)), r.result.value, r.rest);
    }
  }

  /**
   * As written, a pass that meets a tighter operator after its right operand
   * makes the whole result a tree with a missing left child, for every input
   * that parses.
   */
  lemma TighterBreaksTree(prec: int, lhs: Expr, s: LexState)
    requires var r := ParsePrimary(AsWritten, NextTok(s));
      prec <= Prec(s.ops, Narrow(s.cur)) < Prec(r.rest.ops, Narrow(r.rest.cur))
    requires ParseBinopRhs(AsWritten, prec, lhs, s).result.Ok?
    ensures !WellFormed(ParseBinopRhs(AsWritten, prec, lhs, s).result.value)
  {
    TighterRound(prec, lhs, s);
    var o := BinopRound(AsWritten, prec, lhs, s);
    assert o.Continue? && !WellFormed(o.lhs);
  }
}
