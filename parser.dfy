/**
 * The `Parser` class: it owns a `Lexer` and drives it token by token. Every
 * method is proved to return exactly what the matching `ParserSpec` function
 * returns for the lexer state on entry, and to leave the lexer in the state that
 * function gives, with the code as written (`ParserSpec.AsWritten`).
 */
module Parsing {
  import opened Tokens
  import opened LexerSpec
  import opened Ast
  import Spec = ParserSpec
  import ParserFacts
  import opened Lexing

  class Parser {
    const lexer: Lexer

    /** A parser over `input`; the driver installs the operators and reads the first token. */
    constructor (input: string)
      ensures fresh(lexer) && lexer.Valid() && !lexer.primed
      ensures lexer.input == input && lexer.Src() == Source(input, ' ' as int)
      ensures lexer.identifierStr == "" && lexer.opPrecedence == map[]
    {
      lexer := new Lexer(input);
    }

    /** The lexer has read its first token, so its current token is meaningful. */
    ghost predicate Ready()
      reads this, lexer
    {
      lexer.Valid() && lexer.primed
    }

    /** `parse_number_expr` */
    method ParseNumberExpr() returns (r: Spec.Result<Expr>)
      requires Ready() && lexer.curTok == TokNumber
      modifies lexer
      ensures Ready()
      ensures Spec.ParseNumberExpr(old(lexer.State())) == Spec.Parsed(r, lexer.State())
    {
      r := Spec.Ok(Number(lexer.TokenNumber()));
      var _ := lexer.NextToken();
    }

    /** `parse_variable_expr` */
    method ParseVariableExpr() returns (r: Spec.Result<Expr>)
      requires Ready() && lexer.curTok == TokIdentifier
      modifies lexer
      ensures Ready()
      ensures Spec.ParseVariableExpr(old(lexer.State())) == Spec.Parsed(r, lexer.State())
    {
      r := Spec.Ok(Variable(lexer.TokenText()));
      var _ := lexer.NextToken();
    }

    /** `parse_paren_expr` */
    method ParseParenExpr() returns (r: Spec.Result<Expr>)
      requires Ready() && lexer.curTok == '(' as int
      modifies lexer
      decreases Rank(lexer.State()), 1
      ensures Ready()
      ensures Spec.ParseParenExpr(Spec.AsWritten, old(lexer.State())) == Spec.Parsed(r, lexer.State())
    {
      var _ := lexer.NextToken();  // eat '('
      var e := ParseExpression();
      if e.Fail? {
        return Spec.Fail(e.diag);
      }
      if lexer.CurTok() != ')' as int {
        return Spec.Fail(Spec.ExpectedCloseParen);
      }
      var _ := lexer.NextToken();  // eat ')'
      return e;
    }

    /** `parse_identifier_expr`, with its argument loop. */
    method ParseIdentifierExpr() returns (r: Spec.Result<Expr>)
      requires Ready() && lexer.curTok == TokIdentifier
      modifies lexer
      decreases Rank(lexer.State()), 1
      ensures Ready()
      ensures Spec.ParseIdentifierExpr(Spec.AsWritten, old(lexer.State())) == Spec.Parsed(r, lexer.State())
    {
      ghost var s := lexer.State();
      var idName := lexer.TokenText();
      var _ := lexer.NextToken();  // eat identifier
      if lexer.CurTok() != '(' as int {
        return Spec.Ok(Variable(idName));
      }
      var _ := lexer.NextToken();  // eat '('
      var args: seq<Expr> := [];
      if lexer.CurTok() != ')' as int {
        ghost var s2 := lexer.State();
        while true
          invariant Ready()
          invariant Rank(lexer.State()) < Rank(s)
          invariant Spec.ParseArgs(Spec.AsWritten, lexer.State(), args) == Spec.ParseArgs(Spec.AsWritten, s2, [])
          decreases Rank(lexer.State())
        {
          var arg := ParseExpression();
          if arg.Fail? {
            return Spec.Fail(arg.diag);
          }
          args := args + [arg.value];
          if lexer.CurTok() == ')' as int {
            break;
          }
          if lexer.CurTok() != ',' as int {
            return Spec.Fail(Spec.ExpectedArgDelimiter);
          }
          var _ := lexer.NextToken();  // eat ','
        }
      }
      var _ := lexer.NextToken();  // eat ')'
      return Spec.Ok(Call(idName, args));
    }

    /** `parse_primary` */
    method ParsePrimary() returns (r: Spec.Result<Expr>)
      requires Ready()
      modifies lexer
      decreases Rank(lexer.State()), 2
      ensures Ready()
      ensures Spec.ParsePrimary(Spec.AsWritten, old(lexer.State())) == Spec.Parsed(r, lexer.State())
    {
      var tok := lexer.CurTok();
      if tok == TokIdentifier {
        r := ParseIdentifierExpr();
      } else if tok == TokNumber {
        r := ParseNumberExpr();
      } else if tok == '(' as int {
        r := ParseParenExpr();
      } else {
        r := Spec.Fail(Spec.UnknownToken);
      }
    }

    /** `parse_expression` */
    method ParseExpression() returns (r: Spec.Result<Expr>)
      requires Ready()
      modifies lexer
      decreases Rank(lexer.State()), 4
      ensures Ready()
      ensures Spec.ParseExpression(Spec.AsWritten, old(lexer.State())) == Spec.Parsed(r, lexer.State())
    {
      var lhs := ParsePrimary();
      if lhs.Fail? {
        return lhs;
      }
      r := ParseBinopRhs(0, lhs.value);
    }

    /**
     * `parse_binop_rhs`. When the operator after the right operand binds tighter,
     * the recursive call is handed `lhs`, and the node then built has no left
     * child, as in the original.
     */
    method ParseBinopRhs(prec: int, lhs0: Expr) returns (r: Spec.Result<Expr>)
      requires Ready()
      modifies lexer
      decreases Rank(lexer.State()), 3
      ensures Ready()
      ensures Spec.ParseBinopRhs(Spec.AsWritten, prec, lhs0, old(lexer.State())) == Spec.Parsed(r, lexer.State())
    {
      ghost var s0 := lexer.State();
      var lhs := lhs0;
      while true
        invariant Ready()
        invariant Rank(lexer.State()) <= Rank(s0)
        invariant Spec.ParseBinopRhs(Spec.AsWritten, prec, lhs, lexer.State())
          == Spec.ParseBinopRhs(Spec.AsWritten, prec, lhs0, s0)
        decreases Rank(lexer.State())
      {
        var curOp := Narrow(lexer.CurTok());
        var curPrec := lexer.OpPrec(curOp);
        if curPrec < prec {
          return Spec.Ok(lhs);
        }
        ghost var sOp := lexer.State();
        var _ := lexer.NextToken();  // eat op
        var rhs := ParsePrimary();
        ParserFacts.PassMerges(Spec.AsWritten, prec, lhs, sOp);
        if rhs.Fail? {
          return rhs;
        }
        ghost var t := lexer.State();
        var nextOp := Narrow(lexer.CurTok());
        var nextPrec := lexer.OpPrec(nextOp);
        if curPrec < nextPrec {
          ParserFacts.TighterMerge(Spec.AsWritten, lhs, curOp, curPrec, rhs.value, t);
          rhs := ParseBinopRhs(curPrec + 1, lhs);
          if rhs.Fail? {
            return rhs;
          }
          ParserFacts.ContinueStep(Spec.AsWritten, prec, lhs, sOp);
          lhs := Binary(curOp, None, rhs.value);
        } else {
          ParserFacts.ContinueStep(Spec.AsWritten, prec, lhs, sOp);
          lhs := Binary(curOp, Some(lhs), rhs.value);
        }
      }
    }

    /** `parse_prototype`, with its parameter loop. */
    method ParsePrototype() returns (r: Spec.Result<Prototype>)
      requires Ready()
      modifies lexer
      ensures Ready()
      ensures Spec.ParsePrototype(old(lexer.State())) == Spec.Parsed(r, lexer.State())
    {
      if lexer.CurTok() != TokIdentifier {
        return Spec.Fail(Spec.ExpectedFunctionName);
      }
      var fnName := lexer.TokenText();
      var _ := lexer.NextToken();  // eat the name
      if lexer.CurTok() != '(' as int {
        return Spec.Fail(Spec.ExpectedProtoOpen);
      }
      ghost var s1 := lexer.State();
      var args: seq<string> := [];
      var tok := lexer.NextToken();
      while tok == TokIdentifier
        invariant Ready() && tok == lexer.curTok
        invariant Spec.ParseParams(lexer.State(), args) == Spec.ParseParams(NextTok(s1), [])
        decreases Rank(lexer.State())
      {
        args := args + [lexer.TokenText()];
        tok := lexer.NextToken();
      }
      if lexer.CurTok() != ')' as int {
        return Spec.Fail(Spec.ExpectedProtoClose);
      }
      var _ := lexer.NextToken();  // eat ')'
      return Spec.Ok(Prototype(fnName, args));
    }

    /** `parse_definition` */
    method ParseDefinition() returns (r: Spec.Result<Function>)
      requires Ready() && lexer.curTok == TokDef
      modifies lexer
      ensures Ready()
      ensures Spec.ParseDefinition(Spec.AsWritten, old(lexer.State())) == Spec.Parsed(r, lexer.State())
    {
      var _ := lexer.NextToken();  // eat `def`
      var proto := ParsePrototype();
      if proto.Fail? {
        return Spec.Fail(proto.diag);
      }
      var body := ParseExpression();
      if body.Fail? {
        return Spec.Fail(body.diag);
      }
      return Spec.Ok(Function(proto.value, body.value));
    }

    /** `parse_extern` */
    method ParseExtern() returns (r: Spec.Result<Prototype>)
      requires Ready() && lexer.curTok == TokExtern
      modifies lexer
      ensures Ready()
      ensures Spec.ParseExtern(old(lexer.State())) == Spec.Parsed(r, lexer.State())
    {
      var _ := lexer.NextToken();  // eat `extern`
      r := ParsePrototype();
    }

    /** `parse_top_level_expr` */
    method ParseTopLevelExpr() returns (r: Spec.Result<Function>)
      requires Ready()
      modifies lexer
      ensures Ready()
      ensures Spec.ParseTopLevelExpr(Spec.AsWritten, old(lexer.State())) == Spec.Parsed(r, lexer.State())
    {
      var e := ParseExpression();
      if e.Fail? {
        return Spec.Fail(e.diag);
      }
      return Spec.Ok(Function(Prototype(Spec.AnonymousName, []), e.value));
    }

    /** `handle_definition`: on failure, skip one token. */
    method HandleDefinition()
      requires Ready() && lexer.curTok == TokDef
      modifies lexer
      ensures Ready()
      ensures lexer.State() == Spec.HandleDefinition(Spec.AsWritten, old(lexer.State()))
    {
      var f := ParseDefinition();
      if f.Fail? {
        var _ := lexer.NextToken();
      }
    }

    /** `handle_extern`: on failure, skip one token. */
    method HandleExtern()
      requires Ready() && lexer.curTok == TokExtern
      modifies lexer
      ensures Ready()
      ensures lexer.State() == Spec.HandleExtern(old(lexer.State()))
    {
      var p := ParseExtern();
      if p.Fail? {
        var _ := lexer.NextToken();
      }
    }

    /** `handle_top_level_expresion`: on failure, skip one token. */
    method HandleTopLevelExpression()
      requires Ready()
      modifies lexer
      ensures Ready()
      ensures lexer.State() == Spec.HandleTopLevelExpression(Spec.AsWritten, old(lexer.State()))
    {
      var f := ParseTopLevelExpr();
      if f.Fail? {
        var _ := lexer.NextToken();
      }
    }
  }
}
