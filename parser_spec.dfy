/**
 * The recursive-descent parser as pure functions over lexer states. Each
 * `parse_*` member of the original becomes a function from the lexer state on
 * entry to the result and the lexer state on return; the class in parser.dfy is
 * proved to compute exactly these functions.
 *
 * A failure carries the one diagnostic the original logs before returning null.
 *
 * `Variant` selects what `parse_binop_rhs` hands to its recursive call when the
 * next operator binds tighter: the code as written passes `lhs` (and then builds
 * the node with a moved-from, null left child); the corrected parser passes
 * `rhs`. The class uses `AsWritten`.
 */
module ParserSpec {
  import opened Tokens
  import opened LexerSpec
  import opened Ast

  /** The messages of the failure paths, in the order they appear in the parser. */
  datatype Diagnostic =
    | ExpectedCloseParen      // "expected ')'"
    | ExpectedArgDelimiter    // "expected ')' or ',' in argument list"
    | UnknownToken            // "unknown token when expecting an expression"
    | ExpectedFunctionName    // "expected function name in prototype"
    | ExpectedProtoOpen       // "expected '(' in prototype"
    | ExpectedProtoClose      // "expected ')' in prototype"

  datatype Result<T> = Ok(value: T) | Fail(diag: Diagnostic)

  /** A parse result together with the lexer state the parse leaves behind. */
  datatype Parsed<T> = Parsed(result: Result<T>, rest: LexState)

  datatype Variant = AsWritten | Corrected

  /** The name `parse_top_level_expr` gives the prototype it wraps an expression in. */
  const AnonymousName: string := "__anony_expr"

  /** `parse_number_expr`: a leaf with the current number, then one token is eaten. */
  function ParseNumberExpr(s: LexState): (p: Parsed<Expr>)
    requires s.cur == TokNumber
    ensures p.result.Ok? && p.result.value.Number? && WellFormed(p.result.value)
    ensures Coherent(s) ==> IsNumeral(p.result.value.text)
    ensures p.rest.ops == s.ops && Rank(p.rest) < Rank(s)
  {
    Parsed(Ok(Number(s.num)), NextTok(s))
  }

  /** `parse_variable_expr`: a leaf with the current identifier, then one token is eaten. */
  function ParseVariableExpr(s: LexState): (p: Parsed<Expr>)
    requires s.cur == TokIdentifier
    ensures p.result.Ok? && p.result.value.Variable? && WellFormed(p.result.value)
    ensures Coherent(s) ==> IsIdentifier(p.result.value.name)
    ensures p.rest.ops == s.ops && Rank(p.rest) < Rank(s)
  {
    Parsed(Ok(Variable(s.ident)), NextTok(s))
  }

  /** `parse_paren_expr`: `(` expression `)`, giving the inner expression itself. */
  function ParseParenExpr(v: Variant, s: LexState): (p: Parsed<Expr>)
    requires s.cur == '(' as int
    decreases Rank(s), 1
    ensures p.rest.ops == s.ops
    ensures Rank(p.rest) < Rank(s)
    ensures v == Corrected && p.result.Ok? ==> WellFormed(p.result.value)
  {
    var e := ParseExpression(v, NextTok(s));  // eat '('
    if e.result.Fail? then
      Parsed(Fail(e.result.diag), e.rest)
    else if e.rest.cur != ')' as int then
      Parsed(Fail(ExpectedCloseParen), e.rest)
    else
      Parsed(Ok(e.result.value), NextTok(e.rest))  // eat ')'
  }

  /**
   * `parse_identifier_expr`: a variable, or a call when the identifier is followed
   * by `(`. The name is taken before the identifier is eaten.
   */
  function ParseIdentifierExpr(v: Variant, s: LexState): (p: Parsed<Expr>)
    requires s.cur == TokIdentifier
    decreases Rank(s), 1
    ensures p.rest.ops == s.ops
    ensures Rank(p.rest) < Rank(s)
    ensures v == Corrected && p.result.Ok? ==> WellFormed(p.result.value)
  {
    var s1 := NextTok(s);  // eat identifier
    if s1.cur != '(' as int then
      Parsed(Ok(Variable(s.ident)), s1)
    else
      var s2 := NextTok(s1);  // eat '('
      if s2.cur == ')' as int then
        Parsed(Ok(Call(s.ident, [])), NextTok(s2))
      else
        var a := ParseArgs(v, s2, []);
        if a.result.Fail? then
          Parsed(Fail(a.result.diag), a.rest)
        else
          Parsed(Ok(Call(s.ident, a.result.value)), NextTok(a.rest))  // eat ')'
  }

  /**
   * The argument loop of `parse_identifier_expr`: expressions separated by `,`,
   * appended to `acc` in source order, up to (not including) the closing `)`.
   */
  function ParseArgs(v: Variant, s: LexState, acc: seq<Expr>): (p: Parsed<seq<Expr>>)
    decreases Rank(s), 5
    ensures p.rest.ops == s.ops
    ensures Rank(p.rest) <= Rank(s)
    ensures p.result.Ok? ==>
      p.rest.cur == ')' as int && |p.result.value| > |acc| && p.result.value[..|acc|] == acc
    ensures v == Corrected && p.result.Ok? && (forall i | 0 <= i < |acc| :: WellFormed(acc[i])) ==>
      forall i | 0 <= i < |p.result.value| :: WellFormed(p.result.value[i])
  {
    var e := ParseExpression(v, s);
    if e.result.Fail? then
      Parsed(Fail(e.result.diag), e.rest)
    else
      var args := acc + [e.result.value];
      if e.rest.cur == ')' as int then
        Parsed(Ok(args), e.rest)
      else if e.rest.cur != ',' as int then
        Parsed(Fail(ExpectedArgDelimiter), e.rest)
      else
        ParseArgs(v, NextTok(e.rest), args)  // eat ','
  }

  /** `parse_primary`: dispatch on the current token. */
  function ParsePrimary(v: Variant, s: LexState): (p: Parsed<Expr>)
    decreases Rank(s), 2
    ensures p.rest.ops == s.ops
    ensures Rank(p.rest) <= Rank(s)
    ensures p.rest != s || p.result.Ok? ==> Rank(p.rest) < Rank(s)
    ensures v == Corrected && p.result.Ok? ==> WellFormed(p.result.value)
  {
    if s.cur == TokIdentifier then
      ParseIdentifierExpr(v, s)
    else if s.cur == TokNumber then
      ParseNumberExpr(s)
    else if s.cur == '(' as int then
      ParseParenExpr(v, s)
    else
      Parsed(Fail(UnknownToken), s)
  }

  /** `parse_expression`: a primary, then the binary-operator chain at precedence 0. */
  function ParseExpression(v: Variant, s: LexState): (p: Parsed<Expr>)
    decreases Rank(s), 4
    ensures p.rest.ops == s.ops
    ensures Rank(p.rest) <= Rank(s)
    ensures p.rest != s || p.result.Ok? ==> Rank(p.rest) < Rank(s)
    ensures v == Corrected && p.result.Ok? ==> WellFormed(p.result.value)
  {
    var l := ParsePrimary(v, s);
    if l.result.Fail? then l else ParseBinopRhs(v, 0, l.result.value, l.rest)
  }

  /** How one pass through the body of the `parse_binop_rhs` loop ends. */
  datatype Round =
    | Return(p: Parsed<Expr>)            // the loop returns: `lhs` itself, or null
    | Continue(lhs: Expr, rest: LexState) // the loop goes on with a new `lhs`

  /**
   * `parse_binop_rhs`: precedence climbing. The loop runs `BinopRound` until a
   * pass returns; each pass that does not return leaves a new left operand.
   */
  function ParseBinopRhs(v: Variant, prec: int, lhs: Expr, s: LexState): (p: Parsed<Expr>)
    decreases Rank(s), 4
    ensures p.rest.ops == s.ops
    ensures Rank(p.rest) <= Rank(s)
    ensures Prec(s.ops, Narrow(s.cur)) < prec ==> p == Parsed(Ok(lhs), s)
    ensures Prec(s.ops, Narrow(s.cur)) >= prec && s.cur != TokEof ==> Rank(p.rest) < Rank(s)
    ensures v == Corrected && WellFormed(lhs) && p.result.Ok? ==> WellFormed(p.result.value)
    ensures v == AsWritten && !WellFormed(lhs) && p.result.Ok? ==> !WellFormed(p.result.value)
  {
    match BinopRound(v, prec, lhs, s)
    case Return(p) => p
    case Continue(lhs', s') => ParseBinopRhs(v, prec, lhs', s')
  }

  /**
   * One pass through the loop: stop at an operator of precedence below `prec`;
   * otherwise eat it and parse the primary after it, then `Merge`.
   */
  function BinopRound(v: Variant, prec: int, lhs: Expr, s: LexState): (o: Round)
    decreases Rank(s), 3
    ensures o.Return? ==> o.p.rest.ops == s.ops && Rank(o.p.rest) <= Rank(s)
    ensures o.Continue? ==> o.rest.ops == s.ops && Rank(o.rest) < Rank(s)
    ensures Prec(s.ops, Narrow(s.cur)) < prec <==> o == Return(Parsed(Ok(lhs), s))
    ensures Prec(s.ops, Narrow(s.cur)) >= prec && o.Return? ==>
      o.p.result.Fail? && (s.cur != TokEof ==> Rank(o.p.rest) < Rank(s))
    ensures o.Continue? ==> o.lhs.Binary? && o.lhs.op == Narrow(s.cur)
    ensures v == Corrected && WellFormed(lhs) && o.Continue? ==> WellFormed(o.lhs)
    ensures v == AsWritten && o.Continue? ==> o.lhs.lhs.None? || o.lhs.lhs == Some(lhs)
  {
    var curOp := Narrow(s.cur);
    var curPrec := Prec(s.ops, curOp);
    if curPrec < prec then
      Return(Parsed(Ok(lhs), s))
    else
      var r := ParsePrimary(v, NextTok(s));  // eat op, parse the primary after it
      if r.result.Fail? then
        Return(r)
      else
        Merge(v, lhs, curOp, curPrec, r.result.value, r.rest)
  }

  /**
   * The rest of the pass, with `rhs` the primary just parsed and `t` the state
   * after it: if the operator at `t` binds tighter than `curOp`, let a recursive
   * call at `curPrec + 1` absorb it first; then combine into a Binary node.
   */
  function Merge(v: Variant, lhs: Expr, curOp: SChar, curPrec: int, rhs: Expr, t: LexState): (o: Round)
    decreases Rank(t), 5
    ensures o.Return? ==> o.p.result.Fail? && o.p.rest.ops == t.ops && Rank(o.p.rest) <= Rank(t)
    ensures o.Continue? ==> o.rest.ops == t.ops && Rank(o.rest) <= Rank(t)
    ensures o.Continue? ==> o.lhs.Binary? && o.lhs.op == curOp
    ensures v == Corrected && WellFormed(lhs) && WellFormed(rhs) && o.Continue? ==> WellFormed(o.lhs)
    ensures v == AsWritten && o.Continue? ==> o.lhs.lhs.None? || o.lhs.lhs == Some(lhs)
  {
    var nextPrec := Prec(t.ops, Narrow(t.cur));
    if curPrec < nextPrec then
      var r2 := ParseBinopRhs(v, curPrec + 1, if v == AsWritten then lhs else rhs, t);
      if r2.result.Fail? then
        Return(r2)
      else
        Continue(Binary(curOp, if v == AsWritten then None else Some(lhs), r2.result.value), r2.rest)
    else
      Continue(Binary(curOp, Some(lhs), rhs), t)
  }

  /**
   * The parameter loop of `parse_prototype`: while the token just read is an
   * identifier, append its text and read the next.
   */
  function ParseParams(s: LexState, acc: seq<string>): (r: (seq<string>, LexState))
    decreases Rank(s)
    ensures r.1.ops == s.ops
    ensures Rank(r.1) <= Rank(s)
    ensures r.1.cur != TokIdentifier
    ensures |r.0| >= |acc| && r.0[..|acc|] == acc
    ensures s.cur != TokIdentifier ==> r == (acc, s)
    ensures s.cur == TokIdentifier ==> |r.0| > |acc| && r.0[|acc|] == s.ident
    ensures Coherent(s) ==> forall i | |acc| <= i < |r.0| :: IsIdentifier(r.0[i])
  {
    if s.cur == TokIdentifier then ParseParams(NextTok(s), acc + [s.ident]) else (acc, s)
  }

  /** `parse_prototype`: a name, `(`, identifiers without separators, `)`. */
  function ParsePrototype(s: LexState): (p: Parsed<Prototype>)
    ensures p.rest.ops == s.ops
    ensures Rank(p.rest) <= Rank(s)
    ensures p.rest != s || p.result.Ok? ==> Rank(p.rest) < Rank(s)
    ensures s.cur != TokIdentifier ==> p == Parsed(Fail(ExpectedFunctionName), s)
    ensures s.cur == TokIdentifier && NextTok(s).cur != '(' as int
      ==> p == Parsed(Fail(ExpectedProtoOpen), NextTok(s))
    ensures s.cur == TokIdentifier && NextTok(s).cur == '(' as int
      && ParseParams(NextTok(NextTok(s)), []).1.cur != ')' as int
      ==> p == Parsed(Fail(ExpectedProtoClose), ParseParams(NextTok(NextTok(s)), []).1)
    ensures p.result.Ok? <==>
      s.cur == TokIdentifier && NextTok(s).cur == '(' as int && ParseParams(NextTok(NextTok(s)), []).1.cur == ')' as int
    ensures p.result.Ok? ==> p.rest == NextTok(ParseParams(NextTok(NextTok(s)), []).1)
    ensures p.result.Ok? ==> p.result.value.name == s.ident
    ensures p.result.Ok? ==> p.result.value.params == ParseParams(NextTok(NextTok(s)), []).0
    ensures p.result.Ok? && Coherent(s) ==>
      IsIdentifier(p.result.value.name) && forall i | 0 <= i < |p.result.value.params| :: IsIdentifier(p.result.value.params[i])
  {
    if s.cur != TokIdentifier then
      Parsed(Fail(ExpectedFunctionName), s)
    else
      var s1 := NextTok(s);  // eat the name
      if s1.cur != '(' as int then
        Parsed(Fail(ExpectedProtoOpen), s1)
      else
        var (names, s2) := ParseParams(NextTok(s1), []);
        if s2.cur != ')' as int then
          Parsed(Fail(ExpectedProtoClose), s2)
        else
          Parsed(Ok(Prototype(s.ident, names)), NextTok(s2))  // eat ')'
  }

  /** `parse_definition`: `def`, a prototype, then the body expression. */
  function ParseDefinition(v: Variant, s: LexState): (p: Parsed<Function>)
    requires s.cur == TokDef
    ensures p.rest.ops == s.ops
    ensures Rank(p.rest) < Rank(s)
    ensures p.result.Ok? <==>
      ParsePrototype(NextTok(s)).result.Ok? && ParseExpression(v, ParsePrototype(NextTok(s)).rest).result.Ok?
    ensures p.result.Ok? ==> p.result.value == Function(
      ParsePrototype(NextTok(s)).result.value, ParseExpression(v, ParsePrototype(NextTok(s)).rest).result.value)
  {
    var pr := ParsePrototype(NextTok(s));  // eat `def`
    if pr.result.Fail? then
      Parsed(Fail(pr.result.diag), pr.rest)
    else
      var b := ParseExpression(v, pr.rest);
      if b.result.Fail? then
        Parsed(Fail(b.result.diag), b.rest)
      else
        Parsed(Ok(Function(pr.result.value, b.result.value)), b.rest)
  }

  /** `parse_extern`: `extern`, then a prototype and nothing else. */
  function ParseExtern(s: LexState): (p: Parsed<Prototype>)
    requires s.cur == TokExtern
    ensures p.rest.ops == s.ops
    ensures Rank(p.rest) < Rank(s)
    ensures NextTok(s).cur != TokIdentifier ==> p == Parsed(Fail(ExpectedFunctionName), NextTok(s))
    ensures NextTok(s).cur == TokIdentifier && NextTok(NextTok(s)).cur != '(' as int
      ==> p == Parsed(Fail(ExpectedProtoOpen), NextTok(NextTok(s)))
    ensures var q := ParseParams(NextTok(NextTok(NextTok(s))), []);
      NextTok(s).cur == TokIdentifier && NextTok(NextTok(s)).cur == '(' as int && q.1.cur != ')' as int
      ==> p == Parsed(Fail(ExpectedProtoClose), q.1)
    ensures var q := ParseParams(NextTok(NextTok(NextTok(s))), []);
      p.result.Ok? <==> NextTok(s).cur == TokIdentifier && NextTok(NextTok(s)).cur == '(' as int && q.1.cur == ')' as int
    ensures p.result.Ok? ==> p.rest == NextTok(ParseParams(NextTok(NextTok(NextTok(s))), []).1)
    ensures p.result.Ok? ==> p.result.value.name == NextTok(s).ident
    ensures p.result.Ok? ==> p.result.value.params == ParseParams(NextTok(NextTok(NextTok(s))), []).0
  {
    ParsePrototype(NextTok(s))  // eat `extern`
  }

  /** `parse_top_level_expr`: an expression, wrapped as the body of a nameless, parameterless function. */
  function ParseTopLevelExpr(v: Variant, s: LexState): (p: Parsed<Function>)
    ensures p.rest == ParseExpression(v, s).rest
    ensures p.result.Ok? <==> ParseExpression(v, s).result.Ok?
    ensures p.result.Ok? ==>
      p.result.value == Function(Prototype(AnonymousName, []), ParseExpression(v, s).result.value)
  {
    var e := ParseExpression(v, s);
    if e.result.Fail? then
      Parsed(Fail(e.result.diag), e.rest)
    else
      Parsed(Ok(Function(Prototype(AnonymousName, []), e.result.value)), e.rest)
  }

  // The `handle_*` members: parse one top-level item; on failure skip one token.

  function HandleDefinition(v: Variant, s: LexState): (r: LexState)
    requires s.cur == TokDef
    ensures r.ops == s.ops
    ensures Rank(r) < Rank(s)
  {
    var p := ParseDefinition(v, s);
    if p.result.Ok? then p.rest else NextTok(p.rest)
  }

  function HandleExtern(s: LexState): (r: LexState)
    requires s.cur == TokExtern
    ensures r.ops == s.ops
    ensures Rank(r) < Rank(s)
  {
    var p := ParseExtern(s);
    if p.result.Ok? then p.rest else NextTok(p.rest)
  }

  function HandleTopLevelExpression(v: Variant, s: LexState): (r: LexState)
    ensures r.ops == s.ops
    ensures Rank(r) <= Rank(s)
    ensures s.cur != TokEof ==> Rank(r) < Rank(s)
  {
    var p := ParseTopLevelExpr(v, s);
    if p.result.Ok? then p.rest else NextTok(p.rest)
  }
}
