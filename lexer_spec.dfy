/**
 * The lexer as pure functions: the state a `Lexer` object holds, and one call
 * of `get_next_tok` as a function from state to state. The class in lexer.dfy
 * is proved to compute exactly this function.
 *
 * The input is the part of the character stream not yet read (`rest`) plus the
 * one character of look-ahead `last` (a character code, or EOF), which is the
 * `static int last_char` of the original.
 */
module LexerSpec {
  import opened Tokens

  datatype Source = Source(rest: string, last: CharOrEof)

  /** The state of a lexer: input, payload buffers, current token, operator table. */
  datatype LexState = LexState(
    src: Source,
    ident: string,            // identifier_str_
    num: string,              // the text of the last number token (number_val_ before strtod)
    cur: int,                 // cur_tok_
    ops: map<SChar, int>)     // op_precedence_

  /** Characters not yet handed out: the unread input plus the look-ahead, if any. */
  function Remaining(s: Source): nat {
    if s.last == EOF then 0 else |s.rest| + 1
  }

  /** The source whose look-ahead is the first character of `t`, or EOF when `t` is empty. */
  function Fresh(t: string): Source {
    if t == [] then Source([], EOF) else Source(t[1..], t[0] as int)
  }

  /** One `getchar` into the look-ahead. */
  function GetChar(s: Source): (r: Source)
    ensures r.last == EOF <==> s.rest == []
    ensures s.last != EOF ==> Remaining(r) < Remaining(s)
  {
    Fresh(s.rest)
  }

  /** The whitespace loop: read while the look-ahead is a space. */
  function SkipSpace(s: Source): (r: Source)
    decreases Remaining(s)
    ensures !IsSpace(r.last)
    ensures Remaining(r) <= Remaining(s)
  {
    if IsSpace(s.last) || s.last == '\n' as int then SkipSpace(GetChar(s)) else s
  }

  /** The two character runs the lexer collects: identifier text and number text. */
  datatype Run = Word | Numeral

  predicate InRun(k: Run, c: int) {
    match k
    case Word => c == '_' as int || IsAlpha(c) || IsDigit(c)
    case Numeral => IsDigit(c) || c == '.' as int
  }

  /** `[_a-zA-Z][_a-zA-Z0-9]*`, the identifier shape. */
  predicate IsIdentifier(w: string) {
    |w| > 0 && IsIdentStart(w[0] as int) && forall i | 1 <= i < |w| :: InRun(Word, w[i] as int)
  }

  /** A non-empty run of digits and dots. */
  predicate IsNumeral(w: string) {
    |w| > 0 && forall i | 0 <= i < |w| :: InRun(Numeral, w[i] as int)
  }

  /**
   * The collecting loops: append the look-ahead to `acc` and read on, while the
   * look-ahead belongs to the run. Returns the source after the run and the text.
   */
  function Munch(k: Run, s: Source, acc: string): (r: (Source, string))
    decreases Remaining(s)
    ensures !InRun(k, r.0.last)
    ensures Remaining(r.0) <= Remaining(s)
    ensures acc <= r.1
    ensures forall i | |acc| <= i < |r.1| :: InRun(k, r.1[i] as int)
    ensures InRun(k, s.last) ==>
      Remaining(r.0) < Remaining(s) && |r.1| > |acc| && r.1[|acc|] as int == s.last
  {
    if InRun(k, s.last) then Munch(k, GetChar(s), acc + [s.last as char]) else (s, acc)
  }

  /** The comment loop: read until the look-ahead is EOF, '\n' or '\r'. */
  function SkipToEol(s: Source): (r: Source)
    decreases Remaining(s)
    ensures r.last == EOF || r.last == '\n' as int || r.last == '\r' as int
    ensures Remaining(r) <= Remaining(s)
    ensures s.last != EOF && s.last != '\n' as int && s.last != '\r' as int ==>
      Remaining(r) < Remaining(s)
  {
    if s.last != EOF && s.last != '\n' as int && s.last != '\r' as int then SkipToEol(GetChar(s)) else s
  }

  /** The code of a word token: the two keywords, or a plain identifier. */
  function Keyword(w: string): (t: int)
    ensures IsWordToken(t)
    ensures t == TokDef <==> w == "def"
    ensures t == TokExtern <==> w == "extern"
  {
    if w == "def" then TokDef else if w == "extern" then TokExtern else TokIdentifier
  }

  /** What the payload buffers hold whenever a token has been produced. */
  predicate Coherent(st: LexState) {
    && (st.cur < 0 ==> IsReserved(st.cur))
    && (IsWordToken(st.cur) ==> IsIdentifier(st.ident) && st.cur == Keyword(st.ident))
    && (st.cur == TokNumber ==> IsNumeral(st.num))
  }

  /** A measure on lexer states that every consumed token lowers. */
  function Rank(st: LexState): nat {
    Remaining(st.src) + if st.cur != TokEof then 1 else 0
  }

  /** One call of `get_next_tok`. */
  function NextTok(st: LexState): (r: LexState)
    decreases Remaining(st.src)
    ensures r.ops == st.ops
    ensures Coherent(r)
    ensures IsWordToken(r.cur) || r.ident == st.ident
    ensures r.cur == TokNumber || r.num == st.num
    ensures r.cur == TokEof ==> r.src.last == EOF
    ensures Remaining(r.src) <= Remaining(st.src)
    ensures r.cur != TokEof ==> Remaining(r.src) < Remaining(st.src)
    ensures Rank(r) <= Rank(st)
    ensures st.cur != TokEof ==> Rank(r) < Rank(st)
  {
    var s := SkipSpace(st.src);
    if IsIdentStart(s.last) then
      var (s', word) := Munch(Word, s, "");
      st.(src := s', ident := word, cur := Keyword(word))
    else if IsNumberStart(s.last) then
      var (s', text) := Munch(Numeral, s, "");
      st.(src := s', num := text, cur := TokNumber)
    else if s.last == '#' as int && SkipToEol(s).last != EOF then
      NextTok(st.(src := SkipToEol(s)))
    else if s.last == '#' as int then
      st.(src := SkipToEol(s), cur := TokEof)
    else if s.last == EOF then
      st.(cur := TokEof, src := s)
    else
      st.(src := GetChar(s), cur := s.last)
  }

  /** `get_op_prec`: the table entry, or -1 for a character that is not an operator. */
  function Prec(ops: map<SChar, int>, c: SChar): (r: int)
    ensures c in ops ==> r == ops[c]
    ensures c !in ops ==> r == -1
  {
    if c in ops then ops[c] else -1
  }
}
