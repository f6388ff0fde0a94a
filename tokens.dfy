/**
 * Token codes of the Kaleidoscope lexer and the character arithmetic shared by
 * the lexer and the parser: the C locale's character classes and the
 * int-to-`char` narrowing the parser applies before an operator lookup.
 */
module Tokens {

  /** The five reserved token codes; every other token is a character code. */
  const TokEof: int := -1
  const TokDef: int := -2
  const TokExtern: int := -3
  const TokIdentifier: int := -4
  const TokNumber: int := -5

  /** The value C's `getchar` returns at end of input. */
  const EOF: int := -1

  /** What `getchar` returns: a character code, or EOF. */
  type CharOrEof = c: int | -1 <= c witness -1

  predicate IsReserved(t: int) {
    t == TokEof || t == TokDef || t == TokExtern || t == TokIdentifier || t == TokNumber
  }

  /** A token whose text is kept in the lexer's identifier buffer. */
  predicate IsWordToken(t: int) {
    t == TokDef || t == TokExtern || t == TokIdentifier
  }

  /** The reserved codes are exactly the five negative values -1 .. -5. */
  lemma ReservedCodes(t: int)
    ensures IsReserved(t) <==> -5 <= t <= -1
  {
  }

  /** A value of C's `char`, which is signed on the x86-64 targets this code is built for. */
  type SChar = c: int | -128 <= c < 128

  /** The implicit conversion of an `int` token to `char` (two's complement wrap-around). */
  function Narrow(t: int): (c: SChar)
    ensures (c - t) % 256 == 0
    ensures -128 <= t < 128 ==> c == t
  {
    (t + 128) % 256 - 128
  }

  // Character classes of the C locale, on character codes (EOF belongs to none).

  predicate IsSpace(c: int) {
    c == ' ' as int || '\t' as int <= c <= '\r' as int
  }

  predicate IsAlpha(c: int) {
    'A' as int <= c <= 'Z' as int || 'a' as int <= c <= 'z' as int
  }

  predicate IsDigit(c: int) {
    '0' as int <= c <= '9' as int
  }

  /** First character of an identifier: `[_a-zA-Z]`. */
  predicate IsIdentStart(c: int) {
    c == '_' as int || IsAlpha(c)
  }

  /** First character of a number: a digit or `.`. */
  predicate IsNumberStart(c: int) {
    IsDigit(c) || c == '.' as int
  }
}
