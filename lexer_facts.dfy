/**
 * What one call of `get_next_tok` does with a given input: whitespace and
 * comments are skipped, identifiers and numbers are maximal runs, any other
 * character is a token by itself, and EOF is sticky. Also the operator table.
 */
module LexerFacts {
  import opened Tokens
  import opened LexerSpec

  predicate AllSpace(w: string) {
    forall i | 0 <= i < |w| :: IsSpace(w[i] as int)
  }

  predicate NoLineEnd(w: string) {
    forall i | 0 <= i < |w| :: w[i] != '\n' && w[i] != '\r'
  }

  predicate AllInRun(k: Run, w: string) {
    forall i | 0 <= i < |w| :: InRun(k, w[i] as int)
  }

  /** Where a run of kind `k` must stop: at the end of input or at a character outside the run. */
  predicate EndsRun(k: Run, t: string) {
    t == [] || !InRun(k, t[0] as int)
  }

  lemma FreshCons(w: string, t: string)
    requires w != []
    ensures Fresh(w + t) == Source(w[1..] + t, w[0] as int)
  {
    assert (w + t)[1..] == w[1..] + t;
  }

  /** The token produced depends on the input only through what is left after the spaces. */
  lemma {:induction false} SameAfterSpace(st: LexState, a: Source, b: Source)
    requires SkipSpace(a) == SkipSpace(b)
    ensures NextTok(st.(src := a)) == NextTok(st.(src := b))
  {
    assert SkipSpace(st.(src := a).src) == SkipSpace(st.(src := b).src);
  }

  lemma {:induction false} SkipSpaceRun(w: string, t: string)
    requires AllSpace(w)
    ensures SkipSpace(Fresh(w + t)) == SkipSpace(Fresh(t))
  {
    if w != [] {
      FreshCons(w, t);
      assert IsSpace(Fresh(w + t).last);
      assert GetChar(Fresh(w + t)) == Fresh(w[1..] + t);
      assert AllSpace(w[1..]) by {
        forall i | 0 <= i < |w[1..]| ensures IsSpace(w[1..][i] as int) {
          assert w[1..][i] == w[i + 1];
        }
      }
      assert SkipSpace(Fresh(w + t)) == SkipSpace(Fresh(w[1..] + t));
      SkipSpaceRun(w[1..], t);
    } else {
      assert w + t == t;
    }
  }

  /** Leading whitespace never becomes part of a token: `w + t` lexes as `t` does. */
  lemma LeadingSpaceIgnored(st: LexState, w: string, t: string)
    requires AllSpace(w)
    ensures NextTok(st.(src := Fresh(w + t))) == NextTok(st.(src := Fresh(t)))
  {
    SkipSpaceRun(w, t);
    SameAfterSpace(st, Fresh(w + t), Fresh(t));
  }

  /** A run of characters of kind `k` followed by a non-member is collected whole. */
  lemma {:induction false} MunchRun(k: Run, w: string, t: string, acc: string)
    requires AllInRun(k, w) && EndsRun(k, t)
    ensures Munch(k, Fresh(w + t), acc) == (Fresh(t), acc + w)
  {
    if w == [] {
      assert w + t == t;
      assert acc + w == acc;
      assert !InRun(k, Fresh(t).last);
    } else {
      FreshCons(w, t);
      assert InRun(k, Fresh(w + t).last);
      assert GetChar(Fresh(w + t)) == Fresh(w[1..] + t);
      assert AllInRun(k, w[1..]) by {
        forall i | 0 <= i < |w[1..]| ensures InRun(k, w[1..][i] as int) {
          assert w[1..][i] == w[i + 1];
        }
      }
      assert (w[0] as int) as char == w[0];
      MunchRun(k, w[1..], t, acc + [w[0]]);
      assert acc + [w[0]] + w[1..] == acc + w;
    }
  }

  /**
   * Maximal munch for identifiers: a word of identifier shape, followed by end of
   * input or a character that cannot continue it, is one token; `def` and `extern`
   * become keywords, and the identifier buffer holds the text in every case.
   */
  lemma IdentifierToken(st: LexState, w: string, t: string)
    requires IsIdentifier(w) && EndsRun(Word, t)
    ensures NextTok(st.(src := Fresh(w + t))) == st.(src := Fresh(t), ident := w, cur := Keyword(w))
  {
    FreshCons(w, t);
    var s := Fresh(w + t);
    assert SkipSpace(s) == s;
    assert AllInRun(Word, w[1..]) by {
      forall i | 0 <= i < |w[1..]| ensures InRun(Word, w[1..][i] as int) {
        assert w[1..][i] == w[i + 1];
      }
    }
    assert (w[0] as int) as char == w[0];
    assert "" + [w[0]] == [w[0]];
    assert Munch(Word, s, "") == Munch(Word, Fresh(w[1..] + t), [w[0]]);
    MunchRun(Word, w[1..], t, [w[0]]);
    assert [w[0]] + w[1..] == w;
  }

  /**
   * Maximal munch for numbers: a run of digits and dots (`1.2.3` included) is one
   * number token; its text is kept and the identifier buffer is left alone.
   */
  lemma NumberToken(st: LexState, w: string, t: string)
    requires IsNumeral(w) && EndsRun(Numeral, t)
    ensures NextTok(st.(src := Fresh(w + t))) == st.(src := Fresh(t), num := w, cur := TokNumber)
  {
    FreshCons(w, t);
    var s := Fresh(w + t);
    assert InRun(Numeral, w[0] as int);
    assert SkipSpace(s) == s;
    assert AllInRun(Numeral, w[1..]) by {
      forall i | 0 <= i < |w[1..]| ensures InRun(Numeral, w[1..][i] as int) {
        assert w[1..][i] == w[i + 1];
      }
    }
    assert (w[0] as int) as char == w[0];
    assert "" + [w[0]] == [w[0]];
    assert Munch(Numeral, s, "") == Munch(Numeral, Fresh(w[1..] + t), [w[0]]);
    MunchRun(Numeral, w[1..], t, [w[0]]);
    assert [w[0]] + w[1..] == w;
  }

  lemma {:induction false} SkipToEolRun(c: string, t: string)
    requires NoLineEnd(c)
    requires t == [] || t[0] == '\n' || t[0] == '\r'
    ensures SkipToEol(Fresh(c + t)) == Fresh(t)
  {
    if c == [] {
      assert c + t == t;
    } else {
      FreshCons(c, t);
      assert GetChar(Fresh(c + t)) == Fresh(c[1..] + t);
      SkipToEolRun(c[1..], t);
    }
  }

  /** A comment ended by a line break is discarded: `#c` + line break + `t` lexes as `t`. */
  lemma CommentSkipped(st: LexState, c: string, nl: char, t: string)
    requires NoLineEnd(c) && (nl == '\n' || nl == '\r')
    ensures NextTok(st.(src := Fresh("#" + c + [nl] + t))) == NextTok(st.(src := Fresh(t)))
  {
    var s := Fresh("#" + c + [nl] + t);
    CommentLine(c, nl, t);
    assert NextTok(st.(src := s)) == NextTok(st.(src := Source(t, nl as int)));
    SameAfterSpace(st, Source(t, nl as int), Fresh(t));
  }

  /** Skipping the comment `#c` stops at the line break after it. */
  lemma CommentLine(c: string, nl: char, t: string)
    requires NoLineEnd(c) && (nl == '\n' || nl == '\r')
    ensures var s := Fresh("#" + c + [nl] + t);
      SkipSpace(s) == s && s.last == '#' as int && SkipToEol(s) == Source(t, nl as int)
    ensures SkipSpace(Source(t, nl as int)) == SkipSpace(Fresh(t))
  {
    var s := Fresh("#" + c + [nl] + t);
    assert "#" + c + [nl] + t == "#" + (c + ([nl] + t));
    FreshCons("#", c + ([nl] + t));
    assert SkipSpace(s) == s;
    SkipToEolRun(c, [nl] + t);
    FreshCons([nl], t);
  }

  /** A comment that runs to the end of input yields the EOF token. */
  lemma CommentToEnd(st: LexState, c: string)
    requires NoLineEnd(c)
    ensures NextTok(st.(src := Fresh("#" + c))) == st.(src := Source([], EOF), cur := TokEof)
  {
    var s := Fresh("#" + c);
    FreshCons("#", c);
    assert SkipSpace(s) == s;
    assert c + [] == c;
    SkipToEolRun(c, []);
  }

  /** At end of input nothing is read and the token is EOF. */
  lemma AtEnd(st: LexState)
    requires st.src.last == EOF
    ensures NextTok(st) == st.(cur := TokEof)
  {
  }

  /** Once EOF has been returned, every later call returns it again and changes nothing. */
  lemma EofIsSticky(st: LexState)
    requires NextTok(st).cur == TokEof
    ensures NextTok(NextTok(st)) == NextTok(st)
  {
    AtEnd(NextTok(st));
  }

  /**
   * Any other character is a token by itself, its own (non-negative) code, and
   * exactly that one character is consumed.
   */
  lemma SingleCharToken(st: LexState, c: char, t: string)
    requires !IsSpace(c as int) && !IsIdentStart(c as int) && !IsNumberStart(c as int) && c != '#'
    ensures NextTok(st.(src := Fresh([c] + t))) == st.(src := Fresh(t), cur := c as int)
    ensures NextTok(st.(src := Fresh([c] + t))).cur >= 0
  {
    FreshCons([c], t);
  }

  /** `add_op` overwrites the one entry it names and leaves every other entry unchanged. */
  lemma PrecAfterAddOp(ops: map<SChar, int>, c: SChar, p: int, d: SChar)
    ensures Prec(ops[c := p], c) == p
    ensures d != c ==> Prec(ops[c := p], d) == Prec(ops, d)
  {
  }

  /**
   * The reserved token codes, narrowed to `char`, are not operators as long as the
   * table holds only non-negative characters (as every ASCII operator is).
   */
  lemma ReservedNotOperator(ops: map<SChar, int>, t: int)
    requires forall c | c in ops :: c >= 0
    requires IsReserved(t)
    ensures Prec(ops, Narrow(t)) == -1
  {
  }
}
