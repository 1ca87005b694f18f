/**
 How the tokenizer passes over the pieces the header is made of. `Reads(text, tokens)`
 says that `text`, met between two tokens, yields exactly `tokens` and leaves the
 tokenizer between two tokens again; such facts compose by concatenation.
 */
module Reading {
  import opened Lexer
  import opened Formatting

  lemma {:induction false} RunConcat(st: State, a: string, b: string)
    ensures Run(st, a + b) == Run(Run(st, a), b)
    decreases a
  {
    if a == "" {
      assert a + b == b;
    } else {
      assert (a + b)[1..] == a[1..] + b;
      RunConcat(Step(st, a[0]), a[1..], b);
    }
  }

  lemma {:induction false} RunError(s: string)
    ensures Run(Error, s) == Error
    decreases s
  {
    if s != "" { RunError(s[1..]); }
  }

  lemma {:induction false} RunTwo(st: State, s: string)
    requires |s| == 2
    ensures Run(st, s) == Step(Step(st, s[0]), s[1])
  {
    assert s[1..][1..] == "";
    assert Run(Step(st, s[0]), s[1..]) == Step(Step(st, s[0]), s[1..][0]);
  }

  ghost predicate Lands(st: State, text: string, tokens: seq<Token>) {
    var end := Run(st, text);
    end.Lexing? && end.mode.Gap? && end.tokens == tokens
  }

  ghost predicate Reads(text: string, tokens: seq<Token>) {
    forall lineStart, ts :: Lands(Lexing(Gap(lineStart), ts), text, ts + tokens)
  }

  lemma {:induction false} LandsConcat(st: State, a: string, ta: seq<Token>, b: string, tb: seq<Token>)
    requires Lands(st, a, ta) && Reads(b, tb)
    ensures Lands(st, a + b, ta + tb)
  {
    hide Run;
    RunConcat(st, a, b);
    var end := Run(st, a);
    assert end == Lexing(Gap(end.mode.lineStart), ta);
    assert Lands(Lexing(Gap(end.mode.lineStart), ta), b, ta + tb);
  }

  lemma {:induction false} LandsConcatAt(lineStart: bool, ts: seq<Token>, a: string, ta: seq<Token>,
                                         b: string, tb: seq<Token>)
    requires Reads(a, ta) && Reads(b, tb)
    ensures Lands(Lexing(Gap(lineStart), ts), a + b, ts + (ta + tb))
  {
    hide Run, Lands;
    var st := Lexing(Gap(lineStart), ts);
    assert Lands(st, a, ts + ta);
    LandsConcat(st, a, ts + ta, b, tb);
    assert ts + ta + tb == ts + (ta + tb);
  }

  lemma {:induction false} ReadsConcat(a: string, ta: seq<Token>, b: string, tb: seq<Token>)
    requires Reads(a, ta) && Reads(b, tb)
    ensures Reads(a + b, ta + tb)
  {
    hide Run, Lands;
    forall lineStart, ts
      ensures Lands(Lexing(Gap(lineStart), ts), a + b, ts + (ta + tb))
    {
      LandsConcatAt(lineStart, ts, a, ta, b, tb);
    }
  }

  /** A text that ends in a newline leaves the tokenizer at the start of a line. */
  lemma {:induction false} EndsLine(st: State, a: string, tokens: seq<Token>)
    requires Lands(st, a + "\n", tokens)
    ensures Run(st, a + "\n") == Lexing(Gap(true), tokens)
  {
    RunConcat(st, a, "\n");
    assert Run(st, a + "\n") == Step(Run(st, a), '\n') by {
      assert "\n"[1..] == "";
    }
  }

  // ---------------------------------------------------------------- words and gaps

  predicate IsWord(w: string) {
    w != "" && IsLetter(w[0]) && forall i | 0 <= i < |w| :: IsWordChar(w[i])
  }

  predicate IsGap(g: string) {
    forall i | 0 <= i < |g| :: g[i] == ' ' || g[i] == '\n' || IsPunct(g[i])
  }

  function GapTokens(g: string): seq<Token> {
    if g == "" then [] else (if IsPunct(g[0]) then [Punct(g[0])] else []) + GapTokens(g[1..])
  }

  lemma {:induction false} LexWordRest(name: string, ts: seq<Token>, w: string)
    requires forall i | 0 <= i < |w| :: IsWordChar(w[i])
    ensures Run(Lexing(Word(name), ts), w) == Lexing(Word(name + w), ts)
    decreases w
  {
    if w == "" {
      assert name + w == name;
    } else {
      LexWordRest(name + [w[0]], ts, w[1..]);
      assert name + [w[0]] + w[1..] == name + w;
    }
  }

  lemma {:induction false} LexWord(lineStart: bool, ts: seq<Token>, w: string)
    requires IsWord(w)
    ensures Run(Lexing(Gap(lineStart), ts), w) == Lexing(Word(w), ts)
  {
    assert [w[0]] + w[1..] == w;
    LexWordRest([w[0]], ts, w[1..]);
  }

  lemma {:induction false} LandsGap(lineStart: bool, ts: seq<Token>, g: string)
    requires IsGap(g)
    ensures Lands(Lexing(Gap(lineStart), ts), g, ts + GapTokens(g))
    decreases g
  {
    if g == "" {
      assert ts + [] == ts;
    } else {
      var more := if IsPunct(g[0]) then [Punct(g[0])] else [];
      var next := g[0] == '\n' || (lineStart && g[0] == ' ');
      assert Step(Lexing(Gap(lineStart), ts), g[0]) == Lexing(Gap(next), ts + more) by {
        assert ts + [] == ts;
      }
      LandsGap(next, ts + more, g[1..]);
      assert ts + more + GapTokens(g[1..]) == ts + (more + GapTokens(g[1..]));
    }
  }

  lemma {:induction false} ReadsGap(g: string)
    requires IsGap(g)
    ensures Reads(g, GapTokens(g))
  {
    hide Run;
    forall lineStart, ts
      ensures Lands(Lexing(Gap(lineStart), ts), g, ts + GapTokens(g))
    {
      LandsGap(lineStart, ts, g);
    }
  }

  lemma {:induction false} ReadsGapAs(g: string, tokens: seq<Token>)
    requires IsGap(g) && tokens == GapTokens(g)
    ensures Reads(g, tokens)
  {
    ReadsGap(g);
  }

  lemma {:induction false} ReadsWord(w: string, g: string)
    requires IsWord(w) && IsGap(g) && g != ""
    ensures Reads(w + g, [Ident(w)] + GapTokens(g))
  {
    hide GapTokens;
    forall lineStart, ts
      ensures Lands(Lexing(Gap(lineStart), ts), w + g, ts + ([Ident(w)] + GapTokens(g)))
    {
      RunConcat(Lexing(Gap(lineStart), ts), w, g);
      LexWord(lineStart, ts, w);
      LandsGap(false, ts + [Ident(w)], g);
      assert ts + [Ident(w)] + GapTokens(g) == ts + ([Ident(w)] + GapTokens(g));
      assert Step(Lexing(Word(w), ts), g[0]) == Step(Lexing(Gap(false), ts + [Ident(w)]), g[0]);
    }
  }

  lemma {:induction false} ReadsWordAs(text: string, w: string, g: string, tokens: seq<Token>)
    requires text == w + g && IsWord(w) && IsGap(g) && g != ""
    requires tokens == [Ident(w)] + GapTokens(g)
    ensures Reads(text, tokens)
  {
    ReadsWord(w, g);
  }

  // ---------------------------------------------------------------- texts of words and gaps

  /** A character that can neither open a literal or a number nor end the line's meaning. */
  predicate IsMild(c: char) {
    IsLetter(c) || c == ' ' || c == '\n' || IsPunct(c)
  }

  predicate IsMildText(s: string) {
    forall i | 0 <= i < |s| :: IsMild(s[i])
  }

  lemma {:induction false} ReadsNothing()
    ensures Reads("", [])
  {
    forall lineStart, ts ensures Lands(Lexing(Gap(lineStart), ts), "", ts + []) {
      assert ts + [] == ts;
    }
  }

  lemma {:induction false} MildConcat(a: string, b: string)
    requires IsMildText(a) && IsMildText(b)
    ensures IsMildText(a + b)
  {
  }

  // ---------------------------------------------------------------- numbers

  lemma {:induction false} LexDecimal(lineStart: bool, ts: seq<Token>, n: nat)
    ensures Run(Lexing(Gap(lineStart), ts), Decimal(n)) == Lexing(Number(n == 0, n), ts)
  {
    var st := Lexing(Gap(lineStart), ts);
    var last := [Digit(n % 10)];
    assert last[1..] == "";
    if n < 10 {
      assert Decimal(n) == last;
    } else {
      LexDecimal(lineStart, ts, n / 10);
      RunConcat(st, Decimal(n / 10), last);
      assert Run(st, Decimal(n)) == Step(Lexing(Number(false, n / 10), ts), last[0]);
    }
  }

  lemma {:induction false} ReadsNumber(n: nat, c: char)
    requires IsPunct(c)
    ensures Reads(Decimal(n) + [c], [Num(n), Punct(c)])
  {
    hide Decimal;
    forall lineStart, ts
      ensures Lands(Lexing(Gap(lineStart), ts), Decimal(n) + [c], ts + [Num(n), Punct(c)])
    {
      RunConcat(Lexing(Gap(lineStart), ts), Decimal(n), [c]);
      LexDecimal(lineStart, ts, n);
      assert [c][1..] == "";
      assert ts + [Num(n)] + [Punct(c)] == ts + [Num(n), Punct(c)];
    }
  }

  // ---------------------------------------------------------------- directives

  lemma {:induction false} LexLineRest(line: string, ts: seq<Token>, d: string)
    requires '\n' !in d
    ensures Run(Lexing(Line(line), ts), d) == Lexing(Line(line + d), ts)
    decreases d
  {
    if d == "" {
      assert line + d == line;
    } else {
      LexLineRest(line + [d[0]], ts, d[1..]);
      assert line + [d[0]] + d[1..] == line + d;
    }
  }

  lemma {:induction false} LexDirective(ts: seq<Token>, d: string)
    requires d != "" && d[0] == '#' && '\n' !in d
    ensures Run(Lexing(Gap(true), ts), d + "\n") == Lexing(Gap(true), ts + [Directive(d)])
  {
    RunConcat(Lexing(Gap(true), ts), d, "\n");
    LexLineRest("#", ts, d[1..]);
    assert "#" + d[1..] == d;
    assert "\n"[1..] == "";
  }
}
