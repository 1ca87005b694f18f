/**
 What the reader makes of a name that was printed raw between two quotes, for every
 name whatsoever. Characters of a literal that are not taken as they stand cost more
 text than they decode to, so a name with a quote, a backslash or a newline in it
 either breaks the header or is bound to a shorter string.
 */
module RawNames {
  import opened Lexer
  import opened Parser
  import Reading
  import PH = ParsingHeader
  import RH = ReadingHeader

  predicate InsideLiteral(mode: Mode) {
    mode.Lit? || mode.Escape? || mode.Hex? || mode.Octal?
  }

  /** The length a literal under construction has decoded to, counting an escape not yet closed. */
  function Decoded(mode: Mode): nat {
    match mode
    case Lit(text) => |text|
    case Escape(text) => |text|
    case Hex(text, _, _) => |text| + 1
    case Octal(text, _, _) => |text| + 1
    case _ => 0
  }

  function ParseOf(tokens: seq<Token>): Parse {
    Parser.Run(Opening, tokens)
  }

  /** The variable x was bound right after the declarations ds, to a literal shorter than k. */
  predicate Passed(p: Parse, ds: seq<Decl>, x: string, k: nat) {
    && p.Parsing? && |ds| < |p.decls| && ds == p.decls[..|ds|]
    && p.decls[|ds|].variable == x && p.decls[|ds|].init.Literal? && |p.decls[|ds|].init.text| < k
  }

  /** After k characters of the name, what x has been or can be bound to is shorter than k. */
  predicate Behind(p: Parse, mode: Mode, ds: seq<Decl>, x: string, k: nat) {
    || p.Failed?
    || (p == Parsing(ds, Value(x)) && InsideLiteral(mode) && Decoded(mode) < k)
    || (p.Parsing? && p.decls == ds && p.at.Pieces? && p.at.variable == x && |p.at.text| + Decoded(mode) < k)
    || Passed(p, ds, x, k)
  }

  lemma {:induction false} ParseAppend(tokens: seq<Token>, t: Token)
    ensures ParseOf(tokens + [t]) == Parser.Step(ParseOf(tokens), t)
  {
    PH.RunConcat(Opening, tokens, [t]);
    PH.RunOne(ParseOf(tokens), t);
  }

  lemma {:induction false} PassedStep(p: Parse, t: Token, ds: seq<Decl>, x: string, k: nat)
    requires Passed(p, ds, x, k)
    ensures Parser.Step(p, t).Failed? || Passed(Parser.Step(p, t), ds, x, k)
  {
  }

  lemma {:induction false} BehindStr(p: Parse, text: string, mode: Mode, after: Mode, ds: seq<Decl>, x: string, k: nat)
    requires Behind(p, mode, ds, x, k) && InsideLiteral(mode) && |text| == Decoded(mode) && Decoded(after) == 0
    ensures Behind(Parser.Step(p, Str(text)), after, ds, x, k)
  {
    if Passed(p, ds, x, k) { PassedStep(p, Str(text), ds, x, k); }
  }

  lemma {:induction false} BehindOther(p: Parse, t: Token, mode: Mode, after: Mode, ds: seq<Decl>, x: string, k: nat)
    requires Behind(p, mode, ds, x, k) && !InsideLiteral(mode) && !t.Str? && Decoded(after) == 0
    ensures Behind(Parser.Step(p, t), after, ds, x, k)
  {
    if Passed(p, ds, x, k) { PassedStep(p, t, ds, x, k); }
  }

  predicate BehindState(st: State, ds: seq<Decl>, x: string, k: nat) {
    st.Lexing? ==> Behind(ParseOf(st.tokens), st.mode, ds, x, k)
  }

  lemma {:induction false} BehindInGap(lineStart: bool, tokens: seq<Token>, c: char, ds: seq<Decl>, x: string, k: nat)
    requires Behind(ParseOf(tokens), Gap(lineStart), ds, x, k)
    ensures BehindState(InGap(lineStart, tokens, c), ds, x, k)
  {
    hide Parser.Run, Parser.Step;
    if InGap(lineStart, tokens, c) == Lexing(Gap(false), tokens + [Punct(c)]) {
      ParseAppend(tokens, Punct(c));
      BehindOther(ParseOf(tokens), Punct(c), Gap(lineStart), Gap(false), ds, x, k);
    }
  }

  lemma {:induction false} BehindInLiteral(text: string, tokens: seq<Token>, c: char, ds: seq<Decl>, x: string, k: nat)
    requires Behind(ParseOf(tokens), Lit(text), ds, x, k)
    ensures BehindState(InLiteral(text, tokens, c), ds, x, if IsQuote(c) then k else k + 1)
  {
    hide Parser.Run, Parser.Step;
    if IsQuote(c) {
      ParseAppend(tokens, Str(text));
      BehindStr(ParseOf(tokens), text, Lit(text), Gap(false), ds, x, k);
    }
  }

  predicate IsQuote(c: char) {
    c == '"'
  }

  lemma {:induction false} BehindStep(st: State, c: char, ds: seq<Decl>, x: string, k: nat)
    requires BehindState(st, ds, x, k)
    ensures BehindState(Lexer.Step(st, c), ds, x, k + 1)
  {
    hide Parser.Run, Parser.Step, InGap, InLiteral, ParseOf;
    match st
    case Error =>
    case Lexing(Gap(lineStart), tokens) =>
      BehindInGap(lineStart, tokens, c, ds, x, k);
    case Lexing(Word(name), tokens) =>
      ParseAppend(tokens, Ident(name));
      BehindOther(ParseOf(tokens), Ident(name), st.mode, Gap(false), ds, x, k);
      BehindInGap(false, tokens + [Ident(name)], c, ds, x, k);
    case Lexing(Number(_, value), tokens) =>
      ParseAppend(tokens, Num(value));
      BehindOther(ParseOf(tokens), Num(value), st.mode, Gap(false), ds, x, k);
      BehindInGap(false, tokens + [Num(value)], c, ds, x, k);
    case Lexing(Lit(text), tokens) =>
      BehindInLiteral(text, tokens, c, ds, x, k);
    case Lexing(Escape(_), _) =>
    case Lexing(Hex(text, _, value), tokens) =>
      if value < 256 { BehindInLiteral(text + [value as char], tokens, c, ds, x, k); }
    case Lexing(Octal(text, _, value), tokens) =>
      if value < 256 { BehindInLiteral(text + [value as char], tokens, c, ds, x, k); }
    case Lexing(Line(line), tokens) =>
      ParseAppend(tokens, Directive(line));
      BehindOther(ParseOf(tokens), Directive(line), st.mode, Gap(true), ds, x, k);
  }

  /** Either the name so far was taken as it stands, or the reader has fallen behind for good. */
  predicate Tracks(st: State, s: string, ts: seq<Token>, ds: seq<Decl>, x: string) {
    (RH.Plain(s) && st == Lexing(Lit(s), ts)) || BehindState(st, ds, x, |s|)
  }

  lemma {:induction false} TracksStep(st: State, s: string, c: char, ts: seq<Token>, ds: seq<Decl>, x: string)
    requires ParseOf(ts) == Parsing(ds, Value(x)) && Tracks(st, s, ts, ds, x)
    ensures Tracks(Lexer.Step(st, c), s + [c], ts, ds, x)
  {
    hide Parser.Run, ParseOf;
    if BehindState(st, ds, x, |s|) {
      hide Lexer.Step;
      BehindStep(st, c, ds, x, |s|);
    } else if IsQuote(c) {
      ParseAppend(ts, Str(s));
    } else if RH.IsPlain(c) {
      assert RH.Plain(s + [c]);
    }
  }

  lemma {:induction false} TracksRun(st: State, s: string, more: string, ts: seq<Token>, ds: seq<Decl>, x: string)
    requires ParseOf(ts) == Parsing(ds, Value(x)) && Tracks(st, s, ts, ds, x)
    ensures Tracks(Lexer.Run(st, more), s + more, ts, ds, x)
    decreases more
  {
    hide ParseOf, Lexer.Step, Tracks;
    if more == "" {
      assert s + more == s;
    } else {
      TracksStep(st, s, more[0], ts, ds, x);
      TracksRun(Lexer.Step(st, more[0]), s + [more[0]], more[1..], ts, ds, x);
      assert s + [more[0]] + more[1..] == s + more;
    }
  }

  lemma {:induction false} RunThree(st: State, a: char, b: char, c: char)
    ensures Lexer.Run(st, [a, b, c]) == Lexer.Step(Lexer.Step(Lexer.Step(st, a), b), c)
  {
    hide Lexer.Step;
    assert [a, b, c] == [a, b] + [c];
    Reading.RunConcat(st, [a, b], [c]);
    Reading.RunTwo(st, [a, b]);
    assert [c][1..] == "";
  }

  /** Where the reader can stand after a name declaration. */
  predicate Closed(st: State, name: string, ds: seq<Decl>, x: string) {
    st.Lexing? ==>
      && st.mode == Gap(true)
      && var p := ParseOf(st.tokens);
         || p.Failed?
         || (p.Parsing? && p.at.Done?)
         || (RH.Plain(name) && p == Parsing(ds + [Decl(x, Literal(name))], Item))
         || (!RH.Plain(name) && p.Parsing? && p.at.Item? && Passed(p, ds, x, |name|))
  }

  /** A literal that is closed and followed by a semicolon ends a declaration or is a mistake. */
  lemma {:induction false} StrSemicolon(p: Parse, text: string)
    ensures var q := Parser.Step(Parser.Step(p, Str(text)), Punct(';'));
            q.Failed? || (q.Parsing? && q.at.Item?)
  {
  }

  lemma {:induction false} DirectiveEnds(p: Parse, line: string)
    requires p.Parsing?
    ensures var q := Parser.Step(p, Directive(line));
            q.Failed? || (q.Parsing? && q.at.Done?)
  {
  }

  lemma {:induction false} CloseLiteral(text: string, tokens: seq<Token>, name: string, ds: seq<Decl>, x: string)
    requires !RH.Plain(name)
    requires Behind(ParseOf(tokens), Lit(text), ds, x, |name|)
    ensures Closed(Lexing(Gap(true), tokens + [Str(text)] + [Punct(';')]), name, ds, x)
  {
    hide Parser.Run, Parser.Step, ParseOf;
    var p := ParseOf(tokens);
    ParseAppend(tokens, Str(text));
    ParseAppend(tokens + [Str(text)], Punct(';'));
    BehindStr(p, text, Lit(text), Gap(false), ds, x, |name|);
    BehindOther(Parser.Step(p, Str(text)), Punct(';'), Gap(false), Gap(false), ds, x, |name|);
    StrSemicolon(p, text);
  }

  lemma {:induction false} CloseDirective(line: string, tokens: seq<Token>, name: string, ds: seq<Decl>, x: string)
    requires !RH.Plain(name)
    requires Behind(ParseOf(tokens), Line(line), ds, x, |name|)
    ensures Closed(Lexing(Gap(true), tokens + [Directive(line)]), name, ds, x)
  {
    hide Parser.Run, ParseOf;
    ParseAppend(tokens, Directive(line));
    if ParseOf(tokens).Parsing? { DirectiveEnds(ParseOf(tokens), line); }
  }

  lemma {:induction false} CloseBehind(st: State, name: string, ds: seq<Decl>, x: string)
    requires !RH.Plain(name)
    requires BehindState(st, ds, x, |name|)
    ensures Closed(Lexer.Step(Lexer.Step(Lexer.Step(st, '"'), ';'), '\n'), name, ds, x)
  {
    hide Parser.Run, ParseOf, Closed, Behind;
    match st
    case Lexing(Lit(text), tokens) =>
      CloseLiteral(text, tokens, name, ds, x);
    case Lexing(Hex(text, count, value), tokens) =>
      if count > 0 && value < 256 { CloseEscape(text, value, st.mode, tokens, name, ds, x); }
      else { ClosedError(name, ds, x); }
    case Lexing(Octal(text, _, value), tokens) =>
      if value < 256 { CloseEscape(text, value, st.mode, tokens, name, ds, x); }
      else { ClosedError(name, ds, x); }
    case Lexing(Line(line), tokens) =>
      CloseLine(line, tokens, name, ds, x);
    case _ =>
      ClosedError(name, ds, x);
  }

  lemma {:induction false} ClosedError(name: string, ds: seq<Decl>, x: string)
    ensures Closed(State.Error, name, ds, x)
  {
  }

  lemma {:induction false} CloseEscape(text: string, value: nat, mode: Mode, tokens: seq<Token>, name: string,
                                       ds: seq<Decl>, x: string)
    requires !RH.Plain(name)
    requires value < 256 && InsideLiteral(mode) && Decoded(mode) == |text| + 1
    requires Behind(ParseOf(tokens), mode, ds, x, |name|)
    ensures Closed(Lexing(Gap(true), tokens + [Str(text + [value as char])] + [Punct(';')]), name, ds, x)
  {
    hide Parser.Run, ParseOf;
    CloseLiteral(text + [value as char], tokens, name, ds, x);
  }

  lemma {:induction false} CloseLine(line: string, tokens: seq<Token>, name: string, ds: seq<Decl>, x: string)
    requires !RH.Plain(name)
    requires Behind(ParseOf(tokens), Line(line), ds, x, |name|)
    ensures Closed(Lexing(Gap(true), tokens + [Directive(line + ['"'] + [';'])]), name, ds, x)
  {
    hide Parser.Run, ParseOf;
    CloseDirective(line + ['"'] + [';'], tokens, name, ds, x);
  }

  /** The reader at the name of a declaration, from its opening quote to the end of the line. */
  lemma {:induction false} ReadRawName(name: string, ts: seq<Token>, ds: seq<Decl>, x: string)
    requires ParseOf(ts) == Parsing(ds, Value(x))
    ensures Closed(Lexer.Run(Lexing(Lit(""), ts), name + "\";\n"), name, ds, x)
    ensures RH.Plain(name) ==>
              Lexer.Run(Lexing(Lit(""), ts), name + "\";\n") == Lexing(Gap(true), ts + [Str(name)] + [Punct(';')])
  {
    hide Parser.Run, ParseOf, Closed;
    var start := Lexing(Lit(""), ts);
    var st := Lexer.Run(start, name);
    Reading.RunConcat(start, name, "\";\n");
    RunThree(st, '"', ';', '\n');
    TracksRun(start, "", name, ts, ds, x);
    assert "" + name == name;
    if RH.Plain(name) {
      RH.LexPlain("", ts, name);
      ClosePlain(name, ts, ds, x);
    } else {
      CloseBehind(st, name, ds, x);
    }
  }

  lemma {:induction false} ClosePlain(name: string, ts: seq<Token>, ds: seq<Decl>, x: string)
    requires ParseOf(ts) == Parsing(ds, Value(x)) && RH.Plain(name)
    ensures Closed(Lexing(Gap(true), ts + [Str(name)] + [Punct(';')]), name, ds, x)
  {
    hide Parser.Run, ParseOf;
    ParseAppend(ts, Str(name));
    ParseAppend(ts + [Str(name)], Punct(';'));
  }
}
