/**
 A reader for the fragment of C++ that the generator emits, written from
 ISO/IEC 14882:2011 and not from the generator: translation phases 1 and 2
 (section 2.2) and the division into tokens (sections 2.5, 2.10, 2.14.3 and 2.14.5).

 The tokenizer is a left fold of `Step` over the characters, so a hexadecimal
 escape ends only when a character arrives that is not a hexadecimal digit.
 */
module Lexer {

  // ---------------------------------------------------------------- phases 1 and 2

  /** The character that `??c` stands for, or `c` itself when `??c` is no trigraph. */
  function TrigraphValue(c: char): char {
    match c
    case '=' => '#'
    case '/' => '\\'
    case '\'' => '^'
    case '(' => '['
    case ')' => ']'
    case '!' => '|'
    case '<' => '{'
    case '>' => '}'
    case '-' => '~'
    case _ => c
  }

  predicate IsTrigraphEnd(c: char) {
    TrigraphValue(c) != c
  }

  predicate TrigraphAt(s: string, i: nat) {
    i + 2 < |s| && s[i] == '?' && s[i + 1] == '?' && IsTrigraphEnd(s[i + 2])
  }

  /** Phase 1: every trigraph is replaced, from the left. */
  function Trigraphs(s: string): string {
    if s == "" then ""
    else if TrigraphAt(s, 0) then [TrigraphValue(s[2])] + Trigraphs(s[3..])
    else [s[0]] + Trigraphs(s[1..])
  }

  /** Phase 2: a backslash right before a newline splices the two lines. */
  function Splice(s: string): string {
    if s == "" then ""
    else if |s| > 1 && s[0] == '\\' && s[1] == '\n' then Splice(s[2..])
    else [s[0]] + Splice(s[1..])
  }

  function Prepare(s: string): string {
    Splice(Trigraphs(s))
  }

  // ---------------------------------------------------------------- phase 3

  datatype Token =
    | Ident(name: string)
    | Num(value: nat)
    | Str(text: string)
    | Punct(mark: char)
    | Directive(line: string)

  /** `std::string` */
  const STD_STRING := [Ident("std"), Punct(':'), Punct(':'), Ident("string")]

  /**
   What the tokenizer is in the middle of. `text` is the part of a literal already
   decoded; `zero` marks a number that began with the digit 0, which has no second digit
   here (octal integers are outside the fragment).
   */
  datatype Mode =
    | Gap(lineStart: bool)
    | Word(name: string)
    | Number(zero: bool, value: nat)
    | Lit(text: string)
    | Escape(text: string)
    | Hex(text: string, count: nat, value: nat)
    | Octal(text: string, count: nat, value: nat)
    | Line(line: string)

  datatype State = Error | Lexing(mode: Mode, tokens: seq<Token>)

  predicate IsLetter(c: char) {
    'a' <= c <= 'z' || 'A' <= c <= 'Z' || c == '_'
  }

  predicate IsDigit(c: char) {
    '0' <= c <= '9'
  }

  predicate IsWordChar(c: char) {
    IsLetter(c) || IsDigit(c)
  }

  predicate IsHexDigit(c: char) {
    IsDigit(c) || 'a' <= c <= 'f' || 'A' <= c <= 'F'
  }

  /**
   The one-character operators and separators, apart from `/`, which can open a comment,
   and from `?`. Longer operators are read as a sequence of these.
   */
  predicate IsPunct(c: char) {
    || ('!' <= c <= '.' && c != '"' && c != '#' && c != '$' && c != '\'')
    || ':' <= c <= '>'
    || c == '[' || c == ']' || c == '^'
    || '{' <= c <= '~'
  }

  function HexValue(c: char): nat
    requires IsHexDigit(c)
  {
    if IsDigit(c) then (c - '0') as int
    else if 'a' <= c then (c - 'a') as int + 10
    else (c - 'A') as int + 10
  }

  /** The one-character escapes; `'\0'` marks a character that names none. */
  function SimpleEscape(c: char): char {
    match c
    case 'n' => '\n'
    case 't' => '\t'
    case 'v' => 11 as char
    case 'b' => 8 as char
    case 'r' => '\r'
    case 'f' => 12 as char
    case 'a' => 7 as char
    case '\\' => '\\'
    case '?' => '?'
    case '\'' => '\''
    case '"' => '"'
    case _ => '\0'
  }

  /** A character between tokens. */
  function InGap(lineStart: bool, tokens: seq<Token>, c: char): State {
    if c == '\n' then Lexing(Gap(true), tokens)
    else if c == ' ' || c == '\t' then Lexing(Gap(lineStart), tokens)
    else if IsLetter(c) then Lexing(Word([c]), tokens)
    else if IsDigit(c) then Lexing(Number(c == '0', HexValue(c)), tokens)
    else if c == '"' then Lexing(Lit(""), tokens)
    else if c == '#' && lineStart then Lexing(Line("#"), tokens)
    else if IsPunct(c) then Lexing(Gap(false), tokens + [Punct(c)])
    else Error
  }

  /** A character inside a string literal, where no escape is pending. */
  function InLiteral(text: string, tokens: seq<Token>, c: char): State {
    if c == '"' then Lexing(Gap(false), tokens + [Str(text)])
    else if c == '\\' then Lexing(Escape(text), tokens)
    else if c == '\n' then Error
    else Lexing(Lit(text + [c]), tokens)
  }

  /** A character after a numeric escape: the escape must denote a byte. */
  function AfterEscape(text: string, value: nat, tokens: seq<Token>, c: char): State {
    if value < 256 then InLiteral(text + [value as char], tokens, c) else Error
  }

  function Step(st: State, c: char): State {
    match st
    case Error => Error
    case Lexing(Gap(lineStart), tokens) => InGap(lineStart, tokens, c)
    case Lexing(Word(name), tokens) =>
      if IsWordChar(c) then Lexing(Word(name + [c]), tokens)
      else InGap(false, tokens + [Ident(name)], c)
    case Lexing(Number(zero, value), tokens) =>
      if IsDigit(c) && !zero then Lexing(Number(false, value * 10 + HexValue(c)), tokens)
      else if IsWordChar(c) then Error
      else InGap(false, tokens + [Num(value)], c)
    case Lexing(Lit(text), tokens) => InLiteral(text, tokens, c)
    case Lexing(Escape(text), tokens) =>
      if c == 'x' then Lexing(Hex(text, 0, 0), tokens)
      else if '0' <= c <= '7' then Lexing(Octal(text, 1, HexValue(c)), tokens)
      else if SimpleEscape(c) != '\0' then Lexing(Lit(text + [SimpleEscape(c)]), tokens)
      else Error
    case Lexing(Hex(text, count, value), tokens) =>
      if IsHexDigit(c) then Lexing(Hex(text, count + 1, value * 16 + HexValue(c)), tokens)
      else if count == 0 then Error
      else AfterEscape(text, value, tokens, c)
    case Lexing(Octal(text, count, value), tokens) =>
      if '0' <= c <= '7' && count < 3 then Lexing(Octal(text, count + 1, value * 8 + HexValue(c)), tokens)
      else AfterEscape(text, value, tokens, c)
    case Lexing(Line(line), tokens) =>
      if c == '\n' then Lexing(Gap(true), tokens + [Directive(line)])
      else Lexing(Line(line + [c]), tokens)
  }

  function Run(st: State, s: string): State
    decreases s
  {
    if s == "" then st else Run(Step(st, s[0]), s[1..])
  }

  const START := Lexing(Gap(true), [])

  datatype Lexed = NoTokens | Tokens(tokens: seq<Token>)

  /** The tokens of a text that, as section 2.2 asks of a source file, ends in a newline. */
  function Tokenize(s: string): Lexed {
    var st := Run(START, Prepare(s));
    if st.Lexing? && st.mode == Gap(true) then Tokens(st.tokens) else NoTokens
  }
}
