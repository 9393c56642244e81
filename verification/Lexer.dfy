/** From text to tokens. */
module Lexer {
  import opened Values
  import opened Keys
  import opened Grammar

  // --- character classes ---------------------------------------------------------------------------------

  predicate IsSpace(c: char) { c == ' ' || c == '\t' || c == '\n' || c == '\r' }

  predicate IsIdentStart(c: char) { c == '_' || 'a' <= c <= 'z' || 'A' <= c <= 'Z' }

  predicate IsIdentChar(c: char) { IsIdentStart(c) || IsDigit(c) }

  predicate IsPunct(c: char) {
    || c == '(' || c == ')' || c == ',' || c == '=' || c == '<' || c == '>' || c == '+'
    || c == '-' || c == '*' || c == '%' || c == '/' || c == ';' || c == '.'
  }

  function Lower(c: char): char { if 'A' <= c <= 'Z' then (c as int + 32) as char else c }

  function ToLower(s: string): (r: string)
    ensures |r| == |s| && forall i :: 0 <= i < |s| ==> r[i] == Lower(s[i])
  {
    seq(|s|, i requires 0 <= i < |s| => Lower(s[i]))
  }

  predicate IsPair(c: char, d: char) { (c == '<' && (d == '=' || d == '>')) || (c == '>' && d == '=') }

  /** The length of the longest prefix of characters that satisfy p. */
  function RunOf(s: string, p: char -> bool): (n: nat)
    ensures n <= |s| && (forall i :: 0 <= i < n ==> p(s[i])) && (n < |s| ==> !p(s[n]))
  {
    if s == [] || !p(s[0]) then 0 else 1 + RunOf(s[1..], p)
  }

  // --- tokens ----------------------------------------------------------------------------------------------

  /** A token and the text after it. */
  datatype Cut = Cut(tok: Token, rest: string) | Bad

  /** The inside of a string literal: two quotes stand for one, a single quote ends it. */
  function CutString(s: string, text: string): (r: Cut)
    ensures r.Cut? ==> |r.rest| < |s|
    decreases |s|
  {
    if s == [] then Bad
    else if s[0] == '\'' then
      if |s| > 1 && s[1] == '\'' then CutString(s[2..], text + ['\'']) else Cut(Str(text), s[1..])
    else CutString(s[1..], text + [s[0]])
  }

  function NumberLength(s: string): (n: nat)
    ensures n <= |s| && (s != [] && IsDigit(s[0]) ==> n > 0)
  {
    var n := RunOf(s, IsDigit);
    if n < |s| && s[n] == '.' then n + 1 + RunOf(s[n + 1..], IsDigit) else n
  }

  /** The token that starts with the first character, which is not a space. */
  function CutToken(s: string): (r: Cut)
    requires s != [] && !IsSpace(s[0])
    ensures r.Cut? ==> |r.rest| < |s|
  {
    var c := s[0];
    if c == '\'' then CutString(s[1..], "")
    else if IsDigit(c) then Cut(Num(s[..NumberLength(s)]), s[NumberLength(s)..])
    else if IsIdentStart(c) then
      var n := RunOf(s, IsIdentChar);
      Cut(Ident(ToLower(s[..n])), s[n..])
    else if !IsPunct(c) then Bad
    else if |s| > 1 && IsPair(c, s[1]) then Cut(Punct(s[..2]), s[2..])
    else Cut(Punct(s[..1]), s[1..])
  }

  /** `lex`: None is the syntax error. */
  function Lex(s: string): Option<Tokens>
    decreases |s|
  {
    if s == [] then Some([])
    else if IsSpace(s[0]) then Lex(s[1..])
    else match CutToken(s)
      case Bad => None
      case Cut(tok, rest) =>
        match Lex(rest)
        case None => None
        case Some(toks) => Some([tok] + toks)
  }

  // --- writing tokens ---------------------------------------------------------------------------------------

  predicate IsWord(s: string) {
    s != [] && IsIdentStart(s[0]) && forall i :: 0 <= i < |s| ==> IsIdentChar(s[i]) && Lower(s[i]) == s[i]
  }

  /** Digits, possibly with one point that is not the first character. */
  predicate IsNumeral(s: string) { (s != [] && AllDigits(s)) || IsDecimal(s) }

  predicate IsSymbol(s: string) {
    (|s| == 1 && IsPunct(s[0])) || (|s| == 2 && IsPair(s[0], s[1]))
  }

  predicate WellFormed(t: Token) {
    match t
    case Ident(s) => IsWord(s)
    case Num(s) => IsNumeral(s)
    case Str(_) => true
    case Punct(s) => IsSymbol(s)
  }

  function Escaped(s: string): string {
    if s == [] then [] else (if s[0] == '\'' then "''" else [s[0]]) + Escaped(s[1..])
  }

  /** The token's text and a space after it. */
  function Written(t: Token): string {
    match t
    case Str(s) => "'" + Escaped(s) + "'" + " "
    case _ => t.text + " "
  }

  function WriteAll(toks: Tokens): string { if toks == [] then "" else Written(toks[0]) + WriteAll(toks[1..]) }

  // --- reading them back ---------------------------------------------------------------------------------------

  lemma {:induction false} RunStops(s: string, rest: string, p: char -> bool)
    requires (forall i :: 0 <= i < |s| ==> p(s[i])) && rest != [] && !p(rest[0])
    ensures RunOf(s + rest, p) == |s|
    decreases |s|
  {
    if s == [] {
      assert s + rest == rest;
    } else {
      assert (s + rest)[1..] == s[1..] + rest;
      RunStops(s[1..], rest, p);
    }
  }

  lemma {:induction false} CutEscaped(s: string, text: string, rest: string)
    requires rest == [] || rest[0] != '\''
    ensures CutString(Escaped(s) + "'" + rest, text) == Cut(Str(text + s), rest)
    decreases |s|
  {
    var src := Escaped(s) + "'" + rest;
    if s == [] {
      assert src == "'" + rest && src[1..] == rest && text + s == text;
    } else {
      var tail := Escaped(s[1..]) + "'" + rest;
      if s[0] == '\'' {
        assert src == "''" + tail && src[2..] == tail;
      } else {
        assert src == [s[0]] + tail && src[1..] == tail;
      }
      CutEscaped(s[1..], text + [s[0]], rest);
      assert text + [s[0]] + s[1..] == text + s;
    }
  }

  lemma DecimalLength(s: string, i: nat, rest: string)
    requires 0 < i < |s| && s[i] == '.' && AllDigits(s[..i]) && AllDigits(s[i + 1..]) && rest != [] && !IsDigit(rest[0])
    ensures NumberLength(s + rest) == |s|
  {
    var whole, part := s[..i], s[i + 1..];
    var src := s + rest;
    assert src == whole + ("." + part + rest) by { assert s == whole + ("." + part); }
    RunStops(whole, "." + part + rest, IsDigit);
    assert src[i + 1..] == part + rest;
    RunStops(part, rest, IsDigit);
  }

  lemma NumeralLength(s: string, rest: string)
    requires IsNumeral(s) && rest != [] && rest[0] == ' '
    ensures NumberLength(s + rest) == |s| && IsDigit(s[0])
  {
    if s != [] && AllDigits(s) {
      RunStops(s, rest, IsDigit);
    } else {
      var i :| 0 <= i < |s| && s[i] == '.' && AllDigits(s[..i]) && AllDigits(s[i + 1..]) && i > 0;
      DecimalLength(s, i, rest);
      assert s[0] == s[..i][0];
    }
  }

  lemma LowerIsIdentity(s: string)
    requires forall i :: 0 <= i < |s| ==> Lower(s[i]) == s[i]
    ensures ToLower(s) == s
  {
  }

  lemma CutWord(s: string, after: string)
    requires IsWord(s) && after != [] && after[0] == ' '
    ensures CutToken(s + after) == Cut(Ident(s), after)
  {
    var src := s + after;
    assert src[..|s|] == s && src[|s|..] == after;
    RunStops(s, after, IsIdentChar);
    LowerIsIdentity(s);
  }

  lemma CutNumeral(s: string, after: string)
    requires IsNumeral(s) && after != [] && after[0] == ' '
    ensures s != [] && !IsSpace(s[0]) && CutToken(s + after) == Cut(Num(s), after)
  {
    var src := s + after;
    assert src[..|s|] == s && src[|s|..] == after;
    NumeralLength(s, after);
  }

  lemma CutSymbol(s: string, after: string)
    requires IsSymbol(s) && after != [] && after[0] == ' '
    ensures CutToken(s + after) == Cut(Punct(s), after)
  {
    var src := s + after;
    assert src[..|s|] == s && src[|s|..] == after;
  }

  /** A written token is cut off again, and the space after it stays. */
  lemma CutWritten(t: Token, rest: string)
    requires WellFormed(t)
    ensures Written(t) != [] && !IsSpace(Written(t)[0])
    ensures CutToken(Written(t) + rest) == Cut(t, " " + rest)
  {
    var src, after := Written(t) + rest, " " + rest;
    match t
    case Ident(s) => assert src == s + after; CutWord(s, after);
    case Num(s) => assert src == s + after; CutNumeral(s, after);
    case Punct(s) => assert src == s + after && Written(t)[0] == s[0] && !IsSpace(s[0]); CutSymbol(s, after);
    case Str(s) =>
      assert src[1..] == Escaped(s) + "'" + after;
      CutEscaped(s, "", after);
      assert "" + s == s;
  }

  /** Lexing written tokens gives the tokens back. */
  lemma {:induction false} LexOfWrite(toks: Tokens)
    requires forall i :: 0 <= i < |toks| ==> WellFormed(toks[i])
    ensures Lex(WriteAll(toks)) == Some(toks)
    decreases |toks|
  {
    if toks != [] {
      var rest := WriteAll(toks[1..]);
      var src := Written(toks[0]) + rest;
      CutWritten(toks[0], rest);
      assert src[0] == Written(toks[0])[0];
      assert (" " + rest)[1..] == rest && Lex(" " + rest) == Lex(rest);
      LexOfWrite(toks[1..]);
      assert [toks[0]] + toks[1..] == toks;
    }
  }

  // --- the loop --------------------------------------------------------------------------------------------------

  /** A maximal run, counted forward from pos. */
  method ScanRun(src: string, pos: nat, p: char -> bool) returns (end: nat)
    requires pos <= |src|
    ensures pos <= end <= |src| && end == pos + RunOf(src[pos..], p)
  {
    end := pos;
    while end < |src| && p(src[end])
      invariant pos <= end <= |src|
      invariant RunOf(src[pos..], p) == end - pos + RunOf(src[end..], p)
    {
      assert src[end..][1..] == src[end + 1..];
      end := end + 1;
    }
  }

  /** The inner loop of a string literal. */
  method ScanString(src: string, pos: nat) returns (text: string, end: nat, closed: bool)
    requires pos <= |src|
    ensures closed ==> pos < end <= |src| && CutString(src[pos..], "") == Cut(Str(text), src[end..])
    ensures !closed ==> CutString(src[pos..], "") == Bad
  {
    text, end, closed := "", pos, false;
    while end < |src|
      invariant pos <= end <= |src| && !closed
      invariant CutString(src[pos..], "") == CutString(src[end..], text)
    {
      assert src[end..][1..] == src[end + 1..];
      if src[end] == '\'' {
        if end + 1 < |src| && src[end + 1] == '\'' {
          assert src[end..][2..] == src[end + 2..];
          text, end := text + ['\''], end + 2;
          continue;
        }
        return text, end + 1, true;
      }
      text, end := text + [src[end]], end + 1;
    }
  }

  /** `lex`: one pass over the text. */
  method LexLoop(src: string) returns (r: Option<Tokens>)
    ensures r == Lex(src)
  {
    var toks: Tokens, pos := [], 0;
    assert src[0..] == src;
    if Lex(src).Some? { assert [] + Lex(src).value == Lex(src).value; }
    while pos < |src|
      invariant 0 <= pos <= |src|
      invariant Lex(src) == Appended(toks, Lex(src[pos..]))
    {
      var c := src[pos];
      assert src[pos..][1..] == src[pos + 1..];
      if IsSpace(c) {
        pos := pos + 1;
      } else {
        var tok, end := NextToken(src, pos);
        if tok.None? { return None; }
        AppendedStep(toks, tok.value, Lex(src[end..]));
        toks, pos := toks + [tok.value], end;
      }
    }
    assert toks + [] == toks;
    return Some(toks);
  }

  method NextNumber(src: string, pos: nat) returns (end: nat)
    requires pos < |src|
    ensures pos <= end <= |src| && end == pos + NumberLength(src[pos..])
  {
    var here := src[pos..];
    end := ScanRun(src, pos, IsDigit);
    assert end < |src| ==> here[end - pos] == src[end];
    if end < |src| && src[end] == '.' {
      assert here[end - pos + 1..] == src[end + 1..];
      end := ScanRun(src, end + 1, IsDigit);
    }
  }

  /** One token at pos, where no space stands. */
  method NextToken(src: string, pos: nat) returns (tok: Option<Token>, end: nat)
    requires pos < |src| && !IsSpace(src[pos])
    ensures tok.None? ==> CutToken(src[pos..]) == Bad
    ensures tok.Some? ==> pos < end <= |src| && CutToken(src[pos..]) == Cut(tok.value, src[end..])
  {
    var c := src[pos];
    if c == '\'' {
      assert src[pos..][1..] == src[pos + 1..];
      var text, closed;
      text, end, closed := ScanString(src, pos + 1);
      return if closed then Some(Str(text)) else None, end;
    }
    if !IsDigit(c) && !IsIdentStart(c) && !IsPunct(c) { return None, pos; }
    if IsDigit(c) {
      end := NextNumber(src, pos);
      tok := Some(Num(src[pos..end]));
    } else if IsIdentStart(c) {
      end := ScanRun(src, pos, IsIdentChar);
      tok := Some(Ident(ToLower(src[pos..end])));
    } else {
      end := if pos + 1 < |src| && IsPair(c, src[pos + 1]) then pos + 2 else pos + 1;
      tok := Some(Punct(src[pos..end]));
    }
    Slices(src, pos, end);
  }

  lemma Slices(src: string, pos: nat, end: nat)
    requires pos <= end <= |src|
    ensures src[pos..][..end - pos] == src[pos..end] && src[pos..][end - pos..] == src[end..]
  {
  }

  function Appended(toks: Tokens, rest: Option<Tokens>): Option<Tokens> {
    match rest
    case None => None
    case Some(more) => Some(toks + more)
  }

  lemma AppendedStep(toks: Tokens, tok: Token, rest: Option<Tokens>)
    ensures Appended(toks, if rest.Some? then Some([tok] + rest.value) else None) == Appended(toks + [tok], rest)
  {
    if rest.Some? { assert toks + ([tok] + rest.value) == toks + [tok] + rest.value; }
  }
}
