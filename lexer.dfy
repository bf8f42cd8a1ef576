/**
 * The tokenizer of church/lambda_parser.py: a two-state machine (inside an
 * identifier or not) that turns text into (kind, value) tokens ending in END.
 */
module Lexer {
  import opened Outcomes
  import opened Syntax
  import opened Seqs

  /** Token kinds: the six terminals, then the four nonterminals the parser pushes back. */
  datatype Kind = Id | LeftParen | RightParen | Backslash | Dot | End | Atom | Expr | Names | Complete

  /** The payload of a token, which is also what the parser's value stack holds. */
  datatype Value = NoValue | Text(text: string) | NameList(names: seq<string>) | Node(tree: Ast)

  datatype Token = Token(kind: Kind, value: Value)

  predicate IsIdChar(c: char) { 'a' <= c <= 'z' || c == '_' }

  predicate IsWhitespace(c: char) { c == ' ' || c == '\n' }

  /** The four characters that form a token on their own. */
  function SingleToken(c: char): Option<Kind>
  {
    if c == '(' then Some(LeftParen)
    else if c == ')' then Some(RightParen)
    else if c == '\\' then Some(Backslash)
    else if c == '.' then Some(Dot)
    else None
  }

  predicate Allowed(c: char) { IsIdChar(c) || IsWhitespace(c) || SingleToken(c).Some? }

  /** The length of the maximal run of identifier characters at the front of `s`. */
  function RunLength(s: string): (n: nat)
    ensures n <= |s|
    ensures forall i :: 0 <= i < n ==> IsIdChar(s[i])
    ensures n < |s| ==> !IsIdChar(s[n])
  {
    if s == [] || !IsIdChar(s[0]) then 0 else 1 + RunLength(s[1..])
  }

  function PrependAll(out: seq<Token>, r: Result<seq<Token>>): Result<seq<Token>>
  {
    if r.Ok? then Ok(out + r.value) else r
  }

  /**
   * Reference definition of the token stream: a maximal identifier run is one
   * Id token, whitespace is skipped, the four single characters are tokens of
   * their own, any other character is a ParseError, and End closes the stream.
   */
  function Lex(s: string): Result<seq<Token>>
    decreases |s|
  {
    if s == [] then Ok([Token(End, NoValue)])
    else if IsIdChar(s[0]) then
      var n := RunLength(s);
      PrependAll([Token(Id, Text(s[..n]))], Lex(s[n..]))
    else if SingleToken(s[0]).Some? then
      PrependAll([Token(SingleToken(s[0]).value, NoValue)], Lex(s[1..]))
    else if IsWhitespace(s[0]) then Lex(s[1..])
    else Fail(ParseError)
  }

  /** A terminal token as the lexer produces it (End excluded). */
  predicate IsLexeme(t: Token)
  {
    if t.kind == Id then t.value.Text? && t.value.text != [] && forall i :: 0 <= i < |t.value.text| ==> IsIdChar(t.value.text[i])
    else t.kind in {LeftParen, RightParen, Backslash, Dot} && t.value == NoValue
  }

  /** What every successful tokenization looks like: lexemes, then exactly one End. */
  predicate IsTokenization(ts: seq<Token>)
  {
    |ts| > 0 && ts[|ts| - 1] == Token(End, NoValue) &&
    forall i :: 0 <= i < |ts| - 1 ==> IsLexeme(ts[i])
  }

  lemma {:induction false} LexShape(s: string)
    requires Lex(s).Ok?
    ensures IsTokenization(Lex(s).value)
    decreases |s|
  {
    if s == [] {
    } else if IsIdChar(s[0]) {
      var n := RunLength(s);
      LexShape(s[n..]);
      var x := s[..n];
      assert forall i :: 0 <= i < |x| ==> IsIdChar(x[i]);
      assert IsLexeme(Token(Id, Text(x)));
    } else if SingleToken(s[0]).Some? {
      LexShape(s[1..]);
    } else if IsWhitespace(s[0]) {
      LexShape(s[1..]);
    }
  }

  /** Tokenizing fails exactly when some character is outside the alphabet. */
  lemma {:induction false} LexFailsIff(s: string)
    ensures Lex(s).Fail? <==> exists i :: 0 <= i < |s| && !Allowed(s[i])
    ensures Lex(s).Fail? ==> Lex(s).error == ParseError
    decreases |s|
  {
    if s == [] {
    } else if IsIdChar(s[0]) {
      var n := RunLength(s);
      LexFailsIff(s[n..]);
      if exists i :: 0 <= i < |s| && !Allowed(s[i]) {
        var i :| 0 <= i < |s| && !Allowed(s[i]);
        assert i >= n;
        assert !Allowed(s[n..][i - n]);
      }
      if exists j :: 0 <= j < |s[n..]| && !Allowed(s[n..][j]) {
        var j :| 0 <= j < |s[n..]| && !Allowed(s[n..][j]);
        assert !Allowed(s[j + n]);
      }
    } else if !Allowed(s[0]) {
    } else {
      LexFailsIff(s[1..]);
      if exists i :: 0 <= i < |s| && !Allowed(s[i]) {
        var i :| 0 <= i < |s| && !Allowed(s[i]);
        assert !Allowed(s[1..][i - 1]);
      }
      if exists j :: 0 <= j < |s[1..]| && !Allowed(s[1..][j]) {
        var j :| 0 <= j < |s[1..]| && !Allowed(s[1..][j]);
        assert !Allowed(s[j + 1]);
      }
    }
  }

  /** A lexeme written back as text. */
  function Spell(t: Token): string
  {
    match t.kind
    case Id => if t.value.Text? then t.value.text else []
    case LeftParen => "("
    case RightParen => ")"
    case Backslash => "\\"
    case Dot => "."
    case _ => []
  }

  /** Lexemes written back as text, each followed by a space. */
  function Render(ts: seq<Token>): string
  {
    if ts == [] then [] else Spell(ts[0]) + " " + Render(ts[1..])
  }

  /** Tokenizing the rendering of lexemes gives those lexemes back, then End. */
  lemma {:induction false} LexRender(ts: seq<Token>)
    requires forall i :: 0 <= i < |ts| ==> IsLexeme(ts[i])
    ensures Lex(Render(ts)) == Ok(ts + [Token(End, NoValue)])
  {
    if ts != [] {
      LexRender(ts[1..]);
      LexLexeme(ts[0], Render(ts[1..]));
      assert [ts[0]] + (ts[1..] + [Token(End, NoValue)]) == ts + [Token(End, NoValue)];
    } else {
      assert [] + [Token(End, NoValue)] == [Token(End, NoValue)];
    }
  }

  /** One lexeme followed by a space lexes to itself. */
  lemma LexLexeme(t: Token, rest: string)
    requires IsLexeme(t)
    ensures Lex(Spell(t) + " " + rest) == PrependAll([t], Lex(rest))
  {
    var w := Spell(t);
    var s := w + " " + rest;
    assert s[|w|..] == " " + rest;
    assert Lex(" " + rest) == Lex(rest) by {
      assert (" " + rest)[1..] == rest;
    }
    if t.kind == Id {
      RunLengthOfRun(s, |w|);
      assert s[..|w|] == w;
    } else {
      assert s[1..] == " " + rest;
    }
  }

  /** The run length is pinned down by where identifier characters stop. */
  lemma RunLengthOfRun(s: string, n: nat)
    requires n <= |s|
    requires forall i :: 0 <= i < n ==> IsIdChar(s[i])
    requires n < |s| ==> !IsIdChar(s[n])
    ensures RunLength(s) == n
  {
  }

  /** An identifier run that the automaton closes at `i` is one Id token of the reference. */
  lemma LexRun(s: string, start: nat, i: nat)
    requires start < i <= |s|
    requires forall j :: start <= j < i ==> IsIdChar(s[j])
    requires i < |s| ==> !IsIdChar(s[i])
    ensures Lex(s[start..]) == PrependAll([Token(Id, Text(s[start..i]))], Lex(s[i..]))
  {
    var t := s[start..];
    RunLengthOfRun(t, i - start);
    assert t[..i - start] == s[start..i];
    assert t[i - start..] == s[i..];
  }

  /** The reference at a character outside identifiers. */
  lemma LexAt(s: string, i: nat)
    requires i < |s| && !IsIdChar(s[i])
    ensures SingleToken(s[i]).Some? ==> Lex(s[i..]) == PrependAll([Token(SingleToken(s[i]).value, NoValue)], Lex(s[i + 1..]))
    ensures SingleToken(s[i]).None? && IsWhitespace(s[i]) ==> Lex(s[i..]) == Lex(s[i + 1..])
    ensures !Allowed(s[i]) ==> Lex(s[i..]) == Fail(ParseError)
  {
    assert s[i..][1..] == s[i + 1..];
  }

  lemma PrependAllAssoc(a: seq<Token>, b: seq<Token>, r: Result<seq<Token>>)
    ensures PrependAll(a, PrependAll(b, r)) == PrependAll(a + b, r)
  {
    if r.Ok? {
      assert a + (b + r.value) == (a + b) + r.value;
    }
  }

  /**
   * tokenize: one pass over the characters, plus one step for the end of
   * input, flipping between "inside an identifier" and "not".
   */
  method Tokenize(s: string) returns (r: Result<seq<Token>>)
    ensures r == Lex(s)
  {
    var out: seq<Token> := [];
    var parsingId := false;
    var idChars: string := [];
    var i := 0;
    ghost var start := 0;  // where the text not yet turned into tokens begins
    assert s[0..] == s;
    assert PrependAll([], Lex(s)) == Lex(s) by {
      if Lex(s).Ok? { assert [] + Lex(s).value == Lex(s).value; }
    }
    while true
      invariant 0 <= start <= i <= |s|
      invariant parsingId ==> start < i && idChars == s[start..i]
      invariant parsingId ==> forall j :: start <= j < i ==> IsIdChar(s[j])
      invariant !parsingId ==> start == i
      invariant Lex(s) == PrependAll(out, Lex(s[start..]))
      decreases |s| - i
    {
      var c: Option<char> := if i < |s| then Some(s[i]) else None;
      if c.Some? && IsIdChar(c.value) {
        if !parsingId {
          parsingId := true;
          idChars := [];
        }
        SliceSnoc(s, start, i);
        idChars := idChars + [c.value];
      } else {
        if parsingId {
          assert Lex(s) == PrependAll(out + [Token(Id, Text(idChars))], Lex(s[i..])) by {
            LexRun(s, start, i);
            PrependAllAssoc(out, [Token(Id, Text(idChars))], Lex(s[i..]));
          }
          out := out + [Token(Id, Text(idChars))];
          parsingId := false;
          start := i;
        }
        if c.Some? && SingleToken(c.value).Some? {
          var t := Token(SingleToken(c.value).value, NoValue);
          assert Lex(s) == PrependAll(out + [t], Lex(s[i + 1..])) by {
            LexAt(s, i);
            PrependAllAssoc(out, [t], Lex(s[i + 1..]));
          }
          out := out + [t];
        } else if c.Some? && IsWhitespace(c.value) {
          assert Lex(s) == PrependAll(out, Lex(s[i + 1..])) by {
            LexAt(s, i);
          }
        } else if c.None? {
          out := out + [Token(End, NoValue)];
          return Ok(out);
        } else {
          assert Lex(s) == Fail(ParseError) by {
            LexAt(s, i);
          }
          return Fail(ParseError);
        }
        start := i + 1;
      }
      i := i + 1;
    }
  }
}
