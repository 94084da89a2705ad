/**
 Splitting an OData filter expression into tokens (ODataTokenizer).

 `wide` tells which characters beyond ASCII are letters; everything is proved for all of them.
 */
module ODataTokenizer {
  import opened Common
  import opened ODataTokens

  datatype Error = UndeterminedString | UnknownCharacter

  datatype Result = Ok(tokens: seq<Token>) | Err(error: Error)

  /** A character of an unquoted literal, other than the nested-property separator '/'. */
  predicate LiteralChar(c: char, wide: char -> bool) {
    || 'a' <= c <= 'z' || 'A' <= c <= 'Z' || '0' <= c <= '9'
    || c == '-' || c == '.' || c == '_' || c == '~' || c == '%' || c == '!' || c == '$' || c == '&' || c == '*'
    || c == '+' || c == ';' || c == ':' || c == '@'
    || (c > '\U{7F}' && wide(c))
  }

  function LiteralLength(rem: string, wide: char -> bool): (n: nat)
    ensures n <= |rem|
  {
    if rem != [] && (LiteralChar(rem[0], wide) || rem[0] == '/') then 1 + LiteralLength(rem[1..], wide) else 0
  }

  /** The longest prefix of literal characters. */
  lemma {:induction false} LiteralLengthIs(rem: string, wide: char -> bool, n: nat)
    requires n <= |rem| && (forall i :: 0 <= i < n ==> LiteralChar(rem[i], wide) || rem[i] == '/')
    requires n < |rem| ==> !LiteralChar(rem[n], wide) && rem[n] != '/'
    ensures LiteralLength(rem, wide) == n
    decreases n
  {
    if n > 0 {
      LiteralLengthIs(rem[1..], wide, n - 1);
    }
  }

  /** Both '/' and '.' separate nested properties; the token has '.'. */
  function Dots(s: string): (t: string)
    ensures |t| == |s|
  {
    if s == [] then [] else [if s[0] == '/' then '.' else s[0]] + Dots(s[1..])
  }

  predicate StartsWith(rem: string, prefix: string) {
    |prefix| <= |rem| && rem[..|prefix|] == prefix
  }

  /** The keyword of the list that `rem` starts with, followed by a space. */
  function KeywordAt(rem: string, keywords: seq<string>): (k: Option<string>)
    requires forall i :: 0 <= i < |keywords| ==> keywords[i] != []
    ensures k.Some? ==> 0 < |k.value| < |rem|
  {
    if keywords == [] then None
    else if StartsWith(rem, keywords[0] + " ") then Some(keywords[0])
    else KeywordAt(rem, keywords[1..])
  }

  /** A keyword is found exactly when the text starts with one and a space. */
  lemma {:induction false} KeywordAtExactly(rem: string, keywords: seq<string>)
    requires forall i :: 0 <= i < |keywords| ==> keywords[i] != []
    ensures
      var k := KeywordAt(rem, keywords);
      && (k.Some? ==> k.value in keywords && StartsWith(rem, k.value + " "))
      && (k.None? ==> forall w :: w in keywords ==> !StartsWith(rem, w + " "))
  {
    if keywords != [] {
      KeywordAtExactly(rem, keywords[1..]);
      assert forall w :: w in keywords ==> w == keywords[0] || w in keywords[1..];
    }
  }

  /** Where a quoted literal whose opening quote was read ends, and whether it is closed there:
      a doubled quote is a character, a quote followed by anything else closes the literal. */
  function QuotedEnd(rem: string, i: nat, wasApostrophe: bool): (nat, bool)
    requires i <= |rem|
    decreases |rem| - i
  {
    if i == |rem| then (i, wasApostrophe)
    else if rem[i] != '\'' then (if wasApostrophe then (i, true) else QuotedEnd(rem, i + 1, false))
    else QuotedEnd(rem, i + 1, !wasApostrophe)
  }

  lemma {:induction false} QuotedEndBounds(rem: string, i: nat, was: bool)
    requires i <= |rem|
    ensures i <= QuotedEnd(rem, i, was).0 <= |rem|
    decreases |rem| - i
  {
    if i < |rem| && !(rem[i] != '\'' && was) {
      QuotedEndBounds(rem, i + 1, if rem[i] != '\'' then false else !was);
    }
  }

  function Cons(t: Token, r: Result): Result {
    if r.Ok? then Ok([t] + r.tokens) else r
  }

  /** The tokens of the rest of an expression, which starts at position `pos`. */
  function Scan(rem: string, pos: nat, wide: char -> bool): Result
    decreases |rem|, 2
  {
    if rem == [] then Ok([])
    else match rem[0]
         case ' ' => Scan(rem[1..], pos + 1, wide)
         case '(' => Emit(OpenParen, "(", 1, rem, pos, wide)
         case ')' => Emit(CloseParen, ")", 1, rem, pos, wide)
         case ',' => Emit(Comma, ",", 1, rem, pos, wide)
         case '=' => Emit(Symbol, "=", 1, rem, pos, wide)
         case '?' => Emit(Symbol, "?", 1, rem, pos, wide)
         case '\'' => ScanQuoted(rem, pos, wide)
         case _ => ScanWord(rem, pos, wide)
  }

  /** A token of the first n characters, and the tokens of what is left. */
  function Emit(kind: Kind, literal: string, n: nat, rem: string, pos: nat, wide: char -> bool): Result
    requires 0 < n <= |rem|
    decreases |rem|, 0
  {
    Cons(Token(kind, pos, literal), Scan(rem[n..], pos + n, wide))
  }

  function ScanQuoted(rem: string, pos: nat, wide: char -> bool): Result
    requires rem != []
    decreases |rem|, 1
  {
    QuotedEndBounds(rem, 1, false);
    var (n, closed) := QuotedEnd(rem, 1, false);
    if closed then Emit(SimpleType, rem[..n], n, rem, pos, wide) else Err(UndeterminedString)
  }

  /** A keyword followed by a space, or an unquoted literal. */
  function ScanWord(rem: string, pos: nat, wide: char -> bool): Result
    requires rem != []
    decreases |rem|, 1
  {
    var comparison, operator, n := KeywordAt(rem, COMPARISONS), KeywordAt(rem, OPERATORS), LiteralLength(rem, wide);
    if comparison.Some? then Emit(BinaryComparison, comparison.value, |comparison.value|, rem, pos, wide)
    else if operator.Some? then Emit(BinaryOperator, operator.value, |operator.value|, rem, pos, wide)
    else if rem == "true" || rem == "false" then Emit(SimpleType, rem, |rem|, rem, pos, wide)
    else if n > 0 then Emit(SimpleType, Dots(rem[..n]), n, rem, pos, wide)
    else Err(UnknownCharacter)
  }

  // ---------- the tokenizer object ----------

  function Prepend(ts: seq<Token>, r: Result): Result {
    if r.Ok? then Ok(ts + r.tokens) else r
  }

  lemma PrependCons(ts: seq<Token>, t: Token, r: Result)
    ensures Prepend(ts, Cons(t, r)) == Prepend(ts + [t], r)
  {
    if r.Ok? {
      assert ts + ([t] + r.tokens) == ts + [t] + r.tokens;
    }
  }

  class ODataTokenizer {
    const expression: string
    const wide: char -> bool
    var curPosition: nat
    var tokens: seq<Token>

    constructor (expression: string, wide: char -> bool)
      ensures this.expression == expression && this.wide == wide && curPosition == 0 && tokens == []
    {
      this.expression, this.wide, this.curPosition, this.tokens := expression, wide, 0, [];
    }

    /** What is still to be read, appended to what was read. */
    ghost function Outlook(): Result
      requires curPosition <= |expression|
      reads this
    {
      Prepend(tokens, Scan(expression[curPosition..], curPosition, wide))
    }

    method AppendToken(kind: Kind, literal: string, length: nat)
      requires 0 < length <= |expression| - curPosition
      requires
        var rem := expression[curPosition..];
        Scan(rem, curPosition, wide) == Emit(kind, literal, length, rem, curPosition, wide)
      modifies this
      ensures old(curPosition) < curPosition <= |expression|
      ensures Outlook() == old(Outlook())
    {
      ghost var rem, before, at := expression[curPosition..], tokens, curPosition;
      tokens := tokens + [Token(kind, curPosition, literal)];
      curPosition := curPosition + length;
      assert rem[length..] == expression[curPosition..];
      PrependCons(before, Token(kind, at, literal), Scan(rem[length..], at + length, wide));
    }

    method EatWhiteSpaces()
      requires curPosition < |expression| && expression[curPosition] == ' '
      modifies this`curPosition
      ensures old(curPosition) < curPosition <= |expression|
      ensures Outlook() == old(Outlook())
    {
      var c := ' ';
      while c == ' ' && curPosition < |expression|
        invariant old(curPosition) <= curPosition <= |expression|
        invariant curPosition < |expression| ==> c == expression[curPosition]
        invariant curPosition == old(curPosition) ==> c == ' '
        invariant Outlook() == old(Outlook())
      {
        assert expression[curPosition..][1..] == expression[curPosition + 1..];
        curPosition := curPosition + 1;
        if curPosition < |expression| {
          c := expression[curPosition];
        }
      }
    }

    /** Reads the quoted literal at the cursor; fails when it is not closed. */
    method ReadLiteral() returns (error: Option<Error>)
      requires curPosition < |expression| && expression[curPosition] == '\''
      modifies this
      ensures error.None? ==> old(curPosition) < curPosition <= |expression| && Outlook() == old(Outlook())
      ensures error.Some? ==> old(Outlook()) == Err(error.value)
    {
      ghost var rem := expression[curPosition..];
      var sb := "'";
      var i := curPosition + 1;
      var wasApostrophe := false;
      while i < |expression|
        invariant curPosition < i <= |expression|
        invariant sb == expression[curPosition..i]
        invariant QuotedEnd(rem, i - curPosition, wasApostrophe) == QuotedEnd(rem, 1, false)
        decreases |expression| - i
      {
        var c := expression[i];
        if c != '\'' {
          if wasApostrophe {
            break;
          }
          wasApostrophe := false;
        } else {
          wasApostrophe := !wasApostrophe;
        }
        sb := sb + [c];
        i := i + 1;
      }
      assert Scan(rem, curPosition, wide) == ScanQuoted(rem, curPosition, wide);
      if !wasApostrophe {
        return Some(UndeterminedString);
      }
      assert rem[..i - curPosition] == expression[curPosition..i];
      AppendToken(SimpleType, sb, i - curPosition);
      error := None;
    }

    /** Every iteration advances the cursor or returns an error. */
    method Tokenize() returns (error: Option<Error>)
      requires curPosition == 0 && tokens == []
      modifies this
      ensures Scan(expression, 0, wide) == if error.None? then Ok(tokens) else Err(error.value)
    {
      assert expression[0..] == expression;
      ghost var all := Scan(expression, 0, wide);
      while curPosition < |expression|
        invariant curPosition <= |expression|
        invariant Outlook() == all
        decreases |expression| - curPosition
      {
        error := TokenizeOne(expression[curPosition]);
        if error.Some? {
          return;
        }
      }
      error := None;
    }

    /** The switch on the current character. */
    method TokenizeOne(c: char) returns (error: Option<Error>)
      requires curPosition < |expression| && c == expression[curPosition]
      modifies this
      ensures error.None? ==> old(curPosition) < curPosition <= |expression| && Outlook() == old(Outlook())
      ensures error.Some? ==> old(Outlook()) == Err(error.value)
    {
      error := None;
      match c {
        case ' ' => EatWhiteSpaces();
        case '(' => AppendToken(OpenParen, "(", 1);
        case ')' => AppendToken(CloseParen, ")", 1);
        case '\'' => error := ReadLiteral();
        case ',' => AppendToken(Comma, ",", 1);
        case '=' => AppendToken(Symbol, "=", 1);
        case '?' => AppendToken(Symbol, "?", 1);
        case _ =>
          var rem := expression[curPosition..];
          error := TokenizeWord(rem);
      }
    }

    method TokenizeWord(rem: string) returns (error: Option<Error>)
      requires curPosition < |expression| && rem == expression[curPosition..]
      requires Scan(rem, curPosition, wide) == ScanWord(rem, curPosition, wide)
      modifies this
      ensures error.None? ==> old(curPosition) < curPosition <= |expression| && Outlook() == old(Outlook())
      ensures error.Some? ==> old(Outlook()) == Err(error.value)
    {
      error := None;
      var comparison := KeywordAt(rem, COMPARISONS);
      if comparison.Some? {
        AppendToken(BinaryComparison, comparison.value, |comparison.value|);
        return;
      }
      var operator := KeywordAt(rem, OPERATORS);
      if operator.Some? {
        AppendToken(BinaryOperator, operator.value, |operator.value|);
        return;
      }
      if rem == "true" || rem == "false" {
        AppendToken(SimpleType, rem, |rem|);
        return;
      }
      var n := LiteralLength(rem, wide);
      if n > 0 {
        AppendToken(SimpleType, Dots(rem[..n]), n);
        return;
      }
      error := Some(UnknownCharacter);
    }
  }
}
