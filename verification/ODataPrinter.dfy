/**
 Printing tokens, with any spaces between them, and reading them back.

 The tokenizer has no inverse in the source; this one is the reference that the tokenizer is
 shown to undo.
 */
module ODataPrinter {
  import opened Common
  import opened ODataTokens
  import opened ODataTokenizer

  /** A token to print.  `Quoted` carries the content between the quotes, unescaped. */
  datatype Lexeme =
    | Open
    | Close
    | CommaMark
    | Mark(c: char)
    | Comparison(keyword: string)
    | Operator(keyword: string)
    | Bare(text: string)
    | Quoted(content: string)

  /** A bare literal; '/' separates nested properties. */
  predicate IsWord(text: string, wide: char -> bool) {
    text != [] && forall i :: 0 <= i < |text| ==> LiteralChar(text[i], wide) || text[i] == '/'
  }

  predicate WellFormed(l: Lexeme, wide: char -> bool) {
    match l
    case Mark(c) => c == '=' || c == '?'
    case Comparison(k) => k in COMPARISONS
    case Operator(k) => k in OPERATORS
    case Bare(text) => IsWord(text, wide)
    case _ => true
  }

  /** Quotes inside a quoted literal are doubled. */
  function Escape(s: string): string {
    if s == [] then [] else (if s[0] == '\'' then "''" else [s[0]]) + Escape(s[1..])
  }

  function Text(l: Lexeme): string {
    match l
    case Open => "("
    case Close => ")"
    case CommaMark => ","
    case Mark(c) => [c]
    case Comparison(k) => k
    case Operator(k) => k
    case Bare(text) => text
    case Quoted(content) => "'" + Escape(content) + "'"
  }

  /** The text of the token a lexeme stands for. */
  function TokenText(l: Lexeme): string { if l.Bare? then Dots(l.text) else Text(l) }

  function KindOf(l: Lexeme): Kind {
    match l
    case Open => OpenParen
    case Close => CloseParen
    case CommaMark => Comma
    case Mark(_) => Symbol
    case Comparison(_) => BinaryComparison
    case Operator(_) => BinaryOperator
    case Bare(_) => SimpleType
    case Quoted(_) => SimpleType
  }

  function Spaces(n: nat): string { if n == 0 then "" else " " + Spaces(n - 1) }

  /** Each lexeme is followed by as many spaces as its gap says. */
  function Print(ls: seq<Lexeme>, gaps: seq<nat>): string
    requires |gaps| == |ls|
    decreases |ls|
  {
    if ls == [] then [] else Text(ls[0]) + (Spaces(gaps[0]) + Print(ls[1..], gaps[1..]))
  }

  predicate IsWordLexeme(l: Lexeme) { l.Comparison? || l.Operator? || l.Bare? }

  /** The kind a printed lexeme is read back with: words are told apart by their text, and a
      keyword counts only when a space follows. */
  function ReadKind(l: Lexeme, spaced: bool): Kind {
    if IsWordLexeme(l) then
      if spaced && Text(l) in COMPARISONS then BinaryComparison
      else if spaced && Text(l) in OPERATORS then BinaryOperator
      else SimpleType
    else KindOf(l)
  }

  /** The tokens a printed list is read as. */
  function TokensOf(ls: seq<Lexeme>, gaps: seq<nat>, pos: nat): (ts: seq<Token>)
    requires |gaps| == |ls|
    ensures |ts| == |ls|
    decreases |ls|
  {
    if ls == [] then []
    else
      [Token(ReadKind(ls[0], gaps[0] > 0), pos, TokenText(ls[0]))]
      + TokensOf(ls[1..], gaps[1..], pos + |Text(ls[0])| + gaps[0])
  }

  // ---------- one lexeme ----------

  /** No character of a word follows. */
  predicate Tail(t: string, wide: char -> bool) { t == [] || (!LiteralChar(t[0], wide) && t[0] != '/') }

  /** What may follow a printed lexeme: what does not belong to it. */
  predicate Follows(l: Lexeme, t: string, wide: char -> bool) {
    && (IsWordLexeme(l) ==> Tail(t, wide))
    && (l.Quoted? ==> t == [] || t[0] != '\'')
  }

  /** A space follows. */
  predicate Spaced(t: string) { t != [] && t[0] == ' ' }

  lemma {:induction false} QuotedEndOf(pre: string, content: string, t: string)
    requires t == [] || t[0] != '\''
    ensures QuotedEnd(pre + (Escape(content) + "'" + t), |pre|, false) == (|pre| + |Escape(content)| + 1, true)
    decreases |content|
  {
    var rem := pre + (Escape(content) + "'" + t);
    if content == [] {
      assert rem[|pre|] == '\'';
      assert |t| > 0 ==> rem[|pre| + 1] == t[0];
    } else {
      var c := if content[0] == '\'' then "''" else [content[0]];
      assert rem == pre + c + (Escape(content[1..]) + "'" + t);
      QuotedEndOf(pre + c, content[1..], t);
      assert rem[|pre|] == content[0];
      assert content[0] == '\'' ==> rem[|pre| + 1] == '\'';
    }
  }

  lemma QuotedReads(content: string, t: string, pos: nat, wide: char -> bool)
    requires t == [] || t[0] != '\''
    ensures
      var text := Text(Quoted(content));
      ScanQuoted(text + t, pos, wide) == Emit(SimpleType, text, |text|, text + t, pos, wide)
  {
    var text := Text(Quoted(content));
    assert text + t == "'" + (Escape(content) + "'" + t);
    QuotedEndOf("'", content, t);
    assert (text + t)[..|text|] == text;
  }

  lemma LiteralLengthOf(text: string, t: string, wide: char -> bool)
    requires Tail(t, wide) && forall i :: 0 <= i < |text| ==> LiteralChar(text[i], wide) || text[i] == '/'
    ensures LiteralLength(text + t, wide) == |text|
  {
    var rem := text + t;
    assert forall i :: 0 <= i < |text| ==> rem[i] == text[i];
    assert |text| < |rem| ==> rem[|text|] == t[0];
    LiteralLengthIs(rem, wide, |text|);
  }

  /** Nested properties are separated by '.' in the token. */
  lemma {:induction false} DotsExactly(text: string, i: nat)
    requires i < |text|
    ensures |Dots(text)| == |text| && Dots(text)[i] == if text[i] == '/' then '.' else text[i]
  {
    if i > 0 {
      DotsExactly(text[1..], i - 1);
    }
  }

  lemma {:induction false} DotsSame(text: string)
    ensures Dots(text) == text <==> '/' !in text
  {
    forall i | 0 <= i < |text|
      ensures Dots(text)[i] == text[i] <==> text[i] != '/'
    {
      DotsExactly(text, i);
    }
  }

  /** A word followed by a tail starts with a keyword and a space exactly when it is that keyword
      and a space follows it. */
  lemma KeywordExactly(text: string, t: string, keyword: string, wide: char -> bool)
    requires Tail(t, wide) && IsWord(text, wide) && IsWord(keyword, wide)
    ensures StartsWith(text + t, keyword + " ") <==> text == keyword && Spaced(t)
  {
    var rem, p := text + t, keyword + " ";
    assert !LiteralChar(' ', wide);
    assert forall i :: 0 <= i < |text| ==> rem[i] == text[i] && text[i] != ' ';
    assert t == [] || rem[|text|] == t[0];
    assert forall i :: 0 <= i < |keyword| ==> p[i] == keyword[i];
    if StartsWith(rem, p) {
      assert forall i :: 0 <= i < |p| ==> rem[i] == p[i];
      assert rem[|keyword|] == p[|keyword|] == ' ';
      assert |keyword| >= |text|;
      assert text == rem[..|text|] == keyword;
    }
    if text == keyword && Spaced(t) {
      assert rem[..|p|] == p;
    }
  }

  lemma KeywordsAreWords(wide: char -> bool)
    ensures forall i :: 0 <= i < |COMPARISONS| ==> IsWord(COMPARISONS[i], wide)
    ensures forall i :: 0 <= i < |OPERATORS| ==> IsWord(OPERATORS[i], wide)
  {
  }

  lemma NoKeywordHasSlash()
    ensures forall i :: 0 <= i < |COMPARISONS| ==> '/' !in COMPARISONS[i]
    ensures forall i :: 0 <= i < |OPERATORS| ==> '/' !in OPERATORS[i]
  {
  }

  lemma KeywordsHaveNoSlash(text: string)
    ensures text in COMPARISONS || text in OPERATORS ==> Dots(text) == text
  {
    DotsSame(text);
    NoKeywordHasSlash();
  }

  lemma KeywordFound(text: string, t: string, keywords: seq<string>, wide: char -> bool)
    requires Tail(t, wide) && IsWord(text, wide)
    requires forall i :: 0 <= i < |keywords| ==> keywords[i] != [] && IsWord(keywords[i], wide)
    ensures KeywordAt(text + t, keywords) == if Spaced(t) && text in keywords then Some(text) else None
  {
    forall w | w in keywords
      ensures StartsWith(text + t, w + " ") <==> text == w && Spaced(t)
    {
      KeywordExactly(text, t, w, wide);
    }
    KeywordAtExactly(text + t, keywords);
  }

  lemma TrueOrFalseEnds(text: string, t: string, wide: char -> bool)
    requires Tail(t, wide)
    ensures text + t == "true" || text + t == "false" ==> t == []
  {
    assert IsWord("true", wide) && IsWord("false", wide);
    if t != [] {
      assert (text + t)[|text|] == t[0];
    }
  }

  /** A word that is not a keyword is a literal. */
  lemma LiteralReads(text: string, t: string, pos: nat, wide: char -> bool)
    requires Tail(t, wide) && IsWord(text, wide)
    requires KeywordAt(text + t, COMPARISONS).None? && KeywordAt(text + t, OPERATORS).None?
    ensures ScanWord(text + t, pos, wide) == Emit(SimpleType, Dots(text), |text|, text + t, pos, wide)
  {
    LiteralLengthOf(text, t, wide);
    assert (text + t)[..|text|] == text;
    TrueOrFalseEnds(text, t, wide);
    DotsSame(text);
    assert t == [] ==> text + t == text;
  }

  lemma WordReads(text: string, t: string, pos: nat, wide: char -> bool)
    requires Tail(t, wide) && IsWord(text, wide)
    ensures
      var kind := if Spaced(t) && text in COMPARISONS then BinaryComparison
                  else if Spaced(t) && text in OPERATORS then BinaryOperator else SimpleType;
      ScanWord(text + t, pos, wide) == Emit(kind, Dots(text), |text|, text + t, pos, wide)
  {
    KeywordsAreWords(wide);
    KeywordsHaveNoSlash(text);
    KeywordFound(text, t, COMPARISONS, wide);
    KeywordFound(text, t, OPERATORS, wide);
    if KeywordAt(text + t, COMPARISONS).None? && KeywordAt(text + t, OPERATORS).None? {
      LiteralReads(text, t, pos, wide);
    }
  }

  /** A word that is not a keyword is read as one literal, in which each '/' has become a '.'. */
  lemma SlashBecomesDot(text: string, t: string, pos: nat, wide: char -> bool) returns (literal: string)
    requires Tail(t, wide) && IsWord(text, wide) && text !in COMPARISONS && text !in OPERATORS
    ensures Scan(text + t, pos, wide) == Cons(Token(SimpleType, pos, literal), Scan(t, pos + |text|, wide))
    ensures |literal| == |text| && forall i :: 0 <= i < |text| ==> literal[i] == if text[i] == '/' then '.' else text[i]
  {
    literal := Dots(text);
    WordReads(text, t, pos, wide);
    WordIsWord(text, t, pos, wide);
    EmitText(SimpleType, literal, text, t, pos, wide);
    forall i | 0 <= i < |text|
      ensures literal[i] == if text[i] == '/' then '.' else text[i]
    {
      DotsExactly(text, i);
    }
  }

  /** A word is not taken for punctuation. */
  lemma WordIsWord(text: string, t: string, pos: nat, wide: char -> bool)
    requires IsWord(text, wide)
    ensures Scan(text + t, pos, wide) == ScanWord(text + t, pos, wide)
  {
    assert (text + t)[0] == text[0] && (LiteralChar(text[0], wide) || text[0] == '/');
  }

  lemma WordLexemeReads(l: Lexeme, t: string, pos: nat, wide: char -> bool)
    requires WellFormed(l, wide) && Tail(t, wide) && IsWordLexeme(l)
    ensures Text(l) != []
    ensures Scan(Text(l) + t, pos, wide) == Emit(ReadKind(l, Spaced(t)), TokenText(l), |Text(l)|, Text(l) + t, pos, wide)
  {
    KeywordsAreWords(wide);
    KeywordsHaveNoSlash(Text(l));
    WordReads(Text(l), t, pos, wide);
    WordIsWord(Text(l), t, pos, wide);
  }

  lemma LexemeReads(l: Lexeme, t: string, pos: nat, wide: char -> bool)
    requires WellFormed(l, wide) && Follows(l, t, wide)
    ensures Text(l) != []
    ensures Scan(Text(l) + t, pos, wide) == Emit(ReadKind(l, Spaced(t)), TokenText(l), |Text(l)|, Text(l) + t, pos, wide)
  {
    if l.Quoted? {
      QuotedReads(l.content, t, pos, wide);
    } else if IsWordLexeme(l) {
      WordLexemeReads(l, t, pos, wide);
    }
  }

  // ---------- lists ----------

  predicate AllWellFormed(ls: seq<Lexeme>, wide: char -> bool) {
    forall i :: 0 <= i < |ls| ==> WellFormed(ls[i], wide)
  }

  /** What follows each lexeme does not belong to it, and does not follow it with a space of its own. */
  predicate Fits(ls: seq<Lexeme>, gaps: seq<nat>, t: string, wide: char -> bool)
    requires |gaps| == |ls|
    decreases |ls|
  {
    ls == [] ||
    (var rest := Print(ls[1..], gaps[1..]) + t;
     && Ends(ls[0], gaps[0], rest, wide)
     && Fits(ls[1..], gaps[1..], t, wide))
  }

  lemma DropText(a: string, b: string)
    ensures (a + b)[|a|..] == b
  {
  }

  lemma EmitText(kind: Kind, literal: string, text: string, t: string, pos: nat, wide: char -> bool)
    requires text != []
    ensures Emit(kind, literal, |text|, text + t, pos, wide) == Cons(Token(kind, pos, literal), Scan(t, pos + |text|, wide))
  {
    DropText(text, t);
  }

  lemma ScanOne(l: Lexeme, t: string, pos: nat, wide: char -> bool)
    requires WellFormed(l, wide) && Follows(l, t, wide)
    ensures Scan(Text(l) + t, pos, wide)
         == Cons(Token(ReadKind(l, Spaced(t)), pos, TokenText(l)), Scan(t, pos + |Text(l)|, wide))
  {
    LexemeReads(l, t, pos, wide);
    EmitText(ReadKind(l, Spaced(t)), TokenText(l), Text(l), t, pos, wide);
  }

  lemma SkipSpace(rem: string, pos: nat, wide: char -> bool)
    ensures Scan(" " + rem, pos, wide) == Scan(rem, pos + 1, wide)
  {
    assert (" " + rem)[1..] == rem;
  }

  lemma {:induction false} SkipSpaces(n: nat, rem: string, pos: nat, wide: char -> bool)
    ensures |Spaces(n)| == n
    ensures Scan(Spaces(n) + rem, pos, wide) == Scan(rem, pos + n, wide)
    decreases n
  {
    if n == 0 {
      assert Spaces(n) + rem == rem;
    } else {
      assert Spaces(n) + rem == " " + (Spaces(n - 1) + rem);
      SkipSpace(Spaces(n - 1) + rem, pos, wide);
      SkipSpaces(n - 1, rem, pos + 1, wide);
    }
  }

  lemma ConsPrepend(t: Token, ts: seq<Token>, r: Result)
    ensures Cons(t, Prepend(ts, r)) == Prepend([t] + ts, r)
  {
    if r.Ok? {
      assert [t] + (ts + r.tokens) == [t] + ts + r.tokens;
    }
  }

  /** What follows a lexeme and its gap does not belong to the lexeme. */
  predicate Ends(l: Lexeme, gap: nat, rest: string, wide: char -> bool) {
    gap > 0 || (Follows(l, rest, wide) && !Spaced(rest))
  }

  lemma EndsFollows(l: Lexeme, gap: nat, rest: string, wide: char -> bool)
    requires Ends(l, gap, rest, wide)
    ensures Follows(l, Spaces(gap) + rest, wide) && (Spaced(Spaces(gap) + rest) <==> gap > 0)
  {
    assert gap == 0 ==> Spaces(gap) + rest == rest;
  }

  /** The gap after a lexeme is skipped. */
  lemma ScanSpaced(l: Lexeme, gap: nat, rest: string, pos: nat, wide: char -> bool)
    requires WellFormed(l, wide) && Ends(l, gap, rest, wide)
    ensures Scan(Text(l) + (Spaces(gap) + rest), pos, wide)
         == Cons(Token(ReadKind(l, gap > 0), pos, TokenText(l)), Scan(rest, pos + |Text(l)| + gap, wide))
  {
    EndsFollows(l, gap, rest, wide);
    ScanOne(l, Spaces(gap) + rest, pos, wide);
    SkipSpaces(gap, rest, pos + |Text(l)|, wide);
  }

  lemma PrintCons(ls: seq<Lexeme>, gaps: seq<nat>, t: string)
    requires |gaps| == |ls| && ls != []
    ensures Print(ls, gaps) + t == Text(ls[0]) + (Spaces(gaps[0]) + (Print(ls[1..], gaps[1..]) + t))
    ensures |Print(ls, gaps)| == |Text(ls[0])| + gaps[0] + |Print(ls[1..], gaps[1..])|
  {
    SkipSpaces(gaps[0], "", 0, c => false);
  }

  lemma LexemeThen(l: Lexeme, gap: nat, rest: string, pos: nat, wide: char -> bool, ts: seq<Token>, end: Result)
    requires WellFormed(l, wide) && Ends(l, gap, rest, wide)
    requires Scan(rest, pos + |Text(l)| + gap, wide) == Prepend(ts, end)
    ensures Scan(Text(l) + (Spaces(gap) + rest), pos, wide)
         == Prepend([Token(ReadKind(l, gap > 0), pos, TokenText(l))] + ts, end)
  {
    ScanSpaced(l, gap, rest, pos, wide);
    ConsPrepend(Token(ReadKind(l, gap > 0), pos, TokenText(l)), ts, end);
  }

  lemma PrefixStep(ls: seq<Lexeme>, gaps: seq<nat>, t: string, pos: nat, wide: char -> bool, end: Result)
    requires |gaps| == |ls| && ls != [] && WellFormed(ls[0], wide) && Ends(ls[0], gaps[0], Print(ls[1..], gaps[1..]) + t, wide)
    requires
      var next := pos + |Text(ls[0])| + gaps[0];
      Scan(Print(ls[1..], gaps[1..]) + t, next, wide) == Prepend(TokensOf(ls[1..], gaps[1..], next), end)
    ensures
      Scan(Text(ls[0]) + (Spaces(gaps[0]) + (Print(ls[1..], gaps[1..]) + t)), pos, wide)
      == Prepend(TokensOf(ls, gaps, pos), end)
  {
    var next := pos + |Text(ls[0])| + gaps[0];
    LexemeThen(ls[0], gaps[0], Print(ls[1..], gaps[1..]) + t, pos, wide, TokensOf(ls[1..], gaps[1..], next), end);
  }

  /** A printed list is read lexeme by lexeme, then what follows it. */
  lemma {:induction false} PrefixReads(ls: seq<Lexeme>, gaps: seq<nat>, t: string, pos: nat, wide: char -> bool, end: Result)
    requires |gaps| == |ls| && AllWellFormed(ls, wide) && Fits(ls, gaps, t, wide)
    requires Scan(t, pos + |Print(ls, gaps)|, wide) == end
    ensures Scan(Print(ls, gaps) + t, pos, wide) == Prepend(TokensOf(ls, gaps, pos), end)
    decreases |ls|
  {
    if ls == [] {
      NoneBefore(t, end);
    } else {
      PrintCons(ls, gaps, t);
      FitsRest(ls, gaps, t, wide);
      PrefixReads(ls[1..], gaps[1..], t, pos + |Text(ls[0])| + gaps[0], wide, end);
      PrefixStep(ls, gaps, t, pos, wide, end);
    }
  }

  lemma PrefixFails(ls: seq<Lexeme>, gaps: seq<nat>, t: string, wide: char -> bool, error: Error)
    requires |gaps| == |ls| && AllWellFormed(ls, wide) && Fits(ls, gaps, t, wide)
    requires Scan(t, |Print(ls, gaps)|, wide) == Err(error)
    ensures Scan(Print(ls, gaps) + t, 0, wide) == Err(error)
  {
    PrefixReads(ls, gaps, t, 0, wide, Err(error));
  }

  lemma FitsRest(ls: seq<Lexeme>, gaps: seq<nat>, t: string, wide: char -> bool)
    requires |gaps| == |ls| && ls != [] && AllWellFormed(ls, wide) && Fits(ls, gaps, t, wide)
    ensures WellFormed(ls[0], wide) && AllWellFormed(ls[1..], wide)
    ensures Ends(ls[0], gaps[0], Print(ls[1..], gaps[1..]) + t, wide) && Fits(ls[1..], gaps[1..], t, wide)
  {
  }

  lemma NoneBefore(t: string, r: Result)
    ensures Print([], []) + t == t && Prepend([], r) == r
  {
    assert Print([], []) == [];
    if r.Ok? {
      assert [] + r.tokens == r.tokens;
    }
  }

  /** Two words, or two quoted literals, have a space between them. */
  predicate Apart(ls: seq<Lexeme>, gaps: seq<nat>)
    requires |gaps| == |ls|
  {
    forall i :: 0 <= i < |ls| - 1 && gaps[i] == 0 ==>
      !(IsWordLexeme(ls[i]) && IsWordLexeme(ls[i + 1])) && !(ls[i].Quoted? && ls[i + 1].Quoted?)
  }

  lemma StartsApart(l: Lexeme, m: Lexeme, t: string, wide: char -> bool)
    requires WellFormed(m, wide) && !(IsWordLexeme(l) && IsWordLexeme(m)) && !(l.Quoted? && m.Quoted?)
    ensures Follows(l, Text(m) + t, wide) && !Spaced(Text(m) + t)
  {
    KeywordsAreWords(wide);
    assert Text(m) != [] && (Text(m) + t)[0] == Text(m)[0];
    assert IsWordLexeme(m) ==> IsWord(Text(m), wide);
  }

  lemma {:induction false} ApartFits(ls: seq<Lexeme>, gaps: seq<nat>, wide: char -> bool)
    requires |gaps| == |ls| && AllWellFormed(ls, wide) && Apart(ls, gaps)
    ensures Fits(ls, gaps, "", wide)
    decreases |ls|
  {
    if ls != [] {
      ApartFits(ls[1..], gaps[1..], wide);
      if gaps[0] == 0 && |ls| > 1 {
        PrintCons(ls[1..], gaps[1..], "");
        StartsApart(ls[0], ls[1], Spaces(gaps[1]) + (Print(ls[2..], gaps[2..]) + ""), wide);
        assert ls[1..][1..] == ls[2..] && gaps[1..][1..] == gaps[2..];
      }
    }
  }

  /** The printed list is always read back lexeme by lexeme. */
  lemma PrintReads(ls: seq<Lexeme>, gaps: seq<nat>, pos: nat, wide: char -> bool)
    requires |gaps| == |ls| && AllWellFormed(ls, wide) && Apart(ls, gaps)
    ensures Scan(Print(ls, gaps), pos, wide) == Ok(TokensOf(ls, gaps, pos))
  {
    ApartFits(ls, gaps, wide);
    PrefixReads(ls, gaps, "", pos, wide, Ok([]));
    assert TokensOf(ls, gaps, pos) + [] == TokensOf(ls, gaps, pos);
    assert Print(ls, gaps) + "" == Print(ls, gaps);
  }

  /** Each token has the kind and the text of its lexeme, and the place where that was printed. */
  lemma {:induction false} TokenAt(ls: seq<Lexeme>, gaps: seq<nat>, pos: nat, i: nat)
    requires |gaps| == |ls| && i < |ls|
    ensures TokensOf(ls, gaps, pos)[i]
         == Token(ReadKind(ls[i], gaps[i] > 0), pos + |Print(ls[..i], gaps[..i])|, TokenText(ls[i]))
    decreases |ls|
  {
    if i > 0 {
      TokenAt(ls[1..], gaps[1..], pos + |Text(ls[0])| + gaps[0], i - 1);
      PrintTake(ls, gaps, i);
    }
  }

  lemma PrintTake(ls: seq<Lexeme>, gaps: seq<nat>, i: nat)
    requires |gaps| == |ls| && 0 < i <= |ls|
    ensures |Print(ls[..i], gaps[..i])| == |Text(ls[0])| + gaps[0] + |Print(ls[1..][..i - 1], gaps[1..][..i - 1])|
  {
    PrintCons(ls[..i], gaps[..i], "");
    assert ls[..i][1..] == ls[1..][..i - 1] && gaps[..i][1..] == gaps[1..][..i - 1];
  }

  /** A space after every operator, and none after a bare literal that is a keyword. */
  predicate Printable(ls: seq<Lexeme>, gaps: seq<nat>)
    requires |gaps| == |ls|
  {
    forall i :: 0 <= i < |ls| ==>
      && (ls[i].Comparison? || ls[i].Operator? ==> gaps[i] > 0)
      && (ls[i].Bare? && (ls[i].text in COMPARISONS || ls[i].text in OPERATORS) ==> gaps[i] == 0)
  }

  lemma ReadKindExactly(l: Lexeme, gap: nat, wide: char -> bool)
    requires WellFormed(l, wide)
    ensures ReadKind(l, gap > 0) == KindOf(l) <==>
              && (l.Comparison? || l.Operator? ==> gap > 0)
              && (l.Bare? && (l.text in COMPARISONS || l.text in OPERATORS) ==> gap == 0)
  {
    assert forall k :: k in OPERATORS ==> k !in COMPARISONS;
  }

  /** The tokens of a printed list have the kinds of its lexemes if and only if each operator is
      followed by a space and no bare literal that is a keyword is. */
  lemma KindsComeBack(ls: seq<Lexeme>, gaps: seq<nat>, wide: char -> bool)
    requires |gaps| == |ls| && AllWellFormed(ls, wide) && Apart(ls, gaps)
    ensures
      var r := Scan(Print(ls, gaps), 0, wide);
      && r.Ok? && |r.tokens| == |ls|
      && (forall i :: 0 <= i < |ls| ==>
            r.tokens[i].literal == TokenText(ls[i]) && r.tokens[i].position == |Print(ls[..i], gaps[..i])|)
      && ((forall i :: 0 <= i < |ls| ==> r.tokens[i].kind == KindOf(ls[i])) <==> Printable(ls, gaps))
  {
    PrintReads(ls, gaps, 0, wide);
    forall i | 0 <= i < |ls|
      ensures TokensOf(ls, gaps, 0)[i]
           == Token(ReadKind(ls[i], gaps[i] > 0), |Print(ls[..i], gaps[..i])|, TokenText(ls[i]))
      ensures ReadKind(ls[i], gaps[i] > 0) == KindOf(ls[i]) <==>
                && (ls[i].Comparison? || ls[i].Operator? ==> gaps[i] > 0)
                && (ls[i].Bare? && (ls[i].text in COMPARISONS || ls[i].text in OPERATORS) ==> gaps[i] == 0)
    {
      TokenAt(ls, gaps, 0, i);
      ReadKindExactly(ls[i], gaps[i], wide);
    }
  }

  /** No bare literal has a '/', which is read as '.'. */
  predicate NoSlash(ls: seq<Lexeme>) { forall i :: 0 <= i < |ls| ==> ls[i].Bare? ==> '/' !in ls[i].text }

  /** Kinds and texts agree. */
  ghost predicate SameTokens(ts: seq<Token>, ls: seq<Lexeme>) {
    |ts| == |ls| && forall i :: 0 <= i < |ls| ==> ts[i].kind == KindOf(ls[i]) && ts[i].literal == Text(ls[i])
  }

  /** Tokenizing a printed list gives back its kinds and texts if and only if each operator is
      followed by a space, no bare literal that is a keyword is, and none has a '/'. */
  lemma RoundTrip(ls: seq<Lexeme>, gaps: seq<nat>, wide: char -> bool)
    requires |gaps| == |ls| && AllWellFormed(ls, wide) && Apart(ls, gaps)
    ensures Scan(Print(ls, gaps), 0, wide).Ok?
    ensures SameTokens(Scan(Print(ls, gaps), 0, wide).tokens, ls) <==> Printable(ls, gaps) && NoSlash(ls)
  {
    KindsComeBack(ls, gaps, wide);
    forall i | 0 <= i < |ls|
      ensures TokenText(ls[i]) == Text(ls[i]) <==> (ls[i].Bare? ==> '/' !in ls[i].text)
    {
      if ls[i].Bare? {
        DotsSame(ls[i].text);
      }
    }
  }

  // ---------- what is not a token ----------

  /** The ASCII characters of a bare literal: letters, digits and these. */
  lemma LiteralAscii(c: char, wide: char -> bool)
    requires c <= '\U{7F}' && !('a' <= c <= 'z') && !('A' <= c <= 'Z')
    ensures LiteralChar(c, wide) <==> c in "0123456789" || c in "-._~%!$&*+;:@"
  {
    assert "0123456789" == ['0', '1', '2', '3', '4', '5', '6', '7', '8', '9'];
    var marks := "-._~%!$&*+;:@";
    assert marks == ['-', '.', '_', '~', '%', '!', '$', '&', '*', '+', ';', ':', '@'];
  }

  lemma NoKeywordAt(rem: string, keywords: seq<string>, wide: char -> bool)
    requires rem != [] && Tail(rem, wide)
    requires forall i :: 0 <= i < |keywords| ==> keywords[i] != [] && IsWord(keywords[i], wide)
    ensures KeywordAt(rem, keywords).None?
  {
    KeywordAtExactly(rem, keywords);
    forall w | w in keywords
      ensures !StartsWith(rem, w + " ")
    {
      var p := w + " ";
      assert p[0] == w[0];
      assert |p| <= |rem| ==> rem[..|p|][0] == rem[0];
    }
  }

  /** A character that starts no token. */
  lemma UnknownFails(rem: string, pos: nat, wide: char -> bool)
    requires rem != [] && rem[0] !in " (),=?'/" && !LiteralChar(rem[0], wide)
    ensures Scan(rem, pos, wide) == Err(UnknownCharacter)
  {
    var c := rem[0];
    assert c in " (),=?'/" <==> c == ' ' || c == '(' || c == ')' || c == ',' || c == '=' || c == '?' || c == '\'' || c == '/';
    KeywordsAreWords(wide);
    NoKeywordAt(rem, COMPARISONS, wide);
    NoKeywordAt(rem, OPERATORS, wide);
    assert rem != "true" && rem != "false";
    assert Scan(rem, pos, wide) == ScanWord(rem, pos, wide);
  }

  lemma {:induction false} OpenEndOf(pre: string, content: string)
    ensures !QuotedEnd(pre + Escape(content), |pre|, false).1
    decreases |content|
  {
    var rem := pre + Escape(content);
    if content == [] {
      assert rem == pre;
    } else {
      var c := if content[0] == '\'' then "''" else [content[0]];
      assert rem == pre + c + Escape(content[1..]);
      OpenEndOf(pre + c, content[1..]);
      assert rem[|pre|] == content[0];
      assert content[0] == '\'' ==> rem[|pre| + 1] == '\'';
    }
  }

  lemma EscapeCons(c: char, s: string)
    ensures Escape([c] + s) == (if c == '\'' then "''" else [c]) + Escape(s)
  {
    assert ([c] + s)[1..] == s;
  }

  lemma {:induction false} OpenContent(rem: string, i: nat, was: bool) returns (content: string)
    requires i <= |rem| && !QuotedEnd(rem, i, was).1
    ensures rem[i..] == if was then "'" + Escape(content) else Escape(content)
    decreases |rem| - i
  {
    if i == |rem| {
      content := [];
    } else if rem[i] != '\'' {
      content := OpenContent(rem, i + 1, false);
      EscapeCons(rem[i], content);
      content := [rem[i]] + content;
      assert rem[i..] == [rem[i]] + rem[i + 1..];
    } else {
      content := OpenContent(rem, i + 1, !was);
      assert rem[i..] == "'" + rem[i + 1..];
      if !was {
        EscapeCons('\'', content);
        content := ['\''] + content;
        assert "''" + Escape(content[1..]) == "'" + ("'" + Escape(content[1..]));
      }
    }
  }

  /** A quote that is never closed, the quotes after it being doubled. */
  ghost predicate OpenQuote(rem: string) { exists content :: rem == "'" + Escape(content) }

  /** A quoted literal is not closed exactly when it is such a quote. */
  lemma OpenQuoteExactly(rem: string)
    requires rem != [] && rem[0] == '\''
    ensures !QuotedEnd(rem, 1, false).1 <==> OpenQuote(rem)
  {
    if OpenQuote(rem) {
      var content :| rem == "'" + Escape(content);
      OpenEndOf("'", content);
    }
    if !QuotedEnd(rem, 1, false).1 {
      var content := OpenContent(rem, 1, false);
      assert rem == "'" + rem[1..];
    }
  }

  lemma OpenQuoteFails(rem: string, pos: nat, wide: char -> bool)
    requires OpenQuote(rem)
    ensures Scan(rem, pos, wide) == Err(UndeterminedString)
  {
    OpenQuoteExactly(rem);
    assert Scan(rem, pos, wide) == ScanQuoted(rem, pos, wide);
  }

  /** After any printed list a quote that is never closed makes the tokenizer fail. */
  lemma FailsAtOpenQuote(ls: seq<Lexeme>, gaps: seq<nat>, t: string, wide: char -> bool)
    requires |gaps| == |ls| && AllWellFormed(ls, wide) && Fits(ls, gaps, t, wide) && OpenQuote(t)
    ensures Scan(Print(ls, gaps) + t, 0, wide) == Err(UndeterminedString)
  {
    OpenQuoteFails(t, |Print(ls, gaps)|, wide);
    PrefixFails(ls, gaps, t, wide, UndeterminedString);
  }

  /** After any printed list a character that starts no token makes the tokenizer fail. */
  lemma FailsAtUnknown(ls: seq<Lexeme>, gaps: seq<nat>, t: string, wide: char -> bool)
    requires |gaps| == |ls| && AllWellFormed(ls, wide) && Fits(ls, gaps, t, wide)
    requires t != [] && t[0] !in " (),=?'/" && !LiteralChar(t[0], wide)
    ensures Scan(Print(ls, gaps) + t, 0, wide) == Err(UnknownCharacter)
  {
    UnknownFails(t, |Print(ls, gaps)|, wide);
    PrefixFails(ls, gaps, t, wide, UnknownCharacter);
  }

  // ---------- any expression ----------

  predicate Blank(s: string, a: nat, b: nat)
    requires b <= |s|
  {
    forall k :: a <= k < b ==> s[k] == ' '
  }

  /** From `at` on, the tokens stand in the expression at their positions, with nothing but spaces
      around them. */
  predicate Tiled(s: string, at: nat, ts: seq<Token>)
    requires at <= |s|
    decreases |ts|
  {
    if ts == [] then Blank(s, at, |s|)
    else
      var p, n := ts[0].position, |ts[0].literal|;
      && at <= p < p + n <= |s| && Blank(s, at, p)
      && (ts[0].literal == s[p..p + n] || (ts[0].kind == SimpleType && ts[0].literal == Dots(s[p..p + n])))
      && Tiled(s, p + n, ts[1..])
  }

  lemma TiledAfterSpace(s: string, at: nat, ts: seq<Token>)
    requires at < |s| && s[at] == ' ' && Tiled(s, at + 1, ts)
    ensures Tiled(s, at, ts)
  {
  }

  /** What one token of an expression is made of. */
  datatype Piece = Piece(kind: Kind, literal: string, n: nat)

  /** A token has the text it was made of; in an unquoted literal '/' became '.'. */
  predicate Cut(x: Piece, rem: string) {
    && 0 < x.n <= |rem| && |x.literal| == x.n
    && (x.literal == rem[..x.n] || (x.kind == SimpleType && x.literal == Dots(rem[..x.n])))
  }

  lemma WordPiece(rem: string, pos: nat, wide: char -> bool) returns (x: Piece)
    requires rem != [] && ScanWord(rem, pos, wide).Ok?
    ensures Cut(x, rem) && ScanWord(rem, pos, wide) == Emit(x.kind, x.literal, x.n, rem, pos, wide)
  {
    var comparison, operator, n := KeywordAt(rem, COMPARISONS), KeywordAt(rem, OPERATORS), LiteralLength(rem, wide);
    KeywordAtExactly(rem, COMPARISONS);
    KeywordAtExactly(rem, OPERATORS);
    KeywordText(rem, comparison);
    KeywordText(rem, operator);
    assert rem[..|rem|] == rem;
    x := if comparison.Some? then Piece(BinaryComparison, comparison.value, |comparison.value|)
         else if operator.Some? then Piece(BinaryOperator, operator.value, |operator.value|)
         else if rem == "true" || rem == "false" then Piece(SimpleType, rem, |rem|)
         else Piece(SimpleType, Dots(rem[..n]), n);
  }

  lemma FirstPiece(rem: string, pos: nat, wide: char -> bool) returns (x: Piece)
    requires rem != [] && rem[0] != ' ' && Scan(rem, pos, wide).Ok?
    ensures Cut(x, rem) && Scan(rem, pos, wide) == Emit(x.kind, x.literal, x.n, rem, pos, wide)
  {
    var c := rem[0];
    assert rem[..1] == [c];
    match c
    case '(' => x := Piece(OpenParen, "(", 1);
    case ')' => x := Piece(CloseParen, ")", 1);
    case ',' => x := Piece(Comma, ",", 1);
    case '=' => x := Piece(Symbol, "=", 1);
    case '?' => x := Piece(Symbol, "?", 1);
    case '\'' =>
      QuotedEndBounds(rem, 1, false);
      var n := QuotedEnd(rem, 1, false).0;
      x := Piece(SimpleType, rem[..n], n);
    case _ => x := WordPiece(rem, pos, wide);
  }

  lemma KeywordText(rem: string, k: Option<string>)
    ensures k.Some? && StartsWith(rem, k.value + " ") ==> |k.value| <= |rem| && rem[..|k.value|] == k.value
  {
    if k.Some? && StartsWith(rem, k.value + " ") {
      assert rem[..|k.value|] == (k.value + " ")[..|k.value|];
    }
  }

  /** Whatever the expression, if it is read then its tokens tile it. */
  lemma {:induction false} TokensTile(s: string, at: nat, wide: char -> bool)
    requires at <= |s| && Scan(s[at..], at, wide).Ok?
    ensures Tiled(s, at, Scan(s[at..], at, wide).tokens)
    decreases |s| - at
  {
    var rem := s[at..];
    if rem != [] {
      if rem[0] == ' ' {
        assert rem[1..] == s[at + 1..];
        TokensTile(s, at + 1, wide);
        TiledAfterSpace(s, at, Scan(rem, at, wide).tokens);
      } else {
        var x := FirstPiece(rem, at, wide);
        var rest := Scan(s[at + x.n..], at + x.n, wide);
        assert rem[x.n..] == s[at + x.n..] && rem[..x.n] == s[at..at + x.n];
        assert Scan(rem, at, wide) == Cons(Token(x.kind, at, x.literal), rest);
        TokensTile(s, at + x.n, wide);
        TiledCons(s, at, x, rest.tokens);
      }
    }
  }

  lemma TiledCons(s: string, at: nat, x: Piece, ts: seq<Token>)
    requires at <= |s| && Cut(x, s[at..]) && Tiled(s, at + x.n, ts)
    ensures Tiled(s, at, [Token(x.kind, at, x.literal)] + ts)
  {
    assert s[at..][..x.n] == s[at..at + x.n];
    TiledFirst(s, at, Token(x.kind, at, x.literal), ts);
  }

  lemma TiledFirst(s: string, at: nat, t: Token, ts: seq<Token>)
    requires at == t.position < at + |t.literal| <= |s| && Tiled(s, at + |t.literal|, ts)
    requires
      var text := s[at..at + |t.literal|];
      t.literal == text || (t.kind == SimpleType && t.literal == Dots(text))
    ensures Tiled(s, at, [t] + ts)
  {
    assert ([t] + ts)[1..] == ts;
  }
}
