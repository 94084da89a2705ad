/**
 What the literals of a filter stand for, and what the compiler makes of them
 (the replace and split calls of ODataQueryVisitor.visitBinaryComparator).

 A quoted literal stands for the text between its quotes, in which a doubled quote is one quote.
 The compiler deletes every quote, and splits a list of items before it does.
 */
module ODataLiterals {
  import Text
  import P = ODataPrinter

  predicate IsQuoted(literal: string) {
    |literal| >= 2 && literal[0] == '\'' && literal[|literal| - 1] == '\''
  }

  /** A doubled quote is one quote. */
  function Unescape(s: string): string {
    if s == [] then []
    else if |s| >= 2 && s[0] == '\'' && s[1] == '\'' then "'" + Unescape(s[2..])
    else [s[0]] + Unescape(s[1..])
  }

  /** What a literal stands for. */
  function Content(literal: string): string {
    if IsQuoted(literal) then Unescape(literal[1..|literal| - 1]) else literal
  }

  // ---------- the printed form of a content ----------

  lemma {:induction false} UnescapeEscape(content: string)
    ensures Unescape(P.Escape(content)) == content
  {
    if content != [] {
      var rest := P.Escape(content[1..]);
      UnescapeEscape(content[1..]);
      if content[0] == '\'' {
        assert ("''" + rest)[2..] == rest;
      } else {
        assert ([content[0]] + rest)[1..] == rest;
      }
    }
  }

  lemma ContentOfQuoted(content: string)
    ensures Content(P.Text(P.Quoted(content))) == content
  {
    var text := P.Text(P.Quoted(content));
    assert text[1..|text| - 1] == P.Escape(content);
    UnescapeEscape(content);
  }

  // ---------- deleting the quotes ----------

  lemma {:induction false} WithoutConcat(a: string, b: string, c: char)
    ensures Text.Without(a + b, c) == Text.Without(a, c) + Text.Without(b, c)
  {
    if a == [] {
      assert a + b == b;
    } else {
      assert (a + b)[1..] == a[1..] + b;
      WithoutConcat(a[1..], b, c);
    }
  }

  lemma {:induction false} WithoutMembers(s: string, c: char, x: char)
    ensures x in Text.Without(s, c) <==> x in s && x != c
  {
    if s != [] {
      WithoutMembers(s[1..], c, x);
    }
  }

  lemma {:induction false} WithoutSame(s: string, c: char)
    requires c !in s
    ensures Text.Without(s, c) == s
  {
    if s != [] {
      WithoutSame(s[1..], c);
    }
  }

  /** Deleting a character: it goes part by part, takes the character alone and leaves any other. */
  lemma WithoutExactly(a: string, b: string, c: char, x: char)
    ensures Text.Without(a + b, c) == Text.Without(a, c) + Text.Without(b, c)
    ensures Text.Without([x], c) == if x == c then [] else [x]
  {
    WithoutConcat(a, b, c);
    assert [x][1..] == [];
    assert Text.Without([x][1..], c) == [];
  }

  lemma {:induction false} UnescapeQuotes(s: string)
    ensures '\'' in Unescape(s) <==> '\'' in s
    ensures '\'' !in s ==> Unescape(s) == s
  {
    if s != [] {
      if |s| >= 2 && s[0] == '\'' && s[1] == '\'' {
        assert '\'' in "'" + Unescape(s[2..]);
      } else {
        UnescapeQuotes(s[1..]);
      }
    }
  }

  lemma {:induction false} UnescapeMembers(s: string, c: char)
    requires c != '\''
    ensures c in Unescape(s) <==> c in s
    decreases |s|
  {
    if s != [] {
      if |s| >= 2 && s[0] == '\'' && s[1] == '\'' {
        UnescapeMembers(s[2..], c);
        assert s == "''" + s[2..];
      } else {
        UnescapeMembers(s[1..], c);
      }
    }
  }

  /** Apart from its quotes a literal has the characters of its content. */
  lemma ContentMembers(literal: string, c: char)
    requires c != '\''
    ensures c in Content(literal) <==> c in literal
  {
    if IsQuoted(literal) {
      var inner := literal[1..|literal| - 1];
      assert literal == ['\''] + inner + ['\''];
      UnescapeMembers(inner, c);
    }
  }

  lemma QuotedWithout(literal: string)
    requires IsQuoted(literal)
    ensures Text.Without(literal, '\'') == Text.Without(literal[1..|literal| - 1], '\'')
  {
    var inner := literal[1..|literal| - 1];
    assert literal == "'" + (inner + "'");
    WithoutConcat("'", inner + "'", '\'');
    WithoutConcat(inner, "'", '\'');
    assert Text.Without("'", '\'') == [];
  }

  /** Deleting the quotes of a literal gives what it stands for if and only if that has no quote. */
  lemma WithoutIsContent(literal: string)
    ensures Text.Without(literal, '\'') == Content(literal) <==> '\'' !in Content(literal)
  {
    WithoutMembers(literal, '\'', '\'');
    if IsQuoted(literal) {
      var inner := literal[1..|literal| - 1];
      QuotedWithout(literal);
      UnescapeQuotes(inner);
      if '\'' !in inner {
        WithoutSame(inner, '\'');
      }
    } else if '\'' !in literal {
      WithoutSame(literal, '\'');
    }
  }

  lemma {:induction false} WithoutEscape(content: string)
    ensures Text.Without(P.Escape(content), '\'') == Text.Without(content, '\'')
  {
    if content != [] {
      var first := if content[0] == '\'' then "''" else [content[0]];
      WithoutEscape(content[1..]);
      WithoutConcat(first, P.Escape(content[1..]), '\'');
      assert Text.Without("'", '\'') == [];
      assert "''"[1..] == "'";
      assert Text.Without("''", '\'') == [];
    }
  }

  /** The literal of a content is compiled to the content without its quotes, which is the content
      if and only if that has no quote. */
  lemma QuotesAreLost(content: string)
    ensures
      var compiled := Text.Without(P.Text(P.Quoted(content)), '\'');
      compiled == Text.Without(content, '\'') && (compiled == content <==> '\'' !in content)
  {
    var text := P.Text(P.Quoted(content));
    ContentOfQuoted(content);
    WithoutIsContent(text);
    QuotedWithout(text);
    assert text[1..|text| - 1] == P.Escape(content);
    WithoutEscape(content);
  }

  lemma WithoutFirst(c: char, s: string)
    ensures Text.Without([c] + s, c) == Text.Without(s, c)
  {
    assert ([c] + s)[1..] == s;
  }

  lemma WithoutInside(a: string, b: string)
    requires '\'' !in a && '\'' !in b
    ensures Text.Without(a + (['\''] + b), '\'') == a + b
  {
    WithoutConcat(a, ['\''] + b, '\'');
    WithoutFirst('\'', b);
    WithoutSame(a, '\'');
    WithoutSame(b, '\'');
  }

  /** A single quote inside, as in `name eq 'O''Brien'`, which looks for OBrien. */
  lemma QuoteInside(a: string, b: string)
    requires '\'' !in a && '\'' !in b
    ensures Text.Without(P.Text(P.Quoted(a + (['\''] + b))), '\'') == a + b
  {
    QuotesAreLost(a + (['\''] + b));
    WithoutInside(a, b);
  }

  // ---------- lists of items ----------

  /** The items a literal stands for. */
  function ContentItems(literal: string): seq<string> { Text.Parts(Content(literal), ';') }

  /** The compiler's items, without their quotes. */
  ghost predicate IsCompiledItem(literal: string, v: string) {
    exists p :: p in Text.Parts(literal, ';') && v == Text.Without(p, '\'')
  }

  /** A quoted list with an empty item at an edge, where the quote makes it an item. */
  predicate Ragged(literal: string) {
    IsQuoted(literal)
    && (var c := Content(literal);
        c == [] || c[0] == ';' || c[|c| - 1] == ';')
  }

  lemma {:induction false} PartsHasQuote(s: string, current: string)
    requires '\'' in s || '\'' in current
    ensures exists p :: p in Text.PartsFrom(s, ';', current) && '\'' in p
    decreases |s|
  {
    if s == [] {
      assert current in Text.PartsFrom(s, ';', current);
    } else if s[0] == ';' {
      if '\'' in current {
        assert current in Text.PartsFrom(s, ';', current);
      } else {
        PartsHasQuote(s[1..], "");
        var p :| p in Text.PartsFrom(s[1..], ';', "") && '\'' in p;
        assert p in Text.PartsFrom(s, ';', current);
      }
    } else {
      PartsHasQuote(s[1..], current + [s[0]]);
    }
  }

  lemma {:induction false} PartsNotEmpty(s: string, current: string)
    requires current != [] || (s != [] && s[0] != ';')
    ensures Text.PartsFrom(s, ';', current) != []
    decreases |s|
  {
    if s != [] && s[0] != ';' {
      PartsNotEmpty(s[1..], current + [s[0]]);
    }
  }

  /** The rest of a quoted list, from within an item: the compiler's items are the intended ones
      and an empty one, if only the opening quote was read and the item ends, or if the last item
      is empty. */
  lemma {:induction false} QuotedRest(s: string, current: string, v: string)
    requires '\'' !in s
    ensures
      var cur := Text.Without(current, '\'');
      var alone := current != [] && cur == [] && (s == [] || s[0] == ';');
      var ended := if s == [] then cur == [] else s[|s| - 1] == ';';
      (exists p :: p in Text.PartsFrom(s + "'", ';', current) && v == Text.Without(p, '\'')) <==>
      v in Text.PartsFrom(s, ';', cur) || (v == [] && (alone || ended))
    decreases |s|
  {
    var cur := Text.Without(current, '\'');
    if s == [] {
      WithoutConcat(current, "'", '\'');
      assert Text.Without("'", '\'') == [];
      assert s + "'" == "'" && "'"[1..] == "";
      assert Text.PartsFrom("'", ';', current) == Text.PartsFrom("", ';', current + "'") == [current + "'"];
      assert Text.PartsFrom(s, ';', cur) == if cur == [] then [] else [cur];
      var only := current + "'";
      assert Text.Without(only, '\'') == cur;
      assert forall p :: p in Text.PartsFrom(s + "'", ';', current) <==> p == only;
    } else {
      assert (s + "'")[0] == s[0] && (s + "'")[1..] == s[1..] + "'";
      if s[0] == ';' {
        QuotedRest(s[1..], "", v);
        assert Text.Without("", '\'') == "";
        var here := if current == [] then [] else [current];
        assert Text.PartsFrom(s + "'", ';', current) == here + Text.PartsFrom(s[1..] + "'", ';', "");
      } else {
        WithoutConcat(current, [s[0]], '\'');
        assert Text.Without([s[0]], '\'') == [s[0]];
        QuotedRest(s[1..], current + [s[0]], v);
      }
    }
  }

  /** Of a list without quotes inside, the compiler's items are the intended ones and, if the
      list is ragged, an empty one. */
  lemma CompiledItems(literal: string, v: string)
    requires '\'' !in Content(literal)
    ensures IsCompiledItem(literal, v) <==> v in ContentItems(literal) || (v == [] && Ragged(literal))
  {
    if IsQuoted(literal) {
      var inner := literal[1..|literal| - 1];
      UnescapeQuotes(inner);
      assert literal[0] != ';' && literal[1..] == inner + "'" && "" + [literal[0]] == "'";
      assert Text.Without("'", '\'') == "";
      assert Text.Parts(literal, ';') == Text.PartsFrom(inner + "'", ';', "'");
      QuotedRest(inner, "'", v);
    } else {
      forall p | p in Text.Parts(literal, ';')
        ensures Text.Without(p, '\'') == p
      {
        PartsWithin(literal, "", p, '\'');
        WithoutSame(p, '\'');
      }
    }
  }

  lemma {:induction false} PartsWithin(s: string, current: string, p: string, c: char)
    requires c !in s && c !in current && p in Text.PartsFrom(s, ';', current)
    ensures c !in p
    decreases |s|
  {
    if s != [] {
      if s[0] == ';' {
        if p != current {
          PartsWithin(s[1..], "", p, c);
        }
      } else {
        PartsWithin(s[1..], current + [s[0]], p, c);
      }
    }
  }
}
