/** The tokens of an OData filter expression (ODataToken, ODataTokenList). */
module ODataTokens {
  import opened Common

  datatype Kind = OpenParen | CloseParen | Comma | SimpleType | Symbol | BinaryComparison | BinaryOperator

  datatype Token = Token(kind: Kind, position: nat, literal: string)

  const COMPARISONS: seq<string> := ["eq", "ne", "lt", "gt", "le", "ge", "any", "all"]
  const OPERATORS: seq<string> := ["and", "or"]

  /** The cursor the visitor moves over the token list. */
  class TokenList {
    const tokens: seq<Token>
    var current: nat

    constructor (tokens: seq<Token>)
      ensures this.tokens == tokens && current == 0
    {
      this.tokens, this.current := tokens, 0;
    }

    predicate HasNext()
      reads this
    {
      current < |tokens|
    }

    /** None stands for NoSuchElementException. */
    function LookToken(): Option<Token>
      reads this
    {
      if HasNext() then Some(tokens[current]) else None
    }

    method Next() returns (t: Option<Token>)
      modifies this
      ensures t == old(LookToken())
      ensures current == if old(HasNext()) then old(current) + 1 else old(current)
    {
      t := LookToken();
      if t.Some? {
        current := current + 1;
      }
    }

    method Skip()
      modifies this
      ensures current == old(current) + 1
    {
      current := current + 1;
    }
  }
}
