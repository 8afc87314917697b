/**
 `licenseExpressionAllowed` (scripts/ci/check-licenses.ts:61-108) on token sequences:
 nested parse functions over one shared index.
 */
module License {
  import opened LicenseSpec
  import opened Wrappers

  datatype SyntaxError = MissingClosingParenthesis | ExpectedLicenseIdentifier | ExpectedLicenseException

  class Parser {
    const tokens: seq<Token>
    var index: nat

    constructor (tokens: seq<Token>)
      ensures this.tokens == tokens && index == 0
    {
      this.tokens, index := tokens, 0;
    }

    /** The tokens read from `from` are those of a phrase with the value returned, or the parser has thrown. */
    ghost predicate Reads<P>(phrase: Option<(P, nat)>, value: P -> bool, r: Result<bool, SyntaxError>)
      reads this
    {
      match phrase
      case Some((p, end)) => r == Success(value(p)) && index == end
      case None => r.Failure?
    }

    method ParsePrimary() returns (r: Result<bool, SyntaxError>)
      modifies this
      ensures Reads(ReadPrimary(tokens, old(index)), PrimaryValue, r)
      decreases |tokens| - index, 0
    {
      if At(tokens, index, "(") {
        index := index + 1;
        var inner := ParseOr();
        if inner.Failure? { return inner; }
        if !At(tokens, index, ")") { return Failure(MissingClosingParenthesis); }
        index := index + 1;
        return inner;
      }
      if index >= |tokens| || tokens[index] == ")" || tokens[index] == "AND" || tokens[index] == "OR" {
        return Failure(ExpectedLicenseIdentifier);
      }
      var permitted := tokens[index] in ALLOWED;
      index := index + 1;
      if !At(tokens, index, "WITH") { return Success(permitted); }
      index := index + 1;
      if index >= |tokens| { return Failure(ExpectedLicenseException); }
      var exception := tokens[index];
      index := index + 1;
      return Success(permitted && exception == EXCEPTION);
    }

    method ParseAnd() returns (r: Result<bool, SyntaxError>)
      modifies this
      ensures Reads(ReadConjunction(tokens, old(index)), ConjunctionValue, r)
      decreases |tokens| - index, 1
    {
      r := ParsePrimary();
      if r.Failure? { return; }
      ghost var read := Just(ReadPrimary(tokens, old(index)).value.0);
      while At(tokens, index, "AND")
        invariant old(index) < index <= |tokens| && r == Success(ConjunctionValue(read))
        invariant ReadConjunction(tokens, old(index)) == MoreConjuncts(tokens, read, index)
        decreases |tokens| - index
      {
        index := index + 1;
        ghost var from := index;
        var next := ParsePrimary();
        if next.Failure? { return next; }
        r := Success(next.value && r.value);
        read := AndAlso(read, ReadPrimary(tokens, from).value.0);
      }
    }

    method ParseOr() returns (r: Result<bool, SyntaxError>)
      modifies this
      ensures Reads(ReadDisjunction(tokens, old(index)), Value, r)
      decreases |tokens| - index, 2
    {
      r := ParseAnd();
      if r.Failure? { return; }
      ghost var read := Only(ReadConjunction(tokens, old(index)).value.0);
      while At(tokens, index, "OR")
        invariant old(index) < index <= |tokens| && r == Success(Value(read))
        invariant ReadDisjunction(tokens, old(index)) == MoreDisjuncts(tokens, read, index)
        decreases |tokens| - index
      {
        index := index + 1;
        ghost var from := index;
        var next := ParseAnd();
        if next.Failure? { return next; }
        r := Success(next.value || r.value);
        read := OrElse(read, ReadConjunction(tokens, from).value.0);
      }
    }
  }

  /** True exactly for the token sequences the grammar derives with the value true. */
  method LicenseExpressionAllowed(tokens: seq<Token>) returns (allowed: bool)
    ensures allowed <==> exists d :: Named(d) && Tokens(d) == tokens && Value(d)
  {
    AllowedMeans(tokens);
    if tokens == [] { return false; }
    var parser := new Parser(tokens);
    var result := parser.ParseOr();
    return result.Success? && parser.index == |tokens| && result.value;
  }
}
