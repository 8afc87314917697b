/**
 License expressions on token sequences (scripts/ci/check-licenses.ts:61-108): the
 grammar the parser accepts, expression trees with their value, and the printing of
 a tree with as few parentheses as possible. Compare Annex D of the SPDX
 Specification 2.3.
 */
module LicenseSpec {
  import opened Wrappers

  type Token = string

  const ALLOWED: set<Token> := {
    "AFL-2.1", "Apache-2.0", "BSD-1-Clause", "BSD-3-Clause", "CC0-1.0", "FSL-1.1-MIT",
    "ISC", "MIT", "Python-2.0", "Unicode-3.0", "Unlicense", "Zlib"}

  const EXCEPTION: Token := "LLVM-exception"

  // ---- what the parser reads

  datatype Primary =
    | License(name: Token)
    | LicenseWith(name: Token, exception: Token)
    | Parenthesised(inner: Disjunction)

  datatype Conjunction = Just(primary: Primary) | AndAlso(left: Conjunction, right: Primary)

  datatype Disjunction = Only(conjunction: Conjunction) | OrElse(left: Disjunction, right: Conjunction)

  /** The tokens that cannot begin a primary, other than an opening parenthesis. */
  predicate Stops(token: Token) {
    token == ")" || token == "AND" || token == "OR"
  }

  predicate Reserved(token: Token) {
    Stops(token) || token == "(" || token == "WITH"
  }

  function PrimaryTokens(p: Primary): (ts: seq<Token>)
    ensures ts != []
  {
    match p
    case License(name) => [name]
    case LicenseWith(name, exception) => [name, "WITH", exception]
    case Parenthesised(inner) => ["("] + Tokens(inner) + [")"]
  }

  function ConjunctionTokens(c: Conjunction): (ts: seq<Token>)
    ensures ts != []
  {
    match c
    case Just(p) => PrimaryTokens(p)
    case AndAlso(left, p) => ConjunctionTokens(left) + ["AND"] + PrimaryTokens(p)
  }

  function Tokens(d: Disjunction): (ts: seq<Token>)
    ensures ts != []
  {
    match d
    case Only(c) => ConjunctionTokens(c)
    case OrElse(left, c) => Tokens(left) + ["OR"] + ConjunctionTokens(c)
  }

  /** The identifiers the parser takes for licenses. */
  predicate Nameable(token: Token) {
    !Stops(token) && token != "("
  }

  ghost predicate PrimaryNamed(p: Primary) {
    match p
    case License(name) => Nameable(name)
    case LicenseWith(name, _) => Nameable(name)
    case Parenthesised(inner) => Named(inner)
  }

  ghost predicate ConjunctionNamed(c: Conjunction) {
    match c
    case Just(p) => PrimaryNamed(p)
    case AndAlso(left, p) => ConjunctionNamed(left) && PrimaryNamed(p)
  }

  ghost predicate Named(d: Disjunction) {
    match d
    case Only(c) => ConjunctionNamed(c)
    case OrElse(left, c) => Named(left) && ConjunctionNamed(c)
  }

  function PrimaryValue(p: Primary): bool {
    match p
    case License(name) => name in ALLOWED
    case LicenseWith(name, exception) => name in ALLOWED && exception == EXCEPTION
    case Parenthesised(inner) => Value(inner)
  }

  function ConjunctionValue(c: Conjunction): bool {
    match c
    case Just(p) => PrimaryValue(p)
    case AndAlso(left, p) => ConjunctionValue(left) && PrimaryValue(p)
  }

  function Value(d: Disjunction): bool {
    match d
    case Only(c) => ConjunctionValue(c)
    case OrElse(left, c) => Value(left) || ConjunctionValue(c)
  }

  // ---- the parser as a function: the phrase at `i` and where it ends

  predicate At(ts: seq<Token>, i: nat, token: Token) {
    i < |ts| && ts[i] == token
  }

  function ReadPrimary(ts: seq<Token>, i: nat): (r: Option<(Primary, nat)>)
    ensures r.Some? ==> i < r.value.1 <= |ts|
    decreases |ts| - i, 0
  {
    if At(ts, i, "(") then
      match ReadDisjunction(ts, i + 1)
      case None => None
      case Some((inner, j)) => if At(ts, j, ")") then Some((Parenthesised(inner), j + 1)) else None
    else if i >= |ts| || Stops(ts[i]) then None
    else if !At(ts, i + 1, "WITH") then Some((License(ts[i]), i + 1))
    else if i + 2 >= |ts| then None
    else Some((LicenseWith(ts[i], ts[i + 2]), i + 3))
  }

  function ReadConjunction(ts: seq<Token>, i: nat): (r: Option<(Conjunction, nat)>)
    ensures r.Some? ==> i < r.value.1 <= |ts|
    decreases |ts| - i, 1
  {
    match ReadPrimary(ts, i)
    case None => None
    case Some((p, j)) => MoreConjuncts(ts, Just(p), j)
  }

  function MoreConjuncts(ts: seq<Token>, left: Conjunction, i: nat): (r: Option<(Conjunction, nat)>)
    requires i <= |ts|
    ensures r.Some? ==> i <= r.value.1 <= |ts|
    decreases |ts| - i, 1
  {
    if At(ts, i, "AND") then
      match ReadPrimary(ts, i + 1)
      case None => None
      case Some((p, j)) => MoreConjuncts(ts, AndAlso(left, p), j)
    else Some((left, i))
  }

  function ReadDisjunction(ts: seq<Token>, i: nat): (r: Option<(Disjunction, nat)>)
    ensures r.Some? ==> i < r.value.1 <= |ts|
    decreases |ts| - i, 2
  {
    match ReadConjunction(ts, i)
    case None => None
    case Some((c, j)) => MoreDisjuncts(ts, Only(c), j)
  }

  function MoreDisjuncts(ts: seq<Token>, left: Disjunction, i: nat): (r: Option<(Disjunction, nat)>)
    requires i <= |ts|
    ensures r.Some? ==> i <= r.value.1 <= |ts|
    decreases |ts| - i, 2
  {
    if At(ts, i, "OR") then
      match ReadConjunction(ts, i + 1)
      case None => None
      case Some((c, j)) => MoreDisjuncts(ts, OrElse(left, c), j)
    else Some((left, i))
  }

  // ---- soundness: what is read is what stands there

  lemma {:induction false} PrimaryReads(ts: seq<Token>, i: nat)
    requires ReadPrimary(ts, i).Some?
    ensures var (p, j) := ReadPrimary(ts, i).value; PrimaryNamed(p) && ts[i..j] == PrimaryTokens(p)
    decreases |ts| - i, 0
  {
    if At(ts, i, "(") {
      DisjunctionReads(ts, i + 1);
      var j := ReadDisjunction(ts, i + 1).value.1;
      assert ts[i..j + 1] == [ts[i]] + ts[i + 1..j] + [ts[j]];
    }
  }

  lemma {:induction false} ConjunctionReads(ts: seq<Token>, i: nat)
    requires ReadConjunction(ts, i).Some?
    ensures var (c, j) := ReadConjunction(ts, i).value; ConjunctionNamed(c) && ts[i..j] == ConjunctionTokens(c)
    decreases |ts| - i, 1
  {
    PrimaryReads(ts, i);
    var (p, j) := ReadPrimary(ts, i).value;
    MoreConjunctsRead(ts, i, Just(p), j);
  }

  lemma {:induction false} MoreConjunctsRead(ts: seq<Token>, from: nat, left: Conjunction, i: nat)
    requires from <= i <= |ts| && ts[from..i] == ConjunctionTokens(left) && ConjunctionNamed(left)
    requires MoreConjuncts(ts, left, i).Some?
    ensures var (c, j) := MoreConjuncts(ts, left, i).value; ConjunctionNamed(c) && ts[from..j] == ConjunctionTokens(c)
    decreases |ts| - i, 1
  {
    if At(ts, i, "AND") {
      PrimaryReads(ts, i + 1);
      var (p, j) := ReadPrimary(ts, i + 1).value;
      assert ts[from..j] == ts[from..i] + [ts[i]] + ts[i + 1..j];
      MoreConjunctsRead(ts, from, AndAlso(left, p), j);
    }
  }

  lemma {:induction false} DisjunctionReads(ts: seq<Token>, i: nat)
    requires ReadDisjunction(ts, i).Some?
    ensures var (d, j) := ReadDisjunction(ts, i).value; Named(d) && ts[i..j] == Tokens(d)
    decreases |ts| - i, 2
  {
    ConjunctionReads(ts, i);
    var (c, j) := ReadConjunction(ts, i).value;
    MoreDisjunctsRead(ts, i, Only(c), j);
  }

  lemma {:induction false} MoreDisjunctsRead(ts: seq<Token>, from: nat, left: Disjunction, i: nat)
    requires from <= i <= |ts| && ts[from..i] == Tokens(left) && Named(left)
    requires MoreDisjuncts(ts, left, i).Some?
    ensures var (d, j) := MoreDisjuncts(ts, left, i).value; Named(d) && ts[from..j] == Tokens(d)
    decreases |ts| - i, 2
  {
    if At(ts, i, "OR") {
      ConjunctionReads(ts, i + 1);
      var (c, j) := ReadConjunction(ts, i + 1).value;
      assert ts[from..j] == ts[from..i] + [ts[i]] + ts[i + 1..j];
      MoreDisjunctsRead(ts, from, OrElse(left, c), j);
    }
  }

  // ---- completeness: whatever the grammar derives is read in full

  /** A phrase cannot be continued at `j`. */
  predicate Ends(ts: seq<Token>, j: nat) {
    j >= |ts| || Stops(ts[j])
  }

  ghost predicate StandsAt(ts: seq<Token>, i: nat, phrase: seq<Token>) {
    i + |phrase| <= |ts| && ts[i..i + |phrase|] == phrase
  }

  lemma SplitAt(ts: seq<Token>, i: nat, a: seq<Token>, b: seq<Token>)
    requires StandsAt(ts, i, a + b)
    ensures StandsAt(ts, i, a) && StandsAt(ts, i + |a|, b)
  {
    assert ts[i..i + |a|] == ts[i..i + |a| + |b|][..|a|] == (a + b)[..|a|];
    assert ts[i + |a|..i + |a| + |b|] == ts[i..i + |a| + |b|][|a|..] == (a + b)[|a|..];
  }

  lemma ElementAt(ts: seq<Token>, i: nat, phrase: seq<Token>, k: nat)
    requires StandsAt(ts, i, phrase) && k < |phrase|
    ensures i + k < |ts| && ts[i + k] == phrase[k]
  {
    assert ts[i..i + |phrase|][k] == phrase[k];
  }

  lemma NamedIsRead(ts: seq<Token>, i: nat, p: Primary)
    requires PrimaryNamed(p) && StandsAt(ts, i, PrimaryTokens(p)) && Ends(ts, i + |PrimaryTokens(p)|)
    requires !p.Parenthesised?
    ensures ReadPrimary(ts, i) == Some((p, i + |PrimaryTokens(p)|))
  {
    hide StandsAt;
    ElementAt(ts, i, PrimaryTokens(p), 0);
    if p.LicenseWith? {
      ElementAt(ts, i, PrimaryTokens(p), 1);
      ElementAt(ts, i, PrimaryTokens(p), 2);
    }
  }

  lemma ClosedIsRead(ts: seq<Token>, i: nat, inner: Disjunction, j: nat)
    requires At(ts, i, "(") && ReadDisjunction(ts, i + 1) == Some((inner, j)) && At(ts, j, ")")
    ensures ReadPrimary(ts, i) == Some((Parenthesised(inner), j + 1))
  {
    hide ReadDisjunction;
  }

  lemma {:induction false} PrimaryIsRead(ts: seq<Token>, i: nat, p: Primary)
    requires PrimaryNamed(p) && StandsAt(ts, i, PrimaryTokens(p)) && Ends(ts, i + |PrimaryTokens(p)|)
    ensures ReadPrimary(ts, i) == Some((p, i + |PrimaryTokens(p)|))
    decreases p, 0
  {
    hide StandsAt, ReadPrimary, ReadDisjunction;
    if p.Parenthesised? {
      SplitAt(ts, i, ["("] + Tokens(p.inner), [")"]);
      SplitAt(ts, i, ["("], Tokens(p.inner));
      var j := i + 1 + |Tokens(p.inner)|;
      ElementAt(ts, i, ["("], 0);
      ElementAt(ts, j, [")"], 0);
      DisjunctionIsRead(ts, i + 1, p.inner);
      ClosedIsRead(ts, i, p.inner, j);
    } else {
      NamedIsRead(ts, i, p);
    }
  }

  lemma {:induction false} ConjunctionIsRead(ts: seq<Token>, i: nat, c: Conjunction)
    requires ConjunctionNamed(c) && StandsAt(ts, i, ConjunctionTokens(c)) && Ends(ts, i + |ConjunctionTokens(c)|)
    ensures ReadConjunction(ts, i) == MoreConjuncts(ts, c, i + |ConjunctionTokens(c)|)
    decreases c, 1
  {
    hide ReadPrimary, MoreConjuncts;
    match c {
      case Just(p) => PrimaryIsRead(ts, i, p);
      case AndAlso(left, p) =>
        SplitAt(ts, i, ConjunctionTokens(left) + ["AND"], PrimaryTokens(p));
        SplitAt(ts, i, ConjunctionTokens(left), ["AND"]);
        var j := i + |ConjunctionTokens(left)|;
        assert ts[j..j + 1][0] == "AND";
        ConjunctionIsRead(ts, i, left);
        PrimaryIsRead(ts, j + 1, p);
        OneMoreConjunct(ts, left, j, p, i + |ConjunctionTokens(c)|);
    }
  }

  lemma OneMoreConjunct(ts: seq<Token>, left: Conjunction, j: nat, p: Primary, end: nat)
    requires At(ts, j, "AND") && ReadPrimary(ts, j + 1) == Some((p, end))
    ensures MoreConjuncts(ts, left, j) == MoreConjuncts(ts, AndAlso(left, p), end)
  {
    hide ReadPrimary;
  }

  lemma OneMoreDisjunct(ts: seq<Token>, left: Disjunction, j: nat, c: Conjunction, end: nat)
    requires At(ts, j, "OR") && ReadConjunction(ts, j + 1) == Some((c, end))
    ensures MoreDisjuncts(ts, left, j) == MoreDisjuncts(ts, OrElse(left, c), end)
  {
    hide ReadConjunction;
  }

  lemma ReadsOn(ts: seq<Token>, i: nat)
    requires ReadConjunction(ts, i).Some?
    ensures var (c, j) := ReadConjunction(ts, i).value; ReadDisjunction(ts, i) == MoreDisjuncts(ts, Only(c), j)
  {
  }

  lemma ConjunctionEnds(ts: seq<Token>, c: Conjunction, j: nat)
    requires j <= |ts| && !At(ts, j, "AND")
    ensures MoreConjuncts(ts, c, j) == Some((c, j))
  {
  }

  lemma {:induction false} DisjunctionIsRead(ts: seq<Token>, i: nat, d: Disjunction)
    requires Named(d) && StandsAt(ts, i, Tokens(d)) && (i + |Tokens(d)| >= |ts| || ts[i + |Tokens(d)|] == ")")
    ensures ReadDisjunction(ts, i) == Some((d, i + |Tokens(d)|))
    decreases d, 3
  {
    DisjunctionContinues(ts, i, d);
  }

  lemma {:induction false} DisjunctionContinues(ts: seq<Token>, i: nat, d: Disjunction)
    requires Named(d) && StandsAt(ts, i, Tokens(d))
    requires var j := i + |Tokens(d)|; j >= |ts| || ts[j] == ")" || ts[j] == "OR"
    ensures ReadDisjunction(ts, i) == MoreDisjuncts(ts, d, i + |Tokens(d)|)
    decreases d, 2
  {
    hide ReadConjunction, MoreConjuncts, MoreDisjuncts;
    match d {
      case Only(c) =>
        ConjunctionIsRead(ts, i, c);
        ConjunctionEnds(ts, c, i + |Tokens(d)|);
        ReadsOn(ts, i);
      case OrElse(left, c) =>
        SplitAt(ts, i, Tokens(left) + ["OR"], ConjunctionTokens(c));
        SplitAt(ts, i, Tokens(left), ["OR"]);
        var j := i + |Tokens(left)|;
        assert ts[j..j + 1][0] == "OR";
        DisjunctionContinues(ts, i, left);
        ConjunctionIsRead(ts, j + 1, c);
        ConjunctionEnds(ts, c, i + |Tokens(d)|);
        OneMoreDisjunct(ts, left, j, c, i + |Tokens(d)|);
    }
  }

  // ---- which token sequences are accepted

  function Read(ts: seq<Token>): Option<Disjunction> {
    match ReadDisjunction(ts, 0)
    case None => None
    case Some((d, j)) => if j == |ts| then Some(d) else None
  }

  function Allowed(ts: seq<Token>): bool {
    Read(ts).Some? && Value(Read(ts).value)
  }

  /** A sequence is read in exactly one way, and exactly when the grammar derives it. */
  lemma ReadIsTheGrammar(ts: seq<Token>, d: Disjunction)
    ensures Read(ts) == Some(d) <==> Named(d) && Tokens(d) == ts
  {
    if Read(ts) == Some(d) {
      DisjunctionReads(ts, 0);
      assert ts[0..|ts|] == ts;
    }
    if Named(d) && Tokens(d) == ts {
      assert ts[0..|ts|] == ts;
      DisjunctionIsRead(ts, 0, d);
    }
  }

  /** Accepted is exactly what the grammar derives with the value true. */
  lemma AllowedMeans(ts: seq<Token>)
    ensures Allowed(ts) <==> exists d :: Named(d) && Tokens(d) == ts && Value(d)
  {
    if Allowed(ts) { ReadIsTheGrammar(ts, Read(ts).value); }
    forall d | Named(d) && Tokens(d) == ts && Value(d) ensures Allowed(ts) {
      ReadIsTheGrammar(ts, d);
    }
  }

  // ---- the SPDX grammar: names and exceptions are no operators and no parentheses

  ghost predicate PrimaryStrict(p: Primary) {
    match p
    case License(name) => !Reserved(name)
    case LicenseWith(name, exception) => !Reserved(name) && !Reserved(exception)
    case Parenthesised(inner) => Strict(inner)
  }

  ghost predicate ConjunctionStrict(c: Conjunction) {
    match c
    case Just(p) => PrimaryStrict(p)
    case AndAlso(left, p) => ConjunctionStrict(left) && PrimaryStrict(p)
  }

  ghost predicate Strict(d: Disjunction) {
    match d
    case Only(c) => ConjunctionStrict(c)
    case OrElse(left, c) => Strict(left) && ConjunctionStrict(c)
  }

  ghost predicate InGrammar(ts: seq<Token>) {
    exists d :: Strict(d) && Tokens(d) == ts
  }

  /** Every WITH stands between two identifiers. */
  predicate WithsInPlace(ts: seq<Token>) {
    forall i :: 0 <= i < |ts| && ts[i] == "WITH" ==>
      0 < i < |ts| - 1 && !Reserved(ts[i - 1]) && !Reserved(ts[i + 1])
  }

  /** The parser takes a WITH for a license, and anything at all for an exception. */
  lemma AcceptedOutsideTheGrammar()
    ensures Allowed(["MIT", "OR", "WITH"]) && !InGrammar(["MIT", "OR", "WITH"])
    ensures Allowed(["MIT", "OR", "GPL-3.0", "WITH", "("]) && !InGrammar(["MIT", "OR", "GPL-3.0", "WITH", "("])
  {
    var ts := ["MIT", "OR", "WITH"];
    var us := ["MIT", "OR", "GPL-3.0", "WITH", "("];
    assert ReadConjunction(ts, 0) == Some((Just(License("MIT")), 1));
    assert ReadConjunction(ts, 2) == Some((Just(License("WITH")), 3));
    assert ReadConjunction(us, 0) == Some((Just(License("MIT")), 1));
    assert ReadConjunction(us, 2) == Some((Just(LicenseWith("GPL-3.0", "(")), 5));
    assert ts[2] == "WITH" && us[3] == "WITH";
    if InGrammar(ts) { GrammarPlacesWiths(ts); }
    if InGrammar(us) { GrammarPlacesWiths(us); }
  }

  lemma GrammarPlacesWiths(ts: seq<Token>)
    requires InGrammar(ts)
    ensures WithsInPlace(ts)
  {
    var d :| Strict(d) && Tokens(d) == ts;
    StrictPlacesWiths(d);
  }

  /** No WITH at either end, and those inside in place. */
  ghost predicate Closed(ts: seq<Token>) {
    ts != [] && WithsInPlace(ts) && ts[0] != "WITH" && ts[|ts| - 1] != "WITH"
  }

  lemma ClosedJoin(a: seq<Token>, op: Token, b: seq<Token>)
    requires Closed(a) && Closed(b) && Reserved(op) && op != "WITH"
    ensures Closed(a + [op] + b)
  {
    var all := a + [op] + b;
    forall i | 0 <= i < |all| && all[i] == "WITH"
      ensures 0 < i < |all| - 1 && !Reserved(all[i - 1]) && !Reserved(all[i + 1])
    {
      if i < |a| {
        assert a[i] == "WITH";
      } else {
        assert b[i - |a| - 1] == "WITH";
      }
    }
  }

  lemma {:induction false} PrimaryPlacesWiths(p: Primary)
    requires PrimaryStrict(p)
    ensures Closed(PrimaryTokens(p))
    decreases p, 0
  {
    match p {
      case License(_) =>
      case LicenseWith(_, _) =>
      case Parenthesised(inner) =>
        StrictPlacesWiths(inner);
        var ts, all := Tokens(inner), PrimaryTokens(p);
        assert forall k :: 0 <= k < |ts| ==> all[k + 1] == ts[k];
        forall i | 0 <= i < |all| && all[i] == "WITH"
          ensures 0 < i < |all| - 1 && !Reserved(all[i - 1]) && !Reserved(all[i + 1])
        {
          assert ts[i - 1] == "WITH";
        }
    }
  }

  lemma {:induction false} ConjunctionPlacesWiths(c: Conjunction)
    requires ConjunctionStrict(c)
    ensures Closed(ConjunctionTokens(c))
    decreases c, 1
  {
    match c {
      case Just(p) => PrimaryPlacesWiths(p);
      case AndAlso(left, p) =>
        ConjunctionPlacesWiths(left);
        PrimaryPlacesWiths(p);
        ClosedJoin(ConjunctionTokens(left), "AND", PrimaryTokens(p));
    }
  }

  lemma {:induction false} StrictPlacesWiths(d: Disjunction)
    requires Strict(d)
    ensures Closed(Tokens(d))
    decreases d, 2
  {
    match d {
      case Only(c) => ConjunctionPlacesWiths(c);
      case OrElse(left, c) =>
        StrictPlacesWiths(left);
        ConjunctionPlacesWiths(c);
        ClosedJoin(Tokens(left), "OR", ConjunctionTokens(c));
    }
  }

  /** The text `ts[i..j]` of a larger one, with the WITHs of the larger one in place. */
  lemma {:induction false} PrimaryInPlace(ts: seq<Token>, i: nat, p: Primary)
    requires WithsInPlace(ts) && PrimaryNamed(p) && StandsAt(ts, i, PrimaryTokens(p))
    requires i > 0 ==> Reserved(ts[i - 1]) && ts[i - 1] != "WITH"
    ensures PrimaryStrict(p)
    decreases p, 0
  {
    match p {
      case License(name) =>
        assert ts[i] == ts[i..i + 1][0] == name;
      case LicenseWith(name, exception) =>
        var phrase := ts[i..i + 3];
        assert phrase[0] == name && phrase[1] == "WITH" && phrase[2] == exception;
        assert ts[i] == name && ts[i + 1] == "WITH" && ts[i + 2] == exception;
      case Parenthesised(inner) =>
        SplitAt(ts, i, ["("] + Tokens(inner), [")"]);
        SplitAt(ts, i, ["("], Tokens(inner));
        assert ts[i] == ts[i..i + 1][0] == "(";
        DisjunctionInPlace(ts, i + 1, inner);
    }
  }

  lemma {:induction false} ConjunctionInPlace(ts: seq<Token>, i: nat, c: Conjunction)
    requires WithsInPlace(ts) && ConjunctionNamed(c) && StandsAt(ts, i, ConjunctionTokens(c))
    requires i > 0 ==> Reserved(ts[i - 1]) && ts[i - 1] != "WITH"
    ensures ConjunctionStrict(c)
    decreases c, 1
  {
    match c {
      case Just(p) => PrimaryInPlace(ts, i, p);
      case AndAlso(left, p) =>
        SplitAt(ts, i, ConjunctionTokens(left) + ["AND"], PrimaryTokens(p));
        SplitAt(ts, i, ConjunctionTokens(left), ["AND"]);
        var j := i + |ConjunctionTokens(left)|;
        assert ts[j] == ts[j..j + 1][0] == "AND";
        ConjunctionInPlace(ts, i, left);
        PrimaryInPlace(ts, j + 1, p);
    }
  }

  lemma {:induction false} DisjunctionInPlace(ts: seq<Token>, i: nat, d: Disjunction)
    requires WithsInPlace(ts) && Named(d) && StandsAt(ts, i, Tokens(d))
    requires i > 0 ==> Reserved(ts[i - 1]) && ts[i - 1] != "WITH"
    ensures Strict(d)
    decreases d, 2
  {
    match d {
      case Only(c) => ConjunctionInPlace(ts, i, c);
      case OrElse(left, c) =>
        SplitAt(ts, i, Tokens(left) + ["OR"], ConjunctionTokens(c));
        SplitAt(ts, i, Tokens(left), ["OR"]);
        var j := i + |Tokens(left)|;
        assert ts[j] == ts[j..j + 1][0] == "OR";
        DisjunctionInPlace(ts, i, left);
        ConjunctionInPlace(ts, j + 1, c);
    }
  }

  /** An accepted sequence is in the SPDX grammar exactly when every WITH stands between identifiers. */
  lemma AcceptedInGrammar(ts: seq<Token>)
    requires Allowed(ts)
    ensures InGrammar(ts) <==> WithsInPlace(ts)
  {
    var d := Read(ts).value;
    ReadIsTheGrammar(ts, d);
    if InGrammar(ts) { GrammarPlacesWiths(ts); }
    if WithsInPlace(ts) {
      assert ts[0..|ts|] == ts;
      DisjunctionInPlace(ts, 0, d);
    }
  }

  // ---- expression trees and their printing

  datatype Expression =
    | Id(name: Token)
    | With(name: Token, exception: Token)
    | And(left: Expression, right: Expression)
    | Or(left: Expression, right: Expression)

  ghost predicate NamedTree(e: Expression) {
    match e
    case Id(name) => !Reserved(name)
    case With(name, exception) => !Reserved(name) && !Reserved(exception)
    case And(left, right) => NamedTree(left) && NamedTree(right)
    case Or(left, right) => NamedTree(left) && NamedTree(right)
  }

  function Meaning(e: Expression): bool {
    match e
    case Id(name) => name in ALLOWED
    case With(name, exception) => name in ALLOWED && exception == EXCEPTION
    case And(left, right) => Meaning(left) && Meaning(right)
    case Or(left, right) => Meaning(left) || Meaning(right)
  }

  /** AND binds tighter than OR, and both associate: only an OR below an AND needs parentheses. */
  function Print(e: Expression): seq<Token>
    decreases e, 0
  {
    match e
    case Id(name) => [name]
    case With(name, exception) => [name, "WITH", exception]
    case And(left, right) => PrintBelowAnd(left) + ["AND"] + PrintBelowAnd(right)
    case Or(left, right) => Print(left) + ["OR"] + Print(right)
  }

  function PrintBelowAnd(e: Expression): seq<Token>
    decreases e, 1
  {
    if e.Or? then ["("] + Print(e) + [")"] else Print(e)
  }

  function JoinOr(d: Disjunction, e: Disjunction): (r: Disjunction)
    ensures Tokens(r) == Tokens(d) + ["OR"] + Tokens(e) && Value(r) == (Value(d) || Value(e))
    ensures Named(d) && Named(e) ==> Named(r)
    decreases e
  {
    match e
    case Only(c) => OrElse(d, c)
    case OrElse(left, c) => OrElse(JoinOr(d, left), c)
  }

  function JoinAnd(c: Conjunction, d: Conjunction): (r: Conjunction)
    ensures ConjunctionTokens(r) == ConjunctionTokens(c) + ["AND"] + ConjunctionTokens(d)
    ensures ConjunctionValue(r) == (ConjunctionValue(c) && ConjunctionValue(d))
    ensures ConjunctionNamed(c) && ConjunctionNamed(d) ==> ConjunctionNamed(r)
    decreases d
  {
    match d
    case Just(p) => AndAlso(c, p)
    case AndAlso(left, p) => AndAlso(JoinAnd(c, left), p)
  }

  /** The phrase that the printing of a tree is, with the tree's meaning. */
  function Phrase(e: Expression): (d: Disjunction)
    ensures Tokens(d) == Print(e) && Value(d) == Meaning(e) && (NamedTree(e) ==> Named(d))
    decreases e, 1
  {
    match e
    case Or(left, right) => JoinOr(Phrase(left), Phrase(right))
    case _ => Only(Conjuncts(e))
  }

  function Conjuncts(e: Expression): (c: Conjunction)
    requires !e.Or?
    ensures ConjunctionTokens(c) == Print(e) && ConjunctionValue(c) == Meaning(e)
    ensures NamedTree(e) ==> ConjunctionNamed(c)
    decreases e, 0
  {
    match e
    case Id(name) => Just(License(name))
    case With(name, exception) => Just(LicenseWith(name, exception))
    case And(left, right) => JoinAnd(BelowAnd(left), BelowAnd(right))
  }

  function BelowAnd(e: Expression): (c: Conjunction)
    ensures ConjunctionTokens(c) == PrintBelowAnd(e) && ConjunctionValue(c) == Meaning(e)
    ensures NamedTree(e) ==> ConjunctionNamed(c)
    decreases e, 2
  {
    if e.Or? then Just(Parenthesised(Phrase(e))) else Conjuncts(e)
  }

  /** On the printing of any tree the parser computes the meaning of the tree. */
  lemma PrintedTreesEvaluate(e: Expression)
    requires NamedTree(e)
    ensures Allowed(Print(e)) == Meaning(e)
  {
    ReadIsTheGrammar(Print(e), Phrase(e));
  }
}
