// When exactly a parsed expression means what it says.
module BoolMeaning {
  import opened BoolParser

  function TermNames(t: Term): set<string> {
    match t
    case Name(_, name) => {name}
    case Group(_, chain, _) => ChainNames(chain)
  }

  function ChainNames(ch: Chain): set<string> {
    match ch
    case First(t) => TermNames(t)
    case Then(rest, _, _, t) => ChainNames(rest) + TermNames(t)
  }

  // No variable occurs twice.
  predicate ReadOnce(ch: Chain) {
    match ch
    case First(t) => t.Group? ==> ReadOnce(t.chain)
    case Then(rest, _, _, t) => ReadOnce(rest) && ChainNames(rest) !! TermNames(t) && (t.Group? ==> ReadOnce(t.chain))
  }

  // What the parser makes of a term that does not start a chain.
  predicate ReadValue(t: Term, vars: map<string, bool>) {
    match t
    case Name(prefix, name) => Odd(prefix) != IsSet(vars, name)
    case Group(prefix, chain, _) => Odd(prefix) != CarriedValue(chain, false, vars)
  }

  ghost predicate SameOn(names: set<string>, v: map<string, bool>, w: map<string, bool>) {
    forall n | n in names :: IsSet(v, n) == IsSet(w, n)
  }

  // Both values depend on the expression's own variables only.
  lemma {:induction false} OnlyOwnNames(ch: Chain, carry: bool, v: map<string, bool>, w: map<string, bool>)
    requires SameOn(ChainNames(ch), v, w)
    ensures CarriedValue(ch, carry, v) == CarriedValue(ch, carry, w) && Value(ch, v) == Value(ch, w)
  {
    match ch
    case First(Name(_, name)) => assert name in ChainNames(ch);
    case First(Group(prefix, chain, _)) =>
      assert ChainNames(ch) == TermNames(ch.term) == ChainNames(chain);
      OnlyOwnNames(chain, carry != Odd(prefix), v, w);
    case Then(rest, _, _, t) =>
      assert ChainNames(ch) == ChainNames(rest) + TermNames(t);
      OnlyOwnNames(rest, carry, v, w);
      OnlyOwnTermNames(t, v, w);
  }

  lemma {:induction false} OnlyOwnTermNames(t: Term, v: map<string, bool>, w: map<string, bool>)
    requires SameOn(TermNames(t), v, w)
    ensures ReadValue(t, v) == ReadValue(t, w) && TermValue(t, v) == TermValue(t, w)
  {
    match t
    case Name(_, name) => assert name in TermNames(t);
    case Group(_, chain, _) => OnlyOwnNames(chain, false, v, w);
  }

  // Assignments to different variables can be put together.
  function Joined(a: set<string>, v: map<string, bool>, b: set<string>, w: map<string, bool>): map<string, bool> {
    map n | n in a + b :: if n in b then IsSet(w, n) else IsSet(v, n)
  }

  lemma {:induction false} JoinedValues(rest: Chain, carry: bool, v: map<string, bool>, t: Term, w: map<string, bool>)
    requires ChainNames(rest) !! TermNames(t)
    ensures var m := Joined(ChainNames(rest), v, TermNames(t), w);
            && CarriedValue(rest, carry, m) == CarriedValue(rest, carry, v) && Value(rest, m) == Value(rest, v)
            && ReadValue(t, m) == ReadValue(t, w) && TermValue(t, m) == TermValue(t, w)
  {
    var m := Joined(ChainNames(rest), v, TermNames(t), w);
    OnlyOwnNames(rest, carry, m, v);
    OnlyOwnTermNames(t, m, w);
  }

  // Some assignment gives any wanted value, to what is read and to what is meant,
  // also where a negation was carried into the chain.
  lemma {:induction false} Agree(ch: Chain, carry: bool, wanted: bool) returns (vars: map<string, bool>)
    requires ReadOnce(ch)
    ensures CarriedValue(ch, carry, vars) == wanted && (carry != Value(ch, vars)) == wanted
  {
    match ch
    case First(Name(prefix, name)) =>
      vars := map[name := (carry != Odd(prefix)) != wanted];
    case First(Group(prefix, chain, _)) =>
      vars := Agree(chain, carry != Odd(prefix), wanted);
    case Then(rest, _, isAnd, t) =>
      var v := Agree(rest, carry, wanted);
      var w := AgreeTerm(t, isAnd);
      vars := Joined(ChainNames(rest), v, TermNames(t), w);
      JoinedValues(rest, carry, v, t, w);
  }

  lemma {:induction false} AgreeTerm(t: Term, wanted: bool) returns (vars: map<string, bool>)
    requires t.Group? ==> ReadOnce(t.chain)
    ensures ReadValue(t, vars) == wanted && TermValue(t, vars) == wanted
  {
    match t
    case Name(prefix, name) => vars := map[name := Odd(prefix) != wanted];
    case Group(prefix, chain, _) => vars := Agree(chain, false, Odd(prefix) != wanted);
  }

  // With a negated bracket at the start of some chain, some assignment shows it.
  lemma {:induction false} Differ(ch: Chain) returns (vars: map<string, bool>)
    requires ReadOnce(ch) && ChainReadable(ch) && !NoLeadingNegation(ch)
    ensures CarriedValue(ch, false, vars) != Value(ch, vars)
  {
    match ch
    case First(Group(prefix, chain, _)) =>
      if Odd(prefix) {
        vars := DifferNegated(chain);
      } else {
        vars := Differ(chain);
      }
    case Then(rest, _, isAnd, t) =>
      var v, w;
      if !NoLeadingNegation(rest) {
        v := Differ(rest);
        w := AgreeTerm(t, isAnd);
      } else {
        v := Agree(rest, false, isAnd);
        w := Differ(t.chain);
      }
      vars := Joined(ChainNames(rest), v, TermNames(t), w);
      JoinedValues(rest, false, v, t, w);
  }

  // The last term of the bracket can decide its value alone.
  lemma {:induction false} DifferNegated(chain: Chain) returns (vars: map<string, bool>)
    requires ReadOnce(chain) && chain.Then?
    ensures CarriedValue(chain, true, vars) == Value(chain, vars)
  {
    var w := AgreeTerm(chain.term, !chain.isAnd);
    vars := Joined(ChainNames(chain.chain), map[], TermNames(chain.term), w);
    JoinedValues(chain.chain, true, map[], chain.term, w);
  }

  // An expression whose variables are all different is read as it is meant, for
  // every assignment, if and only if no chain starts with a negated bracket.
  lemma {:induction false} MeaningExact(ch: Chain, trail: string)
    requires ChainOk(ch) && Blanks(trail) && ChainReadable(ch) && ReadOnce(ch)
    ensures var r := Parse(ChainText(ch) + trail);
            && r.Parsed? && Complete(r.node)
            && ((forall vars :: Eval(r.node, vars) == Value(ch, vars)) <==> NoLeadingNegation(ch))
  {
    forall vars: map<string, bool>
      ensures var r := Parse(ChainText(ch) + trail);
              && r.Parsed? && Complete(r.node) && Eval(r.node, vars) == CarriedValue(ch, false, vars)
              && (NoLeadingNegation(ch) ==> Eval(r.node, vars) == Value(ch, vars))
    {
      ParsedMeaning(ch, trail, vars);
    }
    ParsedMeaning(ch, trail, map[]);
    if !NoLeadingNegation(ch) {
      var vars := Differ(ch);
      assert CarriedValue(ch, false, vars) != Value(ch, vars);
    }
  }
}
