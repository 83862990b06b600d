// The parser for build conditions: a four-state machine over a stack of nodes,
// and the meaning of the expressions that it accepts.
module BoolParser {
  import opened Seqs

  datatype Node =
    | Nil
    | And(left: Node, right: Node)
    | Or(left: Node, right: Node)
    | Var(name: string)
    | Paren(node: Node, negated: bool)
    | Negate(node: Node)

  // No operand is missing, so Eval meets no nil node.
  predicate Complete(n: Node) {
    match n
    case Nil => false
    case And(l, r) => Complete(l) && Complete(r)
    case Or(l, r) => Complete(l) && Complete(r)
    case Var(_) => true
    case Paren(m, _) => Complete(m)
    case Negate(m) => Complete(m)
  }

  predicate IsSet(vars: map<string, bool>, name: string) {
    name in vars && vars[name]
  }

  predicate Eval(n: Node, vars: map<string, bool>)
    requires Complete(n)
  {
    match n
    case And(l, r) => Eval(l, vars) && Eval(r, vars)
    case Or(l, r) => Eval(l, vars) || Eval(r, vars)
    case Var(name) => IsSet(vars, name)
    case Paren(m, negated) => if negated then !Eval(m, vars) else Eval(m, vars)
    case Negate(m) => !Eval(m, vars)
  }

  // ----- The state machine

  datatype State = FirstName | Operator | AfterOperator | NextName

  datatype Machine = Machine(stack: seq<Node>, state: State, buffer: string, wanted: char, shouldNegate: bool)

  datatype Progress = At(machine: Machine) | Failed | Panicked

  datatype Outcome = Parsed(node: Node) | ParseError | Crash

  const INITIAL := Machine([], FirstName, "", ' ', false)

  predicate IsBlank(c: char) { c == ' ' || c == '\t' }

  predicate IsOperator(c: char) { c == '&' || c == '|' }

  predicate IsLetter(c: char) { 'a' <= c <= 'z' || 'A' <= c <= 'Z' || c == '_' }

  predicate IsDigit(c: char) { '0' <= c <= '9' }

  function Literal(name: string, negated: bool): Node {
    if negated then Negate(Var(name)) else Var(name)
  }

  predicate IsOpen(n: Node) { n.And? || n.Or? }

  function WithRight(n: Node, right: Node): Node
    requires IsOpen(n)
  {
    if n.And? then And(n.left, right) else Or(n.left, right)
  }

  function OpNode(c: char, left: Node): Node {
    if c == '&' then And(left, Nil) else Or(left, Nil)
  }

  // A character of a name, in both name states.
  function NameChar(m: Machine, c: char): Progress {
    if !IsLetter(c) && (m.buffer == "" || !IsDigit(c)) then Failed
    else At(m.(buffer := m.buffer + [c]))
  }

  function WantedAfterName(c: char): char {
    if IsOperator(c) then c else ' '
  }

  function StepFirstName(m: Machine, c: char): Progress {
    if c == '(' then At(m.(stack := m.stack + [Paren(Nil, false)]))
    else if IsBlank(c) && m.buffer == "" then At(m)
    else if IsBlank(c) || IsOperator(c) then
      At(Machine(m.stack + [Literal(m.buffer, m.shouldNegate)], Operator, "", WantedAfterName(c), false))
    else if c == '!' then At(m.(shouldNegate := !m.shouldNegate))
    else NameChar(m, c)
  }

  function StepOperator(m: Machine, c: char): Progress {
    if m.wanted == ' ' then
      if IsBlank(c) then At(m)
      else if IsOperator(c) then At(m.(wanted := c))
      else Failed
    else if c != m.wanted then Failed
    else if m.stack == [] then Panicked
    else if IsOperator(c) then
      At(m.(stack := DropLast(m.stack) + [OpNode(c, m.stack[|m.stack| - 1])], state := AfterOperator))
    else Failed
  }

  function StepAfterOperator(m: Machine, c: char): Progress {
    if IsBlank(c) then At(m)
    else if c == '!' then At(m.(shouldNegate := !m.shouldNegate))
    else if c == '(' then
      At(m.(stack := m.stack + [Paren(Nil, m.shouldNegate)], shouldNegate := false, state := FirstName))
    else StepNextName(m.(state := NextName), c)
  }

  // The closing bracket: the finished node replaces its Paren, or becomes the
  // right operand of the operator below it.
  function CloseParen(m: Machine): Progress
    requires m.stack != []
  {
    var top := |m.stack| - 1;
    if top == 0 then Panicked
    else
      var paren := m.stack[top - 1];
      if !paren.Paren? then Failed
      else
        var node := if paren.negated then Negate(m.stack[top]) else m.stack[top];
        if top > 1 && IsOpen(m.stack[top - 2]) then
          At(m.(stack := m.stack[..top - 2] + [WithRight(m.stack[top - 2], node)]))
        else
          At(m.(stack := m.stack[..top - 1] + [node]))
  }

  function StepNextName(m: Machine, c: char): Progress {
    if m.stack == [] then Panicked
    else if IsBlank(c) || IsOperator(c) || c == ')' then
      var top := m.stack[|m.stack| - 1];
      if !IsOpen(top) then Failed
      else
        var stack := DropLast(m.stack) + [WithRight(top, Literal(m.buffer, m.shouldNegate))];
        var next := Machine(stack, Operator, "", WantedAfterName(c), false);
        if c == ')' then CloseParen(next) else At(next)
    else NameChar(m, c)
  }

  function Step(m: Machine, c: char): Progress {
    match m.state
    case FirstName => StepFirstName(m, c)
    case Operator => StepOperator(m, c)
    case AfterOperator => StepAfterOperator(m, c)
    case NextName => StepNextName(m, c)
  }

  // What is left to do at the end of the input.
  function Finish(m: Machine): Outcome {
    if |m.stack| > 1 then ParseError
    else if m.buffer != "" then
      var literal := Literal(m.buffer, m.shouldNegate);
      if m.stack == [] then Parsed(literal)
      else if IsOpen(m.stack[0]) then Parsed(WithRight(m.stack[0], literal))
      else ParseError
    else if m.stack == [] then ParseError
    else Parsed(m.stack[0])
  }

  function Run(m: Machine, input: string): Progress
    decreases |input|
  {
    if input == "" then At(m)
    else
      match Step(m, input[0])
      case At(next) => Run(next, input[1..])
      case stopped => stopped
  }

  function Parse(input: string): Outcome {
    match Run(INITIAL, input)
    case At(m) => Finish(m)
    case Failed => ParseError
    case Panicked => Crash
  }

  method ParseBoolExpr(input: string) returns (r: Outcome)
    ensures r == Parse(input)
  {
    var m := INITIAL;
    for i := 0 to |input|
      invariant Run(m, input[i..]) == Run(INITIAL, input)
    {
      assert input[i..][1..] == input[i + 1..];
      match Step(m, input[i]) {
        case At(next) => m := next;
        case Failed => return ParseError;
        case Panicked => return Crash;
      }
    }
    return Finish(m);
  }

  lemma {:induction false} RunAppend(m: Machine, a: string, b: string)
    ensures Run(m, a + b) == match Run(m, a) case At(next) => Run(next, b) case stopped => stopped
    decreases |a|
  {
    if a == "" {
      assert a + b == b;
    } else {
      assert (a + b)[1..] == a[1..] + b;
      match Step(m, a[0]) {
        case At(next) => RunAppend(next, a[1..], b);
        case stopped =>
      }
    }
  }

  // ----- Expressions as they are written

  // prefix holds the blanks and exclamation marks in front of a term, gap the
  // blanks in front of an operator, trail those in front of a closing bracket.
  datatype Term = Name(prefix: string, name: string) | Group(prefix: string, chain: Chain, trail: string)

  datatype Chain = First(term: Term) | Then(chain: Chain, gap: string, isAnd: bool, term: Term)

  predicate Blanks(s: string) {
    forall c | c in s :: IsBlank(c)
  }

  predicate IsPrefix(s: string) {
    forall c | c in s :: IsBlank(c) || c == '!'
  }

  predicate IsName(s: string) {
    s != "" && IsLetter(s[0]) && forall c | c in s :: IsLetter(c) || IsDigit(c)
  }

  predicate Odd(prefix: string) {
    if prefix == "" then false
    else if prefix[|prefix| - 1] == '!' then !Odd(prefix[..|prefix| - 1])
    else Odd(prefix[..|prefix| - 1])
  }

  predicate TermOk(t: Term) {
    match t
    case Name(prefix, name) => IsPrefix(prefix) && IsName(name)
    case Group(prefix, chain, trail) => IsPrefix(prefix) && ChainOk(chain) && Blanks(trail)
  }

  predicate ChainOk(ch: Chain) {
    match ch
    case First(t) => TermOk(t)
    case Then(rest, gap, _, t) => ChainOk(rest) && Blanks(gap) && TermOk(t)
  }

  function OpChar(isAnd: bool): char {
    if isAnd then '&' else '|'
  }

  function TermText(t: Term): string {
    match t
    case Name(prefix, name) => prefix + name
    case Group(prefix, chain, trail) => prefix + ("(" + (ChainText(chain) + (trail + ")")))
  }

  function ChainText(ch: Chain): string {
    match ch
    case First(t) => TermText(t)
    case Then(rest, gap, isAnd, t) =>
      ChainText(rest) + ((gap + [OpChar(isAnd), OpChar(isAnd)]) + TermText(t))
  }

  // The meaning: operators take effect strictly from left to right.
  predicate TermValue(t: Term, vars: map<string, bool>) {
    match t
    case Name(prefix, name) => Odd(prefix) != IsSet(vars, name)
    case Group(prefix, chain, _) => Odd(prefix) != Value(chain, vars)
  }

  predicate Value(ch: Chain, vars: map<string, bool>) {
    match ch
    case First(t) => TermValue(t, vars)
    case Then(rest, _, isAnd, t) =>
      if isAnd then Value(rest, vars) && TermValue(t, vars) else Value(rest, vars) || TermValue(t, vars)
  }

  // The machine can close a bracket only right behind a name, after an operator.
  predicate Closable(ch: Chain, trail: string) {
    ch.Then? && ch.term.Name? && trail == ""
  }

  predicate TermReadable(t: Term) {
    t.Group? ==> ChainReadable(t.chain) && Closable(t.chain, t.trail)
  }

  predicate ChainReadable(ch: Chain) {
    match ch
    case First(t) => TermReadable(t)
    case Then(rest, _, _, t) => ChainReadable(rest) && TermReadable(t)
  }

  // The tree that the machine builds.  A negation in front of a bracket that
  // starts a chain is carried to the first name inside (carry).
  function TermNode(t: Term): Node {
    match t
    case Name(prefix, name) => Literal(name, Odd(prefix))
    case Group(prefix, chain, _) => if Odd(prefix) then Negate(ChainNode(chain, false)) else ChainNode(chain, false)
  }

  function FirstNode(t: Term, carry: bool): Node {
    match t
    case Name(prefix, name) => Literal(name, carry != Odd(prefix))
    case Group(prefix, chain, _) => ChainNode(chain, carry != Odd(prefix))
  }

  function ChainNode(ch: Chain, carry: bool): Node {
    match ch
    case First(t) => FirstNode(t, carry)
    case Then(rest, _, isAnd, t) =>
      if isAnd then And(ChainNode(rest, carry), TermNode(t)) else Or(ChainNode(rest, carry), TermNode(t))
  }

  // ----- What the machine does with an expression's text

  predicate FreshStack(stack: seq<Node>) {
    stack == [] || stack[|stack| - 1].Paren?
  }

  function Start(stack: seq<Node>, carry: bool, wanted: char): Machine {
    Machine(stack, FirstName, "", wanted, carry)
  }

  // The machine behind a chain's last character; a name there is still open.
  function After(ch: Chain, stack: seq<Node>, carry: bool, wanted: char): Machine {
    match ch
    case First(Name(prefix, name)) => Machine(stack, FirstName, name, wanted, carry != Odd(prefix))
    case Then(rest, _, isAnd, Name(prefix, name)) =>
      Machine(stack + [OpNode(OpChar(isAnd), ChainNode(rest, carry))], NextName, name, OpChar(isAnd), Odd(prefix))
    case _ => Machine(stack + [ChainNode(ch, carry)], Operator, "", ' ', false)
  }

  lemma {:induction false} RunBlanks(m: Machine, blanks: string)
    requires Blanks(blanks) && m.state == Operator && m.wanted == ' '
    ensures Run(m, blanks) == At(m)
  {
    if blanks != "" {
      assert blanks[0] in blanks;
      RunBlanks(m, blanks[1..]);
    }
  }

  lemma {:induction false} RunPrefix(m: Machine, prefix: string)
    requires IsPrefix(prefix) && m.buffer == "" && (m.state == FirstName || m.state == AfterOperator)
    ensures Run(m, prefix) == At(m.(shouldNegate := m.shouldNegate != Odd(prefix)))
  {
    if prefix != "" {
      var init, last := prefix[..|prefix| - 1], prefix[|prefix| - 1];
      RunPrefix(m, init);
      RunAppend(m, init, [last]);
      assert prefix == init + [last];
      assert last in prefix;
    }
  }

  lemma {:induction false} RunName(m: Machine, name: string)
    requires forall c | c in name :: IsLetter(c) || IsDigit(c)
    requires m.buffer != "" || (name != "" && IsLetter(name[0])) || name == ""
    requires m.state == FirstName || (m.state == NextName && m.stack != [])
    ensures Run(m, name) == At(m.(buffer := m.buffer + name))
    decreases |name|
  {
    if name != "" {
      assert name[0] in name;
      var next := m.(buffer := m.buffer + [name[0]]);
      assert Step(m, name[0]) == At(next);
      RunName(next, name[1..]);
      assert next.buffer + name[1..] == m.buffer + name;
    } else {
      assert m.buffer + name == m.buffer;
    }
  }

  // Behind an operator, whatever the chain before it ends in.
  lemma {:induction false} RunOperator(ch: Chain, stack: seq<Node>, carry: bool, wanted: char, gap: string, isAnd: bool)
    requires Blanks(gap) && ChainOk(ch)
    ensures var o := OpChar(isAnd);
            Run(After(ch, stack, carry, wanted), gap + [o, o]) ==
            At(Machine(stack + [OpNode(o, ChainNode(ch, carry))], AfterOperator, "", o, false))
  {
    var o := OpChar(isAnd);
    var m := After(ch, stack, carry, wanted);
    var node := ChainNode(ch, carry);
    var done := Machine(stack + [node], Operator, "", ' ', false);
    EndOfChain(ch, stack, carry, wanted, if gap == "" then o else gap[0]);
    if gap == "" {
      assert gap + [o, o] == [o, o];
      RunTwo(m, o);
    } else {
      assert gap[0] in gap;
      RunBlanks(done, gap[1..]);
      RunAppend(m, [gap[0]], gap[1..] + [o, o]);
      RunAppend(done, gap[1..], [o, o]);
      assert gap + [o, o] == [gap[0]] + (gap[1..] + [o, o]);
      RunTwo(done, o);
    }
    assert DropLast(stack + [node]) == stack;
  }

  lemma RunTwo(m: Machine, o: char)
    ensures Run(m, [o, o]) == match Step(m, o) case At(next) => Step(next, o) case stopped => stopped
  {
    assert [o, o][1..] == [o] && [o][1..] == "";
    match Step(m, o) {
      case At(next) =>
        match Step(next, o) {
          case At(last) => assert Run(last, "") == At(last);
          case stopped =>
        }
      case stopped =>
    }
  }

  // A blank or an operator ends a name that is still open.
  lemma {:induction false} EndOfChain(ch: Chain, stack: seq<Node>, carry: bool, wanted: char, c: char)
    requires ChainOk(ch) && (IsBlank(c) || IsOperator(c))
    ensures Step(After(ch, stack, carry, wanted), c) ==
            At(Machine(stack + [ChainNode(ch, carry)], Operator, "", WantedAfterName(c), false))
  {
    if ch.Then? && ch.term.Name? {
      var m := After(ch, stack, carry, wanted);
      assert DropLast(m.stack) == stack;
    }
  }

  // The stack behind a closing bracket.
  function Closed(base: seq<Node>, negated: bool, node: Node): seq<Node> {
    var result := if negated then Negate(node) else node;
    if base != [] && IsOpen(base[|base| - 1]) then DropLast(base) + [WithRight(base[|base| - 1], result)]
    else base + [result]
  }

  lemma CloseTop(base: seq<Node>, negated: bool, node: Node)
    ensures CloseParen(Machine(base + [Paren(Nil, negated)] + [node], Operator, "", ' ', false)) ==
            At(Machine(Closed(base, negated, node), Operator, "", ' ', false))
  {
  }

  // No bracket closes behind a blank.
  lemma {:induction false} CloseBehind(m: Machine, done: Machine, trail: string)
    requires trail != "" && Blanks(trail) && Step(m, trail[0]) == At(done) && done.state == Operator &&
             done.wanted == ' '
    ensures Run(m, trail + ")") == Failed
  {
    RunBlanks(done, trail[1..]);
    RunAppend(done, trail[1..], ")");
    assert (trail + ")")[1..] == trail[1..] + ")";
  }

  lemma {:induction false} RunClosing(ch: Chain, base: seq<Node>, negated: bool, carry: bool, wanted: char,
                                      trail: string)
    requires ChainOk(ch) && Blanks(trail)
    ensures Run(After(ch, base + [Paren(Nil, negated)], carry, wanted), trail + ")") ==
            if Closable(ch, trail) then
              At(Machine(Closed(base, negated, ChainNode(ch, carry)), Operator, "", ' ', false))
            else Failed
  {
    var stack := base + [Paren(Nil, negated)];
    var m := After(ch, stack, carry, wanted);
    if trail != "" {
      assert trail[0] in trail;
      EndOfChain(ch, stack, carry, wanted, trail[0]);
      CloseBehind(m, Machine(stack + [ChainNode(ch, carry)], Operator, "", ' ', false), trail);
    } else {
      assert trail + ")" == ")" && ")"[1..] == "";
      CloseAtOnce(ch, base, negated, carry, wanted);
    }
  }

  lemma CloseAtOnce(ch: Chain, base: seq<Node>, negated: bool, carry: bool, wanted: char)
    requires ChainOk(ch)
    ensures Step(After(ch, base + [Paren(Nil, negated)], carry, wanted), ')') ==
            if Closable(ch, "") then
              At(Machine(Closed(base, negated, ChainNode(ch, carry)), Operator, "", ' ', false))
            else Failed
  {
    if Closable(ch, "") {
      var stack := base + [Paren(Nil, negated)];
      var isAnd, name := ch.isAnd, ch.term;
      CloseName(stack, OpNode(OpChar(isAnd), ChainNode(ch.chain, carry)), name.name, OpChar(isAnd), Odd(name.prefix));
      CloseTop(base, negated, ChainNode(ch, carry));
    }
  }

  lemma CloseName(stack: seq<Node>, op: Node, name: string, wanted: char, negate: bool)
    requires IsOpen(op)
    ensures Step(Machine(stack + [op], NextName, name, wanted, negate), ')') ==
            CloseParen(Machine(stack + [WithRight(op, Literal(name, negate))], Operator, "", ' ', false))
  {
    assert DropLast(stack + [op]) == stack;
  }

  // ----- A bracketed chain, in both places where it may stand

  lemma {:induction false} RunGroup(m: Machine, prefix: string, ch: Chain, trail: string)
    requires TermOk(Group(prefix, ch, trail)) && m.buffer == ""
    requires m.state == FirstName || m.state == AfterOperator
    ensures var negated := m.shouldNegate != Odd(prefix);
            var wrap := m.state == AfterOperator && negated;
            var carry := m.state == FirstName && negated;
            Run(m, TermText(Group(prefix, ch, trail))) ==
            if TermReadable(Group(prefix, ch, trail)) then
              At(Machine(Closed(m.stack, wrap, ChainNode(ch, carry)), Operator, "", ' ', false))
            else Failed
    decreases ch, 1
  {
    var negated := m.shouldNegate != Odd(prefix);
    var wrap := m.state == AfterOperator && negated;
    var carry := m.state == FirstName && negated;
    var inner := m.stack + [Paren(Nil, wrap)];
    var text := ChainText(ch) + (trail + ")");
    RunPrefix(m, prefix);
    RunAppend(m, prefix, "(" + text);
    var m1 := m.(shouldNegate := negated);
    assert Step(m1, '(') == At(Start(inner, carry, m.wanted));
    assert ("(" + text)[1..] == text;
    RunAppend(Start(inner, carry, m.wanted), ChainText(ch), trail + ")");
    RunChain(ch, inner, carry, m.wanted);
    RunClosing(ch, m.stack, wrap, carry, m.wanted, trail);
  }

  lemma {:induction false} RunLiteral(m: Machine, prefix: string, name: string)
    requires TermOk(Name(prefix, name)) && m.buffer == ""
    requires m.state == FirstName || (m.state == AfterOperator && m.stack != [])
    ensures Run(m, TermText(Name(prefix, name))) ==
            At(Machine(m.stack, if m.state == FirstName then FirstName else NextName, name, m.wanted,
                       m.shouldNegate != Odd(prefix)))
  {
    RunPrefix(m, prefix);
    RunAppend(m, prefix, name);
    var m1 := m.(shouldNegate := m.shouldNegate != Odd(prefix));
    if m.state == FirstName {
      RunName(m1, name);
    } else {
      var m2 := m1.(state := NextName);
      RunName(m2, name);
      assert Step(m1, name[0]) == Step(m2, name[0]);
    }
    assert m.buffer + name == name;
  }

  lemma ClosedAfterOperator(stack: seq<Node>, open: Node, negated: bool, node: Node)
    requires IsOpen(open)
    ensures Closed(stack + [open], negated, node) == stack + [WithRight(open, if negated then Negate(node) else node)]
  {
  }

  // A chain's text takes the machine exactly to After, or fails.
  lemma {:induction false} RunChain(ch: Chain, stack: seq<Node>, carry: bool, wanted: char)
    requires ChainOk(ch) && FreshStack(stack)
    ensures Run(Start(stack, carry, wanted), ChainText(ch)) ==
            if ChainReadable(ch) then At(After(ch, stack, carry, wanted)) else Failed
    decreases ch, 0
  {
    var m := Start(stack, carry, wanted);
    match ch
    case First(Name(prefix, name)) => RunLiteral(m, prefix, name);
    case First(Group(prefix, inner, trail)) =>
      RunGroup(m, prefix, inner, trail);
      assert ChainNode(ch, carry) == ChainNode(inner, carry != Odd(prefix));
      assert ChainReadable(ch) == TermReadable(Group(prefix, inner, trail));
    case Then(rest, gap, isAnd, t) =>
      var operator := gap + [OpChar(isAnd), OpChar(isAnd)];
      RunChain(rest, stack, carry, wanted);
      RunAppend(m, ChainText(rest), operator + TermText(t));
      RunOperator(rest, stack, carry, wanted, gap, isAnd);
      RunAppend(After(rest, stack, carry, wanted), operator, TermText(t));
      RunNextTerm(rest, gap, isAnd, t, stack, carry, wanted);
  }

  lemma {:induction false} RunNextTerm(rest: Chain, gap: string, isAnd: bool, t: Term, stack: seq<Node>, carry: bool,
                                       wanted: char)
    requires TermOk(t)
    ensures var o := OpChar(isAnd);
            Run(Machine(stack + [OpNode(o, ChainNode(rest, carry))], AfterOperator, "", o, false), TermText(t)) ==
            if TermReadable(t) then At(After(Then(rest, gap, isAnd, t), stack, carry, wanted)) else Failed
    decreases t, 2
  {
    var o := OpChar(isAnd);
    var open := OpNode(o, ChainNode(rest, carry));
    var m := Machine(stack + [open], AfterOperator, "", o, false);
    match t
    case Name(prefix, name) => RunLiteral(m, prefix, name);
    case Group(prefix, inner, trail) =>
      RunGroup(m, prefix, inner, trail);
      ClosedAfterOperator(stack, open, Odd(prefix), ChainNode(inner, false));
      assert ChainNode(Then(rest, gap, isAnd, t), carry) == WithRight(open, TermNode(t));
  }

  // ----- The results

  // What the parser makes of an expression, blanks at its end included: the
  // tree, or an error exactly when some bracket cannot be closed.
  lemma {:induction false} ParseText(ch: Chain, trail: string)
    requires ChainOk(ch) && Blanks(trail)
    ensures Parse(ChainText(ch) + trail) == if ChainReadable(ch) then Parsed(ChainNode(ch, false)) else ParseError
  {
    RunAppend(INITIAL, ChainText(ch), trail);
    RunChain(ch, [], false, ' ');
    var m := After(ch, [], false, ' ');
    if trail != "" {
      assert trail[0] in trail;
      EndOfChain(ch, [], false, ' ', trail[0]);
      RunBlanks(Machine([] + [ChainNode(ch, false)], Operator, "", ' ', false), trail[1..]);
      RunAppend(m, [trail[0]], trail[1..]);
      assert trail == [trail[0]] + trail[1..];
    }
  }

  // The value with the negations where the parser puts them.
  predicate CarriedValue(ch: Chain, carry: bool, vars: map<string, bool>) {
    match ch
    case First(Name(prefix, name)) => carry != (Odd(prefix) != IsSet(vars, name))
    case First(Group(prefix, inner, _)) => CarriedValue(inner, carry != Odd(prefix), vars)
    case Then(rest, _, isAnd, t) =>
      var value := match t
        case Name(prefix, name) => Odd(prefix) != IsSet(vars, name)
        case Group(prefix, inner, _) => Odd(prefix) != CarriedValue(inner, false, vars);
      if isAnd then CarriedValue(rest, carry, vars) && value else CarriedValue(rest, carry, vars) || value
  }

  lemma {:induction false} EvalIsCarriedValue(ch: Chain, carry: bool, vars: map<string, bool>)
    ensures Complete(ChainNode(ch, carry))
    ensures Eval(ChainNode(ch, carry), vars) == CarriedValue(ch, carry, vars)
  {
    match ch
    case First(Name(prefix, name)) =>
      assert ChainNode(ch, carry) == Literal(name, carry != Odd(prefix));
    case First(Group(prefix, inner, _)) =>
      EvalIsCarriedValue(inner, carry != Odd(prefix), vars);
      assert ChainNode(ch, carry) == ChainNode(inner, carry != Odd(prefix));
    case Then(rest, _, isAnd, t) =>
      EvalIsCarriedValue(rest, carry, vars);
      match t {
        case Name(prefix, name) =>
          assert Complete(TermNode(t)) && Eval(TermNode(t), vars) == (Odd(prefix) != IsSet(vars, name));
        case Group(prefix, inner, _) =>
          EvalIsCarriedValue(inner, false, vars);
          assert Complete(TermNode(t));
          assert Eval(TermNode(t), vars) == (Odd(prefix) != CarriedValue(inner, false, vars));
      }
  }

  // No bracket at the start of a chain has a negation in front of it.
  predicate NoLeadingNegation(ch: Chain) {
    match ch
    case First(t) => t.Group? ==> !Odd(t.prefix) && NoLeadingNegation(t.chain)
    case Then(rest, _, _, t) => NoLeadingNegation(rest) && (t.Group? ==> NoLeadingNegation(t.chain))
  }

  lemma {:induction false} CarriedIsValue(ch: Chain, vars: map<string, bool>)
    requires NoLeadingNegation(ch)
    ensures CarriedValue(ch, false, vars) == Value(ch, vars)
  {
    match ch
    case First(t) =>
      if t.Group? {
        CarriedIsValue(t.chain, vars);
      }
    case Then(rest, _, _, t) =>
      CarriedIsValue(rest, vars);
      if t.Group? {
        CarriedIsValue(t.chain, vars);
      }
  }

  // Parsing an expression's text and evaluating the tree gives its meaning.
  lemma {:induction false} ParsedMeaning(ch: Chain, trail: string, vars: map<string, bool>)
    requires ChainOk(ch) && Blanks(trail) && ChainReadable(ch)
    ensures var r := Parse(ChainText(ch) + trail);
            && r.Parsed? && Complete(r.node)
            && Eval(r.node, vars) == CarriedValue(ch, false, vars)
            && (NoLeadingNegation(ch) ==> Eval(r.node, vars) == Value(ch, vars))
  {
    ParseText(ch, trail);
    EvalIsCarriedValue(ch, false, vars);
    if NoLeadingNegation(ch) {
      CarriedIsValue(ch, vars);
    }
  }

  // a && b in brackets, negated.
  const AND: Chain := Then(First(Name("", "a")), " ", true, Name(" ", "b"))
  const NEGATED: Chain := First(Group("!", AND, ""))

  // !(a && b) is read as !a && b, which is false where !(a && b) is true.
  lemma {:induction false} LeadingNegationMisread()
    ensures ChainOk(NEGATED) && ChainReadable(NEGATED) && ChainText(NEGATED) == "!(a && b)"
    ensures Value(NEGATED, map[])
    ensures var r := Parse(ChainText(NEGATED));
            r.Parsed? && Complete(r.node) && !Eval(r.node, map[])
  {
    NegatedText();
    NegatedValue();
    CarriedIsParsed(NEGATED, map[]);
  }

  lemma CarriedIsParsed(ch: Chain, vars: map<string, bool>)
    requires ChainOk(ch) && ChainReadable(ch)
    ensures var r := Parse(ChainText(ch));
            r.Parsed? && Complete(r.node) && Eval(r.node, vars) == CarriedValue(ch, false, vars)
  {
    ParsedMeaning(ch, "", vars);
    assert ChainText(ch) + "" == ChainText(ch);
  }

  lemma NegatedText()
    ensures ChainOk(NEGATED) && ChainReadable(NEGATED) && ChainText(NEGATED) == "!(a && b)"
  {
    assert Odd("!") && !Odd(" ") by {
      assert "!"[..0] == "" && " "[..0] == "";
    }
    assert ChainText(First(Name("", "a"))) == "a" && TermText(Name(" ", "b")) == " b";
    assert ChainText(AND) == "a" + ((" " + ['&', '&']) + " b") == "a && b";
    assert ChainText(NEGATED) == TermText(NEGATED.term) == "!(a && b)";
  }

  lemma NegatedValue()
    ensures Value(NEGATED, map[]) && !CarriedValue(NEGATED, false, map[])
  {
    assert Odd("!") by {
      assert "!"[..0] == "";
    }
    assert !CarriedValue(AND, true, map[]) && !Value(AND, map[]);
  }

  // A closing bracket without an opening one crashes the parser, wherever it
  // could have closed a chain.
  lemma {:induction false} UnmatchedBracketCrashes(ch: Chain, rest: string)
    requires ChainOk(ch) && ChainReadable(ch) && Closable(ch, "")
    ensures Parse(ChainText(ch) + ([')'] + rest)) == Crash
  {
    RunAppend(INITIAL, ChainText(ch), [')'] + rest);
    RunChain(ch, [], false, ' ');
    assert Step(After(ch, [], false, ' '), ')') == Panicked;
  }
}
