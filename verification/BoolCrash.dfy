// For which texts the expression parser crashes, and for which it returns a tree
// that crashes when it is evaluated.
module BoolCrash {
  import opened Seqs
  import opened BoolParser

  // What lies below the node in work: every open bracket, with the operator in
  // front of it where there is one.
  predicate IsBase(stack: seq<Node>) {
    forall i | 0 <= i < |stack| && !stack[i].Paren? ::
      IsOpen(stack[i]) && i + 1 < |stack| && stack[i + 1].Paren?
  }

  function Parens(stack: seq<Node>): nat {
    if stack == [] then 0 else Parens(DropLast(stack)) + if stack[|stack| - 1].Paren? then 1 else 0
  }

  predicate Shaped(m: Machine) {
    match m.state
    case FirstName => IsBase(m.stack)
    case Operator => m.stack != [] && !m.stack[|m.stack| - 1].Paren? && IsBase(DropLast(m.stack))
    case _ => m.stack != [] && IsOpen(m.stack[|m.stack| - 1]) && IsBase(DropLast(m.stack))
  }

  function DepthChange(c: char): int {
    if c == '(' then 1 else if c == ')' then -1 else 0
  }

  // The open brackets of a text.
  function Depth(s: string): int {
    if s == "" then 0 else Depth(DropLast(s)) + DepthChange(s[|s| - 1])
  }

  // A closing bracket behind an operator, with no bracket open.
  predicate Overcloses(m: Machine, c: char) {
    c == ')' && (m.state == AfterOperator || m.state == NextName) && |m.stack| == 1
  }

  lemma ParensOneMore(stack: seq<Node>, n: Node)
    ensures Parens(stack + [n]) == Parens(stack) + if n.Paren? then 1 else 0
  {
  }

  lemma PushParen(stack: seq<Node>, n: Node)
    requires n.Paren?
    requires IsBase(stack) || (stack != [] && IsOpen(stack[|stack| - 1]) && IsBase(DropLast(stack)))
    ensures IsBase(stack + [n])
  {
  }

  // What stands below the innermost open bracket.
  lemma BelowParen(base: seq<Node>)
    requires IsBase(base) && base != []
    ensures var n := |base|;
            && base[n - 1].Paren? && base == base[..n - 1] + [base[n - 1]]
            && if n > 1 && IsOpen(base[n - 2]) then
                 base[..n - 1] == base[..n - 2] + [base[n - 2]] && IsBase(base[..n - 2])
               else IsBase(base[..n - 1])
  {
  }

  // The closing bracket finds its Paren, unless nothing is open.
  lemma {:induction false} ClosesOne(base: seq<Node>, top: Node, m: Machine)
    requires IsBase(base) && !top.Paren? && m.stack == base + [top] && m.state == Operator
    ensures if base == [] then CloseParen(m) == Panicked
            else && CloseParen(m).At? && Shaped(CloseParen(m).machine)
                 && Parens(CloseParen(m).machine.stack) == Parens(base) - 1
  {
    if base != [] {
      BelowParen(base);
      var n := |base|;
      var paren := base[n - 1];
      assert m.stack[n - 1] == paren && m.stack[n] == top;
      var node := if paren.negated then Negate(top) else top;
      ParensOneMore(base[..n - 1], paren);
      if n > 1 && IsOpen(base[n - 2]) {
        assert m.stack[n - 2] == base[n - 2] && m.stack[..n - 2] == base[..n - 2];
        ParensOneMore(base[..n - 2], base[n - 2]);
        Appended(base[..n - 2], WithRight(base[n - 2], node));
      } else {
        assert m.stack[..n - 1] == base[..n - 1] && (n > 1 ==> m.stack[n - 2] == base[n - 2]);
        Appended(base[..n - 1], node);
      }
    }
  }

  lemma Appended(base: seq<Node>, n: Node)
    requires !n.Paren?
    ensures DropLast(base + [n]) == base && Parens(base + [n]) == Parens(base)
  {
  }

  // One character keeps the shape and counts its bracket; it panics exactly where
  // it closes a bracket that is not open.
  ghost predicate KeepsShape(m: Machine, c: char, next: Progress) {
    match next
    case At(n) => Shaped(n) && Parens(n.stack) == Parens(m.stack) + DepthChange(c) && !Overcloses(m, c)
    case Failed => !Overcloses(m, c)
    case Panicked => Overcloses(m, c) && Parens(m.stack) == 0
  }

  lemma FirstNameKeepsShape(m: Machine, c: char)
    requires Shaped(m) && m.state == FirstName
    ensures KeepsShape(m, c, StepFirstName(m, c))
  {
    if c == '(' {
      PushParen(m.stack, Paren(Nil, false));
      ParensOneMore(m.stack, Paren(Nil, false));
    } else if IsOperator(c) || (IsBlank(c) && m.buffer != "") {
      FirstNameEnds(m, c);
    }
  }

  lemma FirstNameEnds(m: Machine, c: char)
    requires Shaped(m) && m.state == FirstName && (IsOperator(c) || (IsBlank(c) && m.buffer != ""))
    ensures KeepsShape(m, c, StepFirstName(m, c))
  {
    Appended(m.stack, Literal(m.buffer, m.shouldNegate));
  }

  lemma OperatorKeepsShape(m: Machine, c: char)
    requires Shaped(m) && m.state == Operator
    ensures KeepsShape(m, c, StepOperator(m, c))
  {
  }

  lemma NextNameKeepsShape(m: Machine, c: char)
    requires Shaped(m) && (m.state == AfterOperator || m.state == NextName)
    ensures KeepsShape(m, c, StepNextName(m.(state := NextName), c))
  {
    var base, top := DropLast(m.stack), m.stack[|m.stack| - 1];
    assert m.stack == base + [top];
    if c == ')' {
      ClosingKeepsShape(m, base, top);
    } else if IsBlank(c) || IsOperator(c) {
      EndOfNameKeepsShape(m, base, top, c);
    } else {
      LetterKeepsShape(m, c);
    }
  }

  lemma LetterKeepsShape(m: Machine, c: char)
    requires Shaped(m) && (m.state == AfterOperator || m.state == NextName)
    requires c != ')' && !IsBlank(c) && !IsOperator(c)
    ensures KeepsShape(m, c, StepNextName(m.(state := NextName), c))
  {
  }

  lemma EndOfNameKeepsShape(m: Machine, base: seq<Node>, top: Node, c: char)
    requires m.stack == base + [top] && IsBase(base) && IsOpen(top) && (m.state == AfterOperator || m.state == NextName)
    requires IsBlank(c) || IsOperator(c)
    ensures KeepsShape(m, c, StepNextName(m.(state := NextName), c))
  {
  }

  lemma ClosingKeepsShape(m: Machine, base: seq<Node>, top: Node)
    requires m.stack == base + [top] && IsBase(base) && IsOpen(top) && (m.state == AfterOperator || m.state == NextName)
    ensures KeepsShape(m, ')', StepNextName(m.(state := NextName), ')'))
  {
    var node := WithRight(top, Literal(m.buffer, m.shouldNegate));
    Appended(base, top);
    Appended(base, node);
    assert DropLast(m.stack) == base && m.stack[|m.stack| - 1] == top;
    var next := Machine(base + [node], Operator, "", ' ', false);
    ClosesOne(base, node, next);
    assert StepNextName(m.(state := NextName), ')') == CloseParen(next);
  }

  lemma AfterOperatorKeepsShape(m: Machine, c: char)
    requires Shaped(m) && m.state == AfterOperator
    ensures KeepsShape(m, c, StepAfterOperator(m, c))
  {
    PushParen(m.stack, Paren(Nil, m.shouldNegate));
    ParensOneMore(m.stack, Paren(Nil, m.shouldNegate));
    NextNameKeepsShape(m, c);
  }

  lemma {:induction false} StepKeepsShape(m: Machine, c: char)
    requires Shaped(m)
    ensures KeepsShape(m, c, Step(m, c))
  {
    match m.state
    case FirstName => FirstNameKeepsShape(m, c);
    case Operator => OperatorKeepsShape(m, c);
    case AfterOperator => AfterOperatorKeepsShape(m, c);
    case NextName => NextNameKeepsShape(m, c); assert m.(state := NextName) == m;
  }

  lemma DepthOneMore(s: string, i: nat)
    requires i < |s|
    ensures Depth(s[..i + 1]) == Depth(s[..i]) + DepthChange(s[i])
  {
    assert DropLast(s[..i + 1]) == s[..i];
  }

  lemma RunOneMore(s: string, i: nat)
    requires i < |s|
    ensures Run(INITIAL, s[..i + 1]) == match Run(INITIAL, s[..i]) case At(m) => Step(m, s[i]) case stopped => stopped
  {
    TakeOneMore(s, i);
    RunAppend(INITIAL, s[..i], [s[i]]);
    assert [s[i]][1..] == "";
    forall m: Machine ensures Run(m, [s[i]]) == Step(m, s[i]) {
      match Step(m, s[i]) case At(next) => assert Run(next, "") == At(next); case _ =>
    }
  }

  // The parser panics on the i-th character.
  ghost predicate PanicsAt(s: string, i: nat)
    requires i < |s|
  {
    match Run(INITIAL, s[..i])
    case At(m) => Overcloses(m, s[i])
    case _ => false
  }

  lemma PrefixStep(s: string, i: nat, m: Machine)
    requires i < |s| && Run(INITIAL, s[..i]) == At(m) && Shaped(m) && Parens(m.stack) == Depth(s[..i])
    ensures match Step(m, s[i]) case At(next) => Shaped(next) && Parens(next.stack) == Depth(s[..i + 1]) case _ => true
    ensures Step(m, s[i]) == Panicked <==> PanicsAt(s, i)
    ensures PanicsAt(s, i) ==> Depth(s[..i]) == 0
  {
    StepKeepsShape(m, s[i]);
    DepthOneMore(s, i);
  }

  // Over a prefix, the machine is in shape with as many Parens as brackets are
  // open, or it has failed, or it has panicked somewhere.
  lemma {:induction false} PrefixRun(s: string, n: nat)
    requires n <= |s|
    ensures match Run(INITIAL, s[..n])
            case At(m) => Shaped(m) && Parens(m.stack) == Depth(s[..n])
            case Failed => true
            case Panicked => exists i :: 0 <= i < n && PanicsAt(s, i)
    ensures Run(INITIAL, s[..n]) != Panicked ==> forall i | 0 <= i < n :: !PanicsAt(s, i)
    ensures forall i | 0 <= i < n && PanicsAt(s, i) :: Depth(s[..i]) == 0
  {
    PrefixShape(s, n);
    if Run(INITIAL, s[..n]) == Panicked {
      var i := PanickedSomewhere(s, n);
    }
    forall i | 0 <= i < n && PanicsAt(s, i) ensures Run(INITIAL, s[..n]) == Panicked && Depth(s[..i]) == 0 {
      StaysPanicked(s, i, n);
    }
  }

  lemma {:induction false} PrefixShape(s: string, n: nat)
    requires n <= |s|
    ensures match Run(INITIAL, s[..n]) case At(m) => Shaped(m) && Parens(m.stack) == Depth(s[..n]) case _ => true
  {
    if n == 0 {
      assert s[..0] == "";
    } else {
      PrefixShape(s, n - 1);
      RunOneMore(s, n - 1);
      match Run(INITIAL, s[..n - 1]) {
        case At(m) => PrefixStep(s, n - 1, m);
        case _ =>
      }
    }
  }

  lemma {:induction false} PanickedSomewhere(s: string, n: nat) returns (i: nat)
    requires n <= |s| && Run(INITIAL, s[..n]) == Panicked
    ensures i < n && PanicsAt(s, i)
  {
    assert s[..0] == "" && Run(INITIAL, "") == At(INITIAL);
    LastPanics(s, n - 1);
    if PanicsAt(s, n - 1) {
      return n - 1;
    }
    i := PanickedSomewhere(s, n - 1);
  }

  lemma {:induction false} StaysPanicked(s: string, i: nat, n: nat)
    requires i < n <= |s| && PanicsAt(s, i)
    ensures Run(INITIAL, s[..n]) == Panicked && Depth(s[..i]) == 0
  {
    LastPanics(s, n - 1);
    if i < n - 1 {
      StaysPanicked(s, i, n - 1);
    }
  }

  lemma LastPanics(s: string, i: nat)
    requires i < |s|
    ensures Run(INITIAL, s[..i + 1]) == Panicked <==> Run(INITIAL, s[..i]) == Panicked || PanicsAt(s, i)
    ensures PanicsAt(s, i) ==> Depth(s[..i]) == 0
  {
    PrefixShape(s, i);
    RunOneMore(s, i);
    match Run(INITIAL, s[..i]) {
      case At(m) => PrefixStep(s, i, m);
      case _ =>
    }
  }

  // For every text: the parser crashes if and only if it reads on to a closing
  // bracket behind an operator while no bracket is open, and a text in which no
  // prefix closes more brackets than it opens never crashes it.
  lemma {:induction false} CrashesExactly(s: string)
    ensures Parse(s) == Crash <==> exists i :: 0 <= i < |s| && PanicsAt(s, i)
    ensures (forall i | 0 <= i <= |s| :: Depth(s[..i]) >= 0) ==> Parse(s) != Crash
  {
    TakeAll(s);
    PrefixRun(s, |s|);
    if i :| 0 <= i < |s| && PanicsAt(s, i) {
      DepthOneMore(s, i);
      assert Depth(s[..i + 1]) == -1;
    }
  }

  // ----- Trees with holes

  // A node that waits for a part: an open bracket, or an operator without its right
  // side.
  predicate Waits(n: Node) {
    n == Paren(Nil, n.Paren? && n.negated) || (IsOpen(n) && Complete(n.left) && n.right == Nil)
  }

  // Everything on the stack waits, but for a finished node on top in front of an
  // operator.
  predicate Filled(m: Machine) {
    if m.state == Operator then
      m.buffer == "" && m.stack != [] && Complete(m.stack[|m.stack| - 1]) && AllWait(DropLast(m.stack))
    else AllWait(m.stack)
  }

  predicate AllWait(stack: seq<Node>) {
    forall i | 0 <= i < |stack| :: Waits(stack[i])
  }

  lemma ReplacedTop(stack: seq<Node>, n: Node)
    requires stack != [] && AllWait(DropLast(stack))
    ensures DropLast(DropLast(stack) + [n]) == DropLast(stack)
    ensures Complete(n) ==> Filled(Machine(DropLast(stack) + [n], Operator, "", ' ', false))
    ensures Waits(n) ==> AllWait(DropLast(stack) + [n])
  {
  }

  lemma FilledAfterName(m: Machine, c: char)
    requires m.state == NextName && m.stack != [] && AllWait(m.stack)
    ensures match StepNextName(m, c) case At(next) => Filled(next) case _ => true
  {
    var top := m.stack[|m.stack| - 1];
    if (IsBlank(c) || IsOperator(c) || c == ')') && IsOpen(top) {
      var node := WithRight(top, Literal(m.buffer, m.shouldNegate));
      var next := Machine(DropLast(m.stack) + [node], Operator, "", WantedAfterName(c), false);
      ReplacedTop(m.stack, node);
      if c == ')' {
        FilledByBracket(next);
      }
    }
  }

  lemma FilledByBracket(m: Machine)
    requires m.state == Operator && Filled(m)
    ensures match CloseParen(m) case At(next) => Filled(next) && next.state == Operator case _ => true
  {
    var top := |m.stack| - 1;
    if top > 0 && m.stack[top - 1].Paren? {
      var node := if m.stack[top - 1].negated then Negate(m.stack[top]) else m.stack[top];
      if top > 1 && IsOpen(m.stack[top - 2]) {
        assert DropLast(m.stack)[top - 2] == m.stack[top - 2];
        Shortened(m.stack, top - 2, WithRight(m.stack[top - 2], node));
        assert CloseParen(m) == At(m.(stack := m.stack[..top - 2] + [WithRight(m.stack[top - 2], node)]));
      } else {
        Shortened(m.stack, top - 1, node);
        assert CloseParen(m) == At(m.(stack := m.stack[..top - 1] + [node]));
      }
    }
  }

  lemma Shortened(stack: seq<Node>, n: nat, node: Node)
    requires n < |stack| && AllWait(DropLast(stack)) && Complete(node)
    ensures Filled(Machine(stack[..n] + [node], Operator, "", ' ', false))
  {
    assert DropLast(stack[..n] + [node]) == stack[..n];
    forall i | 0 <= i < n ensures Waits(stack[..n][i]) {
      assert stack[..n][i] == DropLast(stack)[i];
    }
  }

  lemma {:induction false} StepKeepsFilled(m: Machine, c: char)
    requires Filled(m)
    ensures match Step(m, c) case At(next) => Filled(next) case _ => true
  {
    match m.state
    case FirstName => FilledInFront(m, c);
    case Operator => ReplacedTop(m.stack, OpNode(c, m.stack[|m.stack| - 1]));
    case AfterOperator => FilledBehind(m, c);
    case NextName =>
      if m.stack != [] {
        FilledAfterName(m, c);
      }
  }

  lemma FilledInFront(m: Machine, c: char)
    requires Filled(m) && m.state == FirstName
    ensures match StepFirstName(m, c) case At(next) => Filled(next) case _ => true
  {
    assert DropLast(m.stack + [Literal(m.buffer, m.shouldNegate)]) == m.stack;
  }

  lemma FilledBehind(m: Machine, c: char)
    requires Filled(m) && m.state == AfterOperator
    ensures match StepAfterOperator(m, c) case At(next) => Filled(next) case _ => true
  {
    if m.stack != [] {
      FilledAfterName(m.(state := NextName), c);
    }
  }

  lemma {:induction false} RunKeepsFilled(m: Machine, s: string)
    requires Filled(m)
    ensures match Run(m, s) case At(next) => Filled(next) case _ => true
    decreases |s|
  {
    if s != "" {
      StepKeepsFilled(m, s[0]);
      match Step(m, s[0]) {
        case At(next) => RunKeepsFilled(next, s[1..]);
        case _ =>
      }
    }
  }

  // The text ends in an odd number of operator characters.
  predicate EndsHalfway(s: string) {
    s != "" && IsOperator(s[|s| - 1]) && !EndsHalfway(DropLast(s))
  }

  // A name or a bracket would have to follow: without the blanks, negations and
  // opening brackets at its end, the text is empty, or ends in an even number of
  // operator characters, but not in none.
  predicate EndsOpen(s: string) {
    if s == "" then true
    else
      var c := s[|s| - 1];
      if IsOperator(c) then EndsHalfway(DropLast(s))
      else (IsBlank(c) || c == '!' || c == '(') && EndsOpen(DropLast(s))
  }

  // The state in which the machine stands behind a text can be seen from its end.
  predicate Seen(m: Machine, open: bool, halfway: bool) {
    && (m.state == Operator || m.state == AfterOperator ==> m.buffer == "")
    && (m.state == NextName ==> m.buffer != "")
    && (open <==> m.state != Operator && m.buffer == "")
    && (halfway <==> m.state == Operator && m.wanted != ' ')
  }

  lemma StepSeen(m: Machine, c: char, open: bool, halfway: bool)
    requires Seen(m, open, halfway)
    ensures match Step(m, c)
            case At(next) =>
              if IsOperator(c) then Seen(next, halfway, !halfway)
              else Seen(next, (IsBlank(c) || c == '!' || c == '(') && open, false)
            case _ => true
  {
    match m.state
    case FirstName =>
    case Operator =>
    case AfterOperator =>
    case NextName =>
  }

  lemma {:induction false} RunSeen(s: string, n: nat)
    requires n <= |s|
    ensures match Run(INITIAL, s[..n]) case At(m) => Seen(m, EndsOpen(s[..n]), EndsHalfway(s[..n])) case _ => true
  {
    if n == 0 {
      assert s[..0] == "";
    } else {
      RunSeen(s, n - 1);
      RunOneMore(s, n - 1);
      assert DropLast(s[..n]) == s[..n - 1];
      match Run(INITIAL, s[..n - 1]) {
        case At(m) => StepSeen(m, s[n - 1], EndsOpen(s[..n - 1]), EndsHalfway(s[..n - 1]));
        case _ =>
      }
    }
  }

  lemma FinishIs(m: Machine)
    requires Filled(m) && Finish(m).Parsed?
    ensures Complete(Finish(m).node) <==> m.buffer != "" || m.state == Operator
  {
    if m.state != Operator && m.stack != [] {
      var n := m.stack[0];
      assert Waits(n) && !Complete(n);
      assert IsOpen(n) ==> Complete(WithRight(n, Literal(m.buffer, m.shouldNegate)));
    }
  }

  // For every text that parses: the tree can be evaluated if and only if nothing
  // has to follow the text.
  lemma {:induction false} CompleteExactly(s: string)
    requires Parse(s).Parsed?
    ensures Complete(Parse(s).node) <==> !EndsOpen(s)
  {
    RunKeepsFilled(INITIAL, s);
    RunSeen(s, |s|);
    TakeAll(s);
    match Run(INITIAL, s)
    case At(m) => FinishIs(m);
    case _ =>
  }

  // For instance `a &&` parses, to a tree without a right side.
  lemma {:induction false} MissingOperandPasses()
    ensures Parse("a &&") == Parsed(And(Var("a"), Nil)) && EndsOpen("a &&")
  {
    var named, done := Machine([], FirstName, "a", ' ', false), Machine([Var("a")], Operator, "", ' ', false);
    var half, open := done.(wanted := '&'), Machine([And(Var("a"), Nil)], AfterOperator, "", '&', false);
    assert DropLast(half.stack) + [And(Var("a"), Nil)] == open.stack && [] + [Var("a")] == done.stack;
    assert Step(INITIAL, 'a') == At(named) && Step(named, ' ') == At(done);
    assert Step(done, '&') == At(half) && Step(half, '&') == At(open);
    RunFour(INITIAL, 'a', ' ', '&', '&', named, done, half, open);
    assert DropLast("a &&") == "a &" && DropLast("a &") == "a ";
  }

  lemma RunFour(m: Machine, a: char, b: char, c: char, d: char, m1: Machine, m2: Machine, m3: Machine, m4: Machine)
    requires Step(m, a) == At(m1) && Step(m1, b) == At(m2) && Step(m2, c) == At(m3) && Step(m3, d) == At(m4)
    ensures Run(m, [a, b, c, d]) == At(m4)
  {
    assert [a, b, c, d][1..] == [b, c, d] && [b, c, d][1..] == [c, d] && [c, d][1..] == [d] && [d][1..] == [];
    assert Run(m3, [d]) == At(m4) && Run(m2, [c, d]) == At(m4) && Run(m1, [b, c, d]) == At(m4);
  }
}
