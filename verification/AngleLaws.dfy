/** From an angle bracket: a list of template arguments is closed by its own angle bracket and opened again from there,
    past nested lists, other brackets, arrows and operator functions. */
module AngleLaws {
  import opened Brackets
  import opened BracketScan
  import opened BracketLaws

  // ----- Other brackets within a line

  lemma {:induction false} OneLine(line: string)
    ensures Text([line]) == line && Offset([line], 0) == 0
  {
    assert Flat([line], 0) == [];
  }

  /** A pair of other brackets is found from both sides. */
  lemma {:induction false} GroupFound(line: string, i: nat, k: nat)
    requires Matching(line, i, k)
    ensures LineEnd(line, i + 1, [line[i]]) == At(k + 1) && LineStart(line, k, [line[k]]) == At(i)
  {
    hide Matching, LineEnd, LineStart, Flat;
    OneLine(line);
    MatchEnds(line, i, k);
    assert i < |line| by { InOrder(line, i, k); }
    var lines := [line];
    CloseFindsMatch(lines, 0, i, 0, k);
    SkipOpening(lines, 0, i);
    ReverseFindsMatch(lines, 0, i, 0, k);
    SkipClosing(lines, 0, k);
  }

  lemma {:induction false} InOrder(line: string, i: nat, k: nat)
    requires Matching(line, i, k)
    ensures i < k < |line| && BalancedIn(line, i + 1, k)
  {
  }

  lemma {:induction false} DroppedAbove(below: string, stack: string, a: char)
    requires Solid(stack, a)
    ensures Dropped(below + stack, a) == below + Dropped(stack, a) && Solid(Dropped(stack, a), a)
    ensures Top(Dropped(stack, a)) != a
    decreases |stack|
  {
    if Top(stack) == a {
      assert (below + stack)[..|below + stack| - 1] == below + Popped(stack);
      DroppedAbove(below, Popped(stack), a);
    }
  }

  lemma {:induction false} PoppedAbove(below: string, stack: string)
    requires stack != []
    ensures Top(below + stack) == Top(stack) && Popped(below + stack) == below + Popped(stack)
    ensures forall c :: below + stack + [c] == below + (stack + [c])
    ensures below + [] == below
  {
  }

  // ----- A stack below another one is left alone until that one is used up

  lemma {:induction false} FrameStepEnd(line: string, i: nat, below: string, stack: string) returns (s: string)
    requires i < |line| && below != [] && Solid(stack, '<')
    ensures var (r, q) := (LineEnd(line, i, stack), LineEnd(line, i, below + stack));
      || (r == q == Unclosed)
      || (r == At(i + 1) && q == LineEnd(line, i + 1, below))
      || (Solid(s, '<') && r == LineEnd(line, i + 1, s) && q == LineEnd(line, i + 1, below + s))
  {
    hide OperatorBefore, Dropped;
    PoppedAbove(below, stack);
    DroppedAbove(below, stack, '<');
    s := stack;
    var c := line[i];
    var d := Dropped(stack, '<');
    PoppedAbove(below, d);
    if Opens(c) {
      s := stack + [c];
    } else if Closes(c) || c == ';' {
      s := d;
      if Closes(c) && |d| > 1 { s := Popped(d); }
    } else if c == '<' {
      if i > 0 && line[i - 1] == '<' {
        if Top(stack) == '<' { s := Popped(stack); }
      } else if !(i > 0 && OperatorBefore(line[..i])) {
        s := stack + [c];
      }
    } else if c == '>' {
      if !(i > 0 && (line[i - 1] == '-' || OperatorBefore(line[..i - 1]))) && Top(stack) == '<' {
        s := Popped(stack);
      }
    }
  }

  lemma {:induction false} FrameEnd(line: string, i: nat, below: string, stack: string)
    requires i <= |line| && below != [] && Solid(stack, '<')
    ensures match LineEnd(line, i, stack)
      case At(pos) => 0 <= pos <= |line| && LineEnd(line, i, below + stack) == LineEnd(line, pos, below)
      case _ => true
    decreases |line| - i
  {
    if i < |line| {
      var s := FrameStepEnd(line, i, below, stack);
      hide LineEnd, Solid;
      if Solid(s, '<') { FrameEnd(line, i + 1, below, s); }
    }
  }

  lemma {:induction false} FrameStepStart(line: string, i: nat, below: string, stack: string)
      returns (s: string, k: nat)
    requires 0 < i <= |line| && below != [] && Solid(stack, '>')
    ensures k < i
    ensures var (r, q) := (LineStart(line, i, stack), LineStart(line, i, below + stack));
      || (r == q == Unclosed)
      || (r == At(i - 1) && q == LineStart(line, i - 1, below))
      || (Solid(s, '>') && r == LineStart(line, k, s) && q == LineStart(line, k, below + s))
  {
    hide OperatorBefore, Dropped, SpacedGreaterEqual;
    PoppedAbove(below, stack);
    DroppedAbove(below, stack, '>');
    s, k := stack, i - 1;
    var c := line[k];
    var d := Dropped(stack, '>');
    PoppedAbove(below, d);
    if Closes(c) {
      s := stack + [c];
    } else if Opens(c) || c == ';' {
      s := d;
      if Opens(c) && |d| > 1 { s := Popped(d); }
    } else if k > 0 && Skips(line, k) {
      k := k - 1;
    } else if c == '>' {
      s := stack + [c];
    } else if c == '<' && Top(stack) == '>' {
      s := Popped(stack);
    }
  }

  lemma {:induction false} FrameStart(line: string, i: nat, below: string, stack: string)
    requires i <= |line| && below != [] && Solid(stack, '>')
    ensures match LineStart(line, i, stack)
      case At(pos) => 0 <= pos <= |line| && LineStart(line, i, below + stack) == LineStart(line, pos, below)
      case _ => true
    decreases i
  {
    if i > 0 {
      var s, k := FrameStepStart(line, i, below, stack);
      hide LineStart, Solid;
      if Solid(s, '>') { FrameStart(line, k, below, s); }
    }
  }

  /** So both scans pass a pair of other brackets. */
  lemma {:induction false} GroupPassed(line: string, i: nat, k: nat, stack: string)
    requires Matching(line, i, k) && stack != []
    ensures i < k < |line|
    ensures LineEnd(line, i, stack) == LineEnd(line, k + 1, stack)
    ensures LineStart(line, k + 1, stack) == LineStart(line, i, stack)
  {
    hide Matching, LineEnd, LineStart, Solid, Strip, Opens, Closes;
    GroupFound(line, i, k);
    MatchEnds(line, i, k);
    InOrder(line, i, k);
    OneOpen(line[i]);
    OneOpen(line[k]);
    GroupPushed(line, i, k, stack);
    FrameEnd(line, i + 1, stack, [line[i]]);
    FrameStart(line, k, stack, [line[k]]);
  }

  lemma {:induction false} GroupPushed(line: string, i: nat, k: nat, stack: string)
    requires i < k < |line| && Opens(line[i]) && Closes(line[k])
    ensures LineEnd(line, i, stack) == LineEnd(line, i + 1, stack + [line[i]])
    ensures LineStart(line, k + 1, stack) == LineStart(line, k, stack + [line[k]])
  {
  }

  // ----- Lists of template arguments

  /** An angle bracket that may start such a list: no shift and no operator function. */
  ghost predicate Starts(line: string, i: nat) {
    i < |line| && line[i] == '<' && !(i > 0 && (line[i - 1] == '<' || OperatorBefore(line[..i])))
  }

  /** One that may end it, seen from the front: no arrow and no operator function. */
  ghost predicate Ends(line: string, i: nat) {
    i < |line| && line[i] == '>' && !(i > 0 && (line[i - 1] == '-' || OperatorBefore(line[..i - 1])))
  }

  /** A character that has no part in brackets: an ordinary one, or an angle bracket that can be neither. */
  ghost predicate Plain(line: string, i: nat) {
    && i < |line| && !Opens(line[i]) && !Closes(line[i]) && line[i] != ';' && !Ends(line, i)
    && (line[i] == '<' ==> !(i > 0 && line[i - 1] == '<') && !Starts(line, i))
  }

  /** The arguments from i to j: plain characters, other brackets around anything balanced, and nested lists. */
  ghost predicate Arguments(line: string, i: nat, j: nat)
    requires i <= j <= |line|
    decreases j - i, 1
  {
    i == j || (Plain(line, i) && Arguments(line, i + 1, j)) || exists k: nat :: Bracketed(line, i, k, j)
  }

  ghost predicate Bracketed(line: string, i: nat, k: nat, j: nat)
    requires i <= j <= |line|
    decreases j - i, 0
  {
    && i < k < j
    && (Matching(line, i, k) || (Starts(line, i) && Ends(line, k) && Arguments(line, i + 1, k)))
    && Arguments(line, k + 1, j)
  }

  lemma {:induction false} ListStarts(line: string, i: nat, stack: string)
    requires Starts(line, i)
    ensures LineEnd(line, i, stack) == LineEnd(line, i + 1, stack + ['<'])
  {
    hide OperatorBefore;
  }

  lemma {:induction false} ListEnds(line: string, i: nat, stack: string)
    requires Ends(line, i)
    ensures LineEnd(line, i, stack + ['<']) == if stack == [] then At(i + 1) else LineEnd(line, i + 1, stack)
  {
    hide OperatorBefore;
    assert Popped(stack + ['<']) == stack;
  }

  lemma {:induction false} PlainPassed(line: string, i: nat, stack: string)
    requires Plain(line, i)
    ensures LineEnd(line, i, stack) == LineEnd(line, i + 1, stack)
  {
    hide OperatorBefore;
  }

  /** The forward scan passes the arguments. */
  lemma {:induction false} ArgumentsPassed(line: string, i: nat, j: nat, stack: string)
    requires i <= j <= |line| && Arguments(line, i, j) && stack != []
    ensures LineEnd(line, i, stack) == LineEnd(line, j, stack)
    decreases j - i
  {
    hide LineEnd, Plain, Starts, Ends, Matching;
    if i < j {
      if Plain(line, i) && Arguments(line, i + 1, j) {
        PlainPassed(line, i, stack);
        ArgumentsPassed(line, i + 1, j, stack);
      } else {
        var k: nat :| Bracketed(line, i, k, j);
        if Matching(line, i, k) {
          GroupPassed(line, i, k, stack);
        } else {
          ListStarts(line, i, stack);
          ArgumentsPassed(line, i + 1, k, stack + ['<']);
          ListEnds(line, k, stack);
        }
        ArgumentsPassed(line, k + 1, j, stack);
      }
    }
  }

  /** CloseExpression closes a list of template arguments just after its own angle bracket. */
  lemma {:induction false} ListIsClosed(lines: Lines, l: nat, p: nat, q: nat)
    requires l < |lines| && p < q < |lines[l]| && lines[l][p + 1] != '='
    requires Starts(lines[l], p) && Arguments(lines[l], p + 1, q) && Ends(lines[l], q)
    ensures CloseSpec(lines, l, p) == Place(l, q + 1)
  {
    hide LineEnd, OperatorBefore, Matching, Arguments;
    var line := lines[l];
    NoShift(line, p, q);
    ListStarts(line, p, []);
    assert [] + ['<'] == ['<'];
    ArgumentsPassed(line, p + 1, q, ['<']);
    ListEnds(line, q, []);
  }

  lemma {:induction false} NoShift(line: string, p: nat, q: nat)
    requires p < q < |line| && Starts(line, p) && Arguments(line, p + 1, q) && Ends(line, q)
    ensures line[p + 1] != '<'
  {
    hide OperatorBefore, BalancedIn;
  }

  // ----- The same from the other end

  /** An angle bracket that may end a list, seen from behind: no arrow, no comparison and no operator function. */
  ghost predicate EndsBack(line: string, k: nat) {
    k < |line| && line[k] == '>' && (k == 0 || !Skips(line, k))
  }

  ghost predicate StartsBack(line: string, i: nat) {
    i < |line| && line[i] == '<' && (i == 0 || !Skips(line, i))
  }

  /** One ordinary character. */
  ghost predicate Ordinary(line: string, i: nat) {
    && i < |line| && !Opens(line[i]) && !Closes(line[i])
    && line[i] != ';' && line[i] != '<' && line[i] != '>'
  }

  /** The arguments seen from behind: ordinary characters, two characters passed as one operator, other brackets, and
      nested lists. */
  ghost predicate ArgumentsBack(line: string, i: nat, j: nat)
    requires i <= j <= |line|
    decreases j - i, 1
  {
    || i == j
    || (Ordinary(line, i) && ArgumentsBack(line, i + 1, j))
    || (i + 2 <= j && Skips(line, i + 1) && ArgumentsBack(line, i + 2, j))
    || exists k: nat :: BracketedBack(line, i, k, j)
  }

  ghost predicate BracketedBack(line: string, i: nat, k: nat, j: nat)
    requires i <= j <= |line|
    decreases j - i, 0
  {
    && i < k < j
    && (Matching(line, i, k) || (StartsBack(line, i) && EndsBack(line, k) && ArgumentsBack(line, i + 1, k)))
    && ArgumentsBack(line, k + 1, j)
  }

  lemma {:induction false} OnePassedBack(line: string, i: nat, stack: string)
    requires Ordinary(line, i)
    ensures LineStart(line, i + 1, stack) == LineStart(line, i, stack)
  {
  }

  lemma {:induction false} TwoPassedBack(line: string, i: nat, stack: string)
    requires i + 1 < |line| && Skips(line, i + 1)
    ensures LineStart(line, i + 2, stack) == LineStart(line, i, stack)
  {
    hide OperatorBefore, SpacedGreaterEqual;
  }

  lemma {:induction false} ListEndsBack(line: string, k: nat, stack: string)
    requires EndsBack(line, k)
    ensures LineStart(line, k + 1, stack) == LineStart(line, k, stack + ['>'])
  {
    hide OperatorBefore, SpacedGreaterEqual;
  }

  lemma {:induction false} ListStartsBack(line: string, i: nat, stack: string)
    requires StartsBack(line, i)
    ensures LineStart(line, i + 1, stack + ['>']) == if stack == [] then At(i) else LineStart(line, i, stack)
  {
    hide OperatorBefore, SpacedGreaterEqual;
    assert Popped(stack + ['>']) == stack;
  }

  lemma {:induction false} ArgumentsPassedBack(line: string, i: nat, j: nat, stack: string)
    requires i <= j <= |line| && ArgumentsBack(line, i, j) && stack != []
    ensures LineStart(line, j, stack) == LineStart(line, i, stack)
    decreases j - i
  {
    hide LineStart, Ordinary, StartsBack, EndsBack, Matching, Skips;
    if i < j {
      if Ordinary(line, i) && ArgumentsBack(line, i + 1, j) {
        ArgumentsPassedBack(line, i + 1, j, stack);
        OnePassedBack(line, i, stack);
      } else if i + 2 <= j && Skips(line, i + 1) && ArgumentsBack(line, i + 2, j) {
        ArgumentsPassedBack(line, i + 2, j, stack);
        TwoPassedBack(line, i, stack);
      } else {
        var k: nat :| BracketedBack(line, i, k, j);
        ArgumentsPassedBack(line, k + 1, j, stack);
        if Matching(line, i, k) {
          GroupPassed(line, i, k, stack);
        } else {
          ListEndsBack(line, k, stack);
          ArgumentsPassedBack(line, i + 1, k, stack + ['>']);
          ListStartsBack(line, i, stack);
        }
      }
    }
  }

  /** ReverseCloseExpression opens a list of template arguments at its own angle bracket. */
  lemma {:induction false} ListIsOpened(lines: Lines, l: nat, p: nat, q: nat)
    requires l < |lines| && p < q < |lines[l]|
    requires StartsBack(lines[l], p) && ArgumentsBack(lines[l], p + 1, q) && EndsBack(lines[l], q)
    ensures ReverseSpec(lines, l, q) == Place(l, p)
  {
    hide LineStart, Skips, Matching, ArgumentsBack;
    var line := lines[l];
    ListEndsBack(line, q, []);
    assert [] + ['>'] == ['>'];
    ArgumentsPassedBack(line, p + 1, q, ['>']);
    ListStartsBack(line, p, []);
  }

  // ----- Operator functions

  /** What counts as the name of an operator function before an angle bracket. */
  lemma {:induction false} OperatorNames()
    ensures OperatorBefore("operator") && OperatorBefore("x operator ") && !OperatorBefore("myoperator")
    ensures !OperatorBefore("operators") && !OperatorBefore("")
  {
    assert "x operator "[..10] == "x operator";
    assert "x operator"[2..] == "operator" && "myoperator"[2..] == "operator";
    assert "operators"[1..] == "perators";
  }

  lemma {:induction false} PlainRun(line: string, i: nat, j: nat)
    requires i <= j <= |line| && forall k :: i <= k < j ==> Ordinary(line, k)
    ensures Arguments(line, i, j) && forall s :: LineStart(line, j, s) == LineStart(line, i, s)
    decreases j - i
  {
    hide LineStart;
    if i < j {
      PlainRun(line, i + 1, j);
      assert Ordinary(line, i);
      forall s ensures LineStart(line, i + 1, s) == LineStart(line, i, s) { OnePassedBack(line, i, s); }
    }
  }

  lemma {:induction false} NameInList()
    ensures var line := "<operator>"; Starts(line, 0) && Ends(line, 9) && Skips(line, 9)
    ensures forall k :: 1 <= k < 9 ==> Ordinary("<operator>", k)
  {
    var line := "<operator>";
    assert line[..8] == "<operato" && line[..9][1..] == "operator";
    assert !OperatorBefore(line[..8]) && OperatorBefore(line[..9]);
  }

  /** From the front the name is looked for one character too early, so that the two scans disagree about "operator>"
      without a space: this list is closed at that bracket, but reverse closing from there finds nothing. */
  lemma {:induction false} OperatorWithoutSpace()
    ensures CloseSpec(["<operator>"], 0, 0) == Place(0, 10) && ReverseSpec(["<operator>"], 0, 9) == Place(0, -1)
  {
    hide LineStart, LineEnd, OperatorBefore, Starts, Ends, Skips, Ordinary, Arguments;
    var line := "<operator>";
    NameInList();
    PlainRun(line, 1, 9);
    PlainRun(line, 1, 8);
    ListIsClosed([line], 0, 0, 9);
    TwoPassedBack(line, 8, []);
    LoneStart(line);
    assert LineStart(line, 10, []) == More([]);
  }

  lemma {:induction false} LoneStart(line: string)
    requires |line| > 0 && line[0] == '<'
    ensures LineStart(line, 1, []) == More([])
  {
  }
}
