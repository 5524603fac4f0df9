/** From a round, square or curly bracket, closing an expression finds the balanced match, and opening it again from
    there leads back, over any number of lines: whatever the heuristics make of angle brackets in between. */
module BracketLaws {
  import opened Brackets
  import opened BracketScan

  /** The characters of the first n lines, and their number. */
  function Flat(lines: Lines, n: nat): (r: string)
    requires n <= |lines|
    ensures |r| == Offset(lines, n)
  {
    if n == 0 then [] else Flat(lines, n - 1) + lines[n - 1]
  }

  function Offset(lines: Lines, n: nat): nat
    requires n <= |lines|
  {
    if n == 0 then 0 else Offset(lines, n - 1) + |lines[n - 1]|
  }

  function Text(lines: Lines): string { Flat(lines, |lines|) }

  lemma {:induction false} OffsetsGrow(lines: Lines, l: nat, n: nat)
    requires l <= n <= |lines|
    ensures Offset(lines, l) <= Offset(lines, n)
    ensures l < n ==> Offset(lines, l) + |lines[l]| <= Offset(lines, n)
  {
    if l < n {
      OffsetsGrow(lines, l, n - 1);
    }
  }

  lemma {:induction false} FlatAt(lines: Lines, l: nat, n: nat, i: nat)
    requires l < n <= |lines| && i < |lines[l]|
    ensures Offset(lines, l) + i < |Flat(lines, n)| && Flat(lines, n)[Offset(lines, l) + i] == lines[l][i]
  {
    OffsetsGrow(lines, l, n);
    if l < n - 1 {
      FlatAt(lines, l, n - 1, i);
    }
  }

  lemma {:induction false} OffsetUnique(lines: Lines, l: nat, i: nat, m: nat, j: nat)
    requires l < |lines| && i < |lines[l]| && m < |lines| && j < |lines[m]|
    ensures Offset(lines, l) + i == Offset(lines, m) + j <==> l == m && i == j
  {
    if l < m { OffsetsGrow(lines, l, m); } else if m < l { OffsetsGrow(lines, m, l); }
  }

  // ----- Stacks with angle brackets on them

  /** A stack without the angle brackets in it. */
  function Strip(s: string, a: char): string {
    if s == [] then []
    else if s[|s| - 1] == a then Strip(s[..|s| - 1], a)
    else Strip(s[..|s| - 1], a) + [s[|s| - 1]]
  }

  /** The scan started from another bracket. */
  ghost predicate Solid(s: string, a: char) { s != [] && s[0] != a }

  lemma {:induction false} StripPushed(s: string, c: char, a: char)
    ensures Strip(s + [c], a) == if c == a then Strip(s, a) else Strip(s, a) + [c]
    ensures Solid(s, a) ==> Solid(s + [c], a)
  {
    assert (s + [c])[..|s|] == s;
  }

  lemma {:induction false} StripDropped(s: string, a: char)
    requires Solid(s, a)
    ensures var d := Dropped(s, a); Strip(d, a) == Strip(s, a) && Solid(d, a) && Top(d) != a
    decreases |s|
  {
    if Top(s) == a {
      assert |s| > 1;
      StripDropped(Popped(s), a);
    }
  }

  /** Below the top, a stack that ends in another bracket has as many brackets left as without the angles. */
  lemma {:induction false} StripPopped(s: string, a: char)
    requires Solid(s, a)
    ensures var b := Strip(s, a);
      && b != []
      && (Top(s) == a ==> |s| > 1 && b == Strip(Popped(s), a) && Solid(Popped(s), a))
      && (Top(s) != a ==> Top(b) == Top(s) && Popped(b) == Strip(Popped(s), a) && (|s| == 1 <==> |b| == 1))
      && (Top(s) != a && |s| > 1 ==> Solid(Popped(s), a))
    decreases |s|
  {
    if |s| == 1 {
      assert Popped(s) == [] && Strip([], a) == [];
    } else {
      StripPopped(Popped(s), a);
    }
  }

  // ----- Forward

  /** One step of the scan: only brackets other than angles change what the stack holds of them. */
  lemma {:induction false} StepEnd(line: string, i: nat, stack: string) returns (s: string)
    requires i < |line| && Solid(stack, '<')
    ensures var (b, c) := (Strip(stack, '<'), line[i]);
      && b != [] && Solid(s, '<')
      && if Closes(c) && !Pair(Top(b), c) then LineEnd(line, i, stack) == Unclosed
         else if Closes(c) && |b| == 1 then LineEnd(line, i, stack) == At(i + 1)
         else
           && LineEnd(line, i, stack) == LineEnd(line, i + 1, s)
           && Strip(s, '<') == if Closes(c) then Popped(b) else if Opens(c) then b + [c] else b
  {
    hide OperatorBefore, Dropped, Strip;
    StripPopped(stack, '<');
    s := stack;
    var c := line[i];
    if Opens(c) {
      StripPushed(stack, c, '<');
      s := stack + [c];
    } else if Closes(c) || c == ';' {
      StripDropped(stack, '<');
      s := Dropped(stack, '<');
      StripPopped(s, '<');
      if Closes(c) && |s| > 1 {
        s := Popped(s);
      }
    } else if c == '<' {
      if i > 0 && line[i - 1] == '<' {
        if Top(stack) == '<' { s := Popped(stack); }
      } else if !(i > 0 && OperatorBefore(line[..i])) {
        StripPushed(stack, c, '<');
        s := stack + [c];
      }
    } else if c == '>' {
      if !(i > 0 && (line[i - 1] == '-' || OperatorBefore(line[..i - 1]))) && Top(stack) == '<' {
        s := Popped(stack);
      }
    }
  }

  /** The scan of one line is a stretch of the scan of the whole text. */
  lemma {:induction false} LineEndInText(lines: Lines, l: nat, i: nat, stack: string)
    requires l < |lines| && i <= |lines[l]| && Solid(stack, '<')
    ensures Offset(lines, l) + i <= |Text(lines)| && Strip(stack, '<') != []
    ensures var (t, o) := (Text(lines), Offset(lines, l));
      match LineEnd(lines[l], i, stack)
      case At(pos) => i < pos <= |lines[l]| && FindClose(t, o + i, Strip(stack, '<')) == Found(o + pos - 1)
      case Unclosed => FindClose(t, o + i, Strip(stack, '<')) == NotFound
      case More(s) => (
        && Solid(s, '<') && o + |lines[l]| <= |t| && Strip(s, '<') != []
        && FindClose(t, o + i, Strip(stack, '<')) == FindClose(t, o + |lines[l]|, Strip(s, '<')))
    decreases |lines[l]| - i
  {
    hide Flat, Offset, Strip, Solid;
    OffsetsGrow(lines, l, |lines|);
    StripPopped(stack, '<');
    if i < |lines[l]| {
      FlatAt(lines, l, |lines|, i);
      var s := StepEnd(lines[l], i, stack);
      LineEndInText(lines, l, i + 1, s);
      hide LineEnd;
    } else {
      EndOfLine(lines[l], stack);
    }
  }

  lemma {:induction false} EndOfLine(line: string, stack: string)
    ensures LineEnd(line, |line|, stack) == More(stack) && LineStart(line, 0, stack) == More(stack)
  {
  }

  /** The place returned for a position found in the text. */
  ghost predicate PlaceOf(lines: Lines, f: Found, r: Place, past: int, none: Place) {
    match f
    case NotFound => r == none
    case Found(q) => (
      && r.line < |lines| && 0 <= r.pos - past < |lines[r.line]| && Offset(lines, r.line) + r.pos - past == q)
  }

  lemma {:induction false} CloseFromInText(lines: Lines, l: nat, i: nat, stack: string)
    requires l < |lines| && i <= |lines[l]| && Solid(stack, '<')
    ensures Offset(lines, l) + i <= |Text(lines)| && Strip(stack, '<') != []
    ensures PlaceOf(lines, FindClose(Text(lines), Offset(lines, l) + i, Strip(stack, '<')),
        CloseFrom(lines, l, i, stack), 1, Place(|lines|, -1))
    decreases |lines| - l
  {
    hide LineEnd, Flat, Strip;
    LineEndInText(lines, l, i, stack);
    match LineEnd(lines[l], i, stack) {
      case At(pos) =>
      case Unclosed =>
      case More(s) =>
        assert Offset(lines, l + 1) == Offset(lines, l) + |lines[l]|;
        if l < |lines| - 1 {
          CloseFromInText(lines, l + 1, 0, s);
        }
    }
  }

  // ----- Backward

  lemma {:induction false} OperatorEndsPlain(s: string)
    requires OperatorBefore(s)
    ensures s != [] && !Opens(s[|s| - 1]) && !Closes(s[|s| - 1])
  {
    if !IsSpace(s[|s| - 1]) {
      assert s[|s| - 1] == s[|s| - 8..][7] == 'r';
    }
  }

  /** One step of the backward scan, of one character or of two. */
  lemma {:induction false} StepStart(line: string, i: nat, stack: string) returns (s: string, k: nat)
    requires 0 < i <= |line| && Solid(stack, '>')
    ensures k < i
    ensures var (b, c) := (Strip(stack, '>'), line[i - 1]);
      && b != [] && Solid(s, '>')
      && if Opens(c) && !Pair(c, Top(b)) then LineStart(line, i, stack) == Unclosed
         else if Opens(c) && |b| == 1 then LineStart(line, i, stack) == At(i - 1)
         else
           && LineStart(line, i, stack) == LineStart(line, k, s)
           && (k == i - 1 || (k == i - 2 && !Opens(c) && !Closes(c) && !Opens(line[k]) && !Closes(line[k])))
           && Strip(s, '>') == if Opens(c) then Popped(b) else if Closes(c) then b + [c] else b
  {
    hide OperatorBefore, Dropped, SpacedGreaterEqual, Strip;
    StripPopped(stack, '>');
    s, k := stack, i - 1;
    var c := line[k];
    if Closes(c) {
      StripPushed(stack, c, '>');
      s := stack + [c];
    } else if Opens(c) || c == ';' {
      StripDropped(stack, '>');
      s := Dropped(stack, '>');
      StripPopped(s, '>');
      if Opens(c) && |s| > 1 {
        s := Popped(s);
      }
    } else if k > 0 && Skips(line, k) {
      SkippedIsPlain(line, k);
      k := k - 1;
    } else if c == '>' {
      StripPushed(stack, c, '>');
      s := stack + [c];
    } else if c == '<' && Top(stack) == '>' {
      s := Popped(stack);
    }
  }

  lemma {:induction false} LineStartInText(lines: Lines, l: nat, i: nat, stack: string)
    requires l < |lines| && i <= |lines[l]| && Solid(stack, '>')
    ensures Offset(lines, l) + i <= |Text(lines)| && Strip(stack, '>') != []
    ensures var (t, o) := (Text(lines), Offset(lines, l));
      match LineStart(lines[l], i, stack)
      case At(pos) => 0 <= pos < i && FindOpen(t, o + i, Strip(stack, '>')) == Found(o + pos)
      case Unclosed => FindOpen(t, o + i, Strip(stack, '>')) == NotFound
      case More(s) => (
        && Solid(s, '>') && Strip(s, '>') != []
        && FindOpen(t, o + i, Strip(stack, '>')) == FindOpen(t, o, Strip(s, '>')))
    decreases i
  {
    hide Flat, Offset, Strip, Solid;
    OffsetsGrow(lines, l, |lines|);
    StripPopped(stack, '>');
    if i > 0 {
      FlatAt(lines, l, |lines|, i - 1);
      var s, k := StepStart(lines[l], i, stack);
      LineStartInText(lines, l, k, s);
      if k == i - 2 { FlatAt(lines, l, |lines|, k); }
      hide LineStart;
    } else {
      EndOfLine(lines[l], stack);
    }
  }

  /** The backward scan takes the angle bracket at k and the character before it in one step. */
  ghost predicate Skips(line: string, k: nat)
    requires 0 < k < |line|
  {
    || (line[k] == '>' && (line[k - 1] == '-' || SpacedGreaterEqual(line, k - 1) || OperatorBefore(line[..k])))
    || (line[k] == '<' && line[k - 1] == '<')
  }

  lemma {:induction false} SkippedIsPlain(line: string, k: nat)
    requires 0 < k < |line| && Skips(line, k)
    ensures !Opens(line[k - 1]) && !Closes(line[k - 1])
  {
    hide OperatorBefore;
    if OperatorBefore(line[..k]) {
      OperatorEndsPlain(line[..k]);
    }
  }

  lemma {:induction false} OpenFromInText(lines: Lines, l: nat, i: nat, stack: string)
    requires l < |lines| && i <= |lines[l]| && Solid(stack, '>')
    ensures Offset(lines, l) + i <= |Text(lines)| && Strip(stack, '>') != []
    ensures PlaceOf(lines, FindOpen(Text(lines), Offset(lines, l) + i, Strip(stack, '>')),
        OpenFrom(lines, l, i, stack), 0, Place(0, -1))
    decreases l
  {
    hide LineStart, Flat, Strip;
    LineStartInText(lines, l, i, stack);
    match LineStart(lines[l], i, stack) {
      case At(pos) =>
      case Unclosed =>
      case More(s) =>
        if l > 0 {
          assert Offset(lines, l) == Offset(lines, l - 1) + |lines[l - 1]|;
          OpenFromInText(lines, l - 1, |lines[l - 1]|, s);
        }
    }
  }

  // ----- The two directions

  /** The characters at two places are a pair of brackets around a balanced text. */
  ghost predicate Match(lines: Lines, l: nat, i: nat, m: nat, j: nat)
    requires l < |lines| && i < |lines[l]| && m < |lines| && j < |lines[m]|
  {
    Matching(Text(lines), Offset(lines, l) + i, Offset(lines, m) + j)
  }

  /** CloseExpression lands just after a bracket exactly when that bracket is the balanced match. */
  lemma {:induction false} CloseFindsMatch(lines: Lines, l: nat, i: nat, m: nat, j: nat)
    requires l < |lines| && i < |lines[l]| && m < |lines| && j < |lines[m]| && Opens(lines[l][i])
    ensures CloseSpec(lines, l, i) == Place(m, j + 1) <==> Match(lines, l, i, m, j)
  {
    hide Flat, Offset, Strip, OperatorBefore, Matching, FindClose;
    var t, p, q, c := Text(lines), Offset(lines, l) + i, Offset(lines, m) + j, lines[l][i];
    FlatAt(lines, l, |lines|, i);
    FlatAt(lines, m, |lines|, j);
    OneOpen(c);
    CloseFromInText(lines, l, i + 1, [c]);
    SkipOpening(lines, l, i);
    CloseIsMatching(t, p, q);
    var r := CloseFrom(lines, l, i + 1, [c]);
    if FindClose(t, p + 1, [c]).Found? {
      OffsetUnique(lines, r.line, r.pos - 1, m, j);
    }
  }

  lemma {:induction false} OneOpen(c: char)
    requires Opens(c) || Closes(c)
    ensures Solid([c], '<') && Solid([c], '>') && Strip([c], '<') == [c] && Strip([c], '>') == [c]
  {
    assert [c][..0] == [];
  }

  lemma {:induction false} SkipOpening(lines: Lines, l: nat, i: nat)
    requires l < |lines| && i < |lines[l]| && Opens(lines[l][i])
    ensures CloseSpec(lines, l, i) == CloseFrom(lines, l, i + 1, [lines[l][i]])
  {
    assert [] + [lines[l][i]] == [lines[l][i]];
  }

  /** ReverseCloseExpression lands on a bracket exactly when that bracket is the balanced match. */
  lemma {:induction false} ReverseFindsMatch(lines: Lines, l: nat, i: nat, m: nat, j: nat)
    requires l < |lines| && i < |lines[l]| && m < |lines| && j < |lines[m]| && Closes(lines[m][j])
    ensures ReverseSpec(lines, m, j) == Place(l, i) <==> Match(lines, l, i, m, j)
  {
    hide Flat, Offset, Strip, OperatorBefore, Matching, FindOpen;
    var t, p, q, c := Text(lines), Offset(lines, l) + i, Offset(lines, m) + j, lines[m][j];
    FlatAt(lines, l, |lines|, i);
    FlatAt(lines, m, |lines|, j);
    OneOpen(c);
    OpenFromInText(lines, m, j, [c]);
    SkipClosing(lines, m, j);
    OpenIsMatching(t, p, q);
    var r := OpenFrom(lines, m, j, [c]);
    if FindOpen(t, q, [c]).Found? {
      OffsetUnique(lines, r.line, r.pos, l, i);
    }
  }

  lemma {:induction false} SkipClosing(lines: Lines, l: nat, i: nat)
    requires l < |lines| && i < |lines[l]| && Closes(lines[l][i])
    ensures ReverseSpec(lines, l, i) == OpenFrom(lines, l, i, [lines[l][i]])
  {
    assert [] + [lines[l][i]] == [lines[l][i]];
  }

  lemma {:induction false} MatchEnds(s: string, p: nat, q: nat)
    requires Matching(s, p, q)
    ensures q < |s| && Opens(s[p]) && Closes(s[q])
  {
  }

  /** Closing from an opening bracket and reverse closing from the bracket found are inverse to each other. */
  lemma {:induction false} ReverseUndoesClose(lines: Lines, l: nat, i: nat, m: nat, j: nat)
    requires l < |lines| && i < |lines[l]| && m < |lines| && j < |lines[m]|
    ensures Opens(lines[l][i]) && CloseSpec(lines, l, i) == Place(m, j + 1)
      <==> Closes(lines[m][j]) && ReverseSpec(lines, m, j) == Place(l, i)
  {
    hide Flat, Offset, Strip, OperatorBefore, Matching, CloseSpec, ReverseSpec;
    var t := Text(lines);
    FlatAt(lines, l, |lines|, i);
    FlatAt(lines, m, |lines|, j);
    if Match(lines, l, i, m, j) {
      MatchEnds(t, Offset(lines, l) + i, Offset(lines, m) + j);
    }
    if Opens(lines[l][i]) {
      CloseFindsMatch(lines, l, i, m, j);
    }
    if Closes(lines[m][j]) {
      ReverseFindsMatch(lines, l, i, m, j);
    }
  }

  /** Every successful CloseExpression from a bracket is undone by ReverseCloseExpression. */
  lemma {:induction false} CloseIsUndone(lines: Lines, l: nat, i: nat)
    requires l < |lines| && i < |lines[l]| && Opens(lines[l][i])
    ensures var r := CloseSpec(lines, l, i);
      r == Place(|lines|, -1)
      || (r.line < |lines| && 0 < r.pos <= |lines[r.line]| && Match(lines, l, i, r.line, r.pos - 1)
          && ReverseSpec(lines, r.line, r.pos - 1) == Place(l, i))
  {
    hide Flat, Offset, Strip, OperatorBefore, Matching, FindClose, ReverseSpec;
    OneOpen(lines[l][i]);
    CloseFromInText(lines, l, i + 1, [lines[l][i]]);
    SkipOpening(lines, l, i);
    var r := CloseSpec(lines, l, i);
    if r != Place(|lines|, -1) {
      CloseFindsMatch(lines, l, i, r.line, r.pos - 1);
      ReverseUndoesClose(lines, l, i, r.line, r.pos - 1);
    }
  }
}
