/** Closing and opening brackets of expressions over several lines, with the heuristics for angle brackets. */
module BracketScan {
  import opened Brackets

  /** A list of the brackets still unmatched, shared by the calls for successive lines. */
  class Stack {
    var items: string

    constructor (items: string)
      ensures this.items == items
    {
      this.items := items;
    }

    method Push(c: char)
      modifies this
      ensures items == old(items) + [c]
    {
      items := items + [c];
    }

    method Pop()
      requires items != []
      modifies this
      ensures items == old(items)[..|old(items)| - 1]
    {
      items := items[..|items| - 1];
    }

    /** Removes the angle brackets on top: they were operators. */
    method DropTop(c: char)
      modifies this
      ensures items == Dropped(old(items), c)
    {
      while items != [] && items[|items| - 1] == c
        invariant Dropped(items, c) == Dropped(old(items), c)
        decreases |items|
      {
        Pop();
      }
    }
  }

  function Dropped(s: string, c: char): string {
    if s != [] && s[|s| - 1] == c then Dropped(s[..|s| - 1], c) else s
  }

  // ----- The regular expressions

  predicate IsSpace(c: char) {
    c == ' ' || c == '\t' || c == '\n' || c == '\r' || c == '\U{000B}' || c == '\U{000C}'
  }

  predicate IsWord(c: char) {
    'a' <= c <= 'z' || 'A' <= c <= 'Z' || '0' <= c <= '9' || c == '_'
  }

  /** Text that ends with the word operator and white space. */
  predicate OperatorBefore(s: string) {
    if s != [] && IsSpace(s[|s| - 1]) then OperatorBefore(s[..|s| - 1])
    else |s| >= 8 && s[|s| - 8..] == "operator" && (|s| == 8 || !IsWord(s[|s| - 9]))
  }

  /** White space, ">=" and white space from a position on. */
  predicate SpacedGreaterEqual(s: string, i: nat) {
    i + 3 < |s| && IsSpace(s[i]) && s[i + 1] == '>' && s[i + 2] == '=' && IsSpace(s[i + 3])
  }

  // ----- One line

  /** The outcome of scanning one line: the expression ends at a position, cannot be closed, or goes on. */
  datatype Scan = At(pos: int) | Unclosed | More(stack: string)

  function Top(s: string): char
    requires s != []
  {
    s[|s| - 1]
  }

  function Popped(s: string): string
    requires s != []
  {
    s[..|s| - 1]
  }

  /** Scans a line forward from i; the position of the outcome is just after the closing bracket. */
  function LineEnd(line: string, i: nat, stack: string): Scan
    requires i <= |line|
    decreases |line| - i
  {
    if i == |line| then More(stack)
    else
      var c := line[i];
      if Opens(c) then LineEnd(line, i + 1, stack + [c])
      else if c == '<' then
        if i > 0 && line[i - 1] == '<' then
          if stack != [] && Top(stack) == '<' then
            if |stack| == 1 then Unclosed else LineEnd(line, i + 1, Popped(stack))
          else LineEnd(line, i + 1, stack)
        else if i > 0 && OperatorBefore(line[..i]) then LineEnd(line, i + 1, stack)
        else LineEnd(line, i + 1, stack + ['<'])
      else if Closes(c) then
        var s := Dropped(stack, '<');
        if s == [] || !Pair(Top(s), c) then Unclosed
        else if |s| == 1 then At(i + 1)
        else LineEnd(line, i + 1, Popped(s))
      else if c == '>' then
        if i > 0 && (line[i - 1] == '-' || OperatorBefore(line[..i - 1])) then LineEnd(line, i + 1, stack)
        else if stack != [] && Top(stack) == '<' then
          if |stack| == 1 then At(i + 1) else LineEnd(line, i + 1, Popped(stack))
        else LineEnd(line, i + 1, stack)
      else if c == ';' then
        var s := Dropped(stack, '<');
        if s == [] then Unclosed else LineEnd(line, i + 1, s)
      else LineEnd(line, i + 1, stack)
  }

  /** Scans a line from startpos on; the result is the position after the end, or -1 and the stack if it goes on. */
  method FindEndOfExpressionInLine(line: string, startpos: nat, stack: Stack) returns (end: int, rest: Stack?)
    requires startpos <= |line|
    modifies stack
    ensures match LineEnd(line, startpos, old(stack.items))
      case At(pos) => end == pos && rest == null
      case Unclosed => end == -1 && rest == null
      case More(s) => end == -1 && rest == stack && stack.items == s
  {
    hide OperatorBefore, Dropped;
    ghost var outcome := LineEnd(line, startpos, stack.items);
    var i := startpos;
    while i < |line|
      invariant startpos <= i <= |line| && LineEnd(line, i, stack.items) == outcome
    {
      var c := line[i];
      if Opens(c) {
        stack.Push(c);
      } else if c == '<' {
        if i > 0 && line[i - 1] == '<' {
          if stack.items != [] && Top(stack.items) == '<' {
            stack.Pop();
            if stack.items == [] { return -1, null; }
          }
        } else if i > 0 && OperatorBefore(line[..i]) {
          i := i + 1;
          continue;
        } else {
          stack.Push('<');
        }
      } else if Closes(c) {
        stack.DropTop('<');
        if stack.items == [] { return -1, null; }
        if Pair(Top(stack.items), c) {
          stack.Pop();
          if stack.items == [] { return i + 1, null; }
        } else {
          return -1, null;
        }
      } else if c == '>' {
        if i > 0 && (line[i - 1] == '-' || OperatorBefore(line[..i - 1])) {
          i := i + 1;
          continue;
        }
        if stack.items != [] {
          if Top(stack.items) == '<' {
            stack.Pop();
            if stack.items == [] { return i + 1, null; }
          }
        }
      } else if c == ';' {
        stack.DropTop('<');
        if stack.items == [] { return -1, null; }
      }
      i := i + 1;
    }
    return -1, stack;
  }

  /** Scans a line backward from i - 1; the position of the outcome is that of the opening bracket. */
  function LineStart(line: string, i: nat, stack: string): Scan
    requires i <= |line|
    decreases i
  {
    if i == 0 then More(stack)
    else
      var k := i - 1;
      var c := line[k];
      if Closes(c) then LineStart(line, k, stack + [c])
      else if c == '>' then
        if k > 0 && (line[k - 1] == '-' || SpacedGreaterEqual(line, k - 1) || OperatorBefore(line[..k]))
        then LineStart(line, k - 1, stack)
        else LineStart(line, k, stack + ['>'])
      else if c == '<' then
        if k > 0 && line[k - 1] == '<' then LineStart(line, k - 1, stack)
        else if stack != [] && Top(stack) == '>' then
          if |stack| == 1 then At(k) else LineStart(line, k, Popped(stack))
        else LineStart(line, k, stack)
      else if Opens(c) then
        var s := Dropped(stack, '>');
        if s == [] || !Pair(c, Top(s)) then Unclosed
        else if |s| == 1 then At(k)
        else LineStart(line, k, Popped(s))
      else if c == ';' then
        var s := Dropped(stack, '>');
        if s == [] then Unclosed else LineStart(line, k, s)
      else LineStart(line, k, stack)
  }

  /** Scans a line from endpos down; the result is the position of the start, or -1 and the stack if it goes on. */
  method FindStartOfExpressionInLine(line: string, endpos: int, stack: Stack) returns (start: int, rest: Stack?)
    requires -1 <= endpos < |line|
    modifies stack
    ensures match LineStart(line, endpos + 1, old(stack.items))
      case At(pos) => start == pos && rest == null
      case Unclosed => start == -1 && rest == null
      case More(s) => start == -1 && rest == stack && stack.items == s
  {
    hide OperatorBefore, Dropped, SpacedGreaterEqual;
    ghost var outcome := LineStart(line, endpos + 1, stack.items);
    var i := endpos;
    while i >= 0
      invariant -1 <= i <= endpos && LineStart(line, i + 1, stack.items) == outcome
      decreases i
    {
      var c := line[i];
      if Closes(c) {
        stack.Push(c);
      } else if c == '>' {
        if i > 0 && (line[i - 1] == '-' || SpacedGreaterEqual(line, i - 1) || OperatorBefore(line[..i])) {
          i := i - 1;
        } else {
          stack.Push('>');
        }
      } else if c == '<' {
        if i > 0 && line[i - 1] == '<' {
          i := i - 1;
        } else if stack.items != [] && Top(stack.items) == '>' {
          stack.Pop();
          if stack.items == [] { return i, null; }
        }
      } else if Opens(c) {
        stack.DropTop('>');
        if stack.items == [] { return -1, null; }
        if Pair(c, Top(stack.items)) {
          stack.Pop();
          if stack.items == [] { return i, null; }
        } else {
          return -1, null;
        }
      } else if c == ';' {
        stack.DropTop('>');
        if stack.items == [] { return -1, null; }
      }
      i := i - 1;
    }
    return -1, stack;
  }

  // ----- All lines

  type Lines = seq<string>

  /** A line number and a position on that line. */
  datatype Place = Place(line: nat, pos: int)

  function CloseFrom(lines: Lines, l: nat, i: nat, stack: string): Place
    requires l < |lines| && i <= |lines[l]|
    decreases |lines| - l
  {
    match LineEnd(lines[l], i, stack)
    case At(pos) => Place(l, pos)
    case Unclosed => Place(|lines|, -1)
    case More(s) => if s == [] || l == |lines| - 1 then Place(|lines|, -1) else CloseFrom(lines, l + 1, 0, s)
  }

  function CloseSpec(lines: Lines, l: nat, pos: nat): Place
    requires l < |lines| && pos < |lines[l]|
  {
    var line := lines[l];
    if !(Opens(line[pos]) || line[pos] == '<')
        || (line[pos] == '<' && pos + 1 < |line| && (line[pos + 1] == '<' || line[pos + 1] == '='))
    then Place(|lines|, -1)
    else CloseFrom(lines, l, pos, [])
  }

  /** The place just after the end of the expression that starts at a bracket; the number of lines and -1 if
      there is no end. */
  method CloseExpression(lines: Lines, linenum: nat, pos: nat) returns (r: Place)
    requires linenum < |lines| && pos < |lines[linenum]|
    ensures r == CloseSpec(lines, linenum, pos)
  {
    hide LineEnd;
    var line := lines[linenum];
    if !(Opens(line[pos]) || line[pos] == '<')
        || (line[pos] == '<' && pos + 1 < |line| && (line[pos + 1] == '<' || line[pos + 1] == '=')) {
      return Place(|lines|, -1);
    }
    var first := new Stack([]);
    var l := linenum;
    var end, stack := FindEndOfExpressionInLine(line, pos, first);
    NoPosition(line, pos, []);
    if end > -1 { return Place(l, end); }
    while stack != null && stack.items != [] && l < |lines| - 1
      invariant linenum <= l < |lines| && (stack != null ==> fresh(stack))
      invariant CloseFrom(lines, linenum, pos, []) ==
        if stack == null || stack.items == [] || l == |lines| - 1 then Place(|lines|, -1)
            else CloseFrom(lines, l + 1, 0, stack.items)
      decreases |lines| - l
    {
      ghost var s := stack.items;
      l := l + 1;
      end, stack := FindEndOfExpressionInLine(lines[l], 0, stack);
      NoPosition(lines[l], 0, s);
      if end > -1 { return Place(l, end); }
    }
    return Place(|lines|, -1);
  }

  lemma {:induction false} NoPosition(line: string, i: nat, stack: string)
    requires i <= |line|
    ensures LineEnd(line, i, stack).At? ==> i < LineEnd(line, i, stack).pos <= |line|
    decreases |line| - i
  {
    hide OperatorBefore, Dropped;
    if i < |line| {
      var c := line[i];
      NoPosition(line, i + 1, stack);
      NoPosition(line, i + 1, stack + [c]);
      if stack != [] { NoPosition(line, i + 1, Popped(stack)); }
      var s := Dropped(stack, '<');
      NoPosition(line, i + 1, s);
      if s != [] { NoPosition(line, i + 1, Popped(s)); }
    }
  }

  function OpenFrom(lines: Lines, l: nat, i: nat, stack: string): Place
    requires l < |lines| && i <= |lines[l]|
    decreases l
  {
    match LineStart(lines[l], i, stack)
    case At(pos) => Place(l, pos)
    case Unclosed => Place(0, -1)
    case More(s) => if s == [] || l == 0 then Place(0, -1) else OpenFrom(lines, l - 1, |lines[l - 1]|, s)
  }

  function ReverseSpec(lines: Lines, l: nat, pos: nat): Place
    requires l < |lines| && pos < |lines[l]|
  {
    if !(Closes(lines[l][pos]) || lines[l][pos] == '>') then Place(0, -1) else OpenFrom(lines, l, pos + 1, [])
  }

  /** The place of the bracket that starts the expression ended by a bracket; 0 and -1 if there is none. */
  method ReverseCloseExpression(lines: Lines, linenum: nat, pos: nat) returns (r: Place)
    requires linenum < |lines| && pos < |lines[linenum]|
    ensures r == ReverseSpec(lines, linenum, pos)
  {
    hide LineStart;
    var line := lines[linenum];
    if !(Closes(line[pos]) || line[pos] == '>') { return Place(0, -1); }
    var last := new Stack([]);
    var l := linenum;
    var start, stack := FindStartOfExpressionInLine(line, pos, last);
    NoStart(line, pos + 1, []);
    if start > -1 { return Place(l, start); }
    while stack != null && stack.items != [] && l > 0
      invariant 0 <= l <= linenum && (stack != null ==> fresh(stack))
      invariant OpenFrom(lines, linenum, pos + 1, []) ==
        if stack == null || stack.items == [] || l == 0 then Place(0, -1)
            else OpenFrom(lines, l - 1, |lines[l - 1]|, stack.items)
      decreases l
    {
      ghost var s := stack.items;
      l := l - 1;
      start, stack := FindStartOfExpressionInLine(lines[l], |lines[l]| - 1, stack);
      NoStart(lines[l], |lines[l]|, s);
      if start > -1 { return Place(l, start); }
    }
    return Place(0, -1);
  }

  lemma {:induction false} NoStart(line: string, i: nat, stack: string)
    requires i <= |line|
    ensures LineStart(line, i, stack).At? ==> 0 <= LineStart(line, i, stack).pos < i
    decreases i
  {
    hide OperatorBefore, Dropped, SpacedGreaterEqual;
    if i > 0 {
      var c := line[i - 1];
      NoStart(line, i - 1, stack);
      NoStart(line, i - 1, stack + [c]);
      if i > 1 { NoStart(line, i - 2, stack); }
      if stack != [] { NoStart(line, i - 1, Popped(stack)); }
      var s := Dropped(stack, '>');
      NoStart(line, i - 1, s);
      if s != [] { NoStart(line, i - 1, Popped(s)); }
    }
  }
}
