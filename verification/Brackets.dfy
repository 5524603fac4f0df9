/** Matching brackets: what a balanced text is, and the forward and backward scans of a flat text. */
module Brackets {
  import opened Slices

  predicate Opens(c: char) { c == '(' || c == '[' || c == '{' }

  predicate Closes(c: char) { c == ')' || c == ']' || c == '}' }

  predicate Pair(a: char, b: char) { (a == '(' && b == ')') || (a == '[' && b == ']') || (a == '{' && b == '}') }

  /** Balanced texts as a grammar: nothing, another character and a balanced text, or a pair of brackets around
      a balanced text and then a balanced text. */
  ghost predicate Balanced(s: string)
    decreases |s|, 1
  {
    || s == []
    || (!Opens(s[0]) && !Closes(s[0]) && Balanced(s[1..]))
    || exists k: nat :: Encloses(s, k)
  }

  ghost predicate Encloses(s: string, k: nat)
    decreases |s|, 0
  {
    0 < k < |s| && Pair(s[0], s[k]) && Balanced(s[1..k]) && Balanced(s[k + 1..])
  }

  lemma {:induction false} BalancedConcat(a: string, b: string)
    requires Balanced(a) && Balanced(b)
    ensures Balanced(a + b)
    decreases |a|
  {
    var s := a + b;
    if a == [] {
      assert s == b;
    } else if !Opens(a[0]) && !Closes(a[0]) && Balanced(a[1..]) {
      BalancedConcat(a[1..], b);
      assert s[1..] == a[1..] + b;
    } else {
      var k: nat :| Encloses(a, k);
      BalancedConcat(a[k + 1..], b);
      assert s[1..k] == a[1..k] && s[k + 1..] == a[k + 1..] + b;
      assert Encloses(s, k);
    }
  }

  /** The part of a text from i to j is balanced. */
  ghost predicate BalancedIn(s: string, i: nat, j: nat) {
    i <= j <= |s| && Balanced(s[i..j])
  }

  lemma {:induction false} BalancedInNothing(s: string, i: nat)
    requires i <= |s|
    ensures BalancedIn(s, i, i)
  {
  }

  lemma {:induction false} BalancedInChar(s: string, i: nat, j: nat)
    requires i < |s| && !Opens(s[i]) && !Closes(s[i]) && BalancedIn(s, i + 1, j)
    ensures BalancedIn(s, i, j)
  {
    assert s[i..j][1..] == s[i + 1..j];
  }

  lemma {:induction false} BalancedInPair(s: string, i: nat, k: nat, j: nat)
    requires i < k < j <= |s| && Pair(s[i], s[k]) && BalancedIn(s, i + 1, k) && BalancedIn(s, k + 1, j)
    ensures BalancedIn(s, i, j)
  {
    var t := s[i..j];
    SliceOfSlice(s, i, j, 1, k - i);
    SliceOfSlice(s, i, j, k - i + 1, j - i);
    assert t[k - i + 1..] == t[k - i + 1..j - i];
    assert Encloses(t, k - i);
  }

  lemma {:induction false} BalancedInConcat(s: string, i: nat, j: nat, k: nat)
    requires BalancedIn(s, i, j) && BalancedIn(s, j, k)
    ensures BalancedIn(s, i, k)
  {
    BalancedConcat(s[i..j], s[j..k]);
    assert s[i..j] + s[j..k] == s[i..k];
  }

  /** How a balanced part starts. */
  lemma {:induction false} BalancedInCases(s: string, i: nat, j: nat) returns (k: nat)
    requires BalancedIn(s, i, j) && i < j
    ensures if k == i then !Opens(s[i]) && !Closes(s[i]) && BalancedIn(s, i + 1, j)
            else i < k < j && Pair(s[i], s[k]) && BalancedIn(s, i + 1, k) && BalancedIn(s, k + 1, j)
  {
    var t := s[i..j];
    assert Balanced(t) && t != [];
    if !Opens(t[0]) && !Closes(t[0]) && Balanced(t[1..]) {
      k := i;
      assert t[1..] == s[i + 1..j];
    } else {
      var l: nat :| Encloses(t, l);
      k := i + l;
      SliceOfSlice(s, i, j, 1, l);
      SliceOfSlice(s, i, j, l + 1, j - i);
      assert t[l + 1..] == t[l + 1..j - i];
    }
  }

  // ----- Scanning forward

  datatype Found = NotFound | Found(at: nat)

  /** The index of the bracket that closes the first bracket of the stack. */
  function FindClose(s: string, i: nat, stack: string): Found
    requires i <= |s| && stack != []
    decreases |s| - i
  {
    if i == |s| then NotFound
    else if Opens(s[i]) then FindClose(s, i + 1, stack + [s[i]])
    else if Closes(s[i]) then
      if !Pair(stack[|stack| - 1], s[i]) then NotFound
      else if |stack| == 1 then Found(i)
      else FindClose(s, i + 1, stack[..|stack| - 1])
    else FindClose(s, i + 1, stack)
  }

  lemma {:induction false} CloseSkipsBalanced(s: string, i: nat, j: nat, stack: string)
    requires stack != [] && BalancedIn(s, i, j)
    ensures FindClose(s, i, stack) == FindClose(s, j, stack)
    decreases j - i
  {
    hide BalancedIn;
    assert i <= j <= |s| by { assert BalancedIn(s, i, j); InBounds(s, i, j); }
    if i < j {
      var k := BalancedInCases(s, i, j);
      if k == i {
        CloseSkipsBalanced(s, i + 1, j, stack);
      } else {
        InBounds(s, i + 1, k);
        CloseSkipsBalanced(s, i + 1, k, stack + [s[i]]);
        assert (stack + [s[i]])[..|stack|] == stack;
        CloseSkipsBalanced(s, k + 1, j, stack);
      }
    }
  }

  lemma {:induction false} InBounds(s: string, i: nat, j: nat)
    requires BalancedIn(s, i, j)
    ensures i <= j <= |s|
  {
  }

  /** A successful scan passes a balanced part and then the bracket that closes the last one of the stack. */
  lemma {:induction false} CloseFound(s: string, i: nat, stack: string) returns (j: nat)
    requires i <= |s| && stack != [] && FindClose(s, i, stack).Found?
    ensures i <= j < |s| && BalancedIn(s, i, j) && Pair(stack[|stack| - 1], s[j])
    ensures if |stack| == 1 then FindClose(s, i, stack) == Found(j)
            else FindClose(s, j + 1, stack[..|stack| - 1]) == FindClose(s, i, stack)
    decreases |s| - i
  {
    hide BalancedIn;
    if Opens(s[i]) {
      var k := CloseFound(s, i + 1, stack + [s[i]]);
      assert (stack + [s[i]])[..|stack|] == stack;
      j := CloseFound(s, k + 1, stack);
      BalancedInPair(s, i, k, j);
    } else if Closes(s[i]) {
      j := i;
      BalancedInNothing(s, i);
    } else {
      j := CloseFound(s, i + 1, stack);
      BalancedInChar(s, i, j);
    }
  }

  /** Two positions hold a pair of brackets around a balanced text. */
  ghost predicate Matching(s: string, p: nat, q: nat) {
    p < q < |s| && Pair(s[p], s[q]) && BalancedIn(s, p + 1, q)
  }

  /** The forward scan from an opening bracket finds its match and nothing else. */
  lemma {:induction false} CloseIsMatching(s: string, p: nat, q: nat)
    requires p < |s| && Opens(s[p])
    ensures FindClose(s, p + 1, [s[p]]) == Found(q) <==> Matching(s, p, q)
  {
    hide BalancedIn;
    if FindClose(s, p + 1, [s[p]]) == Found(q) {
      var j := CloseFound(s, p + 1, [s[p]]);
    }
    if Matching(s, p, q) {
      CloseSkipsBalanced(s, p + 1, q, [s[p]]);
    }
  }

  // ----- Scanning backward

  /** The index of the bracket that opens the first bracket of the stack, scanning down from i - 1. */
  function FindOpen(s: string, i: nat, stack: string): Found
    requires i <= |s| && stack != []
    decreases i
  {
    if i == 0 then NotFound
    else if Closes(s[i - 1]) then FindOpen(s, i - 1, stack + [s[i - 1]])
    else if Opens(s[i - 1]) then
      if !Pair(s[i - 1], stack[|stack| - 1]) then NotFound
      else if |stack| == 1 then Found(i - 1)
      else FindOpen(s, i - 1, stack[..|stack| - 1])
    else FindOpen(s, i - 1, stack)
  }

  lemma {:induction false} OpenSkipsBalanced(s: string, i: nat, j: nat, stack: string)
    requires stack != [] && BalancedIn(s, i, j)
    ensures FindOpen(s, j, stack) == FindOpen(s, i, stack)
    decreases j - i
  {
    hide BalancedIn;
    assert i <= j <= |s| by { assert BalancedIn(s, i, j); InBounds(s, i, j); }
    if i < j {
      var k := BalancedInCases(s, i, j);
      if k == i {
        OpenSkipsBalanced(s, i + 1, j, stack);
      } else {
        InBounds(s, i + 1, k);
        OpenSkipsBalanced(s, k + 1, j, stack);
        OpenSkipsBalanced(s, i + 1, k, stack + [s[k]]);
        assert (stack + [s[k]])[..|stack|] == stack;
      }
    }
  }

  lemma {:induction false} OpenFound(s: string, i: nat, stack: string) returns (j: nat)
    requires i <= |s| && stack != [] && FindOpen(s, i, stack).Found?
    ensures j < i && BalancedIn(s, j + 1, i) && Pair(s[j], stack[|stack| - 1])
    ensures if |stack| == 1 then FindOpen(s, i, stack) == Found(j)
            else FindOpen(s, j, stack[..|stack| - 1]) == FindOpen(s, i, stack)
    decreases i
  {
    hide BalancedIn;
    if Closes(s[i - 1]) {
      var k := OpenFound(s, i - 1, stack + [s[i - 1]]);
      assert (stack + [s[i - 1]])[..|stack|] == stack;
      j := OpenFound(s, k, stack);
      BalancedInNothing(s, i);
      BalancedInPair(s, k, i - 1, i);
      BalancedInConcat(s, j + 1, k, i);
    } else if Opens(s[i - 1]) {
      j := i - 1;
      BalancedInNothing(s, i);
    } else {
      j := OpenFound(s, i - 1, stack);
      BalancedInNothing(s, i);
      BalancedInChar(s, i - 1, i);
      BalancedInConcat(s, j + 1, i - 1, i);
    }
  }

  /** The backward scan from a closing bracket finds its match and nothing else. */
  lemma {:induction false} OpenIsMatching(s: string, p: nat, q: nat)
    requires q < |s| && Closes(s[q])
    ensures FindOpen(s, q, [s[q]]) == Found(p) <==> Matching(s, p, q)
  {
    hide BalancedIn;
    if FindOpen(s, q, [s[q]]) == Found(p) {
      var j := OpenFound(s, q, [s[q]]);
    }
    if Matching(s, p, q) {
      OpenSkipsBalanced(s, p + 1, q, [s[q]]);
    }
  }
}
