/** `parseTreeNodeArguments` of `src/utils/pythonExecutor.ts`: the scanner
    that cuts a translated test input into its top-level `TreeNode(...)`
    literals by counting parentheses, and the `TreeNode\((\d+)\)` leaf
    match used by the lowest-common-ancestor case. */
module TreeArgs {
  import opened Text

  const TreeNodeWord: string := "TreeNode"

  /** `input.substring(i, i + 8) === 'TreeNode'`. */
  predicate TreeNodeAt(s: string, i: nat)
  {
    i + 8 <= |s| && s[i..i + 8] == TreeNodeWord
  }

  /** Number of occurrences of `c` in `t`. */
  function Count(t: string, c: char): (n: nat)
    ensures n <= |t|
  {
    if t == [] then 0 else (if t[0] == c then 1 else 0) + Count(t[1..], c)
  }

  lemma {:induction false} CountSnoc(t: string, x: char, c: char)
    ensures Count(t + [x], c) == Count(t, c) + (if x == c then 1 else 0)
  {
    if t != [] {
      assert (t + [x])[1..] == t[1..] + [x];
      CountSnoc(t[1..], x, c);
    }
  }

  /** Opening minus closing parentheses of `t`. */
  function Depth(t: string): int
  {
    Count(t, '(') as int - Count(t, ')') as int
  }

  /** The literal opened at `p` is closed by the `)` at `e - 1`: the
      parentheses of `s[p..e]` balance there. */
  predicate ClosesAt(s: string, p: nat, e: nat)
  {
    p + 8 < e <= |s| && s[e - 1] == ')' && Depth(s[p..e]) == 0
  }

  /** The least `e >= from` at which the literal opened at `p` closes. */
  function FirstClose(s: string, p: nat, from: nat): (r: Option<nat>)
    requires p + 8 < from
    decreases |s| + 1 - from
    ensures r.Some? ==> from <= r.value <= |s|
  {
    if from > |s| then None
    else if ClosesAt(s, p, from) then Some(from)
    else FirstClose(s, p, from + 1)
  }

  lemma {:induction false} FirstCloseIsLeast(s: string, p: nat, from: nat)
    requires p + 8 < from
    ensures FirstClose(s, p, from).Some? ==> ClosesAt(s, p, FirstClose(s, p, from).value)
    ensures FirstClose(s, p, from).Some? ==>
      forall e :: from <= e < FirstClose(s, p, from).value ==> !ClosesAt(s, p, e)
    ensures FirstClose(s, p, from).None? ==> forall e :: from <= e ==> !ClosesAt(s, p, e)
    decreases |s| + 1 - from
  {
    if from <= |s| && !ClosesAt(s, p, from) {
      FirstCloseIsLeast(s, p, from + 1);
    }
  }

  /** The least `p >= from` at which `TreeNode` starts. */
  function NextTreeNode(s: string, from: nat): (r: Option<nat>)
    decreases |s| + 1 - from
    ensures r.Some? ==> from <= r.value && r.value + 8 <= |s|
  {
    if from + 8 > |s| then None
    else if TreeNodeAt(s, from) then Some(from)
    else NextTreeNode(s, from + 1)
  }

  lemma {:induction false} NextTreeNodeIsLeast(s: string, from: nat)
    ensures NextTreeNode(s, from).Some? ==> TreeNodeAt(s, NextTreeNode(s, from).value)
    ensures NextTreeNode(s, from).Some? ==>
      forall j :: from <= j < NextTreeNode(s, from).value ==> !TreeNodeAt(s, j)
    ensures NextTreeNode(s, from).None? ==> forall j :: from <= j ==> !TreeNodeAt(s, j)
    decreases |s| + 1 - from
  {
    if from + 8 <= |s| && !TreeNodeAt(s, from) {
      NextTreeNodeIsLeast(s, from + 1);
    }
  }

  /** Reference definition of the literals found from `i` on: the next
      `TreeNode`, up to the first `)` that balances its parentheses, then
      the literals after it; a literal never closed runs to the end of the
      input and is trimmed. */
  function LiteralsFrom(s: string, i: nat): seq<string>
    decreases |s| - i
  {
    match NextTreeNode(s, i)
    case None => []
    case Some(p) =>
      match FirstClose(s, p, p + 9)
      case None => [Trim(s[p..])]
      case Some(e) => [s[p..e]] + LiteralsFrom(s, e)
  }

  /** The literals of a literal opened at `p` and of everything after it. */
  function LiteralAt(s: string, p: nat): seq<string>
    requires p + 8 <= |s|
  {
    match FirstClose(s, p, p + 9)
    case None => [Trim(s[p..])]
    case Some(e) => [s[p..e]] + LiteralsFrom(s, e)
  }

  function Literals(s: string): seq<string>
  {
    LiteralsFrom(s, 0)
  }

  lemma {:induction false} DepthSnoc(t: string, c: char)
    ensures Depth(t + [c]) == Depth(t) + (if c == '(' then 1 else if c == ')' then -1 else 0)
  {
    CountSnoc(t, c, '(');
    CountSnoc(t, c, ')');
  }

  lemma {:induction false} CountAbsent(t: string, c: char)
    requires NoChar(t, c)
    ensures Count(t, c) == 0
  {
    if t != [] {
      CountAbsent(t[1..], c);
    }
  }

  lemma {:induction false} DepthOfWord()
    ensures Depth(TreeNodeWord) == 0
  {
    CountAbsent(TreeNodeWord, '(');
    CountAbsent(TreeNodeWord, ')');
  }

  /** Steps of the scanner, stated on the reference definition. */
  lemma {:induction false} EnterLiteral(s: string, i: nat)
    requires TreeNodeAt(s, i)
    ensures LiteralsFrom(s, i) == LiteralAt(s, i)
  {
    assert NextTreeNode(s, i) == Some(i);
  }

  lemma {:induction false} NextSkip(s: string, i: nat)
    requires i < |s| && !TreeNodeAt(s, i)
    ensures NextTreeNode(s, i) == NextTreeNode(s, i + 1)
  {
  }

  lemma {:induction false} SkipChar(s: string, i: nat)
    requires i < |s| && !TreeNodeAt(s, i)
    ensures LiteralsFrom(s, i) == LiteralsFrom(s, i + 1)
  {
    NextSkip(s, i);
    SameNext(s, i, i + 1);
  }

  lemma {:induction false} SameNext(s: string, i: nat, j: nat)
    requires NextTreeNode(s, i) == NextTreeNode(s, j)
    ensures LiteralsFrom(s, i) == LiteralsFrom(s, j)
  {
    if NextTreeNode(s, i).Some? {
      var p := NextTreeNode(s, i).value;
      NextLiteral(s, i, p);
      NextLiteral(s, j, p);
    }
  }

  lemma {:induction false} CloseLiteral(s: string, p: nat, e: nat)
    requires TreeNodeAt(s, p) && ClosesAt(s, p, e)
    requires forall k :: p + 9 <= k < e ==> !ClosesAt(s, p, k)
    ensures LiteralsFrom(s, p) == [s[p..e]] + LiteralsFrom(s, e)
  {
    EnterLiteral(s, p);
    FirstCloseSkip(s, p, p + 9, e);
    assert FirstClose(s, p, e) == Some(e);
  }

  lemma {:induction false} EndOpen(s: string, p: nat)
    requires TreeNodeAt(s, p)
    requires forall k :: p + 9 <= k <= |s| ==> !ClosesAt(s, p, k)
    ensures LiteralsFrom(s, p) == [Trim(s[p..])] && Trim(s[p..]) != ""
  {
    assert s[p..][0] == s[p..p + 8][0];
    TrimKeepsHead(s[p..]);
    EnterLiteral(s, p);
    FirstCloseSkip(s, p, p + 9, |s| + 1);
    assert FirstClose(s, p, |s| + 1) == None;
  }

  /** The literal starting at `start` does not close at or before `i`. */
  ghost predicate OpenUpTo(input: string, start: nat, i: nat)
  {
    forall e :: start + 9 <= e <= i ==> !ClosesAt(input, start, e)
  }

  /** The state of the scanner after reading `input[..i]`, related to the
      reference definition: outside a literal, the literals found so far
      followed by those from `i` on are all of them; inside the literal
      opened at `start`, `currentArg` and `parenCount` are its text and
      depth so far, it has not closed yet, and the literals found so far
      followed by those from `start` on are all of them. */
  ghost predicate ScanState(input: string, i: nat, inTreeNode: bool, start: nat,
                            currentArg: string, parenCount: int, treeNodes: seq<string>)
  {
    && i <= |input|
    && (!inTreeNode ==>
          currentArg == "" && parenCount == 0
          && treeNodes + LiteralsFrom(input, i) == Literals(input))
    && (inTreeNode ==>
          && TreeNodeAt(input, start) && start + 8 <= i
          && currentArg == input[start..i] && parenCount == Depth(currentArg)
          && OpenUpTo(input, start, i)
          && treeNodes + LiteralsFrom(input, start) == Literals(input))
  }

  /** The scanner of the source: one pass over the input with a flag for
      being inside a literal, the literal built so far and its parenthesis
      count. */
  method ParseTreeNodeArguments(input: string) returns (treeNodes: seq<string>)
    ensures treeNodes == Literals(input)
  {
    treeNodes := [];
    var currentArg: string := "";
    var parenCount: int := 0;
    var inTreeNode := false;
    var i: nat := 0;
    ghost var start: nat := 0;
    assert treeNodes + LiteralsFrom(input, 0) == Literals(input);
    while i < |input|
      invariant ScanState(input, i, inTreeNode, start, currentArg, parenCount, treeNodes)
      decreases |input| - i
    {
      // The source tests for a `TreeNode` outside a literal first and for
      // being inside one second; both tests are pure, so testing the flag
      // first takes the same branch.
      if inTreeNode {
        i, inTreeNode, currentArg, parenCount, treeNodes, start :=
          ReadInLiteral(input, i, currentArg, parenCount, treeNodes, start);
      } else {
        i, inTreeNode, currentArg, parenCount, treeNodes, start :=
          ReadOutside(input, i, currentArg, parenCount, treeNodes, start);
      }
    }
    ScanEnd(input, inTreeNode, start, currentArg, parenCount, treeNodes);
    if Trim(currentArg) != "" && inTreeNode {
      treeNodes := treeNodes + [Trim(currentArg)];
    }
  }

  /** A character outside a literal: a `TreeNode` there opens one and skips
      the word, anything else is skipped. */
  method ReadOutside(input: string, i: nat, currentArg: string, parenCount: int,
                     treeNodes: seq<string>, ghost start: nat)
    returns (next: nat, nowInTreeNode: bool, arg: string, count: int, found: seq<string>, ghost newStart: nat)
    requires i < |input| && ScanState(input, i, false, start, currentArg, parenCount, treeNodes)
    ensures i < next <= |input| && ScanState(input, next, nowInTreeNode, newStart, arg, count, found)
  {
    if TreeNodeAt(input, i) {
      found := OpenLiteral(input, i, currentArg, parenCount, treeNodes, start);
      next, nowInTreeNode, arg, count, newStart := i + 8, true, TreeNodeWord, parenCount, i;
    } else {
      ScanSkip(input, i, start, currentArg, parenCount, treeNodes);
      next, nowInTreeNode, arg, count, found, newStart := i + 1, false, currentArg, parenCount, treeNodes, start;
    }
  }

  /** A `TreeNode` outside a literal: a pending non-blank argument is kept
      first, then the literal opens with the word itself as its text. */
  method OpenLiteral(input: string, i: nat, currentArg: string, parenCount: int,
                     treeNodes: seq<string>, ghost start: nat)
    returns (found: seq<string>)
    requires TreeNodeAt(input, i) && ScanState(input, i, false, start, currentArg, parenCount, treeNodes)
    ensures ScanState(input, i + 8, true, i, TreeNodeWord, parenCount, found)
  {
    found := treeNodes;
    if Trim(currentArg) != "" {
      found := found + [Trim(currentArg)];
    }
    ScanEnter(input, i, start, currentArg, parenCount, treeNodes, found);
  }

  /** A character inside a literal is appended and counted; the `)` that
      brings the count to zero ends the literal. */
  method ReadInLiteral(input: string, i: nat, currentArg: string, parenCount: int,
                       treeNodes: seq<string>, ghost start: nat)
    returns (next: nat, stillIn: bool, arg: string, count: int, found: seq<string>, ghost newStart: nat)
    requires i < |input| && ScanState(input, i, true, start, currentArg, parenCount, treeNodes)
    ensures i < next <= |input| && ScanState(input, next, stillIn, newStart, arg, count, found)
  {
    next, newStart := i + 1, start;
    var c := input[i];
    arg := currentArg + [c];
    stillIn, found := true, treeNodes;
    if c == '(' {
      count := parenCount + 1;
      ScanExtend(input, i, start, currentArg, parenCount, treeNodes, arg, count);
    } else if c == ')' {
      count := parenCount - 1;
      if count == 0 {
        found := treeNodes + [Trim(arg)];
        arg := "";
        stillIn := false;
        ScanClose(input, i, start, currentArg, parenCount, treeNodes, found);
      } else {
        ScanExtend(input, i, start, currentArg, parenCount, treeNodes, arg, count);
      }
    } else {
      count := parenCount;
      ScanExtend(input, i, start, currentArg, parenCount, treeNodes, arg, count);
    }
  }

  /** Entering a literal at a `TreeNode` outside one. */
  lemma {:induction false} ScanEnter(input: string, i: nat, start: nat, currentArg: string,
                                     parenCount: int, treeNodes: seq<string>, found: seq<string>)
    requires ScanState(input, i, false, start, currentArg, parenCount, treeNodes)
    requires TreeNodeAt(input, i)
    requires found == if Trim(currentArg) != "" then treeNodes + [Trim(currentArg)] else treeNodes
    ensures ScanState(input, i + 8, true, i, TreeNodeWord, parenCount, found)
  {
    DepthOfWord();
    EnterLiteral(input, i);
    assert input[i..i + 8] == TreeNodeWord;
  }

  /** Reading a character outside a literal where no `TreeNode` starts. */
  lemma {:induction false} ScanSkip(input: string, i: nat, start: nat, currentArg: string,
                                    parenCount: int, treeNodes: seq<string>)
    requires ScanState(input, i, false, start, currentArg, parenCount, treeNodes)
    requires i < |input| && !TreeNodeAt(input, i)
    ensures ScanState(input, i + 1, false, start, currentArg, parenCount, treeNodes)
  {
    SkipChar(input, i);
  }

  /** The change a character makes to the parenthesis count. */
  function Delta(c: char): int
  {
    if c == '(' then 1 else if c == ')' then -1 else 0
  }

  /** Reading a character inside a literal that does not close it. */
  lemma {:induction false} ScanExtend(input: string, i: nat, start: nat, currentArg: string,
                                      parenCount: int, treeNodes: seq<string>, arg: string, count: int)
    requires ScanState(input, i, true, start, currentArg, parenCount, treeNodes)
    requires i < |input| && !(input[i] == ')' && parenCount == 1)
    requires arg == currentArg + [input[i]] && count == parenCount + Delta(input[i])
    ensures ScanState(input, i + 1, true, start, arg, count, treeNodes)
  {
    DepthSnoc(currentArg, input[i]);
    assert input[start..i + 1] == arg;
    OpenStep(input, start, i, arg);
  }

  /** Reading the `)` that brings the count to zero closes the literal. */
  lemma {:induction false} ScanClose(input: string, i: nat, start: nat, currentArg: string,
                                     parenCount: int, treeNodes: seq<string>, after: seq<string>)
    requires ScanState(input, i, true, start, currentArg, parenCount, treeNodes)
    requires i < |input| && input[i] == ')' && parenCount == 1
    requires after == treeNodes + [Trim(currentArg + [input[i]])]
    ensures ScanState(input, i + 1, false, start, "", 0, after)
  {
    var arg := currentArg + [input[i]];
    DepthSnoc(currentArg, input[i]);
    assert input[start..i + 1] == arg;
    CloseStep(input, start, i + 1, treeNodes, arg, after, Literals(input));
  }

  /** At the end of the input: an open literal is the last one, trimmed. */
  lemma {:induction false} ScanEnd(input: string, inTreeNode: bool, start: nat, currentArg: string,
                                   parenCount: int, treeNodes: seq<string>)
    requires ScanState(input, |input|, inTreeNode, start, currentArg, parenCount, treeNodes)
    ensures (if inTreeNode && Trim(currentArg) != "" then treeNodes + [Trim(currentArg)] else treeNodes)
            == Literals(input)
  {
    if inTreeNode {
      EndOpen(input, start);
      assert currentArg == input[start..];
    } else {
      NoneAtEnd(input);
      assert treeNodes + [] == treeNodes;
    }
  }

  /** The scanner closes the literal opened at `start` with the `)` at
      `e - 1`. */
  lemma {:induction false} CloseStep(input: string, start: nat, e: nat, before: seq<string>, cur: string,
                                     after: seq<string>, all: seq<string>)
    requires TreeNodeAt(input, start) && ClosesAt(input, start, e)
    requires forall k :: start + 9 <= k < e ==> !ClosesAt(input, start, k)
    requires cur == input[start..e]
    requires before + LiteralsFrom(input, start) == all
    requires after == before + [Trim(cur)]
    ensures after + LiteralsFrom(input, e) == all
  {
    var rest := LiteralsFrom(input, e);
    assert LiteralsFrom(input, start) == [cur] + rest by {
      CloseLiteral(input, start, e);
    }
    assert after == before + [cur] by {
      ClosedTrimmed(input, start, e);
    }
    assert (before + [cur]) + rest == before + ([cur] + rest);
  }

  /** A closed literal has no surrounding spaces to trim. */
  lemma {:induction false} ClosedTrimmed(input: string, start: nat, e: nat)
    requires TreeNodeAt(input, start) && ClosesAt(input, start, e)
    ensures Trim(input[start..e]) == input[start..e]
  {
    var cur := input[start..e];
    assert cur[0] == 'T' by { assert cur[0] == input[start..start + 8][0]; }
    TrimUnchanged(cur);
  }

  /** The scanner reads the character at `i` without closing the literal. */
  lemma {:induction false} OpenStep(input: string, start: nat, i: nat, cur: string)
    requires start + 8 <= i < |input| && cur == input[start..i + 1]
    requires input[i] != ')' || Depth(cur) != 0
    requires OpenUpTo(input, start, i)
    ensures OpenUpTo(input, start, i + 1)
  {
  }

  lemma {:induction false} NoneAtEnd(s: string)
    ensures LiteralsFrom(s, |s|) == []
  {
    assert NextTreeNode(s, |s|) == None;
  }

  // ---------------------------------------------------------------------
  // Properties of the reference definition

  /** A literal that closes is `TreeNode...)` with balanced parentheses. */
  lemma {:induction false} ClosedShape(s: string, p: nat, e: nat)
    requires TreeNodeAt(s, p) && ClosesAt(s, p, e)
    ensures StartsWith(s[p..e], TreeNodeWord)
    ensures s[p..e] != [] && s[p..e][|s[p..e]| - 1] == ')'
    ensures Count(s[p..e], '(') == Count(s[p..e], ')')
  {
    assert s[p..e][..8] == s[p..p + 8];
  }

  /** A literal that never closes, once trimmed, still starts with
      `TreeNode`. */
  lemma {:induction false} OpenShape(s: string, p: nat)
    requires TreeNodeAt(s, p)
    ensures StartsWith(Trim(s[p..]), TreeNodeWord)
  {
    var u := s[p..];
    assert u[..8] == TreeNodeWord;
    assert u[0] == 'T' && !IsSpace(u[7]);
    TrimKeepsHead(u);
    assert TrimStart(u) == u;
    TrimEndSpec(u);
    var t := Trim(u);
    assert |t| >= 8;
    assert t[..8] == u[..8];
  }

  /** A literal closed at depth zero. */
  predicate Closed(t: string)
  {
    t != [] && t[|t| - 1] == ')' && Count(t, '(') == Count(t, ')')
  }

  /** Every literal starts with `TreeNode`; every literal but the last is
      closed: it ends with `)` and its parentheses balance. */
  predicate WellShaped(lits: seq<string>)
  {
    && (forall k :: 0 <= k < |lits| ==> StartsWith(lits[k], TreeNodeWord))
    && (forall k :: 0 <= k < |lits| - 1 ==> Closed(lits[k]))
  }

  lemma {:induction false} ConsShaped(x: string, rest: seq<string>)
    requires StartsWith(x, TreeNodeWord) && (rest != [] ==> Closed(x)) && WellShaped(rest)
    ensures WellShaped([x] + rest)
  {
    var all := [x] + rest;
    forall k | 1 <= k < |all| ensures all[k] == rest[k - 1] { }
  }

  lemma {:induction false} LiteralsShape(s: string, i: nat)
    ensures WellShaped(LiteralsFrom(s, i))
    decreases |s| - i, 1
  {
    match NextTreeNode(s, i)
    case None =>
    case Some(p) =>
      NextLiteral(s, i, p);
      LiteralAtShape(s, p);
  }

  /** The literals from `i` on are those of the next literal and after. */
  lemma {:induction false} NextLiteral(s: string, i: nat, p: nat)
    requires NextTreeNode(s, i) == Some(p)
    ensures TreeNodeAt(s, p) && LiteralsFrom(s, i) == LiteralAt(s, p)
  {
    NextTreeNodeIsLeast(s, i);
  }

  lemma {:induction false} LiteralAtShape(s: string, p: nat)
    requires TreeNodeAt(s, p)
    ensures WellShaped(LiteralAt(s, p))
    decreases |s| - p, 0
  {
    FirstCloseIsLeast(s, p, p + 9);
    match FirstClose(s, p, p + 9)
    case None =>
      OpenShape(s, p);
      ConsShaped(Trim(s[p..]), []);
    case Some(e) =>
      LiteralsShape(s, e);
      ClosedShape(s, p, e);
      ConsShaped(s[p..e], LiteralsFrom(s, e));
  }

  /** An input with no `TreeNode` yields no literal. */
  lemma {:induction false} NoTreeNodeNoLiterals(s: string)
    requires forall j :: 0 <= j < |s| ==> !TreeNodeAt(s, j)
    ensures Literals(s) == []
  {
    if NextTreeNode(s, 0).Some? {
      NextTreeNodeIsLeast(s, 0);
    }
  }

  /** An input containing `TreeNode(` yields at least one literal. */
  lemma {:induction false} TreeNodeCallSomeLiteral(s: string)
    requires Contains(s, "TreeNode(")
    ensures Literals(s) != []
  {
    var j: nat :| j <= |s| && OccursAt(s, "TreeNode(", j);
    assert s[j..j + 8] == s[j..j + 9][..8];
    assert TreeNodeAt(s, j);
    NextTreeNodeIsLeast(s, 0);
  }

  lemma {:induction false} FirstCloseSkip(s: string, p: nat, from: nat, to: nat)
    requires p + 8 < from <= to && forall e :: from <= e < to ==> !ClosesAt(s, p, e)
    ensures FirstClose(s, p, from) == FirstClose(s, p, to)
    decreases (to as int) - (from as int)
  {
    if from < to {
      FirstCloseSkip(s, p, from + 1, to);
    }
  }

  /** A `TreeNode` nested in an open literal is not split off: the whole
      input `TreeNode(1, TreeNode(2))` is one literal. */
  lemma {:induction false} NestedNotSplit(s: string)
    requires s == "TreeNode(1, TreeNode(2))"
    ensures Literals(s) == [s]
  {
    assert TreeNodeAt(s, 0);
    DepthNested(s);
    WholeLiteral(s);
  }

  /** An input that is one balanced literal is its only literal. */
  lemma {:induction false} WholeLiteral(s: string)
    requires TreeNodeAt(s, 0) && ClosesAt(s, 0, |s|)
    requires forall e :: 9 <= e < |s| ==> !ClosesAt(s, 0, e)
    ensures Literals(s) == [s]
  {
    CloseLiteral(s, 0, |s|);
    NoneAtEnd(s);
    assert s[0..|s|] == s;
  }

  lemma {:induction false} DepthNested(s: string)
    requires s == "TreeNode(1, TreeNode(2))"
    ensures forall e :: 9 <= e < 24 ==> !ClosesAt(s, 0, e)
    ensures ClosesAt(s, 0, 24)
  {
    DepthPrefix23(s);
    forall e | 9 <= e < 24 ensures !ClosesAt(s, 0, e) {
      if e != 23 {
        assert s[e - 1] != ')';
      }
    }
    DepthSnoc(s[..23], ')');
    assert s[0..24] == s[..23] + [')'];
  }

  lemma {:induction false} DepthPrefixStep(t: string, k: nat)
    requires k < |t|
    ensures Depth(t[..k + 1]) == Depth(t[..k]) + (if t[k] == '(' then 1 else if t[k] == ')' then -1 else 0)
  {
    DepthSnoc(t[..k], t[k]);
    assert t[..k + 1] == t[..k] + [t[k]];
  }

  lemma {:induction false} DepthPrefix23(s: string)
    requires s == "TreeNode(1, TreeNode(2))"
    ensures Depth(s[..23]) == 1
  {
    var t := s[..23];
    DepthOfWord();
    assert t[..8] == TreeNodeWord;
    var k := 8;
    while k < 23
      invariant 8 <= k <= 23
      invariant Depth(t[..k]) == (if k <= 8 then 0 else if k <= 20 then 1 else if k <= 22 then 2 else 1)
    {
      DepthPrefixStep(t, k);
      k := k + 1;
    }
    assert t[..23] == t;
  }

  // ---------------------------------------------------------------------
  // The leaf match `TreeNode\((\d+)\)`

  predicate LeafAt(s: string, i: nat)
  {
    && i + 9 <= |s| && s[i..i + 9] == "TreeNode("
    && DigitRun(s[i + 9..]) > 0
    && i + 9 + DigitRun(s[i + 9..]) < |s|
    && s[i + 9 + DigitRun(s[i + 9..])] == ')'
  }

  /** The digits captured by the leftmost match of `TreeNode\((\d+)\)` at or
      after `from`, if any. */
  function LeafValueFrom(s: string, from: nat): (r: Option<string>)
    decreases |s| + 1 - from
  {
    if from + 9 > |s| then None
    else if LeafAt(s, from) then Some(s[from + 9..from + 9 + DigitRun(s[from + 9..])])
    else LeafValueFrom(s, from + 1)
  }

  function LeafValue(s: string): Option<string>
  {
    LeafValueFrom(s, 0)
  }

  /** The leaf match succeeds exactly when some position holds
      `TreeNode(<digits>)`. */
  lemma {:induction false} LeafValueFound(s: string, from: nat)
    ensures LeafValueFrom(s, from).Some? <==> exists j: nat :: from <= j && LeafAt(s, j)
    decreases |s| + 1 - from
  {
    if from + 9 > |s| {
    } else if LeafAt(s, from) {
    } else {
      LeafValueFound(s, from + 1);
      if exists j: nat :: from <= j && LeafAt(s, j) {
        var j: nat :| from <= j && LeafAt(s, j);
        assert j != from;
      }
    }
  }

  /** What the match captures is a non-empty run of digits. */
  lemma {:induction false} LeafValueDigits(s: string, from: nat)
    ensures LeafValueFrom(s, from).Some? ==>
      var v := LeafValueFrom(s, from).value;
      v != [] && forall k :: 0 <= k < |v| ==> IsDigit(v[k])
    decreases |s| + 1 - from
  {
    if from + 9 <= |s| {
      if LeafAt(s, from) {
        DigitRunSpec(s[from + 9..]);
      } else {
        LeafValueDigits(s, from + 1);
      }
    }
  }

  /** The match is unanchored: a literal `TreeNode(5, TreeNode(3))` yields
      its first leaf `3`, not its root value. */
  lemma {:induction false} LeafValueUnanchored(s: string)
    requires s == "TreeNode(5, TreeNode(3))"
    ensures LeafValue(s) == Some("3")
  {
    NoLeafBefore12(s);
    LeafAt12(s);
    LeafSkip(s, 0, 12);
  }

  lemma {:induction false} NoLeafBefore12(s: string)
    requires s == "TreeNode(5, TreeNode(3))"
    ensures forall j :: 0 <= j < 12 ==> !LeafAt(s, j)
  {
    DigitRunOne(s[9..]);
    assert s[9 + 1] == ',';
    forall j | 1 <= j < 12 ensures !LeafAt(s, j) {
      assert s[j] != 'T' by {
        assert j == 1 || j == 2 || j == 3 || j == 4 || j == 5 || j == 6
            || j == 7 || j == 8 || j == 9 || j == 10 || j == 11;
      }
      NotLeafAt(s, j);
    }
  }

  /** A position not holding `T` does not start the match. */
  lemma {:induction false} NotLeafAt(s: string, j: nat)
    requires j < |s| && s[j] != 'T'
    ensures !LeafAt(s, j)
  {
    if j + 9 <= |s| {
      assert s[j..j + 9][0] == s[j];
    }
  }

  lemma {:induction false} DigitRunOne(t: string)
    requires |t| >= 2 && IsDigit(t[0]) && !IsDigit(t[1])
    ensures DigitRun(t) == 1
  {
    assert t[1..][0] == t[1];
  }

  lemma {:induction false} LeafAt12(s: string)
    requires s == "TreeNode(5, TreeNode(3))"
    ensures LeafValueFrom(s, 12) == Some("3")
  {
    DigitRunOne(s[21..]);
    assert s[12..21] == "TreeNode(";
    assert LeafAt(s, 12);
    assert s[21..22] == "3";
  }

  lemma {:induction false} LeafSkip(s: string, from: nat, to: nat)
    requires from <= to && forall j :: from <= j < to ==> !LeafAt(s, j)
    requires to + 9 <= |s|
    ensures LeafValueFrom(s, from) == LeafValueFrom(s, to)
    decreases (to as int) - (from as int)
  {
    if from < to {
      LeafSkip(s, from + 1, to);
    }
  }
}
