/**
  The per-method prefix tree over path segments (gee's `node`).

  A node owns its children outright (no sharing, no back-pointers), so the tree is
  modelled as a value: `Insert` returns the updated subtree where the source
  updates the nodes on the insertion path in place.
 */
module Trie {
  import opened Options

  datatype Node = Node(pattern: string, part: string, children: seq<Node>, isWild: bool)

  /** `&node{}`: the root a router creates for a method it has not seen. */
  function Root(): Node
  {
    Node("", "", [], false)
  }

  /** A segment that starts with ':' or '*' is a parameter or a catch-all. */
  predicate IsWildPart(part: string)
  {
    |part| > 0 && (part[0] == ':' || part[0] == '*')
  }

  /** `strings.HasPrefix(part, "*")`. */
  predicate IsCatchAll(part: string)
  {
    |part| > 0 && part[0] == '*'
  }

  /** The child `insert` creates for a segment no child matches. */
  function NewChild(part: string): (c: Node)
    ensures c.part == part && c.pattern == "" && c.children == []
    ensures c.isWild <==> IsWildPart(part)
  {
    Node("", part, [], IsWildPart(part))
  }

  /** The test shared by `matchChild` and `matchChildren`. */
  predicate Matches(child: Node, part: string)
  {
    child.part == part || child.isWild
  }

  // ---------------------------------------------------------------------------
  // matchChild / matchChildren

  /** The index of the first child, in slice order, that matches `part`. */
  function FirstMatch(cs: seq<Node>, part: string): (r: Option<nat>)
    ensures r.Some? ==> r.value < |cs| && Matches(cs[r.value], part)
    ensures r.Some? ==> forall j :: 0 <= j < r.value ==> !Matches(cs[j], part)
    ensures r.None? <==> forall j :: 0 <= j < |cs| ==> !Matches(cs[j], part)
  {
    if cs == [] then None
    else
      var init := cs[..|cs| - 1];
      match FirstMatch(init, part)
      case Some(i) => Some(i)
      case None => if Matches(cs[|cs| - 1], part) then Some(|cs| - 1) else None
  }

  /** `matchChild`: the first matching child, or nothing. */
  method MatchChild(children: seq<Node>, part: string) returns (child: Option<Node>)
    ensures child.None? <==> forall j :: 0 <= j < |children| ==> !Matches(children[j], part)
    ensures child.Some? ==> FirstMatch(children, part).Some? &&
                            child.value == children[FirstMatch(children, part).value]
  {
    for i := 0 to |children|
      invariant forall j :: 0 <= j < i ==> !Matches(children[j], part)
    {
      if children[i].part == part || children[i].isWild {
        return Some(children[i]);
      }
    }
    return None;
  }

  /** The order-preserving filter of `cs` by `Matches`. */
  function MatchingChildren(cs: seq<Node>, part: string): (r: seq<Node>)
    ensures |r| <= |cs|
    ensures forall x :: x in r ==> x in cs && Matches(x, part)
    ensures forall x :: x in cs && Matches(x, part) ==> x in r
  {
    if cs == [] then []
    else
      var last := cs[|cs| - 1];
      assert forall x :: x in cs ==> x in cs[..|cs| - 1] || x == last;
      MatchingChildren(cs[..|cs| - 1], part) + (if Matches(last, part) then [last] else [])
  }

  /** `matchChildren`: every matching child, in slice order. */
  method MatchChildren(children: seq<Node>, part: string) returns (nodes: seq<Node>)
    ensures nodes == MatchingChildren(children, part)
  {
    nodes := [];
    for i := 0 to |children|
      invariant nodes == MatchingChildren(children[..i], part)
    {
      assert children[..i + 1][..i] == children[..i];
      if children[i].part == part || children[i].isWild {
        nodes := nodes + [children[i]];
      }
    }
    assert children[..|children|] == children;
  }

  /** `matchChild` picks the head of what `matchChildren` returns. */
  lemma {:induction false} FirstMatchIsHead(cs: seq<Node>, part: string)
    ensures FirstMatch(cs, part).None? <==> MatchingChildren(cs, part) == []
    ensures FirstMatch(cs, part).Some? ==>
              MatchingChildren(cs, part)[0] == cs[FirstMatch(cs, part).value]
  {
    if cs != [] {
      FirstMatchIsHead(cs[..|cs| - 1], part);
    }
  }

  /** `FirstMatch` only looks at which children match. */
  lemma {:induction false} FirstMatchCongruent(a: seq<Node>, b: seq<Node>, part: string)
    requires |a| == |b|
    requires forall j :: 0 <= j < |a| ==> (Matches(a[j], part) <==> Matches(b[j], part))
    ensures FirstMatch(a, part) == FirstMatch(b, part)
  {
    if a != [] {
      FirstMatchCongruent(a[..|a| - 1], b[..|b| - 1], part);
    }
  }

  // ---------------------------------------------------------------------------
  // insert

  /** Segments produced by `parsePattern` are never empty. */
  predicate PartsOK(parts: seq<string>)
  {
    forall i :: 0 <= i < |parts| ==> parts[i] != ""
  }

  /** `n.insert(pattern, parts, height)`: the subtree after the insertion. */
  function Insert(n: Node, pattern: string, parts: seq<string>, height: nat): (r: Node)
    requires height <= |parts| && PartsOK(parts)
    decreases |parts| - height
    ensures r.part == n.part && r.isWild == n.isWild
    ensures height == |parts| ==> r == n.(pattern := pattern)
    ensures height < |parts| ==> r.pattern == n.pattern
    ensures |n.children| <= |r.children| <= |n.children| + 1
    ensures forall j :: 0 <= j < |n.children| ==>
              r.children[j].part == n.children[j].part && r.children[j].isWild == n.children[j].isWild
    ensures height < |parts| ==>
              forall j :: 0 <= j < |n.children| && FirstMatch(n.children, parts[height]) != Some(j) ==>
                r.children[j] == n.children[j]
    ensures |r.children| > |n.children| ==>
              height < |parts| && FirstMatch(n.children, parts[height]).None? &&
              r.children[|n.children|].part == parts[height] &&
              (r.children[|n.children|].isWild <==> IsWildPart(parts[height]))
  {
    if |parts| == height then n.(pattern := pattern)
    else
      var part := parts[height];
      match FirstMatch(n.children, part)
      case Some(i) => n.(children := n.children[i := Insert(n.children[i], pattern, parts, height + 1)])
      case None => n.(children := n.children + [Insert(NewChild(part), pattern, parts, height + 1)])
  }

  /** The node `insert` ends at: follow the first matching child level by level. */
  function InsertPath(n: Node, parts: seq<string>, height: nat): Option<Node>
    requires height <= |parts|
    decreases |parts| - height
  {
    if |parts| == height then Some(n)
    else
      match FirstMatch(n.children, parts[height])
      case None => None
      case Some(i) => InsertPath(n.children[i], parts, height + 1)
  }

  /** Last insert wins: after `insert`, the node its path ends at carries the new pattern,
      whatever pattern (if any) an earlier registration left there. */
  lemma {:induction false} InsertThenFind(n: Node, pattern: string, parts: seq<string>, height: nat)
    requires height <= |parts| && PartsOK(parts)
    decreases |parts| - height
    ensures InsertPath(Insert(n, pattern, parts, height), parts, height).Some?
    ensures InsertPath(Insert(n, pattern, parts, height), parts, height).value.pattern == pattern
  {
    if |parts| > height {
      var part := parts[height];
      var r := Insert(n, pattern, parts, height);
      match FirstMatch(n.children, part)
      case Some(i) =>
        FirstMatchCongruent(n.children, r.children, part);
        InsertThenFind(n.children[i], pattern, parts, height + 1);
      case None =>
        assert r.children[..|r.children| - 1] == n.children;
        InsertThenFind(NewChild(part), pattern, parts, height + 1);
    }
  }

  // ---------------------------------------------------------------------------
  // Tree membership and invariants

  /** `x` is `n` or a node below it. */
  ghost predicate InTree(x: Node, n: Node)
    decreases n
  {
    x == n || exists i :: 0 <= i < |n.children| && InTree(x, n.children[i])
  }

  lemma {:induction false} InTreeOfLeaf(x: Node, part: string)
    requires InTree(x, NewChild(part))
    ensures x == NewChild(part)
  {
  }

  lemma {:induction false} InsertPathInTree(n: Node, parts: seq<string>, height: nat)
    requires height <= |parts|
    requires InsertPath(n, parts, height).Some?
    decreases |parts| - height
    ensures InTree(InsertPath(n, parts, height).value, n)
  {
    if |parts| > height {
      var i := FirstMatch(n.children, parts[height]).value;
      InsertPathInTree(n.children[i], parts, height + 1);
    }
  }

  /** Insertion only adds the inserted pattern: every node of the new tree carries it,
      no pattern, or a pattern some node of the old tree already had. */
  lemma {:induction false} InsertKeepsPatterns(n: Node, pattern: string, parts: seq<string>, height: nat, x: Node)
    requires height <= |parts| && PartsOK(parts)
    requires InTree(x, Insert(n, pattern, parts, height))
    decreases |parts| - height, 1
    ensures x.pattern == pattern || x.pattern == "" || exists y :: InTree(y, n) && y.pattern == x.pattern
  {
    var r := Insert(n, pattern, parts, height);
    if x == r {
      if height < |parts| {
        assert InTree(n, n);
      }
    } else {
      var j :| 0 <= j < |r.children| && InTree(x, r.children[j]);
      if height == |parts| {
        assert InTree(x, n);
      } else {
        InsertKeepsPatternsBelow(n, pattern, parts, height, x, j);
      }
    }
  }

  /** The step of `InsertKeepsPatterns` for a node below child j of the new tree. */
  lemma {:induction false} InsertKeepsPatternsBelow(n: Node, pattern: string, parts: seq<string>, height: nat, x: Node, j: nat)
    requires height < |parts| && PartsOK(parts)
    requires j < |Insert(n, pattern, parts, height).children|
    requires InTree(x, Insert(n, pattern, parts, height).children[j])
    decreases |parts| - height, 0
    ensures x.pattern == pattern || x.pattern == "" || exists y :: InTree(y, n) && y.pattern == x.pattern
  {
    var r := Insert(n, pattern, parts, height);
    var part := parts[height];
    match FirstMatch(n.children, part)
    case Some(i) =>
      if j == i {
        assert r.children[i] == Insert(n.children[i], pattern, parts, height + 1);
        InsertKeepsPatterns(n.children[i], pattern, parts, height + 1, x);
        if x.pattern != pattern && x.pattern != "" {
          var y :| InTree(y, n.children[i]) && y.pattern == x.pattern;
          assert InTree(y, n);
        }
      } else {
        assert r.children[j] == n.children[j];
        assert InTree(x, n);
      }
    case None =>
      if j < |n.children| {
        assert r.children[j] == n.children[j];
        assert InTree(x, n);
      } else {
        assert r.children[j] == Insert(NewChild(part), pattern, parts, height + 1);
        InsertKeepsPatterns(NewChild(part), pattern, parts, height + 1, x);
        if x.pattern != pattern && x.pattern != "" {
          var y :| InTree(y, NewChild(part)) && y.pattern == x.pattern;
          InTreeOfLeaf(y, part);
        }
      }
  }

  /** The converse: insertion loses no registered pattern, except the one it overwrites at
      the end of its own path. */
  lemma {:induction false} InsertKeepsOldPatterns(n: Node, pattern: string, parts: seq<string>, height: nat, y: Node)
    requires height <= |parts| && PartsOK(parts)
    requires InTree(y, n) && y.pattern != "" && InsertPath(n, parts, height) != Some(y)
    decreases |parts| - height, 1
    ensures exists x :: InTree(x, Insert(n, pattern, parts, height)) && x.pattern == y.pattern
  {
    var r := Insert(n, pattern, parts, height);
    if y == n {
      assert InTree(r, r) && r.pattern == y.pattern;
    } else {
      var k :| 0 <= k < |n.children| && InTree(y, n.children[k]);
      InsertKeepsOldPatternsBelow(n, pattern, parts, height, y, k);
    }
  }

  /** The step of `InsertKeepsOldPatterns` for an old node below child k. */
  lemma {:induction false} InsertKeepsOldPatternsBelow(n: Node, pattern: string, parts: seq<string>, height: nat, y: Node, k: nat)
    requires height <= |parts| && PartsOK(parts)
    requires k < |n.children| && InTree(y, n.children[k]) && y.pattern != ""
    requires InsertPath(n, parts, height) != Some(y)
    decreases |parts| - height, 0
    ensures exists x :: InTree(x, Insert(n, pattern, parts, height)) && x.pattern == y.pattern
  {
    var r := Insert(n, pattern, parts, height);
    if |parts| == height || FirstMatch(n.children, parts[height]) != Some(k) {
      assert r.children[k] == n.children[k];
      assert InTree(y, r.children[k]);
      assert InTree(y, r);
    } else {
      var c := Insert(n.children[k], pattern, parts, height + 1);
      InsertKeepsOldPatterns(n.children[k], pattern, parts, height + 1, y);
      var x :| InTree(x, c) && x.pattern == y.pattern;
      assert r.children[k] == c;
      assert InTree(x, r);
    }
  }

  /** Every node's `isWild` agrees with its segment (the root's empty segment is not wild). */
  ghost predicate WildOK(n: Node)
    decreases n
  {
    (n.isWild <==> IsWildPart(n.part)) &&
    forall i :: 0 <= i < |n.children| ==> WildOK(n.children[i])
  }

  lemma {:induction false} InsertKeepsWild(n: Node, pattern: string, parts: seq<string>, height: nat)
    requires height <= |parts| && PartsOK(parts)
    requires WildOK(n)
    decreases |parts| - height
    ensures WildOK(Insert(n, pattern, parts, height))
  {
    if |parts| > height {
      var part := parts[height];
      var r := Insert(n, pattern, parts, height);
      match FirstMatch(n.children, part)
      case Some(i) =>
        InsertKeepsWild(n.children[i], pattern, parts, height + 1);
        assert forall j :: 0 <= j < |r.children| ==> WildOK(r.children[j]) by {
          forall j | 0 <= j < |r.children| ensures WildOK(r.children[j]) {
            if j != i { assert r.children[j] == n.children[j]; }
          }
        }
      case None =>
        InsertKeepsWild(NewChild(part), pattern, parts, height + 1);
        assert forall j :: 0 <= j < |r.children| ==> WildOK(r.children[j]) by {
          forall j | 0 <= j < |r.children| ensures WildOK(r.children[j]) {
            if j < |n.children| { assert r.children[j] == n.children[j]; }
          }
        }
    }
  }

  // ---------------------------------------------------------------------------
  // search

  /** `n.search(parts, height)`: depth-first over the matching children, in order,
      the first non-nil answer winning. */
  function SearchNode(n: Node, parts: seq<string>, height: nat): (r: Option<Node>)
    requires height <= |parts|
    decreases n, 1, 0
    ensures r.Some? ==> r.value.pattern != ""
  {
    if |parts| == height || IsCatchAll(n.part) then
      (if n.pattern == "" then None else Some(n))
    else
      SearchList(n, MatchingChildren(n.children, parts[height]), parts, height + 1)
  }

  /** The `for _, child := range children` loop of `search`. */
  function SearchList(parent: Node, cs: seq<Node>, parts: seq<string>, height: nat): (r: Option<Node>)
    requires height <= |parts|
    requires forall c :: c in cs ==> c in parent.children
    decreases parent, 0, |cs|
    ensures r.Some? ==> r.value.pattern != ""
  {
    if cs == [] then None
    else
      assert cs[0] in parent.children;
      match SearchNode(cs[0], parts, height)
      case Some(x) => Some(x)
      case None => SearchList(parent, cs[1..], parts, height)
  }

  /** The search as the Go code does it: a recursive method with a loop over `matchChildren`. */
  method Search(n: Node, parts: seq<string>, height: nat) returns (r: Option<Node>)
    requires height <= |parts|
    decreases n
    ensures r == SearchNode(n, parts, height)
  {
    if |parts| == height || (|n.part| > 0 && n.part[0] == '*') {
      if n.pattern == "" {
        return None;
      }
      return Some(n);
    }
    var children := MatchChildren(n.children, parts[height]);
    var i := 0;
    while i < |children|
      invariant 0 <= i <= |children|
      invariant SearchNode(n, parts, height) == SearchList(n, children[i..], parts, height + 1)
    {
      assert children[i] in n.children;
      var result := Search(children[i], parts, height + 1);
      if result.Some? {
        return result;
      }
      assert children[i..][1..] == children[i + 1..];
      i := i + 1;
    }
    return None;
  }

  /** The walk `search` follows: stop after the last part or at a catch-all node,
      otherwise step to a child that matches the next part literally or by being wild. */
  ghost predicate Reaches(n: Node, parts: seq<string>, height: nat, r: Node)
    requires height <= |parts|
    decreases n
  {
    if |parts| == height || IsCatchAll(n.part) then r == n
    else exists i :: 0 <= i < |n.children| && Matches(n.children[i], parts[height]) &&
                     Reaches(n.children[i], parts, height + 1, r)
  }

  /** Search soundness: a node `search` returns is reached by a matching walk. */
  lemma {:induction false} SearchSound(n: Node, parts: seq<string>, height: nat)
    requires height <= |parts|
    requires SearchNode(n, parts, height).Some?
    decreases n, 1, 0
    ensures Reaches(n, parts, height, SearchNode(n, parts, height).value)
  {
    if !(|parts| == height || IsCatchAll(n.part)) {
      SearchListSound(n, MatchingChildren(n.children, parts[height]), parts, height + 1);
    }
  }

  lemma {:induction false} SearchListSound(parent: Node, cs: seq<Node>, parts: seq<string>, height: nat)
    requires 1 <= height <= |parts|
    requires forall c :: c in cs ==> c in parent.children && Matches(c, parts[height - 1])
    requires SearchList(parent, cs, parts, height).Some?
    decreases parent, 0, |cs|
    ensures exists i :: 0 <= i < |parent.children| && Matches(parent.children[i], parts[height - 1]) &&
                        Reaches(parent.children[i], parts, height, SearchList(parent, cs, parts, height).value)
  {
    var r := SearchList(parent, cs, parts, height).value;
    if SearchNode(cs[0], parts, height).Some? {
      assert cs[0] in parent.children;
      SearchSound(cs[0], parts, height);
      var i :| 0 <= i < |parent.children| && parent.children[i] == cs[0];
      assert Reaches(parent.children[i], parts, height, r);
    } else {
      SearchListSound(parent, cs[1..], parts, height);
    }
  }

  /** Search completeness: if any matching walk ends at a registered node,
      `search` returns some registered node (it backtracks over every matching child). */
  lemma {:induction false} SearchComplete(n: Node, parts: seq<string>, height: nat, r: Node)
    requires height <= |parts|
    requires Reaches(n, parts, height, r) && r.pattern != ""
    decreases n
    ensures SearchNode(n, parts, height).Some?
  {
    if !(|parts| == height || IsCatchAll(n.part)) {
      var i :| 0 <= i < |n.children| && Matches(n.children[i], parts[height]) &&
                Reaches(n.children[i], parts, height + 1, r);
      SearchComplete(n.children[i], parts, height + 1, r);
      var cs := MatchingChildren(n.children, parts[height]);
      SearchListFindsAny(n, cs, parts, height + 1, n.children[i]);
    }
  }

  lemma {:induction false} SearchListFindsAny(parent: Node, cs: seq<Node>, parts: seq<string>, height: nat, c: Node)
    requires height <= |parts|
    requires forall x :: x in cs ==> x in parent.children
    requires c in cs && SearchNode(c, parts, height).Some?
    decreases |cs|
    ensures SearchList(parent, cs, parts, height).Some?
  {
    if cs[0] != c && SearchNode(cs[0], parts, height).None? {
      SearchListFindsAny(parent, cs[1..], parts, height, c);
    }
  }

  /** First success wins: the answer comes from the earliest matching child that has one. */
  lemma {:induction false} SearchFirstWins(parent: Node, cs: seq<Node>, parts: seq<string>, height: nat)
    requires height <= |parts|
    requires forall x :: x in cs ==> x in parent.children
    requires SearchList(parent, cs, parts, height).Some?
    decreases |cs|
    ensures exists i :: 0 <= i < |cs| && SearchNode(cs[i], parts, height) == SearchList(parent, cs, parts, height) &&
                        forall j :: 0 <= j < i ==> SearchNode(cs[j], parts, height).None?
  {
    if SearchNode(cs[0], parts, height).None? {
      SearchFirstWins(parent, cs[1..], parts, height);
      var i :| 0 <= i < |cs[1..]| && SearchNode(cs[1..][i], parts, height) == SearchList(parent, cs[1..], parts, height) &&
               forall j :: 0 <= j < i ==> SearchNode(cs[1..][j], parts, height).None?;
      assert SearchNode(cs[i + 1], parts, height) == SearchList(parent, cs, parts, height);
      assert forall j :: 0 <= j < i + 1 ==> SearchNode(cs[j], parts, height).None? by {
        forall j | 0 <= j < i + 1 ensures SearchNode(cs[j], parts, height).None? {
          if j > 0 { assert cs[j] == cs[1..][j - 1]; }
        }
      }
    } else {
      assert SearchNode(cs[0], parts, height) == SearchList(parent, cs, parts, height);
    }
  }

  lemma {:induction false} ReachesInTree(n: Node, parts: seq<string>, height: nat, r: Node)
    requires height <= |parts|
    requires Reaches(n, parts, height, r)
    decreases n
    ensures InTree(r, n)
  {
    if !(|parts| == height || IsCatchAll(n.part)) {
      var i :| 0 <= i < |n.children| && Matches(n.children[i], parts[height]) &&
                Reaches(n.children[i], parts, height + 1, r);
      ReachesInTree(n.children[i], parts, height + 1, r);
    }
  }

  // ---------------------------------------------------------------------------
  // travel

  /** What `travel` appends: the nodes with a pattern, pre-order, children in slice order. */
  function Routes(n: Node): (r: seq<Node>)
    decreases n, 1
    ensures forall x :: x in r ==> x.pattern != ""
  {
    (if n.pattern != "" then [n] else []) + RoutesFrom(n, 0)
  }

  function RoutesFrom(n: Node, i: nat): (r: seq<Node>)
    requires i <= |n.children|
    decreases n, 0, |n.children| - i
    ensures forall x :: x in r ==> x.pattern != ""
  {
    if i == |n.children| then [] else Routes(n.children[i]) + RoutesFrom(n, i + 1)
  }

  /** `n.travel(&list)`: appends to whatever the list already holds. */
  method Travel(n: Node, list: seq<Node>) returns (out: seq<Node>)
    decreases n
    ensures out == list + Routes(n)
  {
    out := list;
    if n.pattern != "" {
      out := out + [n];
    }
    for i := 0 to |n.children|
      invariant out + RoutesFrom(n, i) == list + Routes(n)
    {
      out := Travel(n.children[i], out);
    }
  }

  /** `travel` collects exactly the nodes of the tree that carry a pattern. */
  lemma {:induction false} RoutesExact(n: Node, x: Node)
    decreases n, 1
    ensures x in Routes(n) <==> InTree(x, n) && x.pattern != ""
  {
    RoutesFromExact(n, 0, x);
  }

  lemma {:induction false} RoutesFromExact(n: Node, i: nat, x: Node)
    requires i <= |n.children|
    decreases n, 0, |n.children| - i
    ensures x in RoutesFrom(n, i) <==>
              x.pattern != "" && exists j :: i <= j < |n.children| && InTree(x, n.children[j])
  {
    if i < |n.children| {
      RoutesExact(n.children[i], x);
      RoutesFromExact(n, i + 1, x);
      if x.pattern != "" && (exists j :: i <= j < |n.children| && InTree(x, n.children[j])) {
        var j :| i <= j < |n.children| && InTree(x, n.children[j]);
        if j > i {
          assert x in RoutesFrom(n, i + 1);
        }
      }
    }
  }
}
