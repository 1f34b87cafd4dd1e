/**
 * The per-method route tree of gk/trie.go.
 *
 * A node holds one path segment (`part`), the full route pattern when a route
 * ends there (`pattern`, with "" meaning "no route ends here"), its children in
 * insertion order and the flag `isWild`, fixed when the node is created.
 *
 * The datatype `Trie` is the value of a subtree; the functions over it
 * (`Inserted`, `Find`, `TerminalPaths`) are the specification, and the lemmas
 * state what the Go code promises about them. The class `Node` is the pointer
 * structure the Go code mutates; its methods are proved against those functions.
 * A node inside a tree is named by its path: the sequence of child indices
 * that leads to it from the root.
 */
module Trie {

  datatype Option<T> = None | Some(value: T)

  /** A segment registered as ":name" or "*name" makes a wildcard node (trie.go line 59). */
  predicate IsWildPart(part: string): (b: bool)
    ensures b ==> part != ""
  {
    |part| > 0 && (part[0] == ':' || part[0] == '*')
  }

  /** strings.HasPrefix(part, "*"): a catch-all node ends a search (trie.go line 26). */
  predicate IsCatchAll(part: string): (b: bool)
    ensures b ==> IsWildPart(part)
  {
    |part| > 0 && part[0] == '*'
  }

  /** The test of matchChild and matchChildren: literal equality, or any wildcard (trie.go lines 77 and 88). */
  predicate Eligible(part: string, isWild: bool, seg: string) {
    part == seg || isWild
  }

  /** The value of a subtree. */
  datatype Trie = Trie(pattern: string, part: string, isWild: bool, children: seq<Trie>)

  predicate Matches(t: Trie, seg: string) {
    Eligible(t.part, t.isWild, seg)
  }

  /** The node that insert creates for a segment that has no eligible child (trie.go line 59). */
  function Leaf(part: string): (r: Trie)
    ensures WellFormed(r) && r.part == part && r.pattern == "" && r.children == []
  {
    Trie("", part, IsWildPart(part), [])
  }

  /** Every node's isWild flag is the one its part would be given at creation. */
  ghost predicate WellFormed(t: Trie) {
    t.isWild == IsWildPart(t.part) &&
    forall i :: 0 <= i < |t.children| ==> WellFormed(t.children[i])
  }

  /** No node of the tree is a catch-all. */
  ghost predicate NoCatchAll(t: Trie) {
    !IsCatchAll(t.part) &&
    forall i :: 0 <= i < |t.children| ==> NoCatchAll(t.children[i])
  }

  /** Number of nodes. */
  function Size(t: Trie): nat
    decreases t
  {
    1 + SizeOfChildren(t, |t.children|)
  }

  function SizeOfChildren(t: Trie, n: nat): nat
    requires n <= |t.children|
    decreases t, n
  {
    if n == 0 then 0 else SizeOfChildren(t, n - 1) + Size(t.children[n - 1])
  }

  // ---------------------------------------------------------------------------
  // Paths

  predicate IsPath(t: Trie, p: seq<nat>)
    decreases p
  {
    p == [] || (p[0] < |t.children| && IsPath(t.children[p[0]], p[1..]))
  }

  function Subtree(t: Trie, p: seq<nat>): Trie
    requires IsPath(t, p)
    decreases p
  {
    if p == [] then t else Subtree(t.children[p[0]], p[1..])
  }

  // ---------------------------------------------------------------------------
  // matchChild and matchChildren

  /** Index of the first eligible child, or |kids| when there is none (matchChild, trie.go lines 75-82). */
  function FirstMatch(kids: seq<Trie>, seg: string): (k: nat)
    ensures k <= |kids|
    ensures k < |kids| ==> Matches(kids[k], seg)
    ensures forall j :: 0 <= j < k ==> !Matches(kids[j], seg)
  {
    if kids == [] then 0
    else if Matches(kids[0], seg) then 0
    else 1 + FirstMatch(kids[1..], seg)
  }

  /**
   * The indices, among the first n children, of the eligible ones, in increasing
   * order (matchChildren, trie.go lines 85-93).
   */
  function EligibleIndices(kids: seq<Trie>, seg: string, n: nat): (ix: seq<nat>)
    requires n <= |kids|
    ensures |ix| <= n
    ensures forall j :: 0 <= j < |ix| ==> ix[j] < n && Matches(kids[ix[j]], seg)
    ensures forall j, l :: 0 <= j < l < |ix| ==> ix[j] < ix[l]
    ensures forall i :: 0 <= i < n && Matches(kids[i], seg) ==> i in ix
  {
    if n == 0 then []
    else EligibleIndices(kids, seg, n - 1) + (if Matches(kids[n - 1], seg) then [n - 1] else [])
  }

  /** matchChild returns the first of the children matchChildren returns, and nil exactly when that list is empty. */
  lemma FirstMatchHeadsEligible(kids: seq<Trie>, seg: string)
    ensures var ix := EligibleIndices(kids, seg, |kids|);
            (FirstMatch(kids, seg) == |kids| <==> ix == []) &&
            (ix != [] ==> ix[0] == FirstMatch(kids, seg))
  {
    var ix := EligibleIndices(kids, seg, |kids|);
    var k := FirstMatch(kids, seg);
    if k < |kids| {
      assert k in ix;
      var j :| 0 <= j < |ix| && ix[j] == k;
      assert ix[0] <= k;
    }
    if ix != [] {
      assert Matches(kids[ix[0]], seg);
    }
  }

  // ---------------------------------------------------------------------------
  // insert

  /** The tree after insert(pattern, parts, height) at its root (trie.go lines 49-63). */
  function Inserted(t: Trie, pattern: string, parts: seq<string>, height: nat): (r: Trie)
    requires height <= |parts|
    ensures r.part == t.part && r.isWild == t.isWild
    decreases |parts| - height
  {
    if height == |parts| then t.(pattern := pattern)
    else
      var k := FirstMatch(t.children, parts[height]);
      var kids := if k < |t.children| then t.children else t.children + [Leaf(parts[height])];
      t.(children := kids[k := Inserted(kids[k], pattern, parts, height + 1)])
  }

  /**
   * insert does not panic: every segment for which it creates a node is
   * non-empty, since a new node reads the segment's first character
   * (trie.go line 59). A segment that an existing child matches may be empty.
   */
  ghost predicate InsertDefined(t: Trie, parts: seq<string>, height: nat)
    requires height <= |parts|
    decreases |parts| - height
  {
    height == |parts| ||
    var k := FirstMatch(t.children, parts[height]);
    if k < |t.children| then InsertDefined(t.children[k], parts, height + 1)
    else parts[height] != "" && InsertDefined(Leaf(parts[height]), parts, height + 1)
  }

  /** The path insert walks, ending at the node whose pattern it writes. */
  function InsertPath(t: Trie, parts: seq<string>, height: nat): (p: seq<nat>)
    requires height <= |parts|
    ensures |p| == |parts| - height
    decreases |parts| - height
  {
    if height == |parts| then []
    else
      var k := FirstMatch(t.children, parts[height]);
      var child := if k < |t.children| then t.children[k] else Leaf(parts[height]);
      [k] + InsertPath(child, parts, height + 1)
  }

  /** Non-empty segments, which the router's split produces, never make insert panic. */
  lemma {:induction false} NonEmptySegmentsInsertDefined(t: Trie, parts: seq<string>, height: nat)
    requires height <= |parts| && forall i :: height <= i < |parts| ==> parts[i] != ""
    ensures InsertDefined(t, parts, height)
    decreases |parts| - height
  {
    if height < |parts| {
      var k := FirstMatch(t.children, parts[height]);
      var child := if k < |t.children| then t.children[k] else Leaf(parts[height]);
      NonEmptySegmentsInsertDefined(child, parts, height + 1);
    }
  }

  /** An empty segment is taken by a wildcard child without panicking; with no eligible child it panics. */
  lemma EmptySegmentNeedsEligibleChild()
    ensures InsertDefined(Trie("", "", false, [Leaf(":id")]), [""], 0)
    ensures !InsertDefined(Trie("", "", false, [Leaf("users")]), [""], 0)
  {
    assert FirstMatch([Leaf("users")], "") == 1;
  }

  /** The tree with the pattern of the node at path p replaced by x, and nothing else changed. */
  function WithPattern(t: Trie, p: seq<nat>, x: string): (r: Trie)
    requires IsPath(t, p)
    decreases p
  {
    if p == [] then t.(pattern := x)
    else t.(children := t.children[p[0] := WithPattern(t.children[p[0]], p[1..], x)])
  }

  /** The old tree embeds in the new one: same part and isWild, children only appended at the end. */
  ghost predicate Grows(a: Trie, b: Trie)
    decreases a
  {
    a.part == b.part && a.isWild == b.isWild && |a.children| <= |b.children| &&
    forall i :: 0 <= i < |a.children| ==> Grows(a.children[i], b.children[i])
  }

  lemma {:induction false} GrowsReflexive(t: Trie)
    ensures Grows(t, t)
    decreases t
  {
    forall i | 0 <= i < |t.children| {
      GrowsReflexive(t.children[i]);
    }
  }

  /** insert walks to the end of parts and writes pattern on the node it ends at (trie.go lines 51-53). */
  lemma {:induction false} InsertWrites(t: Trie, pattern: string, parts: seq<string>, height: nat)
    requires height <= |parts|
    ensures var p := InsertPath(t, parts, height);
            var r := Inserted(t, pattern, parts, height);
            |p| == |parts| - height && IsPath(r, p) && Subtree(r, p).pattern == pattern
    decreases |parts| - height
  {
    if height < |parts| {
      var k := FirstMatch(t.children, parts[height]);
      var child := if k < |t.children| then t.children[k] else Leaf(parts[height]);
      InsertWrites(child, pattern, parts, height + 1);
    }
  }

  /**
   * One level of insert: a child is appended, at the end, exactly when no child
   * was eligible; the new child is a fresh leaf for the segment, and every other
   * child keeps its place and its value (trie.go lines 56-62).
   */
  lemma InsertOneLevel(t: Trie, pattern: string, parts: seq<string>, height: nat)
    requires height < |parts|
    ensures var r := Inserted(t, pattern, parts, height);
            var k := FirstMatch(t.children, parts[height]);
            r.pattern == t.pattern && r.part == t.part && r.isWild == t.isWild &&
            |r.children| == |t.children| + (if k == |t.children| then 1 else 0) &&
            (forall i :: 0 <= i < |t.children| && i != k ==> r.children[i] == t.children[i]) &&
            (k == |t.children| ==> r.children[k] == Inserted(Leaf(parts[height]), pattern, parts, height + 1)) &&
            (k < |t.children| ==> r.children[k] == Inserted(t.children[k], pattern, parts, height + 1))
  {
  }

  /** No existing node's part or isWild changes, and existing children keep their order (trie.go line 59-60). */
  lemma {:induction false} InsertedGrows(t: Trie, pattern: string, parts: seq<string>, height: nat)
    requires height <= |parts|
    ensures Grows(t, Inserted(t, pattern, parts, height))
    decreases |parts| - height
  {
    var r := Inserted(t, pattern, parts, height);
    if height == |parts| {
      GrowsReflexive(t);
      forall i | 0 <= i < |t.children| { GrowsReflexive(t.children[i]); }
    } else {
      var k := FirstMatch(t.children, parts[height]);
      forall i | 0 <= i < |t.children|
        ensures Grows(t.children[i], r.children[i])
      {
        if i == k {
          InsertedGrows(t.children[k], pattern, parts, height + 1);
        } else {
          GrowsReflexive(t.children[i]);
        }
      }
    }
  }

  /** Nodes created by insert get isWild from their first character, so well-formedness is kept (trie.go line 59). */
  lemma {:induction false} InsertedKeepsWellFormed(t: Trie, pattern: string, parts: seq<string>, height: nat)
    requires height <= |parts|
    requires WellFormed(t)
    ensures WellFormed(Inserted(t, pattern, parts, height))
    decreases |parts| - height
  {
    if height < |parts| {
      var k := FirstMatch(t.children, parts[height]);
      var child := if k < |t.children| then t.children[k] else Leaf(parts[height]);
      InsertedKeepsWellFormed(child, pattern, parts, height + 1);
    }
  }

  /**
   * A wildcard child that comes before every literal match of the segment is
   * reused: insert descends into it and adds no sibling for the literal
   * segment (trie.go lines 57 and 77).
   */
  lemma WildcardShadowsLiteral(t: Trie, pattern: string, parts: seq<string>, height: nat, w: nat)
    requires height < |parts|
    requires w < |t.children| && t.children[w].isWild
    requires forall j :: 0 <= j < w ==> !Matches(t.children[j], parts[height])
    ensures InsertPath(t, parts, height)[0] == w
    ensures var r := Inserted(t, pattern, parts, height);
            |r.children| == |t.children| &&
            forall i :: 0 <= i < |r.children| ==> r.children[i].part == t.children[i].part
  {
  }

  /** The first eligible child stays the first eligible one when it is replaced by a node with the same part and isWild. */
  lemma FirstMatchAfterUpdate(kids: seq<Trie>, seg: string, k: nat, x: Trie)
    requires k < |kids| && k == FirstMatch(kids, seg)
    requires x.part == kids[k].part && x.isWild == kids[k].isWild
    ensures FirstMatch(kids[k := x], seg) == k
  {
    var k' := FirstMatch(kids[k := x], seg);
    assert Matches(kids[k := x][k], seg);
  }

  /**
   * Re-inserting the same segments walks the same path, adds no node, and only
   * overwrites the pattern of the end node (trie.go lines 49-63).
   */
  lemma {:induction false} ReinsertOnlyOverwritesPattern(t: Trie, p1: string, p2: string, parts: seq<string>, height: nat)
    requires height <= |parts|
    ensures var u := Inserted(t, p1, parts, height);
            InsertPath(u, parts, height) == InsertPath(t, parts, height) &&
            IsPath(u, InsertPath(t, parts, height)) &&
            Inserted(u, p2, parts, height) == WithPattern(u, InsertPath(t, parts, height), p2)
    decreases |parts| - height
  {
    if height < |parts| {
      var seg := parts[height];
      var u := Inserted(t, p1, parts, height);
      var k := FirstMatch(t.children, seg);
      var child := if k < |t.children| then t.children[k] else Leaf(seg);
      var q := InsertPath(child, parts, height + 1);
      InsertedDescent(t, p1, parts, height);
      InsertedDescent(u, p2, parts, height);
      ReinsertOnlyOverwritesPattern(child, p1, p2, parts, height + 1);
      assert ([k] + q)[1..] == q;
    }
  }

  /** Replacing the pattern of one node keeps the number of nodes. */
  lemma {:induction false} WithPatternKeepsSize(t: Trie, p: seq<nat>, x: string)
    requires IsPath(t, p)
    ensures Size(WithPattern(t, p, x)) == Size(t)
    decreases p
  {
    var r := WithPattern(t, p, x);
    if p != [] {
      WithPatternKeepsSize(t.children[p[0]], p[1..], x);
      assert r.children == t.children[p[0] := WithPattern(t.children[p[0]], p[1..], x)];
    }
    SizeOfChildrenEqual(t, r, |t.children|);
  }

  /** Trees whose children have pairwise the same number of nodes have equally many nodes below the first n children. */
  lemma {:induction false} SizeOfChildrenEqual(t: Trie, u: Trie, n: nat)
    requires |t.children| == |u.children| && n <= |t.children|
    requires forall i :: 0 <= i < |t.children| ==> Size(t.children[i]) == Size(u.children[i])
    ensures SizeOfChildren(t, n) == SizeOfChildren(u, n)
    decreases n
  {
    if n > 0 {
      SizeOfChildrenEqual(t, u, n - 1);
    }
  }

  /** Registering the same segments a second time adds no node (trie.go lines 51-57). */
  lemma ReinsertAddsNoNode(t: Trie, p1: string, p2: string, parts: seq<string>, height: nat)
    requires height <= |parts|
    ensures var u := Inserted(t, p1, parts, height);
            Size(Inserted(u, p2, parts, height)) == Size(u)
  {
    ReinsertOnlyOverwritesPattern(t, p1, p2, parts, height);
    var u := Inserted(t, p1, parts, height);
    WithPatternKeepsSize(u, InsertPath(t, parts, height), p2);
  }

  // ---------------------------------------------------------------------------
  // search

  /**
   * The path of the node search(parts, height) returns, or None for nil
   * (trie.go lines 24-44): it stops when the segments run out or at a
   * catch-all node, answering only if a pattern ends there; otherwise it tries
   * the eligible children in order and backtracks past those that fail.
   */
  function Find(t: Trie, parts: seq<string>, height: nat): (r: Option<seq<nat>>)
    requires height <= |parts|
    ensures r.Some? ==> |r.value| <= |parts| - height
    decreases t, |t.children| + 1
  {
    if height == |parts| || IsCatchAll(t.part) then
      if t.pattern == "" then None else Some([])
    else
      FindAmong(t, parts, height, EligibleIndices(t.children, parts[height], |t.children|))
  }

  /** The loop of search over the candidate children with indices ix (trie.go lines 36-43). */
  function FindAmong(t: Trie, parts: seq<string>, height: nat, ix: seq<nat>): (r: Option<seq<nat>>)
    requires height < |parts|
    requires forall j :: 0 <= j < |ix| ==> ix[j] < |t.children|
    ensures r.Some? ==> r.value != [] && r.value[0] in ix && |r.value| <= |parts| - height
    decreases t, |ix|
  {
    if ix == [] then None
    else match Find(t.children[ix[0]], parts, height + 1)
      case Some(p) => Some([ix[0]] + p)
      case None => FindAmong(t, parts, height, ix[1..])
  }

  /**
   * A route for parts, from height on, ends at path p: each step goes to a child
   * eligible for the next segment, the walk goes on while segments remain and
   * the node is not a catch-all, and the node reached has a pattern.
   */
  ghost predicate Fits(t: Trie, parts: seq<string>, height: nat, p: seq<nat>): (b: bool)
    requires height <= |parts|
    ensures b ==> |p| <= |parts| - height
    decreases p
  {
    if p == [] then
      (height == |parts| || IsCatchAll(t.part)) && t.pattern != ""
    else
      height < |parts| && !IsCatchAll(t.part) &&
      p[0] < |t.children| && Matches(t.children[p[0]], parts[height]) &&
      Fits(t.children[p[0]], parts, height + 1, p[1..])
  }

  /**
   * A path that fits ends at a registered route, after consuming every segment
   * or at a catch-all node that leaves the remaining segments unconsumed.
   */
  lemma {:induction false} FitsEndsAtRoute(t: Trie, parts: seq<string>, height: nat, p: seq<nat>)
    requires height <= |parts|
    requires Fits(t, parts, height, p)
    ensures IsPath(t, p) && Subtree(t, p).pattern != ""
    ensures |p| <= |parts| - height
    ensures |p| < |parts| - height ==> IsCatchAll(Subtree(t, p).part)
    decreases p
  {
    if p != [] {
      FitsEndsAtRoute(t.children[p[0]], parts, height + 1, p[1..]);
    }
  }

  /** Search only answers with a path that fits: a node whose pattern is not empty (trie.go lines 26-31). */
  lemma {:induction false} FindSound(t: Trie, parts: seq<string>, height: nat)
    requires height <= |parts|
    ensures Find(t, parts, height).Some? ==> Fits(t, parts, height, Find(t, parts, height).value)
    decreases t, |t.children| + 1
  {
    if !(height == |parts| || IsCatchAll(t.part)) {
      FindAmongSound(t, parts, height, EligibleIndices(t.children, parts[height], |t.children|));
    }
  }

  lemma {:induction false} FindAmongSound(t: Trie, parts: seq<string>, height: nat, ix: seq<nat>)
    requires height < |parts| && !IsCatchAll(t.part)
    requires forall j :: 0 <= j < |ix| ==> ix[j] < |t.children| && Matches(t.children[ix[j]], parts[height])
    ensures FindAmong(t, parts, height, ix).Some? ==> Fits(t, parts, height, FindAmong(t, parts, height, ix).value)
    decreases t, |ix|
  {
    if ix != [] {
      FindSound(t.children[ix[0]], parts, height + 1);
      if Find(t.children[ix[0]], parts, height + 1).Some? {
        var q := [ix[0]] + Find(t.children[ix[0]], parts, height + 1).value;
        assert q[1..] == Find(t.children[ix[0]], parts, height + 1).value;
      } else {
        FindAmongSound(t, parts, height, ix[1..]);
      }
    }
  }

  /**
   * Backtracking makes search complete: whenever some path fits, search finds
   * one, even if an earlier eligible child dead-ends (trie.go lines 36-41).
   */
  lemma {:induction false} FindComplete(t: Trie, parts: seq<string>, height: nat, p: seq<nat>)
    requires height <= |parts|
    requires Fits(t, parts, height, p)
    ensures Find(t, parts, height).Some?
    decreases t, |t.children| + 1
  {
    if p != [] {
      var ix := EligibleIndices(t.children, parts[height], |t.children|);
      assert p[0] in ix;
      var j :| 0 <= j < |ix| && ix[j] == p[0];
      FindAmongComplete(t, parts, height, ix, j, p);
    }
  }

  lemma {:induction false} FindAmongComplete(t: Trie, parts: seq<string>, height: nat, ix: seq<nat>, j: nat, p: seq<nat>)
    requires height < |parts|
    requires forall l :: 0 <= l < |ix| ==> ix[l] < |t.children|
    requires j < |ix| && p != [] && p[0] == ix[j]
    requires Fits(t, parts, height, p)
    ensures FindAmong(t, parts, height, ix).Some?
    decreases t, |ix|
  {
    if Find(t.children[ix[0]], parts, height + 1).None? {
      if j == 0 {
        FindComplete(t.children[p[0]], parts, height + 1, p[1..]);
      } else {
        FindAmongComplete(t, parts, height, ix[1..], j - 1, p);
      }
    }
  }

  /**
   * When several routes fit, search answers the first in pre-order: the
   * eligible children are tried depth first in child order, so a route
   * registered earlier under a wildcard wins over a later literal one
   * (trie.go lines 33-41).
   */
  lemma {:induction false} FindFirst(t: Trie, parts: seq<string>, height: nat, q: seq<nat>)
    requires height <= |parts|
    requires Find(t, parts, height).Some? && Fits(t, parts, height, q)
    ensures var p := Find(t, parts, height).value; q == p || PreorderBefore(p, q)
    decreases t, |t.children| + 1
  {
    if q != [] {
      var ix := EligibleIndices(t.children, parts[height], |t.children|);
      assert q[0] in ix;
      FindAmongFirst(t, parts, height, ix, q);
    }
  }

  lemma {:induction false} FindAmongFirst(t: Trie, parts: seq<string>, height: nat, ix: seq<nat>, q: seq<nat>)
    requires height < |parts|
    requires forall l :: 0 <= l < |ix| ==> ix[l] < |t.children|
    requires forall j, l :: 0 <= j < l < |ix| ==> ix[j] < ix[l]
    requires FindAmong(t, parts, height, ix).Some?
    requires Fits(t, parts, height, q) && q != [] && q[0] in ix
    ensures var p := FindAmong(t, parts, height, ix).value; q == p || PreorderBefore(p, q)
    decreases t, |ix|
  {
    var child := t.children[ix[0]];
    if q[0] == ix[0] {
      if Find(child, parts, height + 1).None? {
        FindComplete(child, parts, height + 1, q[1..]);
        assert false;
      }
      FindFirst(child, parts, height + 1, q[1..]);
      var p := FindAmong(t, parts, height, ix).value;
      assert p[0] == q[0] && p[1..] == Find(child, parts, height + 1).value;
    } else {
      var j :| 0 <= j < |ix| && ix[j] == q[0];
      assert ix[0] < q[0];
      if Find(child, parts, height + 1).None? {
        assert q[0] in ix[1..];
        FindAmongFirst(t, parts, height, ix[1..], q);
      }
    }
  }

  /** The child insert descends into stays the first eligible child of the new tree. */
  lemma InsertedDescent(t: Trie, pattern: string, parts: seq<string>, height: nat)
    requires height < |parts|
    ensures var seg := parts[height];
            var r := Inserted(t, pattern, parts, height);
            var k := FirstMatch(t.children, seg);
            var child := if k < |t.children| then t.children[k] else Leaf(seg);
            r.part == t.part && k < |r.children| && FirstMatch(r.children, seg) == k &&
            r.children[k] == Inserted(child, pattern, parts, height + 1) &&
            InsertPath(t, parts, height) == [k] + InsertPath(child, parts, height + 1)
  {
    var seg := parts[height];
    var k := FirstMatch(t.children, seg);
    var kids := if k < |t.children| then t.children else t.children + [Leaf(seg)];
    if k == |t.children| {
      assert Matches(kids[k], seg);
      assert forall j :: 0 <= j < k ==> kids[j] == t.children[j];
    }
    assert FirstMatch(kids, seg) == k;
    FirstMatchAfterUpdate(kids, seg, k, Inserted(kids[k], pattern, parts, height + 1));
  }

  /**
   * In a tree without catch-all nodes, inserting a non-empty pattern and then
   * searching for the same segments finds exactly the node insert wrote
   * (trie.go lines 24-63).
   */
  lemma {:induction false} InsertThenFind(t: Trie, pattern: string, parts: seq<string>, height: nat)
    requires height <= |parts|
    requires NoCatchAll(t) && forall i :: height <= i < |parts| ==> !IsCatchAll(parts[i])
    requires pattern != ""
    ensures Find(Inserted(t, pattern, parts, height), parts, height) == Some(InsertPath(t, parts, height))
    decreases |parts| - height
  {
    if height < |parts| {
      var seg := parts[height];
      var r := Inserted(t, pattern, parts, height);
      var k := FirstMatch(t.children, seg);
      var child := if k < |t.children| then t.children[k] else Leaf(seg);
      InsertedDescent(t, pattern, parts, height);
      assert NoCatchAll(child);
      InsertThenFind(child, pattern, parts, height + 1);
      FirstMatchHeadsEligible(r.children, seg);
      var ix := EligibleIndices(r.children, seg, |r.children|);
      assert ix[0] == k;
      assert FindAmong(r, parts, height, ix) == Some([k] + InsertPath(child, parts, height + 1));
    }
  }

  // ---------------------------------------------------------------------------
  // travel

  /** The paths of the nodes travel appends, in the order it appends them (trie.go lines 65-72). */
  function TerminalPaths(t: Trie): (r: seq<seq<nat>>)
    ensures t.pattern != "" ==> r != [] && r[0] == []
    decreases t, |t.children| + 1
  {
    (if t.pattern != "" then [[]] else []) + ChildTerminalPaths(t, |t.children|)
  }

  /** The paths travel appends while visiting the first n children. */
  function ChildTerminalPaths(t: Trie, n: nat): (r: seq<seq<nat>>)
    requires n <= |t.children|
    decreases t, n
  {
    if n == 0 then [] else ChildTerminalPaths(t, n - 1) + Prefixed(n - 1, TerminalPaths(t.children[n - 1]))
  }

  /** The paths ps, taken from child i. */
  function Prefixed(i: nat, ps: seq<seq<nat>>): (r: seq<seq<nat>>)
    ensures |r| == |ps| && forall j :: 0 <= j < |ps| ==> r[j] == [i] + ps[j]
  {
    if ps == [] then [] else [[i] + ps[0]] + Prefixed(i, ps[1..])
  }

  /** Pre-order: p is visited before q when p is an ancestor of q or lies in an earlier sibling subtree. */
  predicate PreorderBefore(p: seq<nat>, q: seq<nat>)
    decreases p
  {
    if p == [] then q != []
    else q != [] && (p[0] < q[0] || (p[0] == q[0] && PreorderBefore(p[1..], q[1..])))
  }

  /** travel appends only nodes whose pattern is not empty, and each is a node of the tree. */
  lemma {:induction false} TerminalPathsSound(t: Trie)
    ensures forall p :: p in TerminalPaths(t) ==> IsPath(t, p) && Subtree(t, p).pattern != ""
    decreases t, |t.children| + 1
  {
    ChildTerminalPathsSound(t, |t.children|);
  }

  lemma {:induction false} ChildTerminalPathsSound(t: Trie, n: nat)
    requires n <= |t.children|
    ensures forall p :: p in ChildTerminalPaths(t, n) ==>
              p != [] && p[0] < n && IsPath(t, p) && Subtree(t, p).pattern != ""
    decreases t, n
  {
    if n > 0 {
      ChildTerminalPathsSound(t, n - 1);
      TerminalPathsSound(t.children[n - 1]);
      PrefixedSound(t, n - 1, TerminalPaths(t.children[n - 1]));
    }
  }

  /** Paths of routes below child i, taken from child i, are paths of routes of t starting with i. */
  lemma PrefixedSound(t: Trie, i: nat, ps: seq<seq<nat>>)
    requires i < |t.children|
    requires forall p :: p in ps ==> IsPath(t.children[i], p) && Subtree(t.children[i], p).pattern != ""
    ensures forall p :: p in Prefixed(i, ps) ==> p != [] && p[0] == i && IsPath(t, p) && Subtree(t, p).pattern != ""
  {
    var r := Prefixed(i, ps);
    forall j | 0 <= j < |r|
      ensures r[j] != [] && r[j][0] == i && IsPath(t, r[j]) && Subtree(t, r[j]).pattern != ""
    {
      assert r[j][1..] == ps[j];
      assert ps[j] in ps;
    }
  }

  /** travel appends every node whose pattern is not empty. */
  lemma {:induction false} TerminalPathsComplete(t: Trie, p: seq<nat>)
    requires IsPath(t, p) && Subtree(t, p).pattern != ""
    ensures p in TerminalPaths(t)
    decreases p
  {
    if p != [] {
      TerminalPathsComplete(t.children[p[0]], p[1..]);
      ChildTerminalPathsComplete(t, |t.children|, p);
    }
  }

  lemma {:induction false} ChildTerminalPathsComplete(t: Trie, n: nat, p: seq<nat>)
    requires n <= |t.children|
    requires p != [] && p[0] < n && p[1..] in TerminalPaths(t.children[p[0]])
    ensures p in ChildTerminalPaths(t, n)
    decreases n
  {
    var front := ChildTerminalPaths(t, n - 1);
    var back := Prefixed(n - 1, TerminalPaths(t.children[n - 1]));
    assert ChildTerminalPaths(t, n) == front + back;
    if p[0] < n - 1 {
      ChildTerminalPathsComplete(t, n - 1, p);
      assert p in front;
    } else {
      PrefixedHas(n - 1, TerminalPaths(t.children[n - 1]), p);
      assert p in back;
    }
  }

  /** A path of ps, taken from child i, is among the paths Prefixed(i, ps). */
  lemma PrefixedHas(i: nat, ps: seq<seq<nat>>, p: seq<nat>)
    requires p != [] && p[0] == i && p[1..] in ps
    ensures p in Prefixed(i, ps)
  {
    var j :| 0 <= j < |ps| && ps[j] == p[1..];
    assert p == [i] + p[1..];
    assert Prefixed(i, ps)[j] == p;
  }

  /** Every path of ps comes before every later one. */
  ghost predicate InPreorder(ps: seq<seq<nat>>) {
    forall a, b :: 0 <= a < b < |ps| ==> PreorderBefore(ps[a], ps[b])
  }

  lemma {:induction false} PrefixedKeepsOrder(i: nat, ps: seq<seq<nat>>)
    requires InPreorder(ps)
    ensures InPreorder(Prefixed(i, ps))
  {
    var r := Prefixed(i, ps);
    forall a, b | 0 <= a < b < |r|
      ensures PreorderBefore(r[a], r[b])
    {
      assert r[a][1..] == ps[a] && r[b][1..] == ps[b];
    }
  }

  /** The paths travel appends below the first n children are the paths of nodes below them. */
  lemma {:induction false} ChildTerminalPathsHeads(t: Trie, n: nat)
    requires n <= |t.children|
    ensures forall p :: p in ChildTerminalPaths(t, n) ==> p != [] && p[0] < n
  {
    if n > 0 {
      ChildTerminalPathsHeads(t, n - 1);
      PrefixedHeads(n - 1, TerminalPaths(t.children[n - 1]));
    }
  }

  lemma PrefixedHeads(i: nat, ps: seq<seq<nat>>)
    ensures forall p :: p in Prefixed(i, ps) ==> p != [] && p[0] == i
  {
    var r := Prefixed(i, ps);
    assert forall j :: 0 <= j < |r| ==> r[j][0] == i;
  }

  /** Paths below earlier children come before paths below child i. */
  lemma EarlierChildFirst(front: seq<seq<nat>>, back: seq<seq<nat>>, i: nat)
    requires forall x :: x in front ==> x != [] && x[0] < i
    requires forall y :: y in back ==> y != [] && y[0] == i
    ensures forall x, y :: x in front && y in back ==> PreorderBefore(x, y)
  {
  }

  /** Two runs in pre-order, each of whose paths comes before each of the second's, make one run in pre-order. */
  lemma ConcatInPreorder(front: seq<seq<nat>>, back: seq<seq<nat>>)
    requires InPreorder(front) && InPreorder(back)
    requires forall x, y :: x in front && y in back ==> PreorderBefore(x, y)
    ensures InPreorder(front + back)
  {
    var ps := front + back;
    forall a, b | 0 <= a < b < |ps|
      ensures PreorderBefore(ps[a], ps[b])
    {
      if b < |front| {
        assert ps[a] == front[a] && ps[b] == front[b];
      } else if a < |front| {
        assert ps[a] == front[a] && ps[b] == back[b - |front|];
        assert front[a] in front && back[b - |front|] in back;
      } else {
        assert ps[a] == back[a - |front|] && ps[b] == back[b - |front|];
      }
    }
  }

  /** Ancestors come before descendants and earlier children before later ones: travel is a pre-order walk. */
  lemma {:induction false} TerminalPathsInPreorder(t: Trie)
    ensures InPreorder(TerminalPaths(t))
    decreases t, |t.children| + 1
  {
    var own: seq<seq<nat>> := if t.pattern != "" then [[]] else [];
    var rest := ChildTerminalPaths(t, |t.children|);
    ChildTerminalPathsInPreorder(t, |t.children|);
    ChildTerminalPathsHeads(t, |t.children|);
    ConcatInPreorder(own, rest);
  }

  lemma {:induction false} ChildTerminalPathsInPreorder(t: Trie, n: nat)
    requires n <= |t.children|
    ensures InPreorder(ChildTerminalPaths(t, n))
    decreases t, n
  {
    if n > 0 {
      ChildTerminalPathsInPreorder(t, n - 1);
      TerminalPathsInPreorder(t.children[n - 1]);
      NextChildInPreorder(t, n);
    }
  }

  /** Appending the walk below child n - 1 to the walk below the earlier children keeps pre-order. */
  lemma NextChildInPreorder(t: Trie, n: nat)
    requires 0 < n <= |t.children|
    requires InPreorder(ChildTerminalPaths(t, n - 1)) && InPreorder(TerminalPaths(t.children[n - 1]))
    ensures InPreorder(ChildTerminalPaths(t, n))
  {
    ChildTerminalPathsHeads(t, n - 1);
    AppendChildWalk(ChildTerminalPaths(t, n - 1), TerminalPaths(t.children[n - 1]), n - 1);
  }

  /** A pre-order walk below child i, appended to a pre-order walk below the children before i, is in pre-order. */
  lemma AppendChildWalk(front: seq<seq<nat>>, sub: seq<seq<nat>>, i: nat)
    requires InPreorder(front) && InPreorder(sub)
    requires forall x :: x in front ==> x != [] && x[0] < i
    ensures InPreorder(front + Prefixed(i, sub))
  {
    var back := Prefixed(i, sub);
    PrefixedKeepsOrder(i, sub);
    PrefixedHeads(i, sub);
    EarlierChildFirst(front, back, i);
    ConcatInPreorder(front, back);
  }

  ghost predicate TerminalPathsAreRoutes(t: Trie) {
    forall p :: p in TerminalPaths(t) ==> IsPath(t, p)
  }

  // ---------------------------------------------------------------------------
  // The pointer structure

  /** A node of the tree, updated in place by Insert (trie.go lines 10-15). */
  class Node {
    var pattern: string
    const part: string
    const isWild: bool
    var children: seq<Node>

    /** The objects of this subtree, and the value it stands for. */
    ghost var Repr: set<object>
    ghost var Model: Trie

    ghost predicate Valid()
      reads this, Repr
      decreases Repr
    {
      this in Repr &&
      Model.pattern == pattern && Model.part == part && Model.isWild == isWild &&
      |Model.children| == |children| &&
      (forall i :: 0 <= i < |children| ==>
        children[i] in Repr && children[i].Repr <= Repr && this !in children[i].Repr &&
        children[i].Valid() && children[i].Model == Model.children[i]) &&
      (forall i, j :: 0 <= i < j < |children| ==> children[i].Repr !! children[j].Repr)
    }

    /** The root of a method's tree, the zero node with no part and no pattern. */
    constructor Root()
      ensures Valid() && Repr == {this}
      ensures Model == Trie("", "", false, [])
    {
      pattern, part, isWild, children := "", "", false, [];
      Repr := {this};
      Model := Trie("", "", false, []);
    }

    /** A node created for a segment that no child matched (trie.go line 59). */
    constructor (part: string)
      requires part != ""
      ensures Valid() && Repr == {this}
      ensures this.part == part && isWild == (part[0] == ':' || part[0] == '*')
      ensures Model == Leaf(part)
    {
      this.pattern := "";
      this.part := part;
      this.isWild := part[0] == ':' || part[0] == '*';
      this.children := [];
      Repr := {this};
      Model := Leaf(part);
    }

    /** matchChild: the first child eligible for seg, or null (trie.go lines 75-82). */
    method MatchChild(seg: string) returns (child: Node?)
      requires Valid()
      ensures var k := FirstMatch(Model.children, seg);
              child == if k < |children| then children[k] else null
    {
      for i := 0 to |children|
        invariant forall j :: 0 <= j < i ==> !Matches(Model.children[j], seg)
      {
        if Eligible(children[i].part, children[i].isWild, seg) {
          return children[i];
        }
      }
      return null;
    }

    /** matchChildren: the children eligible for seg, in child order (trie.go lines 85-93). */
    method MatchChildren(seg: string) returns (nodes: seq<Node>)
      requires Valid()
      ensures var ix := EligibleIndices(Model.children, seg, |children|);
              |nodes| == |ix| && forall j :: 0 <= j < |ix| ==> nodes[j] == children[ix[j]]
    {
      nodes := [];
      for i := 0 to |children|
        invariant var ix := EligibleIndices(Model.children, seg, i);
                  |nodes| == |ix| && forall j :: 0 <= j < |ix| ==> nodes[j] == children[ix[j]]
      {
        ghost var before := EligibleIndices(Model.children, seg, i);
        assert Matches(Model.children[i], seg) == Eligible(children[i].part, children[i].isWild, seg);
        if Eligible(children[i].part, children[i].isWild, seg) {
          nodes := nodes + [children[i]];
          assert EligibleIndices(Model.children, seg, i + 1) == before + [i];
        } else {
          assert EligibleIndices(Model.children, seg, i + 1) == before;
        }
      }
    }

    /** insert (trie.go lines 49-63): Model becomes Inserted(old(Model), ...). */
    method Insert(pattern: string, parts: seq<string>, height: nat)
      requires Valid()
      requires height <= |parts| && InsertDefined(Model, parts, height)
      modifies Repr
      ensures Valid() && fresh(Repr - old(Repr)) && old(Repr) <= Repr
      ensures old(children) <= children
      ensures Model == Inserted(old(Model), pattern, parts, height)
      decreases |parts| - height, 1
    {
      if |parts| == height {
        SetPattern(pattern);
        return;
      }
      var seg := parts[height];
      var child := MatchChild(seg);
      ghost var k := FirstMatch(Model.children, seg);
      if child == null {
        child := AppendChild(seg);
      }
      InsertBelow(child, k, pattern, parts, height + 1);
    }

    /** The recursive call child.insert(pattern, parts, height) on child k (trie.go line 62). */
    method InsertBelow(child: Node, ghost k: nat, pattern: string, parts: seq<string>, height: nat)
      requires Valid() && k < |children| && children[k] == child
      requires height <= |parts| && InsertDefined(Model.children[k], parts, height)
      modifies Repr
      ensures Valid() && fresh(Repr - old(Repr)) && old(Repr) <= Repr && children == old(children)
      ensures Model == old(Model).(children := old(Model.children)[k := Inserted(old(Model.children[k]), pattern, parts, height)])
      decreases |parts| - height + 1, 0
    {
      child.Insert(pattern, parts, height);
      Model := Model.(children := Model.children[k := child.Model]);
      Repr := Repr + child.Repr;
    }

    /** Writing the pattern of the end node (trie.go line 52). */
    method SetPattern(pattern: string)
      requires Valid()
      modifies this
      ensures Valid() && Repr == old(Repr) && children == old(children)
      ensures Model == old(Model).(pattern := pattern)
    {
      this.pattern := pattern;
      Model := Model.(pattern := pattern);
      forall i | 0 <= i < |children|
        ensures children[i].Valid() && children[i].Model == Model.children[i]
      {
        StillValid(children[i]);
      }
    }
    /** The branch of insert that creates a node for seg and appends it to the children (trie.go lines 58-61). */
    method AppendChild(seg: string) returns (child: Node)
      requires Valid() && seg != ""
      modifies this
      ensures Valid() && fresh(child) && Repr == old(Repr) + {child}
      ensures children == old(children) + [child]
      ensures Model == old(Model).(children := old(Model.children) + [Leaf(seg)])
    {
      child := new Node(seg);
      children := children + [child];
      Model := Model.(children := Model.children + [child.Model]);
      Repr := Repr + child.Repr;
      assert forall i :: 0 <= i < |old(children)| ==> children[i] == old(children)[i];
      forall i | 0 <= i < |children| - 1
        ensures children[i].Valid() && children[i].Repr !! child.Repr
      {
        assert old(children)[i].Valid();
      }
    }

    /** The node at path p below this one. */
    ghost function At(p: seq<nat>): (n: Node)
      reads Repr
      requires Valid() && IsPath(Model, p)
      ensures n in Repr && n.Repr <= Repr && n.Valid() && n.Model == Subtree(Model, p)
      decreases Repr
    {
      if p == [] then this else children[p[0]].At(p[1..])
    }

    /** The nodes at the paths ps, in the same order. */
    ghost function NodesAt(ps: seq<seq<nat>>): (ns: seq<Node>)
      reads Repr
      requires Valid() && forall p :: p in ps ==> IsPath(Model, p)
      ensures |ns| == |ps| && forall j :: 0 <= j < |ps| ==> ns[j] == At(ps[j])
    {
      if ps == [] then [] else [At(ps[0])] + NodesAt(ps[1..])
    }

    /**
     * search (trie.go lines 24-44): null exactly when Find finds no route, and
     * otherwise the node at the path Find answers, which carries a pattern.
     */
    method Search(parts: seq<string>, height: nat) returns (r: Node?)
      requires Valid() && height <= |parts|
      ensures r == null <==> Find(Model, parts, height).None?
      ensures r != null ==> IsPath(Model, Find(Model, parts, height).value) &&
                            r == At(Find(Model, parts, height).value) && r.pattern != ""
      decreases Repr, 1
    {
      if |parts| == height || IsCatchAll(part) {
        if pattern == "" {
          return null;
        }
        return this;
      }
      var nodes := MatchChildren(parts[height]);
      r := SearchAmong(nodes, EligibleIndices(Model.children, parts[height], |children|), parts, height);
      if r != null {
        FindSound(Model, parts, height);
        FitsEndsAtRoute(Model, parts, height, Find(Model, parts, height).value);
      }
    }

    /** The loop of search (trie.go lines 36-43): the first candidate below which a route is found. */
    method SearchAmong(nodes: seq<Node>, ghost ix: seq<nat>, parts: seq<string>, height: nat) returns (r: Node?)
      requires Valid() && height < |parts|
      requires |nodes| == |ix| && forall j :: 0 <= j < |ix| ==> ix[j] < |children| && nodes[j] == children[ix[j]]
      ensures r == null <==> FindAmong(Model, parts, height, ix).None?
      ensures r != null ==> IsPath(Model, FindAmong(Model, parts, height, ix).value) &&
                            r == At(FindAmong(Model, parts, height, ix).value)
      decreases Repr, 0
    {
      for j := 0 to |nodes|
        invariant FindAmong(Model, parts, height, ix) == FindAmong(Model, parts, height, ix[j..])
      {
        assert ix[j..][1..] == ix[j + 1..];
        var result := nodes[j].Search(parts, height + 1);
        if result != null {
          ghost var q := Find(Model.children[ix[j]], parts, height + 1).value;
          assert ([ix[j]] + q)[1..] == q;
          return result;
        }
      }
      return null;
    }

    /**
     * travel (trie.go lines 65-72): appends to list the nodes that carry a
     * pattern, in pre-order. The slice the Go code appends to through a pointer
     * is passed in and handed back.
     */
    method Travel(list: seq<Node>) returns (result: seq<Node>)
      requires Valid()
      ensures TerminalPathsAreRoutes(Model) && result == list + NodesAt(TerminalPaths(Model))
      decreases Repr, 2
    {
      result := list;
      if pattern != "" {
        result := result + [this];
      }
      TravelStart(list, result);
      result := TravelChildren(list, result);
      TravelEnd(list, result);
    }

    /** The loop of travel over the children (trie.go lines 69-71). */
    method TravelChildren(ghost list: seq<Node>, start: seq<Node>) returns (result: seq<Node>)
      requires Valid() && Walked(list, OwnPath(), 0, start)
      ensures Walked(list, OwnPath(), |children|, result)
      decreases Repr, 1
    {
      result := start;
      for i := 0 to |children|
        invariant Walked(list, OwnPath(), i, result)
      {
        result := TravelChild(list, i, result);
      }
    }

    /** One turn of the loop of travel (trie.go lines 69-71): the walk below child i. */
    method TravelChild(ghost list: seq<Node>, i: nat, before: seq<Node>) returns (after: seq<Node>)
      requires Valid() && i < |children| && Walked(list, OwnPath(), i, before)
      ensures Walked(list, OwnPath(), i + 1, after)
      decreases Repr, 0
    {
      after := children[i].Travel(before);
      TravelStep(list, OwnPath(), i, before);
    }

    /** The path of this node among the paths travel appends: there when it carries a pattern. */
    ghost function OwnPath(): seq<seq<nat>>
      reads this
    {
      if pattern != "" then [[]] else []
    }

    lemma TravelStart(list: seq<Node>, result: seq<Node>)
      requires Valid() && result == list + (if pattern != "" then [this] else [])
      ensures Walked(list, OwnPath(), 0, result)
    {
      assert OwnPath() + ChildTerminalPaths(Model, 0) == OwnPath();
    }

    lemma TravelEnd(list: seq<Node>, result: seq<Node>)
      requires Valid() && Walked(list, OwnPath(), |children|, result)
      ensures TerminalPathsAreRoutes(Model) && result == list + NodesAt(TerminalPaths(Model))
    {
      assert OwnPath() + ChildTerminalPaths(Model, |children|) == TerminalPaths(Model);
    }

    /** After the loop of travel has visited i children, result holds list and then the nodes at own and below them. */
    ghost predicate Walked(list: seq<Node>, own: seq<seq<nat>>, i: nat, result: seq<Node>)
      reads Repr
      requires Valid() && i <= |children|
    {
      (forall p :: p in own + ChildTerminalPaths(Model, i) ==> IsPath(Model, p)) &&
      result == list + NodesAt(own + ChildTerminalPaths(Model, i))
    }

    /** What one turn of the loop of travel adds: the walk below child i. */
    lemma TravelStep(list: seq<Node>, own: seq<seq<nat>>, i: nat, before: seq<Node>)
      requires Valid() && i < |children| && Walked(list, own, i, before)
      ensures TerminalPathsAreRoutes(children[i].Model)
      ensures Walked(list, own, i + 1, before + children[i].NodesAt(TerminalPaths(children[i].Model)))
    {
      var done := own + ChildTerminalPaths(Model, i);
      var sub := TerminalPaths(Model.children[i]);
      TerminalPathsSound(Model.children[i]);
      NodesAtPrefixed(i, sub);
      NextPaths(own, i);
      NodesAtConcat(done, Prefixed(i, sub));
      AppendAssociates(list, NodesAt(done), children[i].NodesAt(sub));
    }

    lemma NextPaths(own: seq<seq<nat>>, i: nat)
      requires Valid() && i < |children|
      requires forall p :: p in own + ChildTerminalPaths(Model, i) ==> IsPath(Model, p)
      requires forall p :: p in Prefixed(i, TerminalPaths(Model.children[i])) ==> IsPath(Model, p)
      ensures own + ChildTerminalPaths(Model, i + 1) == own + ChildTerminalPaths(Model, i) + Prefixed(i, TerminalPaths(Model.children[i]))
      ensures forall p :: p in own + ChildTerminalPaths(Model, i + 1) ==> IsPath(Model, p)
    {
      AppendAssociates(own, ChildTerminalPaths(Model, i), Prefixed(i, TerminalPaths(Model.children[i])));
    }

    lemma NodesAtPrefixed(i: nat, ps: seq<seq<nat>>)
      requires Valid() && i < |children| && forall p :: p in ps ==> IsPath(Model.children[i], p)
      ensures forall p :: p in Prefixed(i, ps) ==> IsPath(Model, p)
      ensures NodesAt(Prefixed(i, ps)) == children[i].NodesAt(ps)
    {
      var r := Prefixed(i, ps);
      forall j | 0 <= j < |ps|
        ensures IsPath(Model, r[j]) && At(r[j]) == children[i].At(ps[j])
      {
        assert r[j][1..] == ps[j];
      }
    }

    lemma NodesAtConcat(ps: seq<seq<nat>>, qs: seq<seq<nat>>)
      requires Valid() && forall p :: p in ps + qs ==> IsPath(Model, p)
      ensures NodesAt(ps + qs) == NodesAt(ps) + NodesAt(qs)
    {
      assert forall p :: p in ps ==> p in ps + qs;
      assert forall p :: p in qs ==> p in ps + qs;
    }
  }

  /**
   * Associativity of concatenation, stated as a call so that the preorder
   * proofs above get exactly this instance and stay cheap for the solver.
   */
  lemma AppendAssociates<T>(a: seq<T>, b: seq<T>, c: seq<T>)
    ensures (a + b) + c == a + (b + c)
  {
  }

  /** A subtree none of whose objects changed is still valid and stands for the same value. */
  twostate lemma StillValid(n: Node)
    requires old(n.Valid())
    requires unchanged(old(n.Repr))
    ensures n.Valid() && n.Repr == old(n.Repr) && n.Model == old(n.Model)
  {
  }

}
