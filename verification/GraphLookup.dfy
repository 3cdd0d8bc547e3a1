/**
 `$graphLookup`: the foreign documents reachable from a set of start keys by following
 links, walked breadth first through a table of the keys documents are linked by.

 A document is linked from a key when the key is among its `to` keys, and links on to
 its `from` keys.
 */
module GraphLookup {
  import opened Outcomes
  import opened Places
  import opened Tallies

  datatype Graph<!D(!new), !K(==, !new)> = Graph(foreign: seq<D>, to: D -> seq<K>, from: D -> seq<K>) {
    predicate LinkedFrom(k: K, i: nat) { i < |foreign| && k in to(foreign[i]) }

    predicate LinksTo(i: nat, k: K) { i < |foreign| && k in from(foreign[i]) }
  }

  // ---------------------------------------------------------------------------
  // What is reachable
  // ---------------------------------------------------------------------------

  /** Document `i` links to document `j`: some key is among the `from` keys of the one and the
      `to` keys of the other. */
  ghost predicate Links<D(!new), K(!new)>(g: Graph<D, K>, i: nat, j: nat) {
    i < |g.foreign| && j < |g.foreign| && exists k :: k in g.from(g.foreign[i]) && k in g.to(g.foreign[j])
  }

  /** A chain of links: a start key leads to its first document, and each document to
      the next. */
  ghost predicate IsChain<D(!new), K(!new)>(g: Graph<D, K>, start: set<K>, chain: seq<nat>) {
    && chain != [] && chain[0] < |g.foreign| && (exists k :: k in start && k in g.to(g.foreign[chain[0]]))
    && forall j :: 0 <= j < |chain| - 1 ==> Links(g, chain[j], chain[j + 1])
  }

  /** A chain of at most `n` documents ends at document `i`. */
  ghost predicate ReachedIn<D(!new), K(!new)>(g: Graph<D, K>, start: set<K>, n: nat, i: nat) {
    exists chain :: IsChain(g, start, chain) && |chain| <= n && chain[|chain| - 1] == i
  }

  /** The shortest chain to document `i` has `depth` links after its first document. */
  ghost predicate AtDepth<D(!new), K(!new)>(g: Graph<D, K>, start: set<K>, i: nat, depth: nat) {
    ReachedIn(g, start, depth + 1, i) && !ReachedIn(g, start, depth, i)
  }

  // The walk works round by round; `ReachIsChain` ties its rounds to chains.

  /** Reached by round `n`: linked from a key that was known a round earlier. */
  ghost predicate Reach<D(!new), K(!new)>(g: Graph<D, K>, start: set<K>, n: nat, i: nat)
    decreases n, 0
  {
    n > 0 && exists k :: KeyReach(g, start, n - 1, k) && g.LinkedFrom(k, i)
  }

  /** A start key, or one that a document reached by round `n` links to. */
  ghost predicate KeyReach<D(!new), K(!new)>(g: Graph<D, K>, start: set<K>, n: nat, k: K)
    decreases n, 1
  {
    k in start || exists j: nat :: Reach(g, start, n, j) && g.LinksTo(j, k)
  }

  lemma {:induction false} ReachGrows<D(!new), K(!new)>(g: Graph<D, K>, start: set<K>, m: nat, n: nat, i: nat)
    requires m <= n && Reach(g, start, m, i)
    ensures Reach(g, start, n, i)
    decreases m
  {
    var k :| KeyReach(g, start, m - 1, k) && g.LinkedFrom(k, i);
    if k !in start {
      var j: nat :| Reach(g, start, m - 1, j) && g.LinksTo(j, k);
      ReachGrows(g, start, m - 1, n - 1, j);
    }
    assert KeyReach(g, start, n - 1, k);
  }

  lemma LongerChain<D(!new), K(!new)>(g: Graph<D, K>, start: set<K>, chain: seq<nat>, k: K, i: nat)
    requires IsChain(g, start, chain) && g.LinksTo(chain[|chain| - 1], k) && g.LinkedFrom(k, i)
    ensures IsChain(g, start, chain + [i])
  {
    var longer := chain + [i];
    assert longer[0] == chain[0];
    forall m | 0 <= m < |longer| - 1
      ensures Links(g, longer[m], longer[m + 1])
    {
      if m < |chain| - 1 { assert longer[m] == chain[m] && longer[m + 1] == chain[m + 1]; }
    }
  }

  lemma {:induction false} ReachHasChain<D(!new), K(!new)>(g: Graph<D, K>, start: set<K>, n: nat, i: nat)
    returns (chain: seq<nat>)
    requires Reach(g, start, n, i)
    ensures IsChain(g, start, chain) && |chain| <= n && chain[|chain| - 1] == i
    decreases n
  {
    var k :| KeyReach(g, start, n - 1, k) && g.LinkedFrom(k, i);
    if k in start {
      chain := [i];
    } else {
      var j: nat :| Reach(g, start, n - 1, j) && g.LinksTo(j, k);
      var front := ReachHasChain(g, start, n - 1, j);
      LongerChain(g, start, front, k, i);
      chain := front + [i];
    }
  }

  lemma ChainFront<D(!new), K(!new)>(g: Graph<D, K>, start: set<K>, chain: seq<nat>)
    requires IsChain(g, start, chain) && |chain| > 1
    ensures IsChain(g, start, chain[..|chain| - 1])
  {}

  lemma {:induction false} ChainReaches<D(!new), K(!new)>(g: Graph<D, K>, start: set<K>, chain: seq<nat>)
    requires IsChain(g, start, chain)
    ensures Reach(g, start, |chain|, chain[|chain| - 1])
    decreases |chain|
  {
    var m := |chain|;
    if m == 1 {
      var k :| k in start && k in g.to(g.foreign[chain[0]]);
      assert g.LinkedFrom(k, chain[0]);
      assert KeyReach(g, start, 0, k);
    } else {
      ChainFront(g, start, chain);
      ChainReaches(g, start, chain[..m - 1]);
      assert Links(g, chain[m - 2], chain[m - 1]);
      var k :| k in g.from(g.foreign[chain[m - 2]]) && k in g.to(g.foreign[chain[m - 1]]);
      assert g.LinksTo(chain[m - 2], k) && g.LinkedFrom(k, chain[m - 1]);
      assert KeyReach(g, start, m - 1, k);
    }
  }

  /** Rounds of the walk reach exactly what chains of that length reach. */
  lemma ReachIsChain<D(!new), K(!new)>(g: Graph<D, K>, start: set<K>, n: nat, i: nat)
    ensures Reach(g, start, n, i) <==> ReachedIn(g, start, n, i)
  {
    if Reach(g, start, n, i) { var chain := ReachHasChain(g, start, n, i); }
    if ReachedIn(g, start, n, i) {
      var chain :| IsChain(g, start, chain) && |chain| <= n && chain[|chain| - 1] == i;
      ChainReaches(g, start, chain);
      ReachGrows(g, start, |chain|, n, i);
    }
  }

  /** Once a round reaches nothing new, no later one does. */
  lemma {:induction false} ReachIsFixed<D(!new), K(!new)>(g: Graph<D, K>, start: set<K>, m: nat, n: nat, i: nat)
    requires m <= n && forall j: nat :: Reach(g, start, m + 1, j) ==> Reach(g, start, m, j)
    ensures Reach(g, start, n, i) ==> Reach(g, start, m, i)
    decreases n
  {
    if m < n && Reach(g, start, n, i) {
      var k :| KeyReach(g, start, n - 1, k) && g.LinkedFrom(k, i);
      if k !in start {
        var j: nat :| Reach(g, start, n - 1, j) && g.LinksTo(j, k);
        ReachIsFixed(g, start, m, n - 1, j);
      }
      assert KeyReach(g, start, m, k);
      assert Reach(g, start, m + 1, i);
    }
  }

  /** First reached by the round after `depth`. */
  ghost predicate NewAt<D(!new), K(!new)>(g: Graph<D, K>, start: set<K>, i: nat, depth: nat) {
    Reach(g, start, depth + 1, i) && !Reach(g, start, depth, i)
  }

  // ---------------------------------------------------------------------------
  // The answer
  // ---------------------------------------------------------------------------

  ghost function InOrder(n: nat, p: nat -> bool): (r: seq<nat>)
    ensures forall j :: 0 <= j < |r| ==> r[j] < n
    ensures Ascending(r)
  {
    if n == 0 then [] else InOrder(n - 1, p) + (if p(n - 1) then [n - 1] else [])
  }

  lemma {:induction false} InOrderHolds(n: nat, p: nat -> bool, i: nat)
    ensures i in InOrder(n, p) <==> i < n && p(i)
  {
    if n == 0 {
    } else {
      InOrderHolds(n - 1, p, i);
    }
  }

  function Labelled(at: seq<nat>, depth: nat): (r: seq<(nat, nat)>)
    ensures |r| == |at| && forall i :: 0 <= i < |r| ==> r[i] == (at[i], depth)
  {
    seq(|at|, i requires 0 <= i < |at| => (at[i], depth))
  }

  /** The levels below `n`, one after the other, each labelled with its depth. */
  ghost function Levels(level: nat -> seq<nat>, n: nat): seq<(nat, nat)> {
    if n == 0 then [] else Levels(level, n - 1) + Labelled(level(n - 1), n - 1)
  }

  lemma LabelledHolds(at: seq<nat>, d: nat, i: nat, depth: nat)
    ensures (i, depth) in Labelled(at, d) <==> i in at && depth == d
  {
    if i in at && depth == d {
      var j :| 0 <= j < |at| && at[j] == i;
      assert Labelled(at, d)[j] == (i, depth);
    }
  }

  lemma {:induction false} LevelsHold(level: nat -> seq<nat>, n: nat, i: nat, depth: nat)
    ensures (i, depth) in Levels(level, n) <==> depth < n && i in level(depth)
  {
    if n == 0 {
    } else {
      LevelsHold(level, n - 1, i, depth);
      LabelledHolds(level(n - 1), n - 1, i, depth);
      var front, last := Levels(level, n - 1), Labelled(level(n - 1), n - 1);
      assert (i, depth) in front + last <==> (i, depth) in front || (i, depth) in last;
    }
  }

  predicate Earlier(a: (nat, nat), b: (nat, nat)) { a.1 < b.1 || (a.1 == b.1 && a.0 < b.0) }

  lemma {:induction false} LevelsAreOrdered(level: nat -> seq<nat>, n: nat)
    requires forall d: nat :: Ascending(level(d))
    ensures forall x, y :: 0 <= x < y < |Levels(level, n)| ==> Earlier(Levels(level, n)[x], Levels(level, n)[y])
    ensures forall x :: 0 <= x < |Levels(level, n)| ==> Levels(level, n)[x].1 < n
  {
    if n == 0 {
    } else {
      LevelsAreOrdered(level, n - 1);
    }
  }

  lemma {:induction false} LevelsGrow(level: nat -> seq<nat>, m: nat, n: nat)
    requires m <= n
    ensures |Levels(level, m)| <= |Levels(level, n)|
    decreases n
  {
    if m < n { LevelsGrow(level, m, n - 1); }
  }

  lemma {:induction false} LevelsAreFixed(level: nat -> seq<nat>, m: nat, n: nat)
    requires m <= n && forall d: nat :: m <= d < n ==> level(d) == []
    ensures Levels(level, n) == Levels(level, m)
    decreases n
  {
    if m < n { LevelsAreFixed(level, m, n - 1); }
  }

  ghost predicate IsLevel<D(!new), K(!new)>(g: Graph<D, K>, start: set<K>, depth: nat, r: seq<nat>) {
    Ascending(r) && forall i: nat :: i in r <==> NewAt(g, start, i, depth)
  }

  lemma LevelExists<D(!new), K(!new)>(g: Graph<D, K>, start: set<K>, depth: nat)
    ensures exists r :: IsLevel(g, start, depth, r)
  {
    var p := (i: nat) => NewAt(g, start, i, depth);
    forall i: nat ensures i in InOrder(|g.foreign|, p) <==> NewAt(g, start, i, depth) {
      InOrderHolds(|g.foreign|, p, i);
    }
    assert IsLevel(g, start, depth, InOrder(|g.foreign|, p));
  }

  /** The documents at one depth, in scan order. */
  ghost function Level<D(!new), K(!new)>(g: Graph<D, K>, start: set<K>, depth: nat): seq<nat> {
    LevelExists(g, start, depth);
    var r :| IsLevel(g, start, depth, r);
    r
  }

  lemma LevelHolds<D(!new), K(!new)>(g: Graph<D, K>, start: set<K>, depth: nat, i: nat)
    ensures i in Level(g, start, depth) <==> NewAt(g, start, i, depth)
    ensures Ascending(Level(g, start, depth))
    ensures NewAt(g, start, i, depth) ==> i < |g.foreign|
  {
    LevelExists(g, start, depth);
    assert IsLevel(g, start, depth, Level(g, start, depth));
  }

  ghost function ByDepth<D(!new), K(!new)>(g: Graph<D, K>, start: set<K>): nat -> seq<nat> {
    (d: nat) => Level(g, start, d)
  }

  /** The answer to `n` rounds. */
  ghost function Answer<D(!new), K(!new)>(g: Graph<D, K>, start: set<K>, n: nat): seq<(nat, nat)> {
    Levels(ByDepth(g, start), n)
  }

  /** It holds exactly the documents whose shortest chain is below `n`, each with the
      length of that chain, ordered by that length and then by scan position. */
  lemma AnswerIsShortest<D(!new), K(!new)>(g: Graph<D, K>, start: set<K>, n: nat, i: nat, depth: nat)
    ensures (i, depth) in Answer(g, start, n) <==> depth < n && AtDepth(g, start, i, depth)
    ensures forall x, y :: 0 <= x < y < |Answer(g, start, n)| ==>
            Earlier(Answer(g, start, n)[x], Answer(g, start, n)[y])
  {
    LevelsHold(ByDepth(g, start), n, i, depth);
    LevelHolds(g, start, depth, i);
    ReachIsChain(g, start, depth, i);
    ReachIsChain(g, start, depth + 1, i);
    forall d: nat ensures Ascending(ByDepth(g, start)(d)) { LevelHolds(g, start, d, i); }
    LevelsAreOrdered(ByDepth(g, start), n);
  }

  lemma OneDepth<D(!new), K(!new)>(g: Graph<D, K>, start: set<K>, i: nat, a: nat, b: nat)
    requires AtDepth(g, start, i, a) && AtDepth(g, start, i, b)
    ensures a == b
  {}

  /** So it holds each document once. */
  lemma AnswerHoldsEachOnce<D(!new), K(!new)>(g: Graph<D, K>, start: set<K>, n: nat, x: nat, y: nat)
    requires x < y < |Answer(g, start, n)|
    ensures Answer(g, start, n)[x].0 != Answer(g, start, n)[y].0
  {
    var answer := Answer(g, start, n);
    var (i, a) := answer[x];
    var (j, b) := answer[y];
    assert (i, a) in answer && (j, b) in answer;
    AnswerIsShortest(g, start, n, i, a);
    AnswerIsShortest(g, start, n, j, b);
    if i == j { OneDepth(g, start, i, a, b); }
  }

  lemma NoLevelAfter<D(!new), K(!new)>(g: Graph<D, K>, start: set<K>, m: nat, d: nat)
    requires m <= d && forall j: nat :: Reach(g, start, m + 1, j) ==> Reach(g, start, m, j)
    ensures Level(g, start, d) == []
  {
    var level := Level(g, start, d);
    if level != [] {
      assert level[0] in level;
      LevelHolds(g, start, d, level[0]);
      ReachIsFixed(g, start, m, d + 1, level[0]);
      ReachGrows(g, start, m, d, level[0]);
    }
  }

  lemma AnswerIsFixed<D(!new), K(!new)>(g: Graph<D, K>, start: set<K>, m: nat, n: nat)
    requires m <= n && forall j: nat :: Reach(g, start, m + 1, j) ==> Reach(g, start, m, j)
    ensures Answer(g, start, n) == Answer(g, start, m)
  {
    forall d: nat | m <= d < n ensures ByDepth(g, start)(d) == [] { NoLevelAfter(g, start, m, d); }
    LevelsAreFixed(ByDepth(g, start), m, n);
  }

  // ---------------------------------------------------------------------------
  // The walk
  // ---------------------------------------------------------------------------

  function SetOf<T(==)>(s: seq<T>): set<T> { set x | x in s }

  method FileForeign<D(!new), K(==, !new)>(g: Graph<D, K>) returns (table: map<K, seq<nat>>)
    ensures Files(table, g.foreign, g.to)
  {
    table := map[];
    for at := 0 to |g.foreign|
      invariant Files(table, g.foreign[..at], g.to)
    {
      ghost var before := table;
      table := FileUnder(table, g.to(g.foreign[at]), at);
      OneMoreFiled(before, g.foreign[..at], g.to, table, g.foreign[at]);
      assert g.foreign[..at + 1] == g.foreign[..at] + [g.foreign[at]];
    }
    assert g.foreign[..|g.foreign|] == g.foreign;
  }

  /** What `depth` rounds leave: `visited` and `searched` are what they reached, and
      everything the keys no longer in the frontier lead to has been visited. */
  ghost predicate Walked<D(!new), K(!new)>(g: Graph<D, K>, start: set<K>, depth: nat,
                                           visited: set<nat>, searched: set<K>, frontier: seq<K>)
  {
    && (forall i: nat :: i in visited <==> Reach(g, start, depth, i))
    && (forall k :: k in searched <==> KeyReach(g, start, depth, k))
    && (forall k :: k in frontier ==> k in searched)
    && (forall k, i: nat :: k in searched && k !in frontier && g.LinkedFrom(k, i) ==> i in visited)
  }

  function Unvisited(at: seq<nat>, visited: set<nat>): (r: seq<nat>)
    ensures forall i: nat :: i in r <==> i in at && i !in visited
  {
    if at == [] then []
    else
      assert at == at[..|at| - 1] + [at[|at| - 1]];
      Unvisited(at[..|at| - 1], visited) + (if at[|at| - 1] in visited then [] else [at[|at| - 1]])
  }

  lemma FoundIsLevel<D(!new), K(!new)>(g: Graph<D, K>, start: set<K>, depth: nat, visited: set<nat>,
                                        searched: set<K>, frontier: seq<K>, i: nat)
    requires Walked(g, start, depth, visited, searched, frontier)
    ensures i !in visited && (exists k :: k in frontier && g.LinkedFrom(k, i)) <==> NewAt(g, start, i, depth)
  {
    if NewAt(g, start, i, depth) {
      var k :| KeyReach(g, start, depth, k) && g.LinkedFrom(k, i);
      assert k in searched;
      assert k in frontier;
    }
  }

  method FindLevel<D(!new), K(==, !new)>(g: Graph<D, K>, table: map<K, seq<nat>>, visited: set<nat>, frontier: seq<K>,
                                         ghost start: set<K>, ghost depth: nat, ghost searched: set<K>)
    returns (found: seq<nat>)
    requires Files(table, g.foreign, g.to) && Walked(g, start, depth, visited, searched, frontier)
    ensures found == Level(g, start, depth)
  {
    var met := Gather(table, frontier);
    found := SortDedup(Unvisited(met, visited));
    forall i: nat ensures i in found <==> i in Level(g, start, depth) {
      LevelHolds(g, start, depth, i);
      FoundIsLevel(g, start, depth, visited, searched, frontier, i);
      assert forall k :: Filed(table, k, i) <==> g.LinkedFrom(k, i);
    }
    LevelHolds(g, start, depth, 0);
    AscendingIsUnique(found, Level(g, start, depth));
  }

  ghost predicate LinkedByAny<D(!new), K(!new)>(g: Graph<D, K>, found: seq<nat>, k: K) {
    exists j :: 0 <= j < |found| && g.LinksTo(found[j], k)
  }

  method Expand<D(!new), K(==, !new)>(g: Graph<D, K>, found: seq<nat>, before: set<K>)
    returns (searched: set<K>, next: seq<K>)
    requires forall j :: 0 <= j < |found| ==> found[j] < |g.foreign|
    ensures forall k :: k in searched <==> k in before || LinkedByAny(g, found, k)
    ensures forall k :: k in next <==> k in searched && k !in before
    ensures found == [] ==> next == []
  {
    searched, next := before, [];
    for j := 0 to |found|
      invariant forall k :: k in searched <==> k in before || LinkedByAny(g, found[..j], k)
      invariant forall k :: k in next <==> k in searched && k !in before
      invariant j == 0 ==> next == []
    {
      ghost var was := searched;
      searched, next := Follow(g.from(g.foreign[found[j]]), before, searched, next);
      forall k ensures LinkedByAny(g, found[..j + 1], k) <==> LinkedByAny(g, found[..j], k) || g.LinksTo(found[j], k) {
        if LinkedByAny(g, found[..j], k) {
          var m :| 0 <= m < j && g.LinksTo(found[..j][m], k);
          assert found[..j + 1][m] == found[..j][m];
        }
        if g.LinksTo(found[j], k) { assert found[..j + 1][j] == found[j]; }
      }
    }
    assert found[..|found|] == found;
  }

  /** The keys of one document that were not searched before join the next frontier. */
  method Follow<K(==, !new)>(keys: seq<K>, ghost before: set<K>, was: set<K>, queue: seq<K>)
    returns (searched: set<K>, next: seq<K>)
    requires forall k :: k in queue <==> k in was && k !in before
    requires before <= was
    ensures forall k :: k in searched <==> k in was || k in keys
    ensures forall k :: k in next <==> k in searched && k !in before
  {
    searched, next := was, queue;
    for j := 0 to |keys|
      invariant forall k :: k in searched <==> k in was || k in keys[..j]
      invariant forall k :: k in next <==> k in searched && k !in before
    {
      assert keys[..j + 1] == keys[..j] + [keys[j]];
      if keys[j] !in searched {
        searched, next := searched + {keys[j]}, next + [keys[j]];
      }
    }
    assert keys[..|keys|] == keys;
  }

  lemma VisitedNext<D(!new), K(!new)>(g: Graph<D, K>, start: set<K>, depth: nat, visited: set<nat>, found: seq<nat>,
                                      i: nat)
    requires i in visited <==> Reach(g, start, depth, i)
    requires found == Level(g, start, depth)
    ensures i in visited + SetOf(found) <==> Reach(g, start, depth + 1, i)
  {
    LevelHolds(g, start, depth, i);
    if Reach(g, start, depth, i) { ReachGrows(g, start, depth, depth + 1, i); }
  }

  lemma SearchedNext<D(!new), K(!new)>(g: Graph<D, K>, start: set<K>, depth: nat, found: seq<nat>, k: K)
    requires found == Level(g, start, depth)
    ensures KeyReach(g, start, depth + 1, k) <==> KeyReach(g, start, depth, k) || LinkedByAny(g, found, k)
  {
    if KeyReach(g, start, depth + 1, k) && !KeyReach(g, start, depth, k) {
      var j: nat :| Reach(g, start, depth + 1, j) && g.LinksTo(j, k);
      LevelHolds(g, start, depth, j);
      var m :| 0 <= m < |found| && found[m] == j;
    }
    if LinkedByAny(g, found, k) {
      var m :| 0 <= m < |found| && g.LinksTo(found[m], k);
      assert found[m] in found;
      LevelHolds(g, start, depth, found[m]);
    }
    if KeyReach(g, start, depth, k) && k !in start {
      var j: nat :| Reach(g, start, depth, j) && g.LinksTo(j, k);
      ReachGrows(g, start, depth, depth + 1, j);
    }
  }

  lemma NextRound<D(!new), K(!new)>(g: Graph<D, K>, start: set<K>, depth: nat, visited: set<nat>, searched: set<K>,
                                     frontier: seq<K>, found: seq<nat>, searched': set<K>, next: seq<K>)
    requires Walked(g, start, depth, visited, searched, frontier) && found == Level(g, start, depth)
    requires forall k :: k in searched' <==> k in searched || LinkedByAny(g, found, k)
    requires forall k :: k in next <==> k in searched' && k !in searched
    ensures Walked(g, start, depth + 1, visited + SetOf(found), searched', next)
  {
    forall i: nat ensures i in visited + SetOf(found) <==> Reach(g, start, depth + 1, i) {
      VisitedNext(g, start, depth, visited, found, i);
    }
    forall k ensures k in searched' <==> KeyReach(g, start, depth + 1, k) {
      SearchedNext(g, start, depth, found, k);
    }
    forall k, i: nat | k in searched' && k !in next && g.LinkedFrom(k, i) ensures i in visited + SetOf(found) {
    }
  }

  /** An empty frontier: the next round would reach nothing new. */
  lemma NothingLeft<D(!new), K(!new)>(g: Graph<D, K>, start: set<K>, depth: nat, visited: set<nat>, searched: set<K>,
                                      i: nat)
    requires Walked(g, start, depth, visited, searched, []) && Reach(g, start, depth + 1, i)
    ensures Reach(g, start, depth, i)
  {
    var k :| KeyReach(g, start, depth, k) && g.LinkedFrom(k, i);
    assert k in searched;
  }

  /** Places below a bound are no more than the bound. */
  lemma {:induction false} Bounded(s: set<nat>, n: nat)
    requires forall i :: i in s ==> i < n
    ensures |s| <= n
  {
    if n == 0 {
      assert s == {};
    } else {
      Bounded(s - {n - 1}, n - 1);
    }
  }

  lemma VisitedGrows(visited: set<nat>, found: seq<nat>, n: nat)
    requires forall i :: i in visited ==> i < n
    requires forall j :: 0 <= j < |found| ==> found[j] < n && found[j] !in visited
    ensures var more := visited + SetOf(found);
            && (forall i :: i in more ==> i < n) && |more| <= n && (found != [] ==> |more| > |visited|)
  {
    var added := SetOf(found);
    var more := visited + added;
    Bounded(more, n);
    if found != [] {
      assert found[0] in added;
      assert |more| == |visited| + |added|;
    }
  }

  lemma LevelIsNew<D(!new), K(!new)>(g: Graph<D, K>, start: set<K>, depth: nat,
                                     visited: set<nat>, searched: set<K>, frontier: seq<K>, found: seq<nat>)
    requires Walked(g, start, depth, visited, searched, frontier) && found == Level(g, start, depth)
    ensures forall j :: 0 <= j < |found| ==> found[j] < |g.foreign| && found[j] !in visited
  {
    forall j | 0 <= j < |found| ensures found[j] < |g.foreign| && found[j] !in visited {
      assert found[j] in found;
      LevelHolds(g, start, depth, found[j]);
    }
  }

  /** The walk after `depth` rounds. */
  datatype Trail<K> = Trail(visited: set<nat>, searched: set<K>, frontier: seq<K>, reached: seq<(nat, nat)>)

  ghost predicate Standing<D(!new), K(!new)>(g: Graph<D, K>, start: set<K>, depth: nat, t: Trail<K>) {
    && Walked(g, start, depth, t.visited, t.searched, t.frontier)
    && t.reached == Answer(g, start, depth)
    && |t.visited| <= |g.foreign| && forall i :: i in t.visited ==> i < |g.foreign|
  }

  /** One round of the walk; one that finds nothing leaves no frontier. */
  method Round<D(!new), K(==, !new)>(g: Graph<D, K>, table: map<K, seq<nat>>, ghost start: set<K>, depth: nat,
                                     t: Trail<K>)
    returns (u: Trail<K>)
    requires Files(table, g.foreign, g.to) && Standing(g, start, depth, t)
    ensures Standing(g, start, depth + 1, u)
    ensures u.frontier != [] ==> |u.visited| > |t.visited|
  {
    var found := FindLevel(g, table, t.visited, t.frontier, start, depth, t.searched);
    LevelIsNew(g, start, depth, t.visited, t.searched, t.frontier, found);
    var searched, next := Expand(g, found, t.searched);
    NextRound(g, start, depth, t.visited, t.searched, t.frontier, found, searched, next);
    VisitedGrows(t.visited, found, |g.foreign|);
    u := Trail(t.visited + SetOf(found), searched, next, t.reached + Labelled(found, depth));
  }

  lemma WalkStarts<D(!new), K(!new)>(g: Graph<D, K>, start: seq<K>)
    ensures Standing(g, SetOf(start), 0, Trail({}, SetOf(start), start, []))
  {}

  lemma WalkEnds<D(!new), K(!new)>(g: Graph<D, K>, start: set<K>, depth: nat, t: Trail<K>, n: nat)
    requires Standing(g, start, depth, t) && depth <= n
    ensures |t.reached| <= |Answer(g, start, n)|
    ensures depth == n || t.frontier == [] ==> t.reached == Answer(g, start, n)
    ensures |t.visited| <= |g.foreign|
  {
    LevelsGrow(ByDepth(g, start), depth, n);
    if t.frontier == [] {
      forall i: nat | Reach(g, start, depth + 1, i) ensures Reach(g, start, depth, i) {
        NothingLeft(g, start, depth, t.visited, t.searched, i);
      }
      AnswerIsFixed(g, start, depth, n);
    }
  }

  /** The walk from one input document, of which `held` documents of earlier ones count
      against the ceiling too.  However the links cycle and however deep the walk may go,
      it ends within one round more than there are documents. */
  method Walk<D(!new), K(==, !new)>(g: Graph<D, K>, table: map<K, seq<nat>>, start: seq<K>, maxDepth: nat, held: nat,
                                    max: nat)
    returns (r: Option<seq<(nat, nat)>>, rounds: nat)
    requires Files(table, g.foreign, g.to) && held <= max
    ensures var answer := Answer(g, SetOf(start), maxDepth + 1);
            r == if held + |answer| > max then None else Some(answer)
    ensures rounds <= |g.foreign| + 1
  {
    ghost var from := SetOf(start);
    WalkStarts(g, start);
    var t := Trail({}, SetOf(start), start, []);
    rounds := 0;
    while t.frontier != []
      invariant Standing(g, from, rounds, t) && rounds <= maxDepth && held + |t.reached| <= max
      invariant t.frontier != [] ==> rounds <= |t.visited|
      invariant rounds <= |g.foreign| + 1 && |t.visited| <= |g.foreign|
      decreases |g.foreign| + 1 - rounds
    {
      t := Round(g, table, from, rounds, t);
      rounds := rounds + 1;
      if held + |t.reached| > max || rounds > maxDepth { break; }
    }
    WalkEnds(g, from, rounds, t, maxDepth + 1);
    r := if held + |t.reached| > max then None else Some(t.reached);
  }

  // ---------------------------------------------------------------------------
  // The stage
  // ---------------------------------------------------------------------------

  /** Every input document's answer; documents may be reached from several of them. */
  ghost function Answers<D(!new), K(!new)>(g: Graph<D, K>, starts: seq<seq<K>>, maxDepth: nat)
    : (r: seq<seq<(nat, nat)>>)
    ensures |r| == |starts|
  {
    if starts == [] then []
    else Answers(g, starts[..|starts| - 1], maxDepth) + [Answer(g, SetOf(starts[|starts| - 1]), maxDepth + 1)]
  }

  datatype Refusal<E> = TooMany | Charged(error: E)

  /** Attaching answers in turn: each is first counted, with those before it, against the
      ceiling, and then charged; `attach` also refuses an array or a document too large. */
  function AttachAll<E>(answers: seq<seq<(nat, nat)>>, max: nat, start: nat,
                        attach: (nat, seq<(nat, nat)>) -> Result<nat, E>): Result<nat, Refusal<E>>
  {
    if answers == [] then Ok(start)
    else
      var n := |answers| - 1;
      match AttachAll(answers[..n], max, start, attach)
      case Err(e) => Err(e)
      case Ok(account) =>
        if Total(answers) > max then Err(TooMany)
        else
          match attach(account, answers[n])
          case Err(e) => Err(Charged(e))
          case Ok(more) => Ok(more)
  }

  lemma {:induction false} RefusedStays<E>(answers: seq<seq<(nat, nat)>>, k: nat, max: nat, start: nat,
                                           attach: (nat, seq<(nat, nat)>) -> Result<nat, E>)
    requires k <= |answers| && AttachAll(answers[..k], max, start, attach).Err?
    ensures AttachAll(answers, max, start, attach) == AttachAll(answers[..k], max, start, attach)
    decreases |answers|
  {
    if k == |answers| {
      assert answers[..k] == answers;
    } else {
      assert answers[..|answers| - 1][..k] == answers[..k];
      RefusedStays(answers[..|answers| - 1], k, max, start, attach);
    }
  }

  /** When nothing is refused for its size, the stage is refused exactly when the answers
      together pass the ceiling. */
  lemma {:induction false} RefusedAtCeiling<E>(answers: seq<seq<(nat, nat)>>, max: nat, start: nat,
                                               attach: (nat, seq<(nat, nat)>) -> Result<nat, E>)
    ensures Total(answers) > max ==> AttachAll(answers, max, start, attach).Err?
    ensures AttachAll(answers, max, start, attach) == Err(TooMany) ==> Total(answers) > max
  {
    if answers == [] {
    } else {
      RefusedAtCeiling(answers[..|answers| - 1], max, start, attach);
    }
  }

  lemma AnswersPrefix<D(!new), K(!new)>(g: Graph<D, K>, starts: seq<seq<K>>, maxDepth: nat, i: nat)
    requires i < |starts|
    ensures Answers(g, starts[..i + 1], maxDepth) ==
            Answers(g, starts[..i], maxDepth) + [Answer(g, SetOf(starts[i]), maxDepth + 1)]
  {
    assert starts[..i + 1][..i] == starts[..i];
  }

  lemma {:induction false} AnswersAreTaken<D(!new), K(!new)>(g: Graph<D, K>, starts: seq<seq<K>>, maxDepth: nat, i: nat)
    requires i <= |starts|
    ensures Answers(g, starts, maxDepth)[..i] == Answers(g, starts[..i], maxDepth)
    decreases |starts|
  {
    if i == |starts| {
      assert starts[..i] == starts;
    } else {
      var front := starts[..|starts| - 1];
      assert front[..i] == starts[..i];
      AnswersAreTaken(g, front, maxDepth, i);
    }
  }

  /** A refusal at one input document is the stage's. */
  lemma StageIsRefused<D(!new), K(!new), E>(g: Graph<D, K>, starts: seq<seq<K>>, maxDepth: nat, i: nat, max: nat,
                                            start: nat, attach: (nat, seq<(nat, nat)>) -> Result<nat, E>)
    requires i <= |starts| && AttachAll(Answers(g, starts[..i], maxDepth), max, start, attach).Err?
    ensures AttachAll(Answers(g, starts, maxDepth), max, start, attach) ==
            AttachAll(Answers(g, starts[..i], maxDepth), max, start, attach)
  {
    AnswersAreTaken(g, starts, maxDepth, i);
    RefusedStays(Answers(g, starts, maxDepth), i, max, start, attach);
  }

  /** The answers of the stage, one by one: what is reachable within the depth from each input
      document's keys, with its distance. */
  lemma AnswersMeaning<D(!new), K(!new)>(g: Graph<D, K>, starts: seq<seq<K>>, maxDepth: nat, x: nat, i: nat,
                                         depth: nat)
    requires x < |starts|
    ensures (i, depth) in Answers(g, starts, maxDepth)[x] <==>
            depth <= maxDepth && AtDepth(g, SetOf(starts[x]), i, depth)
  {
    AnswersAreTaken(g, starts, maxDepth, x + 1);
    AnswersPrefix(g, starts, maxDepth, x);
    assert Answers(g, starts, maxDepth)[..x + 1][x] == Answer(g, SetOf(starts[x]), maxDepth + 1);
    AnswerIsShortest(g, SetOf(starts[x]), maxDepth + 1, i, depth);
  }

  ghost predicate IsAttached<E>(answers: seq<seq<(nat, nat)>>, i: nat, max: nat,
                                attach: (nat, seq<(nat, nat)>) -> Result<nat, E>, before: nat, after: nat)
  {
    i < |answers| && Total(answers[..i + 1]) <= max && attach(before, answers[i]) == Ok(after)
  }

  /** The first answers are attached: together within the ceiling, and `accounts` says what is
      charged before each and after the last. */
  ghost predicate Attaching<E>(answers: seq<seq<(nat, nat)>>, k: nat, max: nat, start: nat,
                               attach: (nat, seq<(nat, nat)>) -> Result<nat, E>, accounts: seq<nat>)
  {
    && k <= |answers| && |accounts| == k + 1 && accounts[0] == start
    && forall i :: 0 <= i < k ==> IsAttached(answers, i, max, attach, accounts[i], accounts[i + 1])
  }

  lemma AttachingFurther<E>(answers: seq<seq<(nat, nat)>>, n: nat, k: nat, max: nat, start: nat,
                            attach: (nat, seq<(nat, nat)>) -> Result<nat, E>, accounts: seq<nat>)
    requires k <= n <= |answers| && Attaching(answers[..n], k, max, start, attach, accounts)
    ensures Attaching(answers, k, max, start, attach, accounts)
  {
    forall i | 0 <= i < k ensures IsAttached(answers, i, max, attach, accounts[i], accounts[i + 1]) {
      assert IsAttached(answers[..n], i, max, attach, accounts[i], accounts[i + 1]);
      assert answers[..n][..i + 1] == answers[..i + 1] && answers[..n][i] == answers[i];
    }
  }

  /** Attaching goes in turn, to the last answer or to the first that passes the ceiling or,
      within it, cannot be charged. */
  lemma {:induction false} AttachAllMeaning<E>(answers: seq<seq<(nat, nat)>>, max: nat, start: nat,
                                               attach: (nat, seq<(nat, nat)>) -> Result<nat, E>)
    returns (k: nat, accounts: seq<nat>)
    ensures Attaching(answers, k, max, start, attach, accounts)
    ensures match AttachAll(answers, max, start, attach)
            case Ok(account) => k == |answers| && account == accounts[k]
            case Err(TooMany) => k < |answers| && Total(answers[..k + 1]) > max
            case Err(Charged(e)) =>
              k < |answers| && Total(answers[..k + 1]) <= max && attach(accounts[k], answers[k]) == Err(e)
  {
    if answers == [] {
      k, accounts := 0, [start];
    } else {
      var n := |answers| - 1;
      k, accounts := AttachAllMeaning(answers[..n], max, start, attach);
      AttachingFurther(answers, n, k, max, start, attach, accounts);
      assert answers[..n + 1] == answers;
      if k < n {
        assert answers[..n][..k + 1] == answers[..k + 1] && answers[..n][k] == answers[k];
      } else if Total(answers) <= max && attach(accounts[n], answers[n]).Ok? {
        k, accounts := n + 1, accounts + [attach(accounts[n], answers[n]).value];
      }
    }
  }

  lemma AttachNext<E>(answers: seq<seq<(nat, nat)>>, answer: seq<(nat, nat)>, max: nat, start: nat,
                      attach: (nat, seq<(nat, nat)>) -> Result<nat, E>, account: nat)
    requires AttachAll(answers, max, start, attach) == Ok(account)
    ensures Total(answers + [answer]) == Total(answers) + |answer|
    ensures AttachAll(answers + [answer], max, start, attach) ==
            if Total(answers) + |answer| > max then Err(TooMany)
            else if attach(account, answer).Err? then Err(Charged(attach(account, answer).error))
            else Ok(attach(account, answer).value)
  {
    TotalSnoc(answers, answer);
    assert (answers + [answer])[..|answers|] == answers;
  }

  /** The stage gives every input document its answer, or is refused at the first that
      passes the ceiling or cannot be attached. */
  method GraphLookup<D(!new), K(==, !new), E>(g: Graph<D, K>, starts: seq<seq<K>>, maxDepth: nat, max: nat, start: nat,
                                              attach: (nat, seq<(nat, nat)>) -> Result<nat, E>)
    returns (r: Result<seq<seq<(nat, nat)>>, Refusal<E>>)
    ensures var answers := Answers(g, starts, maxDepth);
            match AttachAll(answers, max, start, attach)
            case Err(e) => r == Err(e)
            case Ok(_) => r == Ok(answers)
  {
    var table := FileForeign(g);
    var out: seq<seq<(nat, nat)>>, held, account := [], 0, start;
    for i := 0 to |starts|
      invariant out == Answers(g, starts[..i], maxDepth) && held == Total(out) && held <= max
      invariant AttachAll(out, max, start, attach) == Ok(account)
    {
      AnswersPrefix(g, starts, maxDepth, i);
      AttachNext(out, Answer(g, SetOf(starts[i]), maxDepth + 1), max, start, attach, account);
      var walked, _ := Walk(g, table, starts[i], maxDepth, held, max);
      if walked.None? {
        StageIsRefused(g, starts, maxDepth, i + 1, max, start, attach);
        return Err(TooMany);
      }
      held := held + |walked.value|;
      var attached := attach(account, walked.value);
      if attached.Err? {
        StageIsRefused(g, starts, maxDepth, i + 1, max, start, attach);
        return Err(Charged(attached.error));
      }
      account, out := attached.value, out + [walked.value];
    }
    assert starts[..|starts|] == starts;
    return Ok(out);
  }
}
