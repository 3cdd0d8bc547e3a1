/**
 A sorted `find`: the `skip + limit` least of what it is offered, against a stable sort
 of every match.

 Values are compared by an order given as a parameter, with its contract stated by
 `IsOrder`; a document's sort keys and its `_id` are parameters too.
 */
module Orders {
  datatype Ordering = Less | Equal | Greater

  function Reverse(o: Ordering): Ordering {
    match o
    case Less => Greater
    case Equal => Equal
    case Greater => Less
  }

  /** A total preorder on values: comparing is consistent both ways and transitive. */
  ghost predicate IsOrder<V(!new)>(cmp: (V, V) -> Ordering) {
    && (forall a, b :: cmp(b, a) == Reverse(cmp(a, b)))
    && forall a, b, c :: cmp(a, b) != Greater && cmp(b, c) != Greater ==> cmp(a, c) != Greater
  }

  datatype SortKey = SortKey(path: string, descending: bool)

  /** Key by key; the first difference decides, turned round for a descending key. */
  function CompareKeys<V>(cmp: (V, V) -> Ordering, order: seq<SortKey>, a: seq<V>, b: seq<V>): Ordering
    requires |a| == |order| == |b|
  {
    if order == [] then Equal
    else
      var c := cmp(a[0], b[0]);
      if c == Equal then CompareKeys(cmp, order[1..], a[1..], b[1..])
      else if order[0].descending then Reverse(c)
      else c
  }

  lemma {:induction false} KeysReverse<V(!new)>(cmp: (V, V) -> Ordering, order: seq<SortKey>, a: seq<V>, b: seq<V>)
    requires IsOrder(cmp) && |a| == |order| == |b|
    ensures CompareKeys(cmp, order, b, a) == Reverse(CompareKeys(cmp, order, a, b))
  {
    if order == [] {
    } else {
      assert cmp(b[0], a[0]) == Reverse(cmp(a[0], b[0]));
      KeysReverse(cmp, order[1..], a[1..], b[1..]);
    }
  }

  lemma OrderMixes<V(!new)>(cmp: (V, V) -> Ordering, a: V, b: V, c: V)
    requires IsOrder(cmp) && cmp(a, b) != Greater && cmp(b, c) != Greater
    ensures cmp(a, c) == (if cmp(a, b) == Less || cmp(b, c) == Less then Less else Equal)
  {
    assert cmp(b, a) == Reverse(cmp(a, b)) && cmp(c, b) == Reverse(cmp(b, c)) && cmp(c, a) == Reverse(cmp(a, c));
    if cmp(a, c) == Equal && cmp(a, b) == Less { assert cmp(c, a) != Greater && cmp(b, c) != Greater; }
    if cmp(a, c) == Equal && cmp(b, c) == Less { assert cmp(c, a) != Greater && cmp(a, b) != Greater; }
  }

  lemma {:induction false} KeysAreTransitive<V(!new)>(cmp: (V, V) -> Ordering, order: seq<SortKey>, a: seq<V>,
                                                      b: seq<V>, c: seq<V>)
    requires IsOrder(cmp) && |a| == |order| == |b| == |c|
    requires CompareKeys(cmp, order, a, b) == Less && CompareKeys(cmp, order, b, c) == Less
    ensures CompareKeys(cmp, order, a, c) == Less
  {
    var ab, bc := cmp(a[0], b[0]), cmp(b[0], c[0]);
    if order[0].descending {
      assert cmp(b[0], a[0]) == Reverse(ab) && cmp(c[0], b[0]) == Reverse(bc);
      assert cmp(c[0], a[0]) == Reverse(cmp(a[0], c[0]));
      OrderMixes(cmp, c[0], b[0], a[0]);
    } else {
      OrderMixes(cmp, a[0], b[0], c[0]);
    }
    if ab == Equal && bc == Equal {
      KeysAreTransitive(cmp, order[1..], a[1..], b[1..], c[1..]);
    }
  }

  // ---------------------------------------------------------------------------
  // Insertion under a strict order
  // ---------------------------------------------------------------------------

  /** In front of the first that it comes before. */
  function Insert<D>(s: seq<D>, d: D, before: (D, D) -> bool): seq<D> {
    if s == [] then [d]
    else if before(d, s[0]) then [d] + s
    else [s[0]] + Insert(s[1..], d, before)
  }

  function Sorted<D>(xs: seq<D>, before: (D, D) -> bool): seq<D> {
    if xs == [] then [] else Insert(Sorted(xs[..|xs| - 1], before), xs[|xs| - 1], before)
  }

  function Take<D>(n: nat, s: seq<D>): seq<D> { if n < |s| then s[..n] else s }

  ghost predicate InOrder<D>(s: seq<D>, before: (D, D) -> bool) {
    forall i, j :: 0 <= i < j < |s| ==> before(s[i], s[j])
  }

  ghost predicate Asymmetric<D(!new)>(before: (D, D) -> bool) { forall a, b :: before(a, b) ==> !before(b, a) }

  ghost predicate Strict<D(!new)>(before: (D, D) -> bool) {
    && Asymmetric(before)
    && forall a, b, c :: before(a, b) && before(b, c) ==> before(a, c)
  }

  lemma {:induction false} InsertKeepsElements<D>(s: seq<D>, d: D, before: (D, D) -> bool)
    ensures multiset(Insert(s, d, before)) == multiset(s) + multiset{d}
  {
    if s == [] {
    } else {
      assert s == [s[0]] + s[1..];
      if !before(d, s[0]) { InsertKeepsElements(s[1..], d, before); }
    }
  }

  lemma {:induction false} SortedKeepsElements<D>(xs: seq<D>, before: (D, D) -> bool)
    ensures multiset(Sorted(xs, before)) == multiset(xs)
  {
    if xs == [] {
    } else {
      var n := |xs| - 1;
      SortedKeepsElements(xs[..n], before);
      InsertKeepsElements(Sorted(xs[..n], before), xs[n], before);
      assert xs == xs[..n] + [xs[n]];
    }
  }

  lemma {:induction false} InsertKeepsOrder<D(!new)>(s: seq<D>, d: D, before: (D, D) -> bool)
    requires Strict(before) && InOrder(s, before) && forall i :: 0 <= i < |s| ==> before(d, s[i]) || before(s[i], d)
    ensures InOrder(Insert(s, d, before), before)
  {
    if s != [] && !before(d, s[0]) {
      InsertKeepsOrder(s[1..], d, before);
      InsertKeepsElements(s[1..], d, before);
      var r := Insert(s[1..], d, before);
      forall i | 0 <= i < |r| ensures before(s[0], r[i]) {
        assert r[i] in multiset(r);
        assert r[i] == d || r[i] in s[1..];
      }
    }
  }

  /** Any two of the elements are told apart by the order. */
  ghost predicate Apart<D>(xs: seq<D>, before: (D, D) -> bool) {
    forall i, j :: 0 <= i < j < |xs| ==> before(xs[i], xs[j]) || before(xs[j], xs[i])
  }

  lemma {:induction false} SortedIsInOrder<D(!new)>(xs: seq<D>, before: (D, D) -> bool)
    requires Strict(before) && Apart(xs, before)
    ensures InOrder(Sorted(xs, before), before)
  {
    if xs == [] {
    } else {
      var n := |xs| - 1;
      var front := Sorted(xs[..n], before);
      SortedIsInOrder(xs[..n], before);
      SortedKeepsElements(xs[..n], before);
      forall i | 0 <= i < |front| ensures before(xs[n], front[i]) || before(front[i], xs[n]) {
        assert front[i] in multiset(front);
        var j :| 0 <= j < n && xs[..n][j] == front[i];
      }
      InsertKeepsOrder(front, xs[n], before);
    }
  }

  lemma FirstIsSame<D(!new)>(a: seq<D>, b: seq<D>, before: (D, D) -> bool)
    requires Asymmetric(before) && InOrder(a, before) && InOrder(b, before)
    requires a != [] && b != [] && multiset(a) == multiset(b)
    ensures a[0] == b[0]
  {
    assert a[0] in multiset(a) && b[0] in multiset(b);
    assert a[0] in b && b[0] in a;
    var i :| 0 <= i < |b| && b[i] == a[0];
    var j :| 0 <= j < |a| && a[j] == b[0];
  }

  lemma TailElements<D>(a: seq<D>)
    requires a != []
    ensures multiset(a[1..]) == multiset(a) - multiset{a[0]}
  {
    assert a == [a[0]] + a[1..];
  }

  /** There is one way to put the same elements in order. */
  lemma {:induction false} OrderIsUnique<D(!new)>(a: seq<D>, b: seq<D>, before: (D, D) -> bool)
    requires Asymmetric(before) && InOrder(a, before) && InOrder(b, before) && multiset(a) == multiset(b)
    ensures a == b
  {
    SameLength(a, b);
    if a == [] {
    } else {
      FirstIsSame(a, b, before);
      TailIsSame(a, b, before);
      OrderIsUnique(a[1..], b[1..], before);
      assert a == [a[0]] + a[1..] && b == [b[0]] + b[1..];
    }
  }

  lemma TailIsSame<D>(a: seq<D>, b: seq<D>, before: (D, D) -> bool)
    requires a != [] && b != [] && a[0] == b[0] && multiset(a) == multiset(b)
    requires InOrder(a, before) && InOrder(b, before)
    ensures multiset(a[1..]) == multiset(b[1..]) && InOrder(a[1..], before) && InOrder(b[1..], before)
  {
    TailElements(a);
    TailElements(b);
    TailInOrder(a, before);
    TailInOrder(b, before);
  }

  lemma SameLength<D>(a: seq<D>, b: seq<D>)
    requires multiset(a) == multiset(b)
    ensures |a| == |b|
  {
    assert |a| == |multiset(a)| && |b| == |multiset(b)|;
  }

  lemma TailInOrder<D>(a: seq<D>, before: (D, D) -> bool)
    requires InOrder(a, before) && a != []
    ensures InOrder(a[1..], before)
  {
  }

  lemma {:induction false} InsertSplits<D>(s: seq<D>, d: D, at: nat, before: (D, D) -> bool)
    requires at <= |s| && (forall i :: 0 <= i < at ==> !before(d, s[i])) && (at < |s| ==> before(d, s[at]))
    ensures Insert(s, d, before) == s[..at] + [d] + s[at..]
  {
    if at == 0 {
    } else {
      InsertSplits(s[1..], d, at - 1, before);
    }
  }

  // ---------------------------------------------------------------------------
  // Keeping the least
  // ---------------------------------------------------------------------------

  /** What a window of `n` holds after an offer: the offer displaces the largest held
      only if it comes before it. */
  function Offer<D>(n: nat, held: seq<D>, d: D, before: (D, D) -> bool): seq<D> {
    if n == 0 then held
    else if |held| < n then Insert(held, d, before)
    else if before(d, held[|held| - 1]) then Insert(held[..|held| - 1], d, before)
    else held
  }

  /** What `d` comes before, it comes before with all that follows. */
  ghost predicate Cuts<D>(s: seq<D>, d: D, before: (D, D) -> bool) {
    forall i, j :: 0 <= i < j < |s| && before(d, s[i]) ==> before(d, s[j])
  }

  lemma OrderIsCut<D(!new)>(s: seq<D>, d: D, before: (D, D) -> bool)
    requires Strict(before) && InOrder(s, before)
    ensures Cuts(s, d, before)
  {
  }

  lemma OfferInFront<D>(n: nat, s: seq<D>, d: D, before: (D, D) -> bool)
    requires Cuts(s, d, before) && n > 0 && s != [] && before(d, s[0])
    ensures Offer(n, Take(n, s), d, before) == Take(n, [d] + s)
  {
    var held := Take(n, s);
    var last := held[|held| - 1];
    assert before(d, last) by { if |held| > 1 { assert last == s[|held| - 1]; } }
    if |held| == n {
      if n > 1 { assert held[..n - 1][0] == s[0]; }
      assert Insert(held[..n - 1], d, before) == [d] + held[..n - 1];
    } else {
      assert Insert(held, d, before) == [d] + held;
    }
  }

  lemma OfferBehind<D>(n: nat, s: seq<D>, d: D, before: (D, D) -> bool)
    requires n > 0 && s != [] && !before(d, s[0])
    ensures Offer(n, Take(n, s), d, before) == [s[0]] + Offer(n - 1, Take(n - 1, s[1..]), d, before)
  {
    var held, rest := Take(n, s), Take(n - 1, s[1..]);
    assert held == [s[0]] + rest;
    InsertBehind(s[0], rest, d, before);
    if |held| == n && n > 1 {
      assert held[n - 1] == rest[n - 2];
      assert held[..n - 1] == [s[0]] + rest[..n - 2];
      InsertBehind(s[0], rest[..n - 2], d, before);
    }
  }

  lemma InsertBehind<D>(x: D, rest: seq<D>, d: D, before: (D, D) -> bool)
    requires !before(d, x)
    ensures Insert([x] + rest, d, before) == [x] + Insert(rest, d, before)
  {
    assert ([x] + rest)[1..] == rest;
  }

  lemma CutsTail<D>(s: seq<D>, d: D, before: (D, D) -> bool)
    requires Cuts(s, d, before) && s != []
    ensures Cuts(s[1..], d, before)
  {
  }

  lemma OfferToNone<D>(n: nat, s: seq<D>, d: D, before: (D, D) -> bool)
    requires n == 0 || s == []
    ensures Offer(n, Take(n, s), d, before) == Take(n, Insert(s, d, before))
  {
    assert Take(n, s) == [];
  }

  lemma OfferStep<D>(n: nat, s: seq<D>, d: D, before: (D, D) -> bool)
    requires n > 0 && s != [] && !before(d, s[0])
    requires Offer(n - 1, Take(n - 1, s[1..]), d, before) == Take(n - 1, Insert(s[1..], d, before))
    ensures Offer(n, Take(n, s), d, before) == Take(n, Insert(s, d, before))
  {
    OfferBehind(n, s, d, before);
    TakeBehind(n, s[0], Insert(s[1..], d, before));
    assert Insert(s, d, before) == [s[0]] + Insert(s[1..], d, before);
  }

  /** Keeping the least as they come is sorting everything and taking the least. */
  lemma {:induction false} OfferIsTake<D>(n: nat, s: seq<D>, d: D, before: (D, D) -> bool)
    requires Cuts(s, d, before)
    ensures Offer(n, Take(n, s), d, before) == Take(n, Insert(s, d, before))
    decreases s
  {
    if n == 0 || s == [] {
      OfferToNone(n, s, d, before);
    } else if before(d, s[0]) {
      OfferInFront(n, s, d, before);
      assert Insert(s, d, before) == [d] + s;
    } else {
      CutsTail(s, d, before);
      OfferIsTake(n - 1, s[1..], d, before);
      OfferStep(n, s, d, before);
    }
  }

  lemma TakeBehind<D>(n: nat, x: D, r: seq<D>)
    requires n > 0
    ensures Take(n, [x] + r) == [x] + Take(n - 1, r)
  {
  }
}

module SortedFind {
  import opened Outcomes
  import opened Orders

  const ID: string := "_id"

  /** Documents that tie on every key asked for are told apart by `_id`; a sort that names
      `_id` anywhere needs nothing more. */
  function WithIdTiebreak(sort: seq<SortKey>): seq<SortKey> {
    if exists k :: k in sort && k.path == ID then sort else sort + [SortKey(ID, false)]
  }

  /** How documents `D` are ranked: the value each sorts by for a key, compared by `cmp`. */
  datatype Ranking<!D(!new), !V(!new)> = Ranking(cmp: (V, V) -> Ordering, value: (D, SortKey) -> V, id: D -> V) {
    /** Values are totally ordered, `_id` is one value, and no two documents share it. */
    ghost predicate Valid() {
      && IsOrder(cmp)
      && (forall d, k: SortKey :: k.path == ID ==> value(d, k) == id(d))
      && forall a, b :: cmp(id(a), id(b)) == Equal ==> a == b
    }

    function SortKeys(order: seq<SortKey>, d: D): (r: seq<V>)
      ensures |r| == |order|
    {
      seq(|order|, i requires 0 <= i < |order| => value(d, order[i]))
    }

    function Compare(order: seq<SortKey>, a: D, b: D): Ordering {
      CompareKeys(cmp, order, SortKeys(order, a), SortKeys(order, b))
    }

    function Before(order: seq<SortKey>): (D, D) -> bool {
      (a: D, b: D) => Compare(order, a, b) == Less
    }
  }

  // ---------------------------------------------------------------------------
  // The order with its tie-break is total
  // ---------------------------------------------------------------------------

  lemma BeforeIsStrict<D(!new), V(!new)>(r: Ranking<D, V>, order: seq<SortKey>)
    requires r.Valid()
    ensures Strict(r.Before(order))
  {
    forall a: D, b: D | r.Before(order)(a, b) ensures !r.Before(order)(b, a) {
      KeysReverse(r.cmp, order, r.SortKeys(order, a), r.SortKeys(order, b));
    }
    forall a: D, b: D, c: D | r.Before(order)(a, b) && r.Before(order)(b, c) ensures r.Before(order)(a, c) {
      KeysAreTransitive(r.cmp, order, r.SortKeys(order, a), r.SortKeys(order, b), r.SortKeys(order, c));
    }
  }

  /** Documents that compare equal agree on every key. */
  lemma {:induction false} EqualOnEveryKey<V>(cmp: (V, V) -> Ordering, order: seq<SortKey>, a: seq<V>, b: seq<V>,
                                              i: nat)
    requires |a| == |order| == |b| && i < |order| && CompareKeys(cmp, order, a, b) == Equal
    ensures cmp(a[i], b[i]) == Equal
  {
    if i == 0 {
    } else {
      EqualOnEveryKey(cmp, order[1..], a[1..], b[1..], i - 1);
    }
  }

  lemma TiebreakIsTotal<D(!new), V(!new)>(r: Ranking<D, V>, sort: seq<SortKey>, a: D, b: D)
    requires r.Valid() && a != b
    ensures r.Before(WithIdTiebreak(sort))(a, b) || r.Before(WithIdTiebreak(sort))(b, a)
  {
    var order := WithIdTiebreak(sort);
    var i :| 0 <= i < |order| && order[i].path == ID;
    KeysReverse(r.cmp, order, r.SortKeys(order, a), r.SortKeys(order, b));
    if r.Compare(order, a, b) == Equal {
      EqualOnEveryKey(r.cmp, order, r.SortKeys(order, a), r.SortKeys(order, b), i);
    }
  }

  /** An extra last key decides exactly where the others tie. */
  lemma {:induction false} LastKeyBreaksTies<V>(cmp: (V, V) -> Ordering, order: seq<SortKey>, last: SortKey, a: seq<V>,
                                                b: seq<V>)
    requires |a| == |order| + 1 == |b|
    ensures var n := |order|;
            var without := CompareKeys(cmp, order, a[..n], b[..n]);
            CompareKeys(cmp, order + [last], a, b) ==
            if without != Equal then without
            else if last.descending then Reverse(cmp(a[n], b[n]))
            else cmp(a[n], b[n])
  {
    if order == [] {
      assert CompareKeys(cmp, [last][1..], a[1..], b[1..]) == Equal;
    } else {
      var n := |order|;
      assert (order + [last])[1..] == order[1..] + [last];
      assert a[..n][1..] == a[1..][..n - 1] && b[..n][1..] == b[1..][..n - 1];
      LastKeyBreaksTies(cmp, order[1..], last, a[1..], b[1..]);
    }
  }

  // ---------------------------------------------------------------------------
  // The reference: a stable sort of the matches in `_id` order
  // ---------------------------------------------------------------------------

  ghost predicate InIdOrder<D(!new), V(!new)>(r: Ranking<D, V>, matches: seq<D>) {
    forall i, j :: 0 <= i < j < |matches| ==> r.cmp(r.id(matches[i]), r.id(matches[j])) == Less
  }

  /** After everything it does not strictly precede under `sort` alone: inserting the
      matches one after the other keeps ties in the order they came. */
  function StableSort<D(!new), V(!new)>(r: Ranking<D, V>, sort: seq<SortKey>, matches: seq<D>): seq<D> {
    Sorted(matches, r.Before(sort))
  }

  /** Against a document with a smaller `_id`, the tie-break changes nothing. */
  lemma TiebreakIsStable<D(!new), V(!new)>(r: Ranking<D, V>, sort: seq<SortKey>, d: D, earlier: D)
    requires r.Valid() && r.cmp(r.id(earlier), r.id(d)) == Less
    ensures r.Before(WithIdTiebreak(sort))(d, earlier) <==> r.Before(sort)(d, earlier)
  {
    var order := WithIdTiebreak(sort);
    if order != sort {
      var a, b := r.SortKeys(order, d), r.SortKeys(order, earlier);
      var n := |sort|;
      assert a[..n] == r.SortKeys(sort, d) && b[..n] == r.SortKeys(sort, earlier);
      LastKeyBreaksTies(r.cmp, sort, SortKey(ID, false), a, b);
      assert r.cmp(r.id(d), r.id(earlier)) == Reverse(r.cmp(r.id(earlier), r.id(d)));
    }
  }

  lemma {:induction false} InsertAgrees<D>(s: seq<D>, d: D, p: (D, D) -> bool, q: (D, D) -> bool)
    requires forall i :: 0 <= i < |s| ==> p(d, s[i]) == q(d, s[i])
    ensures Insert(s, d, p) == Insert(s, d, q)
  {
    if s == [] {
    } else {
      InsertAgrees(s[1..], d, p, q);
    }
  }

  /** The last match is placed among the others alike with and without the tie-break. */
  lemma LastIsPlacedAlike<D(!new), V(!new)>(r: Ranking<D, V>, sort: seq<SortKey>, matches: seq<D>, front: seq<D>)
    requires r.Valid() && InIdOrder(r, matches) && matches != []
    requires multiset(front) == multiset(matches[..|matches| - 1])
    ensures var d := matches[|matches| - 1];
            Insert(front, d, r.Before(sort)) == Insert(front, d, r.Before(WithIdTiebreak(sort)))
  {
    var n := |matches| - 1;
    forall i | 0 <= i < |front|
      ensures r.Before(sort)(matches[n], front[i]) == r.Before(WithIdTiebreak(sort))(matches[n], front[i])
    {
      assert front[i] in multiset(front);
      var j :| 0 <= j < n && matches[..n][j] == front[i];
      TiebreakIsStable(r, sort, matches[n], front[i]);
    }
    InsertAgrees(front, matches[n], r.Before(sort), r.Before(WithIdTiebreak(sort)));
  }

  /** On matches in `_id` order, sorting with the tie-break is the stable sort. */
  lemma {:induction false} StableIsTiebroken<D(!new), V(!new)>(r: Ranking<D, V>, sort: seq<SortKey>, matches: seq<D>)
    requires r.Valid() && InIdOrder(r, matches)
    ensures StableSort(r, sort, matches) == Sorted(matches, r.Before(WithIdTiebreak(sort)))
  {
    if matches == [] {
    } else {
      var n := |matches| - 1;
      StableIsTiebroken(r, sort, matches[..n]);
      SortedKeepsElements(matches[..n], r.Before(sort));
      LastIsPlacedAlike(r, sort, matches, Sorted(matches[..n], r.Before(sort)));
    }
  }

  lemma DistinctAreApart<D(!new), V(!new)>(r: Ranking<D, V>, sort: seq<SortKey>, xs: seq<D>)
    requires r.Valid() && forall i, j :: 0 <= i < j < |xs| ==> xs[i] != xs[j]
    ensures Apart(xs, r.Before(WithIdTiebreak(sort)))
  {
    forall i, j | 0 <= i < j < |xs|
      ensures r.Before(WithIdTiebreak(sort))(xs[i], xs[j]) || r.Before(WithIdTiebreak(sort))(xs[j], xs[i])
    {
      TiebreakIsTotal(r, sort, xs[i], xs[j]);
    }
  }

  lemma {:induction false} SameElementsAreDistinct<D>(a: seq<D>, b: seq<D>)
    requires multiset(a) == multiset(b) && forall i, j :: 0 <= i < j < |a| ==> a[i] != a[j]
    ensures forall i, j :: 0 <= i < j < |b| ==> b[i] != b[j]
  {
    forall i, j | 0 <= i < j < |b| ensures b[i] != b[j] {
      if b[i] == b[j] {
        assert b == b[..i] + [b[i]] + b[i + 1..j] + [b[j]] + b[j + 1..];
        assert multiset(b)[b[i]] >= 2;
        OnceEach(a, b[i]);
      }
    }
  }

  lemma {:induction false} OnceEach<D>(a: seq<D>, d: D)
    requires forall i, j :: 0 <= i < j < |a| ==> a[i] != a[j]
    ensures multiset(a)[d] <= 1
  {
    if a == [] {
    } else {
      var n := |a| - 1;
      OnceEach(a[..n], d);
      assert a == a[..n] + [a[n]];
    }
  }

  /** Whatever order the matches arrive in, sorting them is the stable sort of the same
      matches in `_id` order. */
  lemma ArrivalOrderIsIrrelevant<D(!new), V(!new)>(r: Ranking<D, V>, sort: seq<SortKey>, matches: seq<D>,
                                                   arrivals: seq<D>)
    requires r.Valid() && InIdOrder(r, matches) && multiset(arrivals) == multiset(matches)
    ensures Sorted(arrivals, r.Before(WithIdTiebreak(sort))) == StableSort(r, sort, matches)
    ensures InOrder(StableSort(r, sort, matches), r.Before(WithIdTiebreak(sort)))
  {
    var before := r.Before(WithIdTiebreak(sort));
    BeforeIsStrict(r, WithIdTiebreak(sort));
    IdOrderIsDistinct(r, matches);
    SameElementsAreDistinct(matches, arrivals);
    DistinctAreApart(r, sort, matches);
    DistinctAreApart(r, sort, arrivals);
    SortedIsInOrder(matches, before);
    SortedIsInOrder(arrivals, before);
    SortedKeepsElements(matches, before);
    SortedKeepsElements(arrivals, before);
    OrderIsUnique(Sorted(arrivals, before), Sorted(matches, before), before);
    StableIsTiebroken(r, sort, matches);
  }

  /** What a comparison answers, place by place: the first key on which the two differ decides,
      the smaller value first or, for a descending key, the larger. */
  lemma {:induction false} FirstDifference<V>(cmp: (V, V) -> Ordering, order: seq<SortKey>, a: seq<V>, b: seq<V>)
    returns (k: nat)
    requires |a| == |order| == |b| && CompareKeys(cmp, order, a, b) == Less
    ensures k < |order| && (forall m :: 0 <= m < k ==> cmp(a[m], b[m]) == Equal)
    ensures cmp(a[k], b[k]) == if order[k].descending then Greater else Less
  {
    k := 0;
    if cmp(a[0], b[0]) == Equal {
      var rest := FirstDifference(cmp, order[1..], a[1..], b[1..]);
      k := rest + 1;
      forall m | 0 <= m < k ensures cmp(a[m], b[m]) == Equal {
        if m > 0 { assert a[m] == a[1..][m - 1] && b[m] == b[1..][m - 1]; }
      }
    }
  }

  /** The two agree on the first `k` keys. */
  ghost predicate TieTo<D(!new), V(!new)>(r: Ranking<D, V>, sort: seq<SortKey>, k: nat, a: D, b: D)
    requires k <= |sort|
  {
    forall m :: 0 <= m < k ==> r.cmp(r.value(a, sort[m]), r.value(b, sort[m])) == Equal
  }

  /** `a` is listed ahead of `b`: by the first key on which they differ, or, if they differ on
      none, by the smaller `_id`. */
  ghost predicate Ahead<D(!new), V(!new)>(r: Ranking<D, V>, sort: seq<SortKey>, a: D, b: D) {
    || (exists k :: 0 <= k < |sort| && TieTo(r, sort, k, a, b)
                    && r.cmp(r.value(a, sort[k]), r.value(b, sort[k])) == if sort[k].descending then Greater else Less)
    || (TieTo(r, sort, |sort|, a, b) && r.cmp(r.id(a), r.id(b)) == Less)
  }

  lemma BeforeIsAhead<D(!new), V(!new)>(r: Ranking<D, V>, sort: seq<SortKey>, a: D, b: D)
    requires r.Valid() && r.Before(WithIdTiebreak(sort))(a, b)
    ensures Ahead(r, sort, a, b)
  {
    var order := WithIdTiebreak(sort);
    var k := FirstDifference(r.cmp, order, r.SortKeys(order, a), r.SortKeys(order, b));
    assert order[..|sort|] == sort;
    forall m | 0 <= m < k && m < |sort| ensures r.cmp(r.value(a, sort[m]), r.value(b, sort[m])) == Equal {
      assert r.SortKeys(order, a)[m] == r.value(a, sort[m]) && r.SortKeys(order, b)[m] == r.value(b, sort[m]);
    }
    if k < |sort| { assert TieTo(r, sort, k, a, b) && order[k] == sort[k]; }
  }

  /** The reference in its own terms: the matches, each as often as it is one, with whatever is
      listed ahead of another ahead of it by the keys asked for and then by `_id`. */
  lemma StableSortMeaning<D(!new), V(!new)>(r: Ranking<D, V>, sort: seq<SortKey>, matches: seq<D>)
    requires r.Valid() && InIdOrder(r, matches)
    ensures var sorted := StableSort(r, sort, matches);
            && multiset(sorted) == multiset(matches)
            && forall i, j :: 0 <= i < j < |sorted| ==> Ahead(r, sort, sorted[i], sorted[j])
  {
    var sorted := StableSort(r, sort, matches);
    SortedKeepsElements(matches, r.Before(sort));
    ArrivalOrderIsIrrelevant(r, sort, matches, matches);
    forall i, j | 0 <= i < j < |sorted| ensures Ahead(r, sort, sorted[i], sorted[j]) {
      BeforeIsAhead(r, sort, sorted[i], sorted[j]);
    }
  }

  lemma IdOrderIsDistinct<D(!new), V(!new)>(r: Ranking<D, V>, matches: seq<D>)
    requires r.Valid() && InIdOrder(r, matches)
    ensures forall i, j :: 0 <= i < j < |matches| ==> matches[i] != matches[j]
  {
    forall i, j | 0 <= i < j < |matches| ensures matches[i] != matches[j] {
      assert r.cmp(r.id(matches[i]), r.id(matches[j])) == Less;
      assert r.cmp(r.id(matches[j]), r.id(matches[i])) == Reverse(r.cmp(r.id(matches[i]), r.id(matches[j])));
    }
  }

  // ---------------------------------------------------------------------------
  // The bounded window
  // ---------------------------------------------------------------------------

  /** A match in the window: the values it is compared by, and its shape or the refusal to
      give it one. */
  datatype Ranked<V, P, E> = Ranked(keys: seq<V>, shaped: Result<P, E>)

  /** A window of at most `n` matches in order; `held` names the documents behind them. */
  class TopK<D(!new), V(!new), P, E> {
    const n: nat
    const ranking: Ranking<D, V>
    const order: seq<SortKey>
    const shape: D -> Result<P, E>
    var heap: seq<Ranked<V, P, E>>
    ghost var held: seq<D>

    ghost predicate Valid()
      reads this
    {
      && ranking.Valid() && |heap| == |held| <= n
      && forall i :: 0 <= i < |heap| ==> heap[i] == Ranked(ranking.SortKeys(order, held[i]), shape(held[i]))
    }

    constructor (n: nat, ranking: Ranking<D, V>, order: seq<SortKey>, shape: D -> Result<P, E>)
      requires ranking.Valid()
      ensures Valid() && held == []
      ensures this.n == n && this.ranking == ranking && this.order == order && this.shape == shape
    {
      this.n, this.ranking, this.order, this.shape := n, ranking, order, shape;
      heap, held := [], [];
    }

    /** The heap is a priority queue: the place of a new element is found among the rest. */
    method Push(d: D)
      requires Valid() && |heap| < n
      modifies this
      ensures Valid() && held == Insert(old(held), d, ranking.Before(order))
    {
      var one := Ranked(ranking.SortKeys(order, d), shape(d));
      var at := 0;
      while at < |heap| && CompareKeys(ranking.cmp, order, one.keys, heap[at].keys) != Less
        invariant at <= |heap|
        invariant forall i :: 0 <= i < at ==> !ranking.Before(order)(d, held[i])
      {
        at := at + 1;
      }
      InsertSplits(held, d, at, ranking.Before(order));
      heap := heap[..at] + [one] + heap[at..];
      held := held[..at] + [d] + held[at..];
    }

    method TakeOffer(d: D)
      requires Valid()
      modifies this
      ensures Valid() && held == Offer(n, old(held), d, ranking.Before(order))
    {
      if n == 0 { return; }
      var keys := ranking.SortKeys(order, d);
      if |heap| == n {
        var largest := heap[n - 1];
        if CompareKeys(ranking.cmp, order, keys, largest.keys) != Less { return; }
        heap, held := heap[..n - 1], held[..n - 1];
      }
      Push(d);
    }

    /** Gives the shapes past the first `skip`, or the earliest refusal among them. */
    method IntoSorted(skip: nat) returns (r: Result<seq<P>, E>)
      requires Valid()
      ensures IsPage(held, shape, skip, n, r)
    {
      var page: seq<P> := [];
      for i := skip to Max(skip, |heap|)
        invariant |page| == i - skip
        invariant forall k :: 0 <= k < |page| ==> shape(held[skip + k]) == Ok(page[k])
      {
        if heap[i].shaped.Err? {
          forall j | skip <= j < i ensures shape(held[j]).Ok? {
            assert shape(held[skip + (j - skip)]) == Ok(page[j - skip]);
          }
          return Err(heap[i].shaped.error);
        }
        page := page + [heap[i].shaped.value];
      }
      return Ok(page);
    }
  }

  /** The window after a run of offers is the least of a full sort of them. */
  lemma WindowIsTake<D(!new), V(!new)>(r: Ranking<D, V>, sort: seq<SortKey>, n: nat, xs: seq<D>)
    requires r.Valid() && xs != [] && forall i, j :: 0 <= i < j < |xs| ==> xs[i] != xs[j]
    ensures var before := r.Before(WithIdTiebreak(sort));
            var k := |xs| - 1;
            Offer(n, Take(n, Sorted(xs[..k], before)), xs[k], before) == Take(n, Sorted(xs, before))
  {
    var before := r.Before(WithIdTiebreak(sort));
    BeforeIsStrict(r, WithIdTiebreak(sort));
    DistinctAreApart(r, sort, xs[..|xs| - 1]);
    SortedIsInOrder(xs[..|xs| - 1], before);
    OrderIsCut(Sorted(xs[..|xs| - 1], before), xs[|xs| - 1], before);
    OfferIsTake(n, Sorted(xs[..|xs| - 1], before), xs[|xs| - 1], before);
  }

  method OfferAll<D(!new), V(!new), P, E>(r: Ranking<D, V>, sort: seq<SortKey>, shape: D -> Result<P, E>, n: nat,
                                          arrivals: seq<D>)
    returns (top: TopK<D, V, P, E>)
    requires r.Valid() && forall i, j :: 0 <= i < j < |arrivals| ==> arrivals[i] != arrivals[j]
    ensures fresh(top) && top.Valid() && top.shape == shape && top.n == n
    ensures top.held == Take(n, Sorted(arrivals, r.Before(WithIdTiebreak(sort))))
  {
    top := new TopK(n, r, WithIdTiebreak(sort), shape);
    ghost var before := r.Before(WithIdTiebreak(sort));
    for i := 0 to |arrivals|
      invariant top.Valid() && fresh(top) && top.n == n && top.ranking == r
      invariant top.order == WithIdTiebreak(sort) && top.shape == shape
      invariant top.held == Take(n, Sorted(arrivals[..i], before))
    {
      assert arrivals[..i + 1][..i] == arrivals[..i];
      WindowIsTake(r, sort, n, arrivals[..i + 1]);
      top.TakeOffer(arrivals[i]);
    }
    assert arrivals[..|arrivals|] == arrivals;
  }

  /** A sorted find over matches that arrive in any order: the page of the stable sort of
      the matches in `_id` order, or the refusal of the first document on that page that
      cannot be shaped.  Documents off the page are not judged. */
  method FindSorted<D(!new), V(!new), P, E>(r: Ranking<D, V>, sort: seq<SortKey>, shape: D -> Result<P, E>,
                                            skip: nat, limit: nat, arrivals: seq<D>, ghost matches: seq<D>)
    returns (page: Result<seq<P>, E>)
    requires r.Valid() && InIdOrder(r, matches) && multiset(arrivals) == multiset(matches)
    ensures IsPage(StableSort(r, sort, matches), shape, skip, limit, page)
  {
    IdOrderIsDistinct(r, matches);
    SameElementsAreDistinct(matches, arrivals);
    var top := OfferAll(r, sort, shape, skip + limit, arrivals);
    ArrivalOrderIsIrrelevant(r, sort, matches, arrivals);
    page := top.IntoSorted(skip);
    PageOfTaken(StableSort(r, sort, matches), top.held, shape, skip, limit, page);
  }
}
