/** Ascending lists of places, and files of places by key, shared by the two joins that
    look documents up by key. */
module Places {
  ghost predicate Ascending(r: seq<nat>) { forall i, j :: 0 <= i < j < |r| ==> r[i] < r[j] }

  /** Insert unless already there. */
  function Insert(r: seq<nat>, x: nat): (s: seq<nat>)
    ensures forall y :: y in s <==> y in r || y == x
  {
    if r == [] then [x]
    else
      var n := |r| - 1;
      assert r == r[..n] + [r[n]];
      if r[n] < x then r + [x]
      else if r[n] == x then r
      else Insert(r[..n], x) + [r[n]]
  }

  lemma {:induction false} InsertAscends(r: seq<nat>, x: nat)
    requires Ascending(r)
    ensures Ascending(Insert(r, x))
  {
    if r != [] && x < r[|r| - 1] {
      var n := |r| - 1;
      InsertAscends(r[..n], x);
      AllButLast(r);
      var s := Insert(r[..n], x);
      forall i | 0 <= i < |s| ensures s[i] < r[n] {
        assert s[i] in s;
        if s[i] != x { var j :| 0 <= j < n && r[..n][j] == s[i]; }
      }
    }
  }

  /** `sort_unstable` followed by `dedup`. */
  function SortDedup(xs: seq<nat>): (r: seq<nat>)
    ensures Ascending(r)
    ensures forall x :: x in r <==> x in xs
  {
    if xs == [] then []
    else
      var front := SortDedup(xs[..|xs| - 1]);
      assert xs == xs[..|xs| - 1] + [xs[|xs| - 1]];
      InsertAscends(front, xs[|xs| - 1]);
      Insert(front, xs[|xs| - 1])
  }

  /** An ascending list is determined by what it holds. */
  lemma {:induction false} AscendingIsUnique(a: seq<nat>, b: seq<nat>)
    requires Ascending(a) && Ascending(b) && forall x :: x in a <==> x in b
    ensures a == b
  {
    assert a == [] <==> b == [] by {
      if a != [] { assert a[0] in a; }
      if b != [] { assert b[0] in b; }
    }
    if a == [] {
    } else {
      var m, n := |a| - 1, |b| - 1;
      assert a[m] in a && b[n] in b;
      assert a[m] == b[n];
      AllButLast(a);
      AllButLast(b);
      forall x: nat ensures x in a[..m] <==> x in b[..n] {
        assert x in a <==> x in b;
        assert x in a[..m] <==> x in a && x != a[m];
        assert x in b[..n] <==> x in b && x != b[n];
      }
      AscendingIsUnique(a[..m], b[..n]);
      assert a == a[..m] + [a[m]] && b == b[..n] + [b[n]];
    }
  }

  lemma AllButLast(a: seq<nat>)
    requires Ascending(a) && a != []
    ensures forall x :: x in a[..|a| - 1] <==> x in a && x != a[|a| - 1]
  {
    assert a == a[..|a| - 1] + [a[|a| - 1]];
  }

  /** The places of the documents `p` accepts, ascending. */
  function Accepted<D>(docs: seq<D>, p: D -> bool): (r: seq<nat>)
    ensures forall i :: 0 <= i < |r| ==> r[i] < |docs|
  {
    if docs == [] then []
    else Accepted(docs[..|docs| - 1], p) + (if p(docs[|docs| - 1]) then [|docs| - 1] else [])
  }

  lemma {:induction false} AcceptedHolds<D>(docs: seq<D>, p: D -> bool)
    ensures Ascending(Accepted(docs, p))
    ensures forall i: nat :: i in Accepted(docs, p) <==> i < |docs| && p(docs[i])
  {
    if docs == [] {
    } else {
      AcceptedHolds(docs[..|docs| - 1], p);
    }
  }

  function DocsAt<D>(docs: seq<D>, at: seq<nat>): (r: seq<D>)
    requires forall j :: 0 <= j < |at| ==> at[j] < |docs|
    ensures |r| == |at| && forall j :: 0 <= j < |at| ==> r[j] == docs[at[j]]
  {
    seq(|at|, j requires 0 <= j < |at| => docs[at[j]])
  }

  /** `picked` are the documents at those places. */
  ghost predicate StandAt<D>(docs: seq<D>, at: seq<nat>, picked: seq<D>) {
    |picked| == |at| && forall j :: 0 <= j < |at| ==> at[j] < |docs| && picked[j] == docs[at[j]]
  }

  lemma StandFurther<D>(docs: seq<D>, n: nat, at: seq<nat>, picked: seq<D>)
    requires n <= |docs| && StandAt(docs[..n], at, picked)
    ensures StandAt(docs, at, picked)
    ensures n < |docs| ==> StandAt(docs, at + [n], picked + [docs[n]])
  {
    forall j | 0 <= j < |at| ensures at[j] < |docs| && picked[j] == docs[at[j]] {
      assert docs[..n][at[j]] == docs[at[j]];
    }
  }

  function Under<K>(file: map<K, seq<nat>>, k: K): seq<nat> { if k in file then file[k] else [] }

  /** The place `i` is filed under `k`. */
  predicate Filed<K(==)>(file: map<K, seq<nat>>, k: K, i: nat) { k in file && i in file[k] }

  predicate Shares<K(==)>(a: seq<K>, b: seq<K>) { exists k :: k in a && k in b }

  /** `file` holds each document under each of its keys. */
  ghost predicate Files<D, K(!new)>(file: map<K, seq<nat>>, docs: seq<D>, keys: D -> seq<K>) {
    forall k, i: nat :: Filed(file, k, i) <==> i < |docs| && k in keys(docs[i])
  }

  lemma OneMoreFiled<D, K(!new)>(before: map<K, seq<nat>>, docs: seq<D>, keys: D -> seq<K>, file: map<K, seq<nat>>,
                                 doc: D)
    requires Files(before, docs, keys)
    requires forall k, i: nat :: Filed(file, k, i) <==> Filed(before, k, i) || (k in keys(doc) && i == |docs|)
    ensures Files(file, docs + [doc], keys)
  {
    forall k, i: nat ensures Filed(file, k, i) <==> i < |docs| + 1 && k in keys((docs + [doc])[i]) {
      if i < |docs| { assert (docs + [doc])[i] == docs[i]; }
    }
  }

  /** File the document at `at` under `keys`. */
  method FileUnder<K(==, !new)>(before: map<K, seq<nat>>, keys: seq<K>, at: nat) returns (file: map<K, seq<nat>>)
    ensures forall k, i: nat :: Filed(file, k, i) <==> Filed(before, k, i) || (k in keys && i == at)
  {
    file := before;
    for j := 0 to |keys|
      invariant forall k, i: nat :: Filed(file, k, i) <==> Filed(before, k, i) || (k in keys[..j] && i == at)
    {
      var k := keys[j];
      assert keys[..j + 1] == keys[..j] + [k];
      ghost var was := file;
      file := file[k := Under(file, k) + [at]];
      forall q, i: nat ensures Filed(file, q, i) <==> Filed(was, q, i) || (q == k && i == at) {
        if q == k && i in Under(was, k) { assert Filed(was, k, i); }
      }
    }
    assert keys[..|keys|] == keys;
  }

  /** Everything filed under any of `keys`, in the order met. */
  method Gather<K(==)>(file: map<K, seq<nat>>, keys: seq<K>) returns (at: seq<nat>)
    ensures forall i: nat :: i in at <==> exists k :: k in keys && Filed(file, k, i)
  {
    at := [];
    for j := 0 to |keys|
      invariant forall i: nat :: i in at <==> exists k :: k in keys[..j] && Filed(file, k, i)
    {
      assert keys[..j + 1] == keys[..j] + [keys[j]];
      ghost var before := at;
      at := at + Under(file, keys[j]);
      forall i: nat ensures i in at <==> exists k :: k in keys[..j + 1] && Filed(file, k, i) {
        if i in at && i !in before { assert Filed(file, keys[j], i); }
      }
    }
    assert keys[..|keys|] == keys;
  }
}

/** The equality form of `$lookup`: one pass over the foreign side, joined through a
    table of the wanted keys. */
module EqualityLookup {
  import opened Outcomes
  import opened Places
  import opened Tallies

  function Filtered<D>(docs: seq<D>, p: D -> bool): (r: seq<D>)
    ensures |r| <= |docs|
  {
    if docs == [] then []
    else Filtered(docs[..|docs| - 1], p) + (if p(docs[|docs| - 1]) then [docs[|docs| - 1]] else [])
  }

  lemma {:induction false} PickedIsFiltered<D>(docs: seq<D>, p: D -> bool)
    ensures DocsAt(docs, Accepted(docs, p)) == Filtered(docs, p)
  {
    if docs == [] {
    } else {
      var n := |docs| - 1;
      PickedIsFiltered(docs[..n], p);
      assert DocsAt(docs, Accepted(docs[..n], p)) == DocsAt(docs[..n], Accepted(docs[..n], p));
    }
  }

  lemma FilteredSnoc<D>(docs: seq<D>, d: D, p: D -> bool)
    ensures Filtered(docs + [d], p) == Filtered(docs, p) + (if p(d) then [d] else [])
  {
    assert (docs + [d])[..|docs|] == docs;
  }

  /** Leaving out documents the test rejects anyway changes nothing. */
  lemma {:induction false} FilteredTwice<D>(docs: seq<D>, wide: D -> bool, p: D -> bool)
    requires forall i :: 0 <= i < |docs| && p(docs[i]) ==> wide(docs[i])
    ensures Filtered(Filtered(docs, wide), p) == Filtered(docs, p)
  {
    if docs == [] {
    } else {
      var n := |docs| - 1;
      FilteredTwice(docs[..n], wide, p);
      var front := Filtered(docs[..n], wide);
      if wide(docs[n]) {
        FilteredSnoc(front, docs[n], p);
      } else {
        assert Filtered(docs, wide) == front && Filtered(docs, p) == Filtered(docs[..n], p);
      }
    }
  }

  /** How the two sides are keyed, and the pipeline's ceiling. */
  datatype Join<!D(!new), !K(==, !new)> = Join(local: D -> seq<K>, foreign: D -> seq<K>, max: nat) {
    function Meets(doc: D): D -> bool { (d: D) => Shares(local(doc), foreign(d)) }

    /** The foreign documents that share a key with an input document, in scan order. */
    function Matches(foreignSide: seq<D>, doc: D): seq<D> { Filtered(foreignSide, Meets(doc)) }
  }

  /** The join as a nested loop. */
  function Joined<D(!new), K(==, !new)>(join: Join<D, K>, foreignSide: seq<D>, input: seq<D>): seq<seq<D>> {
    seq(|input|, i requires 0 <= i < |input| => join.Matches(foreignSide, input[i]))
  }

  /** A foreign document that shares a key with some input document. */
  ghost predicate MeetsAny<D(!new), K(!new)>(join: Join<D, K>, input: seq<D>, d: D) {
    exists i :: 0 <= i < |input| && Shares(join.local(input[i]), join.foreign(d))
  }

  /** The foreign documents the join holds: each once, however many keys met. */
  ghost function Met<D(!new), K(!new)>(join: Join<D, K>, foreignSide: seq<D>, input: seq<D>): seq<D> {
    Filtered(foreignSide, (d: D) => MeetsAny(join, input, d))
  }

  /** `picked` are, in scan order, exactly the documents that pass. */
  ghost predicate IsPick<D>(docs: seq<D>, p: D -> bool, picked: seq<D>) {
    exists at: seq<nat> :: Ascending(at) && StandAt(docs, at, picked) && PassAt(docs, p, at)
  }

  ghost predicate PassAt<D>(docs: seq<D>, p: D -> bool, at: seq<nat>) {
    forall k: nat :: k in at <==> k < |docs| && p(docs[k])
  }

  lemma FilteredIsPick<D>(docs: seq<D>, p: D -> bool)
    ensures IsPick(docs, p, Filtered(docs, p))
  {
    AcceptedHolds(docs, p);
    PickedIsFiltered(docs, p);
    assert StandAt(docs, Accepted(docs, p), Filtered(docs, p)) && PassAt(docs, p, Accepted(docs, p));
  }

  /** What the stage holds and what it attaches, from the keys: the foreign documents sharing a
      key with some input document, each once, and for each input document those sharing a key
      with it, all in scan order. */
  lemma JoinMeaning<D(!new), K(!new)>(join: Join<D, K>, foreignSide: seq<D>, input: seq<D>)
    ensures IsPick(foreignSide, (d: D) => MeetsAny(join, input, d), Met(join, foreignSide, input))
    ensures |Joined(join, foreignSide, input)| == |input|
    ensures forall i :: 0 <= i < |input| ==>
              IsPick(foreignSide, join.Meets(input[i]), Joined(join, foreignSide, input)[i])
  {
    FilteredIsPick(foreignSide, (d: D) => MeetsAny(join, input, d));
    forall i | 0 <= i < |input|
      ensures IsPick(foreignSide, join.Meets(input[i]), Joined(join, foreignSide, input)[i])
    {
      FilteredIsPick(foreignSide, join.Meets(input[i]));
    }
  }

  /** Each input document with what is attached to it. */
  function Pairs<D>(input: seq<D>, joined: seq<seq<D>>): (r: seq<(D, seq<D>)>)
    requires |input| == |joined|
    ensures |r| == |input|
  {
    seq(|input|, i requires 0 <= i < |input| => (input[i], joined[i]))
  }

  /** `hold` charges a foreign document that is held; `attach` charges the array joined to an
      input document, and refuses an array or a document that is too large. */
  datatype Charges<!D, !E> = Charges(hold: (nat, D) -> Result<nat, E>, attach: (nat, (D, seq<D>)) -> Result<nat, E>)

  datatype Refusal<E> = TooManyHeld | TooManyAttached | Charged(error: E)

  method WantedKeys<D(!new), K(==, !new)>(join: Join<D, K>, input: seq<D>) returns (wanted: set<K>)
    ensures forall k :: k in wanted <==> exists i :: 0 <= i < |input| && k in join.local(input[i])
  {
    wanted := {};
    for i := 0 to |input|
      invariant forall k :: k in wanted <==> exists j :: 0 <= j < i && k in join.local(input[j])
    {
      wanted := wanted + (set k | k in join.local(input[i]));
    }
  }

  function Retain<K(==, !new)>(keys: seq<K>, wanted: set<K>): (r: seq<K>)
    ensures forall k :: k in r <==> k in keys && k in wanted
  {
    if keys == [] then []
    else
      assert keys == keys[..|keys| - 1] + [keys[|keys| - 1]];
      Retain(keys[..|keys| - 1], wanted) + (if keys[|keys| - 1] in wanted then [keys[|keys| - 1]] else [])
  }

  /** A foreign document with a wanted key. */
  ghost function HasWanted<D(!new), K(!new)>(join: Join<D, K>, wanted: set<K>): D -> bool {
    (d: D) => exists k :: k in join.foreign(d) && k in wanted
  }

  lemma RetainHolds<K(!new)>(keys: seq<K>, wanted: set<K>)
    ensures Retain(keys, wanted) != [] <==> exists k :: k in keys && k in wanted
  {
    var r := Retain(keys, wanted);
    if r != [] { assert r[0] in r; }
    if k :| k in keys && k in wanted { assert k in r; }
  }

  /** Every key of the input document is among the wanted ones. */
  ghost predicate Wants<D(!new), K(!new)>(join: Join<D, K>, wanted: set<K>, doc: D) {
    forall k :: k in join.local(doc) ==> k in wanted
  }

  function WantedOf<D(!new), K(==, !new)>(join: Join<D, K>, wanted: set<K>): D -> seq<K> {
    (d: D) => Retain(join.foreign(d), wanted)
  }

  lemma {:induction false} FilteredPrefix<D>(docs: seq<D>, k: nat, p: D -> bool)
    requires k <= |docs|
    ensures Filtered(docs[..k], p) <= Filtered(docs, p)
    decreases |docs| - k
  {
    if k == |docs| {
      assert docs[..k] == docs;
    } else {
      assert docs[..k + 1][..k] == docs[..k];
      FilteredPrefix(docs, k + 1, p);
    }
  }

  /** A refusal while reading is the refusal of everything that would be held. */
  lemma RefusedWhileReading<D, E>(docs: seq<D>, k: nat, p: D -> bool, hold: (nat, D) -> Result<nat, E>)
    requires k <= |docs| && ChargeAll(Filtered(docs[..k], p), 0, hold).Err?
    ensures ChargeAll(Filtered(docs, p), 0, hold) == ChargeAll(Filtered(docs[..k], p), 0, hold)
  {
    FilteredPrefix(docs, k, p);
    RefusalOfPrefix(Filtered(docs[..k], p), Filtered(docs, p), 0, hold);
  }

  /** One more document held: charged, and filed under its wanted keys. */
  method HoldOne<D(!new), K(==, !new), E>(join: Join<D, K>, wanted: set<K>, held: seq<D>, file: map<K, seq<nat>>,
                                          doc: D, account: nat, hold: (nat, D) -> Result<nat, E>)
    returns (charged: Result<nat, E>, filed: map<K, seq<nat>>)
    requires Files(file, held, WantedOf(join, wanted)) && ChargeAll(held, 0, hold) == Ok(account)
    ensures charged == ChargeAll(held + [doc], 0, hold)
    ensures charged.Ok? ==> Files(filed, held + [doc], WantedOf(join, wanted))
  {
    ChargeAllSnoc(held, doc, 0, hold);
    charged, filed := hold(account, doc), file;
    if charged.Ok? {
      filed := FileUnder(file, Retain(join.foreign(doc), wanted), |held|);
      OneMoreFiled(file, held, WantedOf(join, wanted), filed, doc);
    }
  }

  /** What one pass over `read` leaves: the documents sharing a wanted key, charged and filed. */
  ghost predicate Holding<D(!new), K(!new), E>(join: Join<D, K>, read: seq<D>, wanted: set<K>, held: seq<D>,
                                               file: map<K, seq<nat>>, account: nat,
                                               hold: (nat, D) -> Result<nat, E>)
  {
    && held == Filtered(read, HasWanted(join, wanted))
    && Files(file, held, WantedOf(join, wanted))
    && ChargeAll(held, 0, hold) == Ok(account)
  }

  /** One more document read: held when it shares a wanted key, unless its charge is refused. */
  method HoldNext<D(!new), K(==, !new), E>(join: Join<D, K>, ghost read: seq<D>, wanted: set<K>, held: seq<D>,
                                           file: map<K, seq<nat>>, account: nat, doc: D,
                                           hold: (nat, D) -> Result<nat, E>)
    returns (charged: Result<nat, E>, more: seq<D>, filed: map<K, seq<nat>>)
    requires Holding(join, read, wanted, held, file, account, hold)
    ensures charged == ChargeAll(Filtered(read + [doc], HasWanted(join, wanted)), 0, hold)
    ensures charged.Ok? ==> Holding(join, read + [doc], wanted, more, filed, charged.value, hold)
  {
    FilteredSnoc(read, doc, HasWanted(join, wanted));
    RetainHolds(join.foreign(doc), wanted);
    if Retain(join.foreign(doc), wanted) == [] {
      assert Filtered(read + [doc], HasWanted(join, wanted)) == held;
      return Ok(account), held, file;
    }
    charged, filed := HoldOne(join, wanted, held, file, doc, account, hold);
    more := held + [doc];
  }

  /** One pass over the foreign side: what shares a wanted key is held, in scan order, charged
      as it is, and filed under each. */
  method HoldForeign<D(!new), K(==, !new), E>(join: Join<D, K>, foreignSide: seq<D>, wanted: set<K>,
                                              hold: (nat, D) -> Result<nat, E>)
    returns (charged: Result<nat, E>, held: seq<D>, file: map<K, seq<nat>>)
    ensures charged == ChargeAll(Filtered(foreignSide, HasWanted(join, wanted)), 0, hold)
    ensures charged.Ok? ==>
              held == Filtered(foreignSide, HasWanted(join, wanted)) && Files(file, held, WantedOf(join, wanted))
  {
    charged, held, file := Ok(0), [], map[];
    for i := 0 to |foreignSide|
      invariant charged.Ok? && Holding(join, foreignSide[..i], wanted, held, file, charged.value, hold)
    {
      assert foreignSide[..i + 1] == foreignSide[..i] + [foreignSide[i]];
      charged, held, file := HoldNext(join, foreignSide[..i], wanted, held, file, charged.value, foreignSide[i], hold);
      if charged.Err? {
        RefusedWhileReading(foreignSide, i + 1, HasWanted(join, wanted), hold);
        return;
      }
    }
    assert foreignSide[..|foreignSide|] == foreignSide;
  }

  predicate IsAttached<D(!new), K(==, !new)>(join: Join<D, K>, held: seq<D>, doc: D, at: seq<nat>) {
    at == Accepted(held, join.Meets(doc))
  }

  /** Looking an input document up in the file gives its matches, each once and in scan
      order. */
  method Attach<D(!new), K(==, !new)>(join: Join<D, K>, held: seq<D>, file: map<K, seq<nat>>, wanted: set<K>, doc: D)
    returns (at: seq<nat>)
    requires Files(file, held, WantedOf(join, wanted))
    requires Wants(join, wanted, doc)
    ensures IsAttached(join, held, doc, at)
  {
    var met := Gather(file, join.local(doc));
    at := SortDedup(met);
    AcceptedHolds(held, join.Meets(doc));
    forall i: nat ensures i in at <==> i in Accepted(held, join.Meets(doc)) {
      if i in at {
        var k :| k in join.local(doc) && Filed(file, k, i);
      }
      if i < |held| && Shares(join.local(doc), join.foreign(held[i])) {
        var k :| k in join.local(doc) && k in join.foreign(held[i]);
        assert Filed(file, k, i);
      }
    }
    AscendingIsUnique(at, Accepted(held, join.Meets(doc)));
  }

  lemma HeldIsEnough<D(!new), K(!new)>(join: Join<D, K>, foreignSide: seq<D>, held: seq<D>, wanted: set<K>,
                                       input: seq<D>, i: nat)
    requires i < |input|
    requires forall k :: k in wanted <==> exists j :: 0 <= j < |input| && k in join.local(input[j])
    requires held == Filtered(foreignSide, HasWanted(join, wanted))
    ensures DocsAt(held, Accepted(held, join.Meets(input[i]))) == join.Matches(foreignSide, input[i])
  {
    PickedIsFiltered(held, join.Meets(input[i]));
    forall j | 0 <= j < |foreignSide| && join.Meets(input[i])(foreignSide[j])
      ensures HasWanted(join, wanted)(foreignSide[j])
    {
      var k :| k in join.local(input[i]) && k in join.foreign(foreignSide[j]);
    }
    FilteredTwice(foreignSide, HasWanted(join, wanted), join.Meets(input[i]));
  }

  lemma {:induction false} FilteredAgrees<D>(docs: seq<D>, p: D -> bool, q: D -> bool)
    requires forall i :: 0 <= i < |docs| ==> p(docs[i]) == q(docs[i])
    ensures Filtered(docs, p) == Filtered(docs, q)
  {
    if docs == [] {
    } else {
      FilteredAgrees(docs[..|docs| - 1], p, q);
    }
  }

  lemma HeldIsMet<D(!new), K(!new)>(join: Join<D, K>, foreignSide: seq<D>, wanted: set<K>, input: seq<D>)
    requires forall k :: k in wanted <==> exists j :: 0 <= j < |input| && k in join.local(input[j])
    ensures Filtered(foreignSide, HasWanted(join, wanted)) ==
            Met(join, foreignSide, input)
  {
    forall i | 0 <= i < |foreignSide|
      ensures HasWanted(join, wanted)(foreignSide[i]) <==> MeetsAny(join, input, foreignSide[i])
    {
      var d := foreignSide[i];
      if k :| k in join.foreign(d) && k in wanted {
        var j :| 0 <= j < |input| && k in join.local(input[j]);
        assert Shares(join.local(input[j]), join.foreign(d));
      }
      if MeetsAny(join, input, d) {
        var j :| 0 <= j < |input| && Shares(join.local(input[j]), join.foreign(d));
        var k :| k in join.local(input[j]) && k in join.foreign(d);
      }
    }
    FilteredAgrees(foreignSide, HasWanted(join, wanted), (d: D) => MeetsAny(join, input, d));
  }

  /** The places attached to each input document, and how many there are. */
  method AttachAll<D(!new), K(==, !new)>(join: Join<D, K>, held: seq<D>, file: map<K, seq<nat>>, wanted: set<K>,
                                         input: seq<D>)
    returns (attached: seq<seq<nat>>, total: nat)
    requires Files(file, held, WantedOf(join, wanted))
    requires forall i :: 0 <= i < |input| ==> Wants(join, wanted, input[i])
    ensures |attached| == |input| && total == Total(attached)
    ensures forall i :: 0 <= i < |input| ==> IsAttached(join, held, input[i], attached[i])
  {
    attached, total := [], 0;
    for i := 0 to |input|
      invariant |attached| == i && total == Total(attached)
      invariant forall j :: 0 <= j < i ==> IsAttached(join, held, input[j], attached[j])
    {
      var at := Attach(join, held, file, wanted, input[i]);
      TotalSnoc(attached, at);
      attached := attached + [at];
      total := total + |at|;
    }
  }

  predicate Within<D>(docs: seq<D>, at: seq<nat>) { forall j :: 0 <= j < |at| ==> at[j] < |docs| }

  /** Each input document's matches, copied from what is held and charged in turn. */
  method CopyEach<D(!new), E>(input: seq<D>, held: seq<D>, attached: seq<seq<nat>>, ghost joined: seq<seq<D>>,
                              start: nat, attach: (nat, (D, seq<D>)) -> Result<nat, E>)
    returns (charged: Result<nat, E>, out: seq<seq<D>>)
    requires |input| == |attached| == |joined|
    requires forall i :: 0 <= i < |attached| ==> Within(held, attached[i]) && DocsAt(held, attached[i]) == joined[i]
    ensures charged == ChargeAll(Pairs(input, joined), start, attach) && (charged.Ok? ==> out == joined)
  {
    charged, out := Ok(start), [];
    ghost var pairs := Pairs(input, joined);
    for i := 0 to |attached|
      invariant out == joined[..i] && charged.Ok? && charged == ChargeAll(pairs[..i], start, attach)
    {
      assert Within(held, attached[i]);
      var copies := DocsAt(held, attached[i]);
      assert pairs[..i + 1][..i] == pairs[..i] && pairs[i] == (input[i], copies);
      charged := attach(charged.value, (input[i], copies));
      if charged.Err? {
        RefusalStands(pairs, i + 1, start, attach);
        return;
      }
      out := out + [copies];
    }
    assert pairs[..|attached|] == pairs && joined[..|attached|] == joined;
  }

  /** What the stage answers: the nested loop, or the first thing refused on the way there. */
  ghost function Answer<D(!new), K(!new), E>(join: Join<D, K>, foreignSide: seq<D>, input: seq<D>, start: nat,
                                             charges: Charges<D, E>): Result<seq<seq<D>>, Refusal<E>>
  {
    var met, joined := Met(join, foreignSide, input), Joined(join, foreignSide, input);
    match ChargeAll(met, 0, charges.hold)
    case Err(e) => Err(Charged(e))
    case Ok(_) =>
      if |met| > join.max then Err(TooManyHeld)
      else if Total(joined) > join.max then Err(TooManyAttached)
      else
        match ChargeAll(Pairs(input, joined), start, charges.attach)
        case Err(e) => Err(Charged(e))
        case Ok(_) => Ok(joined)
  }

  /** The one-pass join is the nested loop, or a refusal: exactly when the documents it holds
      cannot be charged, when they or the copies attached pass the ceiling, or when an array
      cannot be attached. */
  method Lookup<D(!new), K(==, !new), E>(join: Join<D, K>, foreignSide: seq<D>, input: seq<D>, start: nat,
                                         charges: Charges<D, E>)
    returns (r: Result<seq<seq<D>>, Refusal<E>>)
    ensures r == Answer(join, foreignSide, input, start, charges)
    ensures r.Ok? ==>
              |r.value| == |input|
              && forall i :: 0 <= i < |input| ==> IsPick(foreignSide, join.Meets(input[i]), r.value[i])
    ensures r == Err(TooManyHeld) <==>
            var met := Met(join, foreignSide, input); ChargeAll(met, 0, charges.hold).Ok? && |met| > join.max
    ensures r == Err(TooManyAttached) <==>
            var met := Met(join, foreignSide, input);
            && ChargeAll(met, 0, charges.hold).Ok? && |met| <= join.max
            && Total(Joined(join, foreignSide, input)) > join.max
  {
    JoinMeaning(join, foreignSide, input);
    var wanted := WantedKeys(join, input);
    var read, held, file := HoldForeign(join, foreignSide, wanted, charges.hold);
    HeldIsMet(join, foreignSide, wanted, input);
    if read.Err? { return Err(Charged(read.error)); }
    if |held| > join.max { return Err(TooManyHeld); }
    var attached, total := AttachAll(join, held, file, wanted, input);
    ghost var joined := Joined(join, foreignSide, input);
    forall i | 0 <= i < |input| ensures Within(held, attached[i]) && DocsAt(held, attached[i]) == joined[i] {
      assert IsAttached(join, held, input[i], attached[i]);
      HeldIsEnough(join, foreignSide, held, wanted, input, i);
    }
    TotalAgrees(attached, joined);
    if total > join.max { return Err(TooManyAttached); }
    var charged, out := CopyEach(input, held, attached, joined, start, charges.attach);
    if charged.Err? { return Err(Charged(charged.error)); }
    return Ok(out);
  }
}
