/**
 The account of the index keys, and for a write also the matched documents, that a
 request holds, charged to a lease on the node's memory pool.

 The lease is made only once more than `free` keys are held.  A read's lease follows
 what is held now; a write's is kept at the most held since it was made, so that a later
 chunk of the write asks the pool only for growth.
 */
module MemoryAccount {
  import opened Outcomes

  /** What a request's account says: whether the lease has been made and what it has
      charged, and the keys and documents held now. */
  datatype Books = Books(free: nat, keep: bool, open: bool, lease: nat, keys: nat, held: nat, documents: nat) {
    function Level(): nat { held + documents }
  }

  /** Nothing held.  `base` is what a lease that is open already was charged elsewhere. */
  function Start(free: nat, keep: bool, open: bool, base: nat): Books { Books(free, keep, open, base, 0, 0, 0) }

  const MAX_LIMIT: nat := 10_000
  const MAX_CANDIDATES: nat := 10_000

  /** A `find` with a window of `skip + limit` documents. */
  function FindBooks(window: nat): Books { Start(Min(window, MAX_LIMIT) + 1, false, false, 0) }

  /** An `update`, `delete` or `find_and_modify`. */
  function WriteBooks(): Books { Start(MAX_CANDIDATES, true, false, 0) }

  /** A read that is handed an open lease: no key is free. */
  function OpenBooks(base: nat): Books { Start(0, false, true, base) }

  /** A key or a document is given by the bytes it is estimated to hold. */
  datatype Op = TakeKey(bytes: nat) | GiveKey(bytes: nat) | GiveAllKeys | TakeDocument(bytes: nat) | GiveAllDocuments

  /** The books after an operation.  What is charged stays on the lease whether or not the
      pool grants it: a refusal ends the request, and the lease goes back whole. */
  function Apply(b: Books, op: Op): Books {
    match op
    case TakeKey(bytes) =>
      var c := b.(held := b.held + bytes, keys := b.keys + 1);
      var d := c.(open := b.open || c.keys > b.free);
      if !d.open then d
      else if b.keep then d.(lease := Max(b.lease, d.Level()))
      else d.(lease := if b.open then b.lease + bytes else d.Level())
    case GiveKey(bytes) =>
      var back := Min(bytes, b.held);
      b.(held := b.held - back, keys := if b.keys == 0 then 0 else b.keys - 1,
         lease := if b.open then b.lease - Min(back, b.lease) else b.lease)
    case GiveAllKeys =>
      b.(held := 0, keys := 0, lease := if b.open && !b.keep then b.lease - Min(b.held, b.lease) else b.lease)
    case TakeDocument(bytes) =>
      if !b.open then b
      else
        var c := b.(documents := b.documents + bytes);
        c.(lease := Max(b.lease, c.Level()))
    case GiveAllDocuments => b.(documents := 0)
  }

  function Run(start: Books, ops: seq<Op>): Books {
    if ops == [] then start else Apply(Run(start, ops[..|ops| - 1]), ops[|ops| - 1])
  }

  lemma RunSnoc(start: Books, ops: seq<Op>, op: Op)
    ensures Run(start, ops + [op]) == Apply(Run(start, ops), op)
  {
    assert (ops + [op])[..|ops|] == ops;
  }

  /** Reads hold no documents; a write lets its keys and documents go only all at once. */
  predicate Fits(keep: bool, op: Op) {
    if keep then !op.GiveKey? else op.TakeKey? || op.GiveKey? || op.GiveAllKeys?
  }

  ghost predicate AllFit(keep: bool, ops: seq<Op>) { forall i :: 0 <= i < |ops| ==> Fits(keep, ops[i]) }

  // ---------------------------------------------------------------------------
  // A read's account
  // ---------------------------------------------------------------------------

  function Sum(held: seq<nat>): nat {
    if held == [] then 0 else Sum(held[..|held| - 1]) + held[|held| - 1]
  }

  /** `held` without one occurrence of `x`, if it has one. */
  function Without(held: seq<nat>, x: nat): seq<nat> {
    if held == [] then []
    else if held[|held| - 1] == x then held[..|held| - 1]
    else Without(held[..|held| - 1], x) + [held[|held| - 1]]
  }

  lemma {:induction false} WithoutTakesOne(held: seq<nat>, x: nat)
    requires x in held
    ensures |Without(held, x)| == |held| - 1 && Sum(Without(held, x)) == Sum(held) - x
  {
    var front, last := held[..|held| - 1], held[|held| - 1];
    if last != x {
      assert x in front;
      WithoutTakesOne(front, x);
      assert (Without(front, x) + [last])[..|Without(front, x)|] == Without(front, x);
    }
  }

  /** The keys held after an operation. */
  function After(now: seq<nat>, op: Op): seq<nat> {
    match op
    case TakeKey(bytes) => now + [bytes]
    case GiveKey(bytes) => Without(now, bytes)
    case GiveAllKeys => []
    case _ => now
  }

  /** The keys taken and not yet given back. */
  function HeldNow(ops: seq<Op>): seq<nat> {
    if ops == [] then [] else After(HeldNow(ops[..|ops| - 1]), ops[|ops| - 1])
  }

  /** Only a key that is held is given back. */
  predicate GivesHeld(ops: seq<Op>) {
    ops != [] ==>
      && GivesHeld(ops[..|ops| - 1])
      && var op := ops[|ops| - 1]; op.GiveKey? ==> op.bytes in HeldNow(ops[..|ops| - 1])
  }

  /** More than `free` keys have been held at once. */
  predicate WentPast(free: nat, ops: seq<Op>) {
    |HeldNow(ops)| > free || (ops != [] && WentPast(free, ops[..|ops| - 1]))
  }

  /** A read's books are exact: they count the keys held now, and the lease, once made, is
      charged for those and nothing else, on top of what it was charged elsewhere. */
  predicate Exact(b: Books, now: seq<nat>, base: nat) {
    && !b.keep && b.documents == 0
    && b.keys == |now| && b.held == Sum(now)
    && b.lease == (if b.open then base + b.held else 0) && (!b.open ==> base == 0)
  }

  lemma ExactStep(b: Books, now: seq<nat>, op: Op, base: nat)
    requires Exact(b, now, base) && Fits(false, op) && (op.GiveKey? ==> op.bytes in now) && (|now| > b.free ==> b.open)
    ensures Exact(Apply(b, op), After(now, op), base) && Apply(b, op).free == b.free
    ensures Apply(b, op).open <==> b.open || |After(now, op)| > b.free
  {
    match op
    case TakeKey(bytes) => assert (now + [bytes])[..|now|] == now;
    case GiveKey(bytes) => WithoutTakesOne(now, bytes);
    case GiveAllKeys =>
  }

  /** Over every run of a read: the lease, if it was not open already, is made exactly when
      more than `free` keys have been held at once; until then nothing is charged, and from
      then on it is charged for exactly the keys held now. */
  lemma {:induction false} ReadLeaseIsExact(free: nat, open: bool, base: nat, ops: seq<Op>)
    requires (open || base == 0) && AllFit(false, ops) && GivesHeld(ops)
    ensures Exact(Run(Start(free, false, open, base), ops), HeldNow(ops), base)
    ensures Run(Start(free, false, open, base), ops).free == free
    ensures Run(Start(free, false, open, base), ops).open <==> open || WentPast(free, ops)
  {
    if ops == [] {
    } else {
      var front, op := ops[..|ops| - 1], ops[|ops| - 1];
      ReadLeaseIsExact(free, open, base, front);
      assert Fits(false, op);
      ExactStep(Run(Start(free, false, open, base), front), HeldNow(front), op, base);
    }
  }

  /** A `find` touches the pool exactly when it has held more keys at once than its window and
      one more. */
  lemma FindWithinWindowIsFree(window: nat, ops: seq<Op>)
    requires AllFit(false, ops) && GivesHeld(ops)
    ensures var b := Run(FindBooks(window), ops);
            && (b.open <==> WentPast((if window < 10_000 then window else 10_000) + 1, ops))
            && b.lease == if b.open then Sum(HeldNow(ops)) else 0
  {
    ReadLeaseIsExact(Min(window, MAX_LIMIT) + 1, false, 0, ops);
  }

  /** So nothing of the keys is left on the lease after they are all given back. */
  lemma ReadReturnsEverything(free: nat, open: bool, base: nat, ops: seq<Op>)
    requires (open || base == 0) && AllFit(false, ops) && GivesHeld(ops)
    ensures Run(Start(free, false, open, base), ops + [GiveAllKeys]).lease == base
  {
    ReadLeaseIsExact(free, open, base, ops);
    RunSnoc(Start(free, false, open, base), ops, GiveAllKeys);
  }

  // ---------------------------------------------------------------------------
  // A write's account
  // ---------------------------------------------------------------------------

  /** The matched documents a write holds on its lease: those taken while it was open and not
      let go since. */
  function MatchedNow(free: nat, ops: seq<Op>): seq<nat> {
    if ops == [] then []
    else
      var front, op := ops[..|ops| - 1], ops[|ops| - 1];
      match op
      case TakeDocument(bytes) => MatchedNow(free, front) + if WentPast(free, front) then [bytes] else []
      case GiveAllDocuments => []
      case _ => MatchedNow(free, front)
  }

  /** The bytes of the keys and the documents a write holds. */
  function HoldsNow(free: nat, ops: seq<Op>): nat { Sum(HeldNow(ops)) + Sum(MatchedNow(free, ops)) }

  /** `most` is the most held after any of the operations at which the lease was open, or
      nothing if it never was. */
  ghost predicate IsMost(free: nat, ops: seq<Op>, most: nat) {
    && (forall k: nat :: k <= |ops| && WentPast(free, ops[..k]) ==> HoldsNow(free, ops[..k]) <= most)
    && (WentPast(free, ops) ==>
          exists k: nat :: k <= |ops| && WentPast(free, ops[..k]) && HoldsNow(free, ops[..k]) == most)
    && (!WentPast(free, ops) ==> most == 0)
  }

  /** A write's books: the keys and the documents held now, and whether its lease is open. */
  predicate Stands(b: Books, now: seq<nat>, documents: nat, open: bool) {
    b.keep && b.keys == |now| && b.held == Sum(now) && b.documents == documents && b.open == open
  }

  /** They count what is held, and the lease is open once more than `free` keys were held at
      once. */
  predicate Counts(b: Books, ops: seq<Op>) {
    Stands(b, HeldNow(ops), Sum(MatchedNow(b.free, ops)), WentPast(b.free, ops))
  }

  lemma SumSnoc(held: seq<nat>, last: nat)
    ensures Sum(held + [last]) == Sum(held) + last
  {
    assert (held + [last])[..|held|] == held;
  }

  /** The bytes of the documents after an operation. */
  function DocumentsAfter(documents: nat, open: bool, op: Op): nat {
    match op
    case TakeDocument(bytes) => if open then documents + bytes else documents
    case GiveAllDocuments => 0
    case _ => documents
  }

  lemma StandsNext(b: Books, now: seq<nat>, documents: nat, op: Op)
    requires Stands(b, now, documents, b.open) && Fits(true, op) && (|now| > b.free ==> b.open)
    ensures var c := Apply(b, op);
            && Stands(c, After(now, op), DocumentsAfter(documents, b.open, op), b.open || |After(now, op)| > b.free)
            && c.free == b.free
            && c.lease == if c.open && (op.TakeKey? || op.TakeDocument?) then Max(b.lease, c.Level()) else b.lease
  {
    if op.TakeKey? { SumSnoc(now, op.bytes); }
  }

  /** What the histories say of one more operation. */
  lemma HistoryNext(free: nat, ops: seq<Op>, op: Op)
    ensures var more := ops + [op];
            && HeldNow(more) == After(HeldNow(ops), op)
            && (WentPast(free, more) <==> WentPast(free, ops) || |HeldNow(more)| > free)
            && Sum(MatchedNow(free, more)) == DocumentsAfter(Sum(MatchedNow(free, ops)), WentPast(free, ops), op)
    ensures |HeldNow(ops)| > free ==> WentPast(free, ops)
  {
    assert (ops + [op])[..|ops|] == ops;
    if op.TakeDocument? {
      SumSnoc(MatchedNow(free, ops), op.bytes);
      assert MatchedNow(free, ops) + [] == MatchedNow(free, ops);
    }
  }

  /** The books after one more operation. */
  lemma CountsNext(b: Books, ops: seq<Op>, op: Op)
    requires Counts(b, ops) && Fits(true, op)
    ensures Counts(Apply(b, op), ops + [op]) && Apply(b, op).free == b.free
    ensures Apply(b, op).lease ==
            if Apply(b, op).open && (op.TakeKey? || op.TakeDocument?) then Max(b.lease, HoldsNow(b.free, ops + [op]))
            else b.lease
  {
    HistoryNext(b.free, ops, op);
    StandsNext(b, HeldNow(ops), Sum(MatchedNow(b.free, ops)), op);
  }

  /** Letting go makes no new most. */
  lemma LettingGoHoldsLess(free: nat, ops: seq<Op>, op: Op)
    requires op.GiveAllKeys? || op.GiveAllDocuments?
    ensures HoldsNow(free, ops + [op]) <= HoldsNow(free, ops) && (WentPast(free, ops + [op]) <==> WentPast(free, ops))
  {
    HistoryNext(free, ops, op);
  }

  lemma PrefixesStay(ops: seq<Op>, op: Op)
    ensures forall k: nat :: k <= |ops| ==> (ops + [op])[..k] == ops[..k]
    ensures (ops + [op])[..|ops| + 1] == ops + [op] && ops[..|ops|] == ops
  {
  }

  lemma NewMost(free: nat, ops: seq<Op>, op: Op, most: nat)
    requires IsMost(free, ops, most) && WentPast(free, ops + [op]) && HoldsNow(free, ops + [op]) >= most
    ensures IsMost(free, ops + [op], HoldsNow(free, ops + [op]))
  {
    var more := ops + [op];
    PrefixesStay(ops, op);
    forall k: nat | k <= |more| && WentPast(free, more[..k])
      ensures HoldsNow(free, more[..k]) <= HoldsNow(free, more)
    {
      if k <= |ops| { assert WentPast(free, ops[..k]); }
    }
    assert WentPast(free, more[..|more|]);
  }

  lemma SameMost(free: nat, ops: seq<Op>, op: Op, most: nat)
    requires IsMost(free, ops, most)
    requires !WentPast(free, ops + [op]) || (WentPast(free, ops) && HoldsNow(free, ops + [op]) <= most)
    ensures IsMost(free, ops + [op], most)
  {
    var more := ops + [op];
    PrefixesStay(ops, op);
    HistoryNext(free, ops, op);
    forall k: nat | k <= |more| && WentPast(free, more[..k])
      ensures HoldsNow(free, more[..k]) <= most
    {
      if k <= |ops| { assert WentPast(free, ops[..k]); }
    }
    if WentPast(free, ops) {
      var k: nat :| k <= |ops| && WentPast(free, ops[..k]) && HoldsNow(free, ops[..k]) == most;
      assert WentPast(free, more[..k]);
    }
  }

  lemma MostNow(free: nat, ops: seq<Op>, most: nat)
    requires IsMost(free, ops, most)
    ensures if WentPast(free, ops) then HoldsNow(free, ops) <= most else most == 0
  {
    assert ops[..|ops|] == ops;
  }

  /** The lease after one more operation is the most held by then. */
  lemma MostNext(b: Books, ops: seq<Op>, op: Op)
    requires Counts(b, ops) && Fits(true, op) && IsMost(b.free, ops, b.lease)
    ensures IsMost(b.free, ops + [op], Apply(b, op).lease)
  {
    CountsNext(b, ops, op);
    MostNow(b.free, ops, b.lease);
    if op.GiveAllKeys? || op.GiveAllDocuments? {
      LettingGoHoldsLess(b.free, ops, op);
      SameMost(b.free, ops, op, b.lease);
    } else if WentPast(b.free, ops + [op]) && (!WentPast(b.free, ops) || HoldsNow(b.free, ops + [op]) > b.lease) {
      NewMost(b.free, ops, op, b.lease);
    } else {
      SameMost(b.free, ops, op, b.lease);
    }
  }

  /** Over every run of a write the books count what it holds, and the lease is the most it has
      held, keys and documents together, since more keys than are free were held at once. */
  lemma {:induction false} WriteLeaseIsPeak(ops: seq<Op>)
    requires AllFit(true, ops)
    ensures var b := Run(WriteBooks(), ops);
            b.free == MAX_CANDIDATES && Counts(b, ops) && IsMost(MAX_CANDIDATES, ops, b.lease)
  {
    if ops == [] {
    } else {
      var front, op := ops[..|ops| - 1], ops[|ops| - 1];
      WriteLeaseIsPeak(front);
      assert Fits(true, op) && ops == front + [op];
      CountsNext(Run(WriteBooks(), front), front, op);
      MostNext(Run(WriteBooks(), front), front, op);
    }
  }

  /** What an operation asks the pool for. */
  function Asked(b: Books, op: Op): nat {
    if Apply(b, op).lease > b.lease then Apply(b, op).lease - b.lease else 0
  }

  lemma KeptStepAsksNothing(b: Books, op: Op)
    requires b.keep && b.open && Fits(true, op) && Apply(b, op).Level() <= b.lease
    ensures Apply(b, op).lease == b.lease && Apply(b, op).open && Apply(b, op).keep && Asked(b, op) == 0
  {
  }

  /** No more than `most` is held from `b` on, whatever has been done so far. */
  predicate StaysUnder(b: Books, ops: seq<Op>, most: nat) {
    Run(b, ops).Level() <= most && (ops != [] ==> StaysUnder(b, ops[..|ops| - 1], most))
  }

  /** None of the operations asks the pool for anything. */
  predicate NeverAsks(b: Books, ops: seq<Op>) {
    ops != [] ==> NeverAsks(b, ops[..|ops| - 1]) && Asked(Run(b, ops[..|ops| - 1]), ops[|ops| - 1]) == 0
  }

  /** A later chunk that never holds more than was held before asks the pool for nothing,
      at any of its operations, so none of them can be refused. */
  lemma {:induction false} LaterChunkAsksNothing(b: Books, more: seq<Op>)
    requires b.keep && b.open && AllFit(true, more) && StaysUnder(b, more, b.lease)
    ensures Run(b, more).lease == b.lease && Run(b, more).open && Run(b, more).keep
    ensures NeverAsks(b, more)
  {
    if more == [] {
    } else {
      var front, op := more[..|more| - 1], more[|more| - 1];
      LaterChunkAsksNothing(b, front);
      assert Fits(true, op);
      KeptStepAsksNothing(Run(b, front), op);
    }
  }

  // ---------------------------------------------------------------------------
  // The account itself
  // ---------------------------------------------------------------------------

  /** A lease on the pool.  Whether the pool grants a charge is the pool's answer; the bytes
      are on the lease either way, and a charge of nothing is not put to the pool. */
  class Lease {
    var own: nat

    constructor ()
      ensures own == 0
    {
      own := 0;
    }

    method Charge(bytes: nat, granted: bool) returns (ok: bool)
      modifies this
      ensures own == old(own) + bytes && (ok <==> bytes == 0 || granted)
    {
      if bytes == 0 { return true; }
      own := own + bytes;
      return granted;
    }

    method Release(bytes: nat)
      modifies this
      ensures own == old(own) - Min(bytes, old(own))
    {
      own := own - Min(bytes, own);
    }
  }

  class IndexKeys {
    const free: nat
    const keep: bool
    var lease: Lease?
    var held: nat
    var keys: nat
    var documents: nat

    ghost function Accounts(): Books
      reads this, lease
    {
      Books(free, keep, lease != null, if lease == null then 0 else lease.own, keys, held, documents)
    }

    constructor OfAFind(window: nat)
      ensures Accounts() == FindBooks(window) && lease == null
    {
      free, keep := Min(window, MAX_LIMIT) + 1, false;
      lease, held, keys, documents := null, 0, 0, 0;
    }

    constructor OfAWrite()
      ensures Accounts() == WriteBooks() && lease == null
    {
      free, keep := MAX_CANDIDATES, true;
      lease, held, keys, documents := null, 0, 0, 0;
    }

    constructor Over(lease: Lease)
      ensures Accounts() == OpenBooks(lease.own) && this.lease == lease
    {
      free, keep := 0, false;
      this.lease, held, keys, documents := lease, 0, 0, 0;
    }

    /** One more key is held; the one past the free ones makes the lease, charged for all. */
    method TakeOne(bytes: nat, granted: bool) returns (ok: bool)
      modifies this, lease
      ensures Accounts() == Apply(old(Accounts()), TakeKey(bytes))
      ensures ok <==> granted || Asked(old(Accounts()), TakeKey(bytes)) == 0
      ensures lease == old(lease) || (old(lease) == null && fresh(lease))
    {
      held, keys := held + bytes, keys + 1;
      var charge := bytes;
      if lease == null && keys > free {
        lease := new Lease();
        charge := held + documents;
      }
      if lease == null { return true; }
      if keep {
        var level := held + documents;
        charge := if lease.own < level then level - lease.own else 0;
      }
      ok := lease.Charge(charge, granted);
    }

    method GiveOne(bytes: nat)
      modifies this, lease
      ensures Accounts() == Apply(old(Accounts()), GiveKey(bytes)) && lease == old(lease)
    {
      var back := Min(bytes, held);
      held, keys := held - back, if keys == 0 then 0 else keys - 1;
      if lease != null { lease.Release(back); }
    }

    method GiveAll()
      modifies this, lease
      ensures Accounts() == Apply(old(Accounts()), GiveAllKeys) && lease == old(lease)
    {
      var bytes := held;
      held, keys := 0, 0;
      if !keep && lease != null { lease.Release(bytes); }
    }

    /** A matched document is charged only on a lease the keys have made. */
    method TakeMatch(bytes: nat, granted: bool) returns (ok: bool)
      modifies this, lease
      ensures Accounts() == Apply(old(Accounts()), TakeDocument(bytes)) && lease == old(lease)
      ensures ok <==> granted || Asked(old(Accounts()), TakeDocument(bytes)) == 0
    {
      if lease == null { return true; }
      documents := documents + bytes;
      var level := held + documents;
      ok := lease.Charge(if lease.own < level then level - lease.own else 0, granted);
    }

    method GiveAllMatches()
      modifies this
      ensures Accounts() == Apply(old(Accounts()), GiveAllDocuments) && lease == old(lease)
    {
      documents := 0;
    }
  }
}
