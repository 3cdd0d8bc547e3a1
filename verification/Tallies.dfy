/** Counting and charging along a list. */
module Tallies {
  import opened Outcomes

  /** The lengths of the lists together. */
  function Total<T>(lists: seq<seq<T>>): nat {
    if lists == [] then 0 else Total(lists[..|lists| - 1]) + |lists[|lists| - 1]|
  }

  lemma TotalSnoc<T>(lists: seq<seq<T>>, last: seq<T>)
    ensures Total(lists + [last]) == Total(lists) + |last|
  {
    assert (lists + [last])[..|lists|] == lists;
  }

  lemma {:induction false} TotalAgrees<S, T>(a: seq<seq<S>>, b: seq<seq<T>>)
    requires |a| == |b| && forall i :: 0 <= i < |a| ==> |a[i]| == |b[i]|
    ensures Total(a) == Total(b)
  {
    if a == [] {
    } else {
      TotalAgrees(a[..|a| - 1], b[..|b| - 1]);
    }
  }

  /** Charging each item in turn to an account at `start`: where it stands after the last, or
      the first refusal.  `charge` gives where it stands after one item, or refuses it. */
  function ChargeAll<T, E>(items: seq<T>, start: nat, charge: (nat, T) -> Result<nat, E>): Result<nat, E> {
    if items == [] then Ok(start)
    else
      var before := ChargeAll(items[..|items| - 1], start, charge);
      if before.Err? then before else charge(before.value, items[|items| - 1])
  }

  lemma ChargeAllSnoc<T, E>(items: seq<T>, last: T, start: nat, charge: (nat, T) -> Result<nat, E>)
    ensures var before := ChargeAll(items, start, charge);
            ChargeAll(items + [last], start, charge) == if before.Err? then before else charge(before.value, last)
  {
    assert (items + [last])[..|items|] == items;
  }

  /** A refusal is the answer, whatever comes after. */
  lemma {:induction false} RefusalStands<T, E>(items: seq<T>, k: nat, start: nat, charge: (nat, T) -> Result<nat, E>)
    requires k <= |items| && ChargeAll(items[..k], start, charge).Err?
    ensures ChargeAll(items, start, charge) == ChargeAll(items[..k], start, charge)
    decreases |items|
  {
    if k == |items| {
      assert items[..k] == items;
    } else {
      assert items[..|items| - 1][..k] == items[..k];
      RefusalStands(items[..|items| - 1], k, start, charge);
    }
  }

  lemma RefusalOfPrefix<T, E>(some: seq<T>, all: seq<T>, start: nat, charge: (nat, T) -> Result<nat, E>)
    requires some <= all && ChargeAll(some, start, charge).Err?
    ensures ChargeAll(all, start, charge) == ChargeAll(some, start, charge)
  {
    assert all[..|some|] == some;
    RefusalStands(all, |some|, start, charge);
  }

  /** Where the account stands before each item and after the last, when none is refused. */
  ghost predicate Stands<T, E>(items: seq<T>, start: nat, charge: (nat, T) -> Result<nat, E>, accounts: seq<nat>) {
    && |accounts| == |items| + 1 && accounts[0] == start
    && forall i :: 0 <= i < |items| ==> charge(accounts[i], items[i]) == Ok(accounts[i + 1])
  }

  lemma StandsNext<T, E>(items: seq<T>, k: nat, start: nat, charge: (nat, T) -> Result<nat, E>, accounts: seq<nat>,
                         account: nat)
    requires k < |items| && Stands(items[..k], start, charge, accounts) && charge(accounts[k], items[k]) == Ok(account)
    ensures Stands(items[..k + 1], start, charge, accounts + [account])
  {
    var more := accounts + [account];
    forall i | 0 <= i < k + 1 ensures charge(more[i], items[..k + 1][i]) == Ok(more[i + 1]) {
      if i < k { assert items[..k][i] == items[i]; }
    }
  }

  /** The items before the first that is refused are charged one after the other. */
  lemma {:induction false} ChargeAllMeaning<T, E>(items: seq<T>, start: nat, charge: (nat, T) -> Result<nat, E>)
    returns (k: nat, accounts: seq<nat>)
    ensures k <= |items| && Stands(items[..k], start, charge, accounts)
    ensures match ChargeAll(items, start, charge)
            case Ok(account) => k == |items| && account == accounts[k]
            case Err(e) => k < |items| && charge(accounts[k], items[k]) == Err(e)
  {
    if items == [] {
      k, accounts := 0, [start];
    } else {
      var n := |items| - 1;
      k, accounts := ChargeAllMeaning(items[..n], start, charge);
      assert items[..n][..k] == items[..k];
      if k == n {
        var last := charge(accounts[n], items[n]);
        if last.Ok? {
          StandsNext(items, n, start, charge, accounts, last.value);
          k, accounts := n + 1, accounts + [last.value];
        }
      }
    }
  }
}
