/** Sequential Happy Eyeballs: picking the next address of a resolved host, preferred
    address family first, and the connect loop that walks the addresses.

    The same selector appears three times in the sources (gateway to target, gateway to
    proxy, proxy to target); one class stands for the three. */
module Eyeballs {

  datatype Address = Address(ip: string, family: int)

  /** The place of an address in the walk: preferred family first, then list order. */
  ghost predicate Precedes(addresses: seq<Address>, preferred: int, i: nat, j: nat) {
    && i < |addresses| && j < |addresses|
    && var pi, pj := addresses[i].family == preferred, addresses[j].family == preferred;
       (pi && !pj) || (pi == pj && i < j)
  }

  /** The indices at or after `from` whose family is (or is not) the preferred one, ascending. */
  ghost function Indices(addresses: seq<Address>, preferred: int, wanted: bool, from: nat): (s: seq<nat>)
    requires from <= |addresses|
    ensures forall i :: i in s <==> from <= i < |addresses| && (addresses[i].family == preferred) == wanted
    ensures forall a, b :: 0 <= a < b < |s| ==> s[a] < s[b]
    decreases |addresses| - from
  {
    if from == |addresses| then []
    else if (addresses[from].family == preferred) == wanted then
      var rest := Indices(addresses, preferred, wanted, from + 1);
      assert forall b :: 0 <= b < |rest| ==> rest[b] in rest;
      [from] + rest
    else Indices(addresses, preferred, wanted, from + 1)
  }

  /** The whole walk: every preferred index ascending, then every other index ascending. */
  ghost function Order(addresses: seq<Address>, preferred: int): seq<nat> {
    Indices(addresses, preferred, true, 0) + Indices(addresses, preferred, false, 0)
  }

  lemma OrderCounts(addresses: seq<Address>, preferred: int, from: nat)
    requires from <= |addresses|
    ensures |Indices(addresses, preferred, true, from)| + |Indices(addresses, preferred, false, from)| == |addresses| - from
    decreases |addresses| - from
  {
    if from < |addresses| { OrderCounts(addresses, preferred, from + 1); }
  }

  /** The walk visits every address exactly once, in the order of `Precedes`. */
  lemma OrderIsAWalk(addresses: seq<Address>, preferred: int)
    ensures var order := Order(addresses, preferred);
            && |order| == |addresses|
            && (forall k :: 0 <= k < |order| ==> order[k] < |addresses|)
            && (forall i :: 0 <= i < |addresses| ==> i in order)
            && (forall a, b :: 0 <= a < b < |order| ==> Precedes(addresses, preferred, order[a], order[b]))
  {
    OrderCounts(addresses, preferred, 0);
    var yes, no := Indices(addresses, preferred, true, 0), Indices(addresses, preferred, false, 0);
    var order := Order(addresses, preferred);
    assert order == yes + no;
    forall k | 0 <= k < |order| ensures order[k] < |addresses| {
      assert order[k] == if k < |yes| then yes[k] else no[k - |yes|];
      if k < |yes| { assert yes[k] in yes; } else { assert no[k - |yes|] in no; }
    }
    forall a, b | 0 <= a < b < |order| ensures Precedes(addresses, preferred, order[a], order[b]) {
      if a < |yes| { assert yes[a] in yes; } else { assert no[a - |yes|] in no; }
      if b < |yes| { assert yes[b] in yes; } else { assert no[b - |yes|] in no; }
    }
  }

  /** After the first `k` stops of the walk, the next stop is the unused address that
      precedes every other unused one; no other address does. */
  lemma NextStop(addresses: seq<Address>, preferred: int, k: nat, i: nat)
    requires k < |addresses| && i < |addresses|
    requires |Order(addresses, preferred)| == |addresses|
    requires i !in Order(addresses, preferred)[..k]
    requires forall j :: 0 <= j < |addresses| && j !in Order(addresses, preferred)[..k] && j != i
                         ==> Precedes(addresses, preferred, i, j)
    ensures i == Order(addresses, preferred)[k]
  {
    OrderIsAWalk(addresses, preferred);
    var order := Order(addresses, preferred);
    assert i in order;
    var at :| 0 <= at < |order| && order[at] == i;
    assert forall m :: 0 <= m < k ==> order[m] == order[..k][m];
    assert at >= k;
    assert forall m :: 0 <= m < k ==> Precedes(addresses, preferred, order[m], order[k]);
    assert order[k] !in order[..k];
  }

  class Selector {
    const addresses: seq<Address>
    const used: array<bool>
    var current: string

    ghost predicate Valid()
      reads this
    {
      used.Length == |addresses|
    }

    /** The first `k` stops of the walk are used up and no others. */
    ghost predicate Walked(preferred: int, k: nat)
      requires Valid()
      reads this, used
    {
      && k <= |Order(addresses, preferred)|
      && forall i :: 0 <= i < |addresses| ==> (used[i] <==> i in Order(addresses, preferred)[..k])
    }

    constructor (addresses: seq<Address>)
      ensures Valid() && fresh(used)
      ensures this.addresses == addresses
      ensures forall i :: 0 <= i < |addresses| ==> !used[i]
    {
      this.addresses := addresses;
      used := new bool[|addresses|](_ => false);
      current := "";
    }

    /** Takes the unused address that comes first in the walk, or reports -1 when none is left. */
    method SelectNext(preferred: int) returns (i: int)
      requires Valid()
      modifies this`current, used
      ensures -1 <= i < |addresses|
      ensures i == -1 <==> forall j :: 0 <= j < |addresses| ==> old(used[j])
      ensures i == -1 ==> used[..] == old(used[..]) && current == old(current)
      ensures i >= 0 ==> !old(used[i]) && used[..] == old(used[..])[i := true] && current == addresses[i].ip
      ensures i >= 0 ==> forall j :: 0 <= j < |addresses| && !old(used[j]) && j != i
                                     ==> Precedes(addresses, preferred, i, j)
    {
      i := 0;
      while i < |addresses|
        invariant 0 <= i <= |addresses|
        invariant used[..] == old(used[..]) && current == old(current)
        invariant forall j :: 0 <= j < i ==> addresses[j].family != preferred || used[j]
      {
        if addresses[i].family == preferred && !used[i] {
          used[i] := true;
          current := addresses[i].ip;
          return;
        }
        i := i + 1;
      }
      i := 0;
      while i < |addresses|
        invariant 0 <= i <= |addresses|
        invariant used[..] == old(used[..]) && current == old(current)
        invariant forall j :: 0 <= j < i ==> used[j]
      {
        if !used[i] {
          used[i] := true;
          current := addresses[i].ip;
          return;
        }
        i := i + 1;
      }
      i := -1;
    }

    /** With a fixed preferred family the (k+1)-st call returns stop `k` of the walk, and -1
        once all stops are used, however often it is asked again. */
    method SelectInOrder(preferred: int, ghost k: nat) returns (i: int)
      requires Valid() && Walked(preferred, k)
      modifies this`current, used
      ensures Valid()
      ensures k < |addresses| ==> Walked(preferred, k + 1) && i == Order(addresses, preferred)[k]
      ensures k == |addresses| ==> Walked(preferred, k) && i == -1
    {
      OrderIsAWalk(addresses, preferred);
      ghost var order := Order(addresses, preferred);
      i := SelectNext(preferred);
      if k == |addresses| {
        assert order[..k] == order;
      } else {
        assert order[k] !in order[..k] by {
          assert forall m :: 0 <= m < k ==> Precedes(addresses, preferred, order[m], order[k]);
        }
        NextStop(addresses, preferred, k, i);
        assert order[..k + 1] == order[..k] + [i];
      }
    }

    /** The indices that no call has returned yet. */
    ghost function Unused(): set<nat>
      requires Valid()
      reads this, used
    {
      set j: nat | j < |addresses| && !used[j]
    }

    /** The connect loop: select, try, repeat. Whether an attempt on an address succeeds is the
        outside world's answer `connects`. It ends because every round uses an address up, succeeds
        exactly when some unused address would answer, stops at the first one of the walk that does,
        and has tried every earlier unused one and none behind it. */
    method Connect(preferred: int, connects: nat -> bool) returns (ok: bool, at: int, rounds: nat)
      requires Valid()
      modifies this`current, used
      ensures rounds <= |addresses| + 1
      ensures ok <==> exists j :: j in old(Unused()) && connects(j)
      ensures ok ==> at in old(Unused()) && connects(at) && current == addresses[at].ip
      ensures ok ==> forall j :: j in old(Unused()) && Precedes(addresses, preferred, j, at) ==> !connects(j)
      ensures Unused() == if ok then set j | j in old(Unused()) && Precedes(addresses, preferred, at, j) else {}
    {
      ok, at, rounds := false, -1, 0;
      ghost var start, left := Unused(), Unused();
      SubsetSize(left, |addresses|);
      while !ok
        invariant left == Unused()
        invariant rounds + |left| <= |addresses|
        invariant if ok then Reached(addresses, preferred, start, left, at, connects) && current == addresses[at].ip
                  else Exhausted(addresses, preferred, start, left, connects)
        decreases !ok, |left|
      {
        rounds := rounds + 1;
        label before:
        at := SelectNext(preferred);
        if at == -1 {
          assert forall j :: 0 <= j < |addresses| ==> old@before(used[j]);
          assert left == {};
          return;
        }
        assert forall j :: j in left && j != at ==> Precedes(addresses, preferred, at, j);
        assert Unused() == left - {at};
        ok := connects(at);
        AfterAttempt(addresses, preferred, start, left, at, connects);
        left := left - {at};
      }
      ReachedMeans(addresses, preferred, start, left, at, connects);
    }
  }

  /** Everything taken so far comes before everything left, and none of it answered. */
  ghost predicate Exhausted(addresses: seq<Address>, preferred: int, start: set<nat>, left: set<nat>, connects: nat -> bool) {
    && left <= start
    && (forall j :: j in start - left ==> !connects(j))
    && (forall j, m :: j in start - left && m in left ==> Precedes(addresses, preferred, j, m))
  }

  /** As `Exhausted`, except that `at` was the last one taken and did answer. */
  ghost predicate Reached(addresses: seq<Address>, preferred: int, start: set<nat>, left: set<nat>, at: int, connects: nat -> bool) {
    && 0 <= at < |addresses| && at in start - left && connects(at)
    && Exhausted(addresses, preferred, start, left + {at}, connects)
    && (forall m :: m in left ==> Precedes(addresses, preferred, at, m))
  }

  lemma AfterAttempt(addresses: seq<Address>, preferred: int, start: set<nat>, left: set<nat>, at: nat, connects: nat -> bool)
    requires Exhausted(addresses, preferred, start, left, connects)
    requires at in left && at < |addresses|
    requires forall j :: j in left && j != at ==> Precedes(addresses, preferred, at, j)
    ensures connects(at) ==> Reached(addresses, preferred, start, left - {at}, at, connects)
    ensures !connects(at) ==> Exhausted(addresses, preferred, start, left - {at}, connects)
  {
    assert left - {at} + {at} == left;
  }

  lemma ReachedMeans(addresses: seq<Address>, preferred: int, start: set<nat>, left: set<nat>, at: int, connects: nat -> bool)
    requires Reached(addresses, preferred, start, left, at, connects)
    ensures forall j :: j in start && Precedes(addresses, preferred, j, at) ==> !connects(j)
    ensures left == set j | j in start && Precedes(addresses, preferred, at, j)
  {
    forall j | j in start && j != at && j !in left ensures Precedes(addresses, preferred, j, at) && !connects(j) {
      assert j in start - (left + {at});
    }
  }

  lemma SubsetSize(s: set<nat>, n: nat)
    requires forall x :: x in s ==> x < n
    ensures |s| <= n
  {
    if n == 0 {
      assert s == {};
    } else {
      SubsetSize(s - {n - 1}, n - 1);
    }
  }
}
