/** A store over its whole life: items are added and exchanges happen in any order, with any outcome. */
module StoreRuns {
  import opened Core
  import opened Exchange
  import opened ExchangeProofs
  import opened ExitStates

  /** What a call of `mcl_store_add` meets: whether the store item and the list node can be allocated,
      and what the memory of the store item held before. */
  datatype Conditions = Conditions(itemAllocated: bool, nodeAllocated: bool, garbage: nat)

  /** What is added is None if it does not pass its validation. */
  datatype Operation<!T, !C> =
    | Add(item: Option<T>, conditions: Conditions)
    | Exchange(max: nat, world: World<C>)

  /** The store, with the history of what was added and what was delivered. */
  datatype State<T> = State(entries: seq<Entry<T>>, lastId: nat, added: seq<Stored<T>>, accepted: seq<Delivery<T>>)

  function Initial<T>(): State<T> {
    State([], 0, [], [])
  }

  /** `limit` is the largest number of items a list can hold. */
  function AddCode(valid: bool, count: nat, limit: nat, conditions: Conditions): Code {
    if !valid then InvalidParameter
    else if !conditions.itemAllocated then OutOfMemory
    else if count >= limit then LimitExceeded
    else if !conditions.nodeAllocated then OutOfMemory
    else Ok
  }

  function Added<T>(s: State<T>, e: Entry<T>): State<T> {
    State(s.entries + [e], e.id, s.added + [Stored(e.id, e.item)], s.accepted)
  }

  function Step<T(!new), C(!new)>(kind: Kind<T, C>, limit: nat, s: State<T>, op: Operation<T, C>): State<T> {
    match op
    case Add(item, conditions) =>
      if AddCode(item.Some?, |s.entries|, limit, conditions) != Ok then s
      else Added(s, Entry(item.value, s.lastId + 1, Ready, conditions.garbage))
    case Exchange(max, world) =>
      var o := ExchangeStore(kind, s.entries, max, world);
      s.(entries := o.entries, accepted := s.accepted + o.accepted)
  }

  function Run<T(!new), C(!new)>(kind: Kind<T, C>, limit: nat, ops: seq<Operation<T, C>>): State<T> {
    if ops == [] then Initial()
    else Step(kind, limit, Run(kind, limit, ops[..|ops| - 1]), ops[|ops| - 1])
  }

  lemma RunSnoc<T(!new), C(!new)>(kind: Kind<T, C>, limit: nat, ops: seq<Operation<T, C>>, op: Operation<T, C>)
    ensures Run(kind, limit, ops + [op]) == Step(kind, limit, Run(kind, limit, ops), op)
  {
    assert (ops + [op])[..|ops + [op]| - 1] == ops;
  }

  // ----- the invariant -----

  /** Ids were given in the order of adding, without gaps. */
  ghost predicate Numbered<T>(added: seq<Stored<T>>) {
    forall i :: 0 <= i < |added| ==> added[i].id == i + 1
  }

  ghost predicate BelowLast<T>(ss: seq<Stored<T>>, lastId: nat) {
    forall s :: s in ss ==> s.id <= lastId
  }

  /** Every item added is either still in the store or in one accepted body, and no id is used twice;
      the store is in order and ready for an exchange. */
  ghost predicate Invariant<T>(s: State<T>) {
    && AllReady(s.entries)
    && Ascending(Cores(s.entries), 1) && BelowLast(Cores(s.entries), s.lastId)
    && |s.added| == s.lastId && Numbered(s.added)
    && multiset(s.added) == multiset(Cores(s.entries)) + multiset(DeliveredCores(s.accepted))
    && EachAscending(s.accepted, 1)
  }

  lemma {:induction false} AscendingSnoc<T>(ss: seq<Stored<T>>, last: Stored<T>, low: nat)
    requires Ascending(ss, low) && low <= last.id
    requires forall s :: s in ss ==> s.id < last.id
    ensures Ascending(ss + [last], low)
  {
    if ss != [] {
      assert ss[0] in ss;
      AscendingSnoc(ss[1..], last, ss[0].id + 1);
      assert (ss + [last])[1..] == ss[1..] + [last];
    }
  }

  lemma AppendedCores<T>(es: seq<Entry<T>>, e: Entry<T>)
    ensures Cores(es + [e]) == Cores(es) + [Stored(e.id, e.item)]
  {
  }

  lemma AppendedBalance<T>(added: seq<Stored<T>>, stored: seq<Stored<T>>, sent: seq<Stored<T>>, x: Stored<T>)
    requires multiset(added) == multiset(stored) + multiset(sent)
    ensures multiset(added + [x]) == multiset(stored + [x]) + multiset(sent)
  {
  }

  lemma AppendedOrder<T>(stored: seq<Stored<T>>, x: Stored<T>, lastId: nat)
    requires Ascending(stored, 1) && BelowLast(stored, lastId) && x.id == lastId + 1
    ensures Ascending(stored + [x], 1) && BelowLast(stored + [x], lastId + 1)
  {
    AscendingSnoc(stored, x, 1);
  }

  lemma AppendedNumbers<T>(added: seq<Stored<T>>, x: Stored<T>)
    requires Numbered(added) && x.id == |added| + 1
    ensures Numbered(added + [x])
  {
  }

  lemma AppendedReady<T>(es: seq<Entry<T>>, e: Entry<T>)
    requires AllReady(es) && e.status == Ready
    ensures AllReady(es + [e])
  {
  }

  lemma AppendKeeps<T>(s: State<T>, e: Entry<T>)
    requires Invariant(s) && e.status == Ready && e.id == s.lastId + 1
    ensures Invariant(Added(s, e))
  {
    var x := Stored(e.id, e.item);
    AppendedReady(s.entries, e);
    AppendedNumbers(s.added, x);
    AppendedCores(s.entries, e);
    AppendedOrder(Cores(s.entries), x, s.lastId);
    AppendedBalance(s.added, Cores(s.entries), DeliveredCores(s.accepted), x);
  }

  /** An addition in terms of the entry that is added. */
  lemma StepAdds<T(!new), C(!new)>(kind: Kind<T, C>, limit: nat, s: State<T>, item: T, conditions: Conditions,
                                   e: Entry<T>)
    requires e.item == item && e.id == s.lastId + 1 && e.status == Ready && e.size == conditions.garbage
    requires AddCode(true, |s.entries|, limit, conditions) == Ok
    ensures Step(kind, limit, s, Add(Some(item), conditions)) == Added(s, e)
  {
  }

  lemma AddKeeps<T(!new), C(!new)>(kind: Kind<T, C>, limit: nat, s: State<T>, item: Option<T>,
                                     conditions: Conditions)
    requires Invariant(s)
    ensures Invariant(Step(kind, limit, s, Add(item, conditions)))
  {
    if item.Some? {
      AppendKeeps(s, Entry(item.value, s.lastId + 1, Ready, conditions.garbage));
    }
  }

  lemma Rebalance<X>(all: multiset<X>, before: multiset<X>, sent: multiset<X>, after: multiset<X>, more: multiset<X>)
    requires all == before + sent && before == after + more
    ensures all == after + (sent + more)
  {
  }

  lemma ExchangedBalance<T>(s: State<T>, o: Outcome<T>)
    requires multiset(s.added) == multiset(Cores(s.entries)) + multiset(DeliveredCores(s.accepted))
    requires Conserves(Cores(s.entries), o) && BelowLast(Cores(s.entries), s.lastId)
    ensures multiset(s.added) == multiset(Cores(o.entries)) + multiset(DeliveredCores(s.accepted + o.accepted))
    ensures BelowLast(Cores(o.entries), s.lastId)
  {
    var sent, more := DeliveredCores(s.accepted), DeliveredCores(o.accepted);
    DeliveredCoresConcat(s.accepted, o.accepted);
    Rebalance(multiset(s.added), multiset(Cores(s.entries)), multiset(sent), multiset(Cores(o.entries)), multiset(more));
    forall x | x in Cores(o.entries) ensures x.id <= s.lastId {
      assert x in multiset(Cores(s.entries));
    }
  }

  lemma EachAscendingConcat<T>(ds: seq<Delivery<T>>, more: seq<Delivery<T>>, low: nat)
    requires EachAscending(ds, low) && EachAscending(more, low)
    ensures EachAscending(ds + more, low)
  {
  }

  lemma ExchangedKeeps<T>(s: State<T>, o: Outcome<T>)
    requires Invariant(s) && AllReady(o.entries) && Conserves(Cores(s.entries), o) && InOrder(o, 1)
    ensures Invariant(s.(entries := o.entries, accepted := s.accepted + o.accepted))
  {
    ExchangedBalance(s, o);
    EachAscendingConcat(s.accepted, o.accepted, 1);
  }

  lemma ExchangeKeeps<T(!new), C(!new)>(kind: Kind<T, C>, limit: nat, s: State<T>, max: nat, world: World<C>)
    requires Invariant(s)
    ensures Invariant(Step(kind, limit, s, Exchange(max, world)))
  {
    ExchangeConserves(kind, s.entries, max, world, 1);
    ExchangeEnds(kind, s.entries, max, world);
    ExchangedKeeps(s, ExchangeStore(kind, s.entries, max, world));
  }

  /** The invariant holds after every run. */
  lemma {:induction false} EveryRun<T(!new), C(!new)>(kind: Kind<T, C>, limit: nat, ops: seq<Operation<T, C>>)
    ensures Invariant(Run(kind, limit, ops))
  {
    if ops != [] {
      var s, op := Run(kind, limit, ops[..|ops| - 1]), ops[|ops| - 1];
      EveryRun(kind, limit, ops[..|ops| - 1]);
      match op
      case Add(item, conditions) => AddKeeps(kind, limit, s, item, conditions);
      case Exchange(max, world) => ExchangeKeeps(kind, limit, s, max, world);
    }
  }

  // ----- exactly once -----

  lemma MultisetOnce<T>(s: seq<T>, p: nat, q: nat)
    requires p < q < |s| && s[p] == s[q]
    ensures multiset(s)[s[p]] >= 2
  {
    assert s == s[..q] + s[q..];
    assert s[p] in multiset(s[..q]) && s[p] in multiset(s[q..]);
  }

  lemma {:induction false} NumberedOnce<T>(added: seq<Stored<T>>, x: Stored<T>)
    requires Numbered(added)
    ensures multiset(added)[x] <= 1
  {
    if added != [] {
      var init := added[..|added| - 1];
      NumberedOnce(init, x);
      assert added == init + [added[|added| - 1]];
      assert forall i :: 0 <= i < |init| ==> init[i] == added[i] && init[i].id == i + 1;
      assert added[|added| - 1] !in init;
    }
  }

  /** Where the items of the body j begin in the list of all delivered items. */
  function Offset<T>(ds: seq<Delivery<T>>, j: nat): nat
    requires j < |ds|
  {
    if j == 0 then 0 else |ds[0].carried| + Offset(ds[1..], j - 1)
  }

  function Place<T>(ds: seq<Delivery<T>>, j: nat, i: nat): nat
    requires j < |ds|
  {
    Offset(ds, j) + i
  }

  lemma {:induction false} DeliveredAt<T>(ds: seq<Delivery<T>>, j: nat, i: nat)
    requires j < |ds| && i < |ds[j].carried|
    ensures Place(ds, j, i) < |DeliveredCores(ds)|
    ensures DeliveredCores(ds)[Place(ds, j, i)] == CarriedCores(ds[j].carried)[i]
  {
    if j > 0 {
      DeliveredAt(ds[1..], j - 1, i);
    }
  }

  lemma {:induction false} OffsetGrows<T>(ds: seq<Delivery<T>>, j: nat, k: nat)
    requires j < k < |ds|
    ensures Offset(ds, j) + |ds[j].carried| <= Offset(ds, k)
  {
    if j > 0 {
      OffsetGrows(ds[1..], j - 1, k - 1);
    }
  }

  lemma PlacesDiffer<T>(ds: seq<Delivery<T>>, j: nat, i: nat, k: nat, m: nat)
    requires j < |ds| && i < |ds[j].carried| && k < |ds| && m < |ds[k].carried|
    requires Place(ds, j, i) == Place(ds, k, m)
    ensures j == k && i == m
  {
    if j < k {
      OffsetGrows(ds, j, k);
    } else if k < j {
      OffsetGrows(ds, k, j);
    }
  }

  lemma {:induction false} NumberedIds<T>(added: seq<Stored<T>>, x: Stored<T>, y: Stored<T>)
    requires Numbered(added) && x in added && y in added && x.id == y.id
    ensures x == y
  {
    var i :| 0 <= i < |added| && added[i] == x;
    var k :| 0 <= k < |added| && added[k] == y;
    assert added[i].id == i + 1 && added[k].id == k + 1;
  }

  /** An id occurs at one place of all that was delivered. */
  lemma OnePlace<T>(s: State<T>, p: nat, q: nat)
    requires Invariant(s)
    requires p < |DeliveredCores(s.accepted)| && q < |DeliveredCores(s.accepted)|
    requires DeliveredCores(s.accepted)[p].id == DeliveredCores(s.accepted)[q].id
    ensures p == q
  {
    var all := DeliveredCores(s.accepted);
    assert all[p] in multiset(s.added) && all[q] in multiset(s.added);
    NumberedIds(s.added, all[p], all[q]);
    NumberedOnce(s.added, all[p]);
    if p < q {
      MultisetOnce(all, p, q);
    } else if q < p {
      MultisetOnce(all, q, p);
    }
  }

  lemma OneBody<T>(s: State<T>, j: nat, i: nat, k: nat, m: nat)
    requires Invariant(s)
    requires j < |s.accepted| && i < |s.accepted[j].carried| && k < |s.accepted| && m < |s.accepted[k].carried|
    requires s.accepted[j].carried[i].id == s.accepted[k].carried[m].id
    ensures j == k && i == m
  {
    var ds := s.accepted;
    DeliveredAt(ds, j, i);
    DeliveredAt(ds, k, m);
    assert CarriedCores(ds[j].carried)[i].id == CarriedCores(ds[k].carried)[m].id;
    OnePlace(s, Place(ds, j, i), Place(ds, k, m));
    PlacesDiffer(ds, j, i, k, m);
  }

  /** No item is delivered twice over a whole run: two places in accepted bodies with the same id are
      the same place. */
  lemma DeliveredAtMostOnce<T(!new), C(!new)>(kind: Kind<T, C>, limit: nat, ops: seq<Operation<T, C>>,
                                              j: nat, i: nat, k: nat, m: nat)
    requires var ds := Run(kind, limit, ops).accepted;
             && j < |ds| && i < |ds[j].carried| && k < |ds| && m < |ds[k].carried|
             && ds[j].carried[i].id == ds[k].carried[m].id
    ensures j == k && i == m
  {
    EveryRun(kind, limit, ops);
    OneBody(Run(kind, limit, ops), j, i, k, m);
  }

  /** The item added as number n is in the store exactly if no accepted body has carried it. */
  lemma StoredOrDelivered<T(!new), C(!new)>(kind: Kind<T, C>, limit: nat, ops: seq<Operation<T, C>>, n: nat)
    requires n < |Run(kind, limit, ops).added|
    ensures var s := Run(kind, limit, ops);
            s.added[n] in Cores(s.entries) <==> s.added[n] !in DeliveredCores(s.accepted)
  {
    var s := Run(kind, limit, ops);
    EveryRun(kind, limit, ops);
    NumberedOnce(s.added, s.added[n]);
    assert s.added[n] in multiset(s.added);
  }

  // ----- runs that get stuck -----

  /** The status and size of an entry that is ready do not matter to an exchange. */
  lemma {:induction false} CheckForgets<T(!new), C(!new)>(kind: Kind<T, C>, es: seq<Entry<T>>, fs: seq<Entry<T>>, max: nat)
    requires AllReady(es) && AllReady(fs) && Cores(es) == Cores(fs)
    ensures CheckEntries(kind, es, max) == CheckEntries(kind, fs, max)
    ensures CheckCode(kind, es, max) == CheckCode(kind, fs, max)
  {
    assert |es| == |Cores(es)| == |Cores(fs)| == |fs|;
    forall i | 0 <= i < |es| ensures es[i].item == fs[i].item && es[i].id == fs[i].id {
      assert Cores(es)[i] == Cores(fs)[i];
    }
  }

  lemma SameExchange<T(!new), C(!new)>(kind: Kind<T, C>, es: seq<Entry<T>>, fs: seq<Entry<T>>, max: nat, world: World<C>)
    requires AllReady(es) && AllReady(fs) && Cores(es) == Cores(fs)
    ensures ExchangeStore(kind, es, max, world) == ExchangeStore(kind, fs, max, world)
  {
    CheckForgets(kind, es, fs, max);
  }

  ghost predicate SendsNothing<T(!new), C(!new)>(kind: Kind<T, C>, es: seq<Entry<T>>, op: Operation<T, C>) {
    && op.Exchange?
    && var o := ExchangeStore(kind, es, op.max, op.world);
    Cores(o.entries) == Cores(es) && o.accepted == []
  }

  ghost predicate AllSendNothing<T(!new), C(!new)>(kind: Kind<T, C>, es: seq<Entry<T>>, ops: seq<Operation<T, C>>) {
    forall i :: 0 <= i < |ops| ==> SendsNothing(kind, es, ops[i])
  }

  /** The same items, and nothing more delivered. */
  ghost predicate Unmoved<T>(before: State<T>, after: State<T>) {
    && AllReady(before.entries) && AllReady(after.entries)
    && Cores(after.entries) == Cores(before.entries) && after.accepted == before.accepted
  }

  lemma StepMovesNothing<T(!new), C(!new)>(kind: Kind<T, C>, limit: nat, before: State<T>, s: State<T>, op: Operation<T, C>)
    requires Unmoved(before, s) && SendsNothing(kind, before.entries, op)
    ensures Unmoved(before, Step(kind, limit, s, op))
  {
    SameExchange(kind, before.entries, s.entries, op.max, op.world);
    ExchangeEnds(kind, s.entries, op.max, op.world);
    assert s.accepted + [] == s.accepted;
  }

  lemma LastApart<X>(a: seq<X>, b: seq<X>)
    requires b != []
    ensures a + b == (a + b[..|b| - 1]) + [b[|b| - 1]]
  {
  }

  /** A store from which no exchange would send anything stays as it is, however often it is tried. */
  lemma {:induction false} StuckForever<T(!new), C(!new)>(kind: Kind<T, C>, limit: nat, ops: seq<Operation<T, C>>,
                                                          more: seq<Operation<T, C>>)
    requires AllSendNothing(kind, Run(kind, limit, ops).entries, more)
    ensures Unmoved(Run(kind, limit, ops), Run(kind, limit, ops + more))
  {
    EveryRun(kind, limit, ops);
    if more == [] {
      assert ops + more == ops;
    } else {
      var init, last := more[..|more| - 1], more[|more| - 1];
      assert forall i :: 0 <= i < |init| ==> init[i] == more[i];
      StuckForever(kind, limit, ops, init);
      LastApart(ops, more);
      RunSnoc(kind, limit, ops + init, last);
      StepMovesNothing(kind, limit, Run(kind, limit, ops), Run(kind, limit, ops + init), last);
    }
  }
}
