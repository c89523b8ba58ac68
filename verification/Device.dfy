/** A device: one store over its whole life, as the library keeps it. */
module Device {
  import opened Core
  import opened Items
  import opened Exchange
  import opened Store
  import opened Upload
  import opened Processor
  import ItemTuple
  import StoreRuns

  datatype Operation =
    | Add(item: Built, conditions: StoreRuns.Conditions)
    | Exchange(max: nat, world: World<ItemTuple.Conditions>)

  /** The operation in terms of runs: an item that does not pass its validation is none. */
  function Specified(op: Operation): StoreRuns.Operation<Cargo, ItemTuple.Conditions> {
    match op
    case Add(item, conditions) => StoreRuns.Add(Candidate(item), conditions)
    case Exchange(max, world) => StoreRuns.Exchange(max, world)
  }

  function AllSpecified(ops: seq<Operation>): seq<StoreRuns.Operation<Cargo, ItemTuple.Conditions>> {
    if ops == [] then [] else AllSpecified(ops[..|ops| - 1]) + [Specified(ops[|ops| - 1])]
  }

  /** The state of the specification after the operations. */
  function RunOf(limit: nat, ops: seq<Operation>): StoreRuns.State<Cargo> {
    StoreRuns.Run(ItemKind(), limit, AllSpecified(ops))
  }

  /** Nothing the store consists of existed before it. */
  twostate predicate AllNew(new store: Store<Cargo>)
    reads store, store.list
  {
    fresh(store) && fresh(store.list) && forall n :: n in store.list.nodes ==> fresh(n) && fresh(n.data)
  }

  /** The store is in the state of a run, and the server has received these texts. */
  ghost predicate Tracks(store: Store<Cargo>, texts: seq<string>, s: StoreRuns.State<Cargo>)
    reads store, store.list, store.list.nodes, store.Items()
  {
    store.Valid() && store.Entries() == s.entries && store.lastId == s.lastId && texts == Texts(s.accepted)
  }

  lemma NextSpecified(ops: seq<Operation>, i: nat, next: nat)
    requires next == i + 1 <= |ops|
    ensures AllSpecified(ops[..next]) == AllSpecified(ops[..i]) + [Specified(ops[i])]
  {
    assert ops[..next][..i] == ops[..i];
  }

  lemma NextRun(limit: nat, ops: seq<Operation>, i: nat, next: nat)
    requires next == i + 1 <= |ops|
    ensures RunOf(limit, ops[..next]) == StoreRuns.Step(ItemKind(), limit, RunOf(limit, ops[..i]), Specified(ops[i]))
  {
    NextSpecified(ops, i, next);
    StoreRuns.RunSnoc(ItemKind(), limit, AllSpecified(ops[..i]), Specified(ops[i]));
  }

  /** `mcl_store_add`: the item is validated before it enters the store. */
  method PerformAdd(store: Store<Cargo>, texts: seq<string>, limit: nat, item: Built, conditions: StoreRuns.Conditions,
                    ghost s: StoreRuns.State<Cargo>, ghost after: StoreRuns.State<Cargo>)
    returns (code: Code)
    requires Tracks(store, texts, s)
    requires after == StoreRuns.Step(ItemKind(), limit, s, StoreRuns.Add(Candidate(item), conditions))
    modifies store, store.list, store.list.nodes
    ensures Tracks(store, texts, after)
    ensures code == if !Valid(item) then InvalidParameter
                    else if !conditions.itemAllocated then OutOfMemory
                    else if |s.entries| >= limit then LimitExceeded
                    else if !conditions.nodeAllocated then OutOfMemory
                    else Ok
    ensures code == Ok ==> store.Entries() == s.entries + [Entry(item, s.lastId + 1, Ready, conditions.garbage)]
    ensures code != Ok ==> store.Entries() == s.entries && store.lastId == s.lastId
    ensures forall n :: n in store.list.nodes ==> n in old(store.list.nodes) || (fresh(n) && fresh(n.data))
  {
    code := store.Add(Candidate(item), limit, conditions);
    if code == Ok {
      StoreRuns.StepAdds(ItemKind(), limit, s, item, conditions, Entry(item, store.lastId, Ready, conditions.garbage));
    }
  }

  method PerformExchange(store: Store<Cargo>, texts: seq<string>, limit: nat, max: nat, world: World<ItemTuple.Conditions>,
                         ghost s: StoreRuns.State<Cargo>, ghost after: StoreRuns.State<Cargo>)
    returns (all: seq<string>)
    requires Tracks(store, texts, s)
    requires after == StoreRuns.Step(ItemKind(), limit, s, StoreRuns.Exchange(max, world))
    modifies store.list, store.list.nodes, store.Items()
    ensures Tracks(store, all, after) && Among(store.list.nodes, old(store.list.nodes))
  {
    ghost var o := ExchangeStore(ItemKind(), s.entries, max, world);
    var code, more := ConnectivityExchange(store, max, world);
    TextsConcat(s.accepted, o.accepted);
    all := texts + more;
    assert after.accepted == s.accepted + o.accepted;
  }

  /** One operation on the store. */
  method PerformOne(store: Store<Cargo>, texts: seq<string>, limit: nat, op: Operation,
                    ghost s: StoreRuns.State<Cargo>, ghost after: StoreRuns.State<Cargo>)
    returns (all: seq<string>)
    requires Tracks(store, texts, s) && after == StoreRuns.Step(ItemKind(), limit, s, Specified(op))
    modifies store, store.list, store.list.nodes, store.Items()
    ensures Tracks(store, all, after)
    ensures forall n :: n in store.list.nodes ==> n in old(store.list.nodes) || (fresh(n) && fresh(n.data))
  {
    all := texts;
    match op {
      case Add(item, conditions) => var _ := PerformAdd(store, texts, limit, item, conditions, s, after);
      case Exchange(max, world) => all := PerformExchange(store, texts, limit, max, world, s, after);
    }
  }

  /** Performs operations on a new store: what it then holds, and which texts the server has accepted,
      is what the specification of runs says. */
  method Perform(limit: nat, ops: seq<Operation>) returns (store: Store<Cargo>, texts: seq<string>)
    ensures Tracks(store, texts, RunOf(limit, ops))
  {
    store := new Store();
    texts := [];
    var index := 0;
    ghost var s := RunOf(limit, []);
    assert ops[..index] == [];
    while index < |ops|
      invariant 0 <= index <= |ops| && AllNew(store)
      invariant s == RunOf(limit, ops[..index]) && Tracks(store, texts, s)
    {
      var next := index + 1;
      NextRun(limit, ops, index, next);
      ghost var after := StoreRuns.Step(ItemKind(), limit, s, Specified(ops[index]));
      texts := PerformOne(store, texts, limit, ops[index], s, after);
      s := after;
      index := next;
    }
    assert ops[..index] == ops;
  }
}
