/** Clients of the store that replay the repository's own usage examples:
    each builds a store, subscribes consumers, performs updates and returns
    what the consumers observe (getter values and signal counts). */
module SharedStateScenarios {
  import opened SharedState
  import opened SharedStateTraces

  /** A record state with two fields, as in the selector examples. */
  datatype Pair = Pair(a: int, b: int)

  /** Two subscriptions without a selector on 42: neither is signalled until
      `update(43)`, which signals each once and makes both getters read 43. */
  method TwoDefaultSubscribers() returns (before1: int, before2: int, early: nat,
                                          after1: int, after2: int, signals1: nat, signals2: nat)
    ensures before1 == 42 && before2 == 42 && early == 0
    ensures after1 == 43 && after2 == 43
    ensures signals1 == 1 && signals2 == 1
  {
    var store := new Store<int, int>(42);
    var s1 := new Subscription(store, Identity);
    var s2 := new Subscription(store, Identity);
    store.Attach(s1);
    store.Attach(s2);
    before1, before2 := s1.Get(), s2.Get();
    early := s1.cell.signals + s2.cell.signals;
    store.Update(Literal(43));
    after1, after2 := s1.Get(), s2.Get();
    signals1, signals2 := s1.cell.signals, s2.cell.signals;
  }

  /** A parity selector on 42 reads 0; `update(43)` signals it and it reads 1;
      `update(45)` leaves the parity, so it is not signalled again. */
  method ParitySelector() returns (initial: int, afterOdd: int, signalsOdd: nat,
                                   afterSameParity: int, signalsSameParity: nat)
    ensures initial == 0
    ensures afterOdd == 1 && signalsOdd == 1
    ensures afterSameParity == 1 && signalsSameParity == 1
  {
    var store := new Store<int, int>(42);
    // Dafny's `%` is Euclidean and JavaScript's truncates; they agree here
    // because every stored value is non-negative.
    var s := new Subscription(store, n => n % 2);
    store.Attach(s);
    initial := s.Get();
    store.Update(Literal(43));
    afterOdd, signalsOdd := s.Get(), s.cell.signals;
    store.Update(Literal(45));
    afterSameParity, signalsSameParity := s.Get(), s.cell.signals;
  }

  /** Four subscriptions without a selector (nested in the consumer tree, which
      the store does not see): one `update(n => n + 1)` signals each exactly once. */
  method FourNestedSubscribers() returns (signals: seq<nat>, ghost runs: seq<nat>)
    ensures signals == [1, 1, 1, 1]
    ensures runs == [1, 1, 1, 1]
  {
    var store := new Store<int, int>(42);
    var s0 := new Subscription(store, Identity);
    var s1 := new Subscription(store, Identity);
    var s2 := new Subscription(store, Identity);
    var s3 := new Subscription(store, Identity);
    store.Attach(s0);
    store.Attach(s1);
    store.Attach(s2);
    store.Attach(s3);
    store.Update(Transform(n => n + 1));
    signals := [s0.cell.signals, s1.cell.signals, s2.cell.signals, s3.cell.signals];
    runs := [s0.runs, s1.runs, s2.runs, s3.runs];
  }

  /** Two subscriptions selecting field `a`: incrementing `a` signals both and
      both read 2; incrementing only `b` afterwards signals neither. */
  method FieldSelector() returns (read1: int, read2: int, signalsA: seq<nat>, signalsB: seq<nat>)
    ensures read1 == 2 && read2 == 2
    ensures signalsA == [1, 1]
    ensures signalsB == [1, 1]
  {
    var store := new Store<Pair, int>(Pair(1, 2));
    var s1 := new Subscription(store, (p: Pair) => p.a);
    var s2 := new Subscription(store, (p: Pair) => p.a);
    store.Attach(s1);
    store.Attach(s2);
    store.Update(Transform((p: Pair) => p.(a := p.a + 1)));
    read1, read2 := s1.Get(), s2.Get();
    signalsA := [s1.cell.signals, s2.cell.signals];
    store.Update(Transform((p: Pair) => p.(b := p.b + 1)));
    signalsB := [s1.cell.signals, s2.cell.signals];
  }

  /** Detaching twice is harmless; after it, `update(100)` neither signals the
      consumer nor writes its cell, while its getter reads the store's new value. */
  method DetachStopsDelivery() returns (signals: nat, cellValue: int, read: int, registered: nat)
    ensures signals == 0 && cellValue == 42
    ensures read == 100
    ensures registered == 0
  {
    var store := new Store<int, int>(42);
    var s := new Subscription(store, Identity);
    store.Attach(s);
    store.Detach(s);
    store.Detach(s);
    store.Update(Literal(100));
    signals, cellValue, read := s.cell.signals, s.cell.value, s.Get();
    registered := |store.handlers|;
  }

  /** Updating with the value already stored, literally or through a
      transformer, emits no broadcast and signals nobody. */
  method EqualUpdateIsSilent() returns (ghost broadcastsEmitted: nat, signals: nat, value: int)
    ensures broadcastsEmitted == 0 && signals == 0 && value == 42
  {
    var store := new Store<int, int>(42);
    var s := new Subscription(store, Identity);
    store.Attach(s);
    store.Update(Literal(42));
    store.Update(Transform(n => n * 1));
    broadcastsEmitted := store.broadcasts;
    signals, value := s.cell.signals, store.val;
  }

  /** A writer calling update once for each argument in turn: the store ends
      where the trace model says, with one broadcast per value change, and
      every registered subscription ends with the cell the trace model
      predicts, its handler having run once per broadcast. */
  method ApplyUpdates<T(==), O(==)>(store: Store<T, O>, args: seq<UpdateArg<T>>)
    requires store.Valid()
    modifies store, store.handlers
    ensures store.Valid() && store.handlers == old(store.handlers)
    ensures store.val == Final(old(store.val), args)
    ensures store.broadcasts == old(store.broadcasts) + Broadcasts(old(store.val), args)
    ensures forall s :: s in store.handlers ==>
              s.cell == Observe(s.selector, old(s.cell), old(store.val), args)
    ensures forall s :: s in store.handlers ==>
              s.runs == old(s.runs) + Broadcasts(old(store.val), args)
  {
    ghost var v0 := store.val;
    var i := 0;
    while i < |args|
      invariant 0 <= i <= |args|
      invariant store.Valid() && store.handlers == old(store.handlers)
      invariant store.val == Final(v0, args[..i])
      invariant store.broadcasts == old(store.broadcasts) + Broadcasts(v0, args[..i])
      invariant forall s :: s in store.handlers ==>
                  s.cell == Observe(s.selector, old(s.cell), v0, args[..i])
      invariant forall s :: s in store.handlers ==>
                  s.runs == old(s.runs) + Broadcasts(v0, args[..i])
    {
      assert args[..i + 1] == args[..i] + [args[i]];
      ExtendTrace(v0, args[..i], args[i]);
      forall s | s in store.handlers
        ensures Observe(s.selector, old(s.cell), v0, args[..i + 1]) ==
                  Deliver(s.selector, Observe(s.selector, old(s.cell), v0, args[..i]), Final(v0, args[..i]), args[i])
      {
        ExtendObservation(s.selector, old(s.cell), v0, args[..i], args[i]);
      }
      store.Update(args[i]);
      i := i + 1;
    }
    assert args[..i] == args;
  }
}
