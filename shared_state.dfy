/** A shared-state store: one mutable value, an ordered registry of update
    handlers, and per-consumer subscriptions that project the value through a
    selector and keep their own deduplicating state cell.

    The store's update is `Store.Update`; the subscribe factory is the
    `Subscription` constructor (the seeded cell) together with `Store.Attach`
    and `Store.Detach` (the effect's setup and teardown); the getter handed
    back to the consumer is `Subscription.Get`. */
module SharedState {

  /** The selector a subscription uses when none is given. */
  function Identity<T>(x: T): T { x }

  /** The argument of an update: a literal replacement value, or a
      transformer from the current value to the next one. */
  datatype UpdateArg<!T> = Literal(value: T) | Transform(f: T -> T)

  /** The value an update compares with the current one and stores. */
  function Resolve<T>(arg: UpdateArg<T>, current: T): T {
    match arg
    case Literal(v) => v
    case Transform(f) => f(current)
  }

  /** The store's equality policy: an update broadcasts exactly when the
      resolved value differs from the current one. */
  predicate Emits<T(==)>(current: T, arg: UpdateArg<T>) {
    Resolve(arg, current) != current
  }

  /** A consumer's state cell: the value it holds and how many times setting
      it has signalled the owning consumer to refresh. */
  datatype Cell<O> = Cell(value: O, signals: nat)

  /** Setting a consumer's cell: the cell then holds `x`, and the consumer is
      signalled once exactly when `x` differs from what the cell held. */
  function Push<O(==)>(c: Cell<O>, x: O): (r: Cell<O>)
    ensures r.value == x
    ensures r.signals == c.signals + 1 <==> x != c.value
    ensures r.signals == c.signals || r.signals == c.signals + 1
  {
    if x != c.value then Cell(x, c.signals + 1) else c
  }

  /** What one update call does to the cell of a subscription whose handler
      is registered: nothing unless the update broadcasts; otherwise the
      handler pushes the selected new value into the cell. */
  function Deliver<T(==), O(==)>(selector: T -> O, c: Cell<O>, current: T, arg: UpdateArg<T>): (r: Cell<O>)
    ensures r.signals == c.signals + 1 <==>
              Emits(current, arg) && selector(Resolve(arg, current)) != c.value
    ensures r.signals == c.signals || r.signals == c.signals + 1
    ensures Emits(current, arg) ==> r.value == selector(Resolve(arg, current))
    ensures !Emits(current, arg) ==> r == c
  {
    if Emits(current, arg) then Push(c, selector(Resolve(arg, current))) else c
  }

  predicate Distinct<X(==)>(xs: seq<X>) {
    forall i, j :: 0 <= i < j < |xs| ==> xs[i] != xs[j]
  }

  /** Removing a handler from the registry: every occurrence of `x` goes,
      everything else stays; removing an absent handler is a no-op. */
  function Without<X(==)>(xs: seq<X>, x: X): (r: seq<X>)
    ensures forall y :: y in r ==> y in xs && y != x
    ensures forall y :: y in xs && y != x ==> y in r
    ensures x !in xs ==> r == xs
    ensures Distinct(xs) ==> Distinct(r)
    ensures Distinct(xs) && x in xs ==> |r| == |xs| - 1
  {
    if xs == [] then []
    else if xs[0] == x then Without(xs[1..], x)
    else
      assert Distinct(xs) ==> xs[0] !in xs[1..];
      [xs[0]] + Without(xs[1..], x)
  }

  /** The store created by `createSharedState`: the current value, the
      registered update handlers in registration order, and (for the proofs)
      the number of update broadcasts emitted so far. */
  class Store<T(==), O(==)> {
    var val: T
    var handlers: seq<Subscription<T, O>>
    ghost var broadcasts: nat

    /** Each subscription is registered at most once, and only with its own store. */
    ghost predicate Valid()
      reads this
    {
      Distinct(handlers) && forall s :: s in handlers ==> s.store == this
    }

    constructor (initial: T)
      ensures Valid()
      ensures val == initial && handlers == [] && broadcasts == 0
    {
      val := initial;
      handlers := [];
      broadcasts := 0;
    }

    /** The effect's setup: register the subscription's handler, last in order. */
    method Attach(s: Subscription<T, O>)
      requires Valid()
      requires s.store == this && s !in handlers
      modifies this
      ensures Valid()
      ensures handlers == old(handlers) + [s]
      ensures val == old(val) && broadcasts == old(broadcasts)
    {
      handlers := handlers + [s];
    }

    /** The effect's teardown: unregister the subscription's handler. Detaching
        a subscription that is not registered changes nothing. */
    method Detach(s: Subscription<T, O>)
      requires Valid()
      modifies this
      ensures Valid()
      ensures handlers == Without(old(handlers), s)
      ensures s !in handlers
      ensures val == old(val) && broadcasts == old(broadcasts)
    {
      handlers := Without(handlers, s);
    }

    /** Update: resolve the argument against the current value; if the result
        differs, store it and broadcast once to every registered handler. */
    method Update(arg: UpdateArg<T>)
      requires Valid()
      modifies this, handlers
      ensures Valid() && handlers == old(handlers)
      ensures val == Resolve(arg, old(val))
      ensures broadcasts == old(broadcasts) + (if Emits(old(val), arg) then 1 else 0)
      ensures forall s :: s in handlers ==>
                s.runs == old(s.runs) + (if Emits(old(val), arg) then 1 else 0)
      ensures forall s :: s in handlers ==>
                s.cell == Deliver(s.selector, old(s.cell), old(val), arg)
      ensures Emits(old(val), arg) ==>
                forall s :: s in handlers ==> s.cell.value == s.Get()
    {
      var next := Resolve(arg, val);
      if val != next {
        val := next;
        Broadcast();
      }
    }

    /** One broadcast: emitted once, it runs each handler registered when it
        starts exactly once, in registration order; each pushes its selection
        of the value into its cell. */
    method Broadcast()
      requires Valid()
      modifies this, handlers
      ensures Valid() && handlers == old(handlers) && val == old(val)
      ensures broadcasts == old(broadcasts) + 1
      ensures forall s :: s in handlers ==> s.runs == old(s.runs) + 1
      ensures forall s :: s in handlers ==> s.cell == Push(old(s.cell), s.selector(val))
    {
      broadcasts := broadcasts + 1;
      var snapshot := handlers;
      var i := 0;
      while i < |snapshot|
        invariant 0 <= i <= |snapshot|
        invariant handlers == snapshot && val == old(val) && broadcasts == old(broadcasts) + 1
        invariant forall k :: 0 <= k < i ==> snapshot[k].runs == old(snapshot[k].runs) + 1
        invariant forall k :: i <= k < |snapshot| ==> snapshot[k].runs == old(snapshot[k].runs)
        invariant forall k :: 0 <= k < i ==>
                    snapshot[k].cell == Push(old(snapshot[k].cell), snapshot[k].selector(val))
        invariant forall k :: i <= k < |snapshot| ==> snapshot[k].cell == old(snapshot[k].cell)
      {
        snapshot[i].Notify();
        i := i + 1;
      }
    }
  }

  /** One consumer's subscription: the store it reads, its selector, the
      consumer's state cell that its handler writes, and (for the proofs) how
      many times its handler has run. */
  class Subscription<T(==), O(==)> {
    const store: Store<T, O>
    const selector: T -> O
    var cell: Cell<O>
    ghost var runs: nat

    /** Subscribing: the consumer's cell is seeded with the selected current
        value, and the consumer has not been signalled. */
    constructor (store: Store<T, O>, selector: T -> O)
      ensures this.store == store && this.selector == selector
      ensures cell == Cell(selector(store.val), 0) && runs == 0
    {
      this.store := store;
      this.selector := selector;
      cell := Cell(selector(store.val), 0);
      runs := 0;
    }

    /** The handler run on each broadcast: set the cell to the selected value. */
    method Notify()
      modifies this
      ensures cell == Push(old(cell), selector(store.val))
      ensures runs == old(runs) + 1
    {
      cell := Push(cell, selector(store.val));
      runs := runs + 1;
    }

    /** The getter handed to the consumer: it selects from the store's value at
        the time of the read, not from the cell. */
    function Get(): O
      reads store
    {
      selector(store.val)
    }
  }
}
