/** The store seen across a sequence of update calls: the values it holds,
    the broadcasts it emits, and what a subscription whose handler stays
    registered throughout observes. Each step is the one `Store.Update`
    performs (`Resolve`, `Emits`, `Deliver`). */
module SharedStateTraces {
  import opened SharedState

  /** The stored value after the calls `args`, starting from `v`. */
  function Final<T>(v: T, args: seq<UpdateArg<T>>): T
    decreases |args|
  {
    if args == [] then v else Final(Resolve(args[0], v), args[1..])
  }

  /** The stored values: `v`, then the value after each call in turn. */
  function History<T>(v: T, args: seq<UpdateArg<T>>): (h: seq<T>)
    ensures |h| == |args| + 1
    ensures h[0] == v && h[|args|] == Final(v, args)
    decreases |args|
  {
    if args == [] then [v] else [v] + History(Resolve(args[0], v), args[1..])
  }

  /** The number of broadcasts the calls `args` emit. */
  function Broadcasts<T(==)>(v: T, args: seq<UpdateArg<T>>): nat
    decreases |args|
  {
    if args == [] then 0
    else (if Emits(v, args[0]) then 1 else 0) + Broadcasts(Resolve(args[0], v), args[1..])
  }

  /** The cell of a subscription with selector `sel`, holding `c` before the
      calls `args`, whose handler is registered throughout. */
  function Observe<T(==), O(==)>(sel: T -> O, c: Cell<O>, v: T, args: seq<UpdateArg<T>>): Cell<O>
    decreases |args|
  {
    if args == [] then c
    else Observe(sel, Deliver(sel, c, v, args[0]), Resolve(args[0], v), args[1..])
  }

  /** Reference count: the consecutive stored values in `hs` whose selections differ. */
  function SelectedChanges<T, O(==)>(sel: T -> O, hs: seq<T>): nat
    decreases |hs|
  {
    if |hs| < 2 then 0
    else (if sel(hs[0]) != sel(hs[1]) then 1 else 0) + SelectedChanges(sel, hs[1..])
  }

  /** A broadcast happens exactly when the stored value changes. */
  lemma {:induction false} BroadcastsCountValueChanges<T>(v: T, args: seq<UpdateArg<T>>)
    ensures Broadcasts(v, args) == SelectedChanges(Identity, History(v, args))
    decreases |args|
  {
    if args != [] {
      var next := Resolve(args[0], v);
      BroadcastsCountValueChanges(next, args[1..]);
      assert History(v, args)[1..] == History(next, args[1..]);
    }
  }

  /** The consumer's cell agrees with its getter after any calls, provided it
      agreed at the start or at least one broadcast happened since. */
  lemma {:induction false} CellTracksGetter<T, O>(sel: T -> O, c: Cell<O>, v: T, args: seq<UpdateArg<T>>)
    requires c.value == sel(v) || Broadcasts(v, args) > 0
    ensures Observe(sel, c, v, args).value == sel(Final(v, args))
    decreases |args|
  {
    if args != [] {
      var next := Resolve(args[0], v);
      var c' := Deliver(sel, c, v, args[0]);
      if Emits(v, args[0]) {
        assert c'.value == sel(next);
      } else {
        assert next == v && c' == c;
      }
      if Broadcasts(next, args[1..]) == 0 {
        assert c'.value == sel(next);
      }
      CellTracksGetter(sel, c', next, args[1..]);
    }
  }

  /** A consumer is signalled at most once per broadcast, and never without one. */
  lemma {:induction false} SignalsAtMostBroadcasts<T, O>(sel: T -> O, c: Cell<O>, v: T, args: seq<UpdateArg<T>>)
    ensures c.signals <= Observe(sel, c, v, args).signals <= c.signals + Broadcasts(v, args)
    decreases |args|
  {
    if args != [] {
      SignalsAtMostBroadcasts(sel, Deliver(sel, c, v, args[0]), Resolve(args[0], v), args[1..]);
    }
  }

  /** A consumer whose cell is in sync is signalled exactly once for each
      change of its selected value, and at no other time. */
  lemma {:induction false} SignalsCountSelectedChanges<T, O>(sel: T -> O, c: Cell<O>, v: T, args: seq<UpdateArg<T>>)
    requires c.value == sel(v)
    ensures Observe(sel, c, v, args).signals == c.signals + SelectedChanges(sel, History(v, args))
    decreases |args|
  {
    if args != [] {
      var next := Resolve(args[0], v);
      var c' := Deliver(sel, c, v, args[0]);
      assert c'.value == sel(next);
      assert c'.signals == c.signals + (if sel(v) != sel(next) then 1 else 0);
      SignalsCountSelectedChanges(sel, c', next, args[1..]);
      assert History(v, args)[1..] == History(next, args[1..]);
    }
  }

  /** A subscription without a selector whose cell is in sync is signalled
      exactly once per broadcast: every value-changing update reaches it once. */
  lemma {:induction false} IdentitySignalledOncePerBroadcast<T>(c: Cell<T>, v: T, args: seq<UpdateArg<T>>)
    requires c.value == v
    ensures Observe(Identity, c, v, args).signals == c.signals + Broadcasts(v, args)
  {
    SignalsCountSelectedChanges(Identity, c, v, args);
    BroadcastsCountValueChanges(v, args);
  }

  /** Two selectors that agree on every value yield the same observations; in
      particular subscribing without a selector is subscribing with `x => x`. */
  lemma {:induction false} SameSelectionSameObservation<T, O>(f: T -> O, g: T -> O, c: Cell<O>, v: T, args: seq<UpdateArg<T>>)
    requires forall x :: f(x) == g(x)
    ensures Observe(f, c, v, args) == Observe(g, c, v, args)
    decreases |args|
  {
    if args != [] {
      assert Deliver(f, c, v, args[0]) == Deliver(g, c, v, args[0]);
      SameSelectionSameObservation(f, g, Deliver(f, c, v, args[0]), Resolve(args[0], v), args[1..]);
    }
  }

  /** Subscribing without a selector behaves as subscribing with `x => x`. */
  lemma DefaultSelectorIsIdentity<T>(c: Cell<T>, v: T, args: seq<UpdateArg<T>>)
    ensures Observe(Identity, c, v, args) == Observe(x => x, c, v, args)
  {
    SameSelectionSameObservation(Identity, x => x, c, v, args);
  }

  /** One more call extends a trace by exactly the step `Store.Update` takes:
      the value is resolved once more, and a broadcast is added exactly when
      the call emits. */
  lemma {:induction false} ExtendTrace<T>(v: T, args: seq<UpdateArg<T>>, a: UpdateArg<T>)
    ensures Final(v, args + [a]) == Resolve(a, Final(v, args))
    ensures Broadcasts(v, args + [a]) == Broadcasts(v, args) + (if Emits(Final(v, args), a) then 1 else 0)
    decreases |args|
  {
    if args != [] {
      assert (args + [a])[0] == args[0];
      assert (args + [a])[1..] == args[1..] + [a];
      ExtendTrace(Resolve(args[0], v), args[1..], a);
    }
  }

  /** One more call extends a subscription's observation by what that call
      delivers to its cell. */
  lemma {:induction false} ExtendObservation<T, O>(sel: T -> O, c: Cell<O>, v: T, args: seq<UpdateArg<T>>, a: UpdateArg<T>)
    ensures Observe(sel, c, v, args + [a]) == Deliver(sel, Observe(sel, c, v, args), Final(v, args), a)
    decreases |args|
  {
    if args != [] {
      assert (args + [a])[0] == args[0];
      assert (args + [a])[1..] == args[1..] + [a];
      ExtendObservation(sel, Deliver(sel, c, v, args[0]), Resolve(args[0], v), args[1..], a);
    }
  }
}
