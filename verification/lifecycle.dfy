/** The three-state lifecycle of a presentation model (`PmLifecycle`).

    Observer callbacks are not run: every operation returns the list of
    calls it makes, in order, as `Call(observer, state)` records. */
module Lifecycle {
  import opened Common

  datatype State = Created | InForeground | Destroyed

  /** One edge of the transition table: a single notification that a
      lifecycle in state `from` may emit. DESTROYED has no way out. */
  predicate Step(from: State, to: State)
  {
    || (from == Created && to == InForeground)
    || (from == InForeground && to == Created)
    || (from == Created && to == Destroyed)
  }

  /** `ss` is a path through the transition table starting in `from`. */
  predicate Chain(from: State, ss: seq<State>)
    decreases |ss|
  {
    ss == [] || (Step(from, ss[0]) && Chain(ss[0], ss[1..]))
  }

  /** The state a path of notifications ends in. */
  function EndOf(from: State, ss: seq<State>): State
  {
    if ss == [] then from else Last(ss)
  }

  /** Reference meaning of `moveTo(target)`: the target is reached unless
      the lifecycle is already DESTROYED, which absorbs everything. */
  function After(from: State, target: State): State
  {
    if from == Destroyed then Destroyed else target
  }

  /** The notifications `moveTo(target)` emits from state `from`, written
      as the `when` table of the source. */
  function Notifications(from: State, target: State): (ss: seq<State>)
    ensures Chain(from, ss)
    ensures EndOf(from, ss) == After(from, target)
    ensures ss == [] <==> After(from, target) == from
    ensures |ss| <= 2 && (|ss| == 2 <==> from == InForeground && target == Destroyed)
  {
    if target == from then []
    else match target
      case Created => if from == InForeground then [Created] else []
      case InForeground => if from == Created then [InForeground] else []
      case Destroyed =>
        if from == Created then [Destroyed]
        else if from == InForeground then [Created, Destroyed]
        else []
  }

  /** The emitted notifications are a shortest path to the target: no
      chain of legal notifications reaches `After(from, target)` faster. */
  lemma {:induction false} NotificationsShortest(from: State, target: State, ss: seq<State>)
    requires Chain(from, ss) && EndOf(from, ss) == After(from, target)
    ensures |Notifications(from, target)| <= |ss|
  {
    if from == InForeground && target == Destroyed {
      assert ss != [];
      assert Step(from, ss[0]);
      assert ss[0] == Created;
      assert |ss| >= 2;
    }
  }

  /** A lifecycle and the observers registered with it, in registration order. */
  datatype PmLifecycle<O(==)> = PmLifecycle(state: State, observers: seq<O>)

  /** One synchronous call `observer.onLifecycleChange(state)`. */
  datatype Call<O(==)> = Call(observer: O, state: State)

  /** The new lifecycle and the observer calls an operation made. */
  datatype Outcome<O(==)> = Outcome(lifecycle: PmLifecycle<O>, calls: seq<Call<O>>)

  /** A new lifecycle starts CREATED, with nobody observing it. */
  function Fresh<O(==)>(): PmLifecycle<O>
  {
    PmLifecycle(Created, [])
  }

  /** `addObserver`: the observer is appended and immediately told the
      current state. */
  function AddObserver<O(==)>(lc: PmLifecycle<O>, o: O): (r: Outcome<O>)
    ensures r.lifecycle.state == lc.state
    ensures r.lifecycle.observers == lc.observers + [o]
    ensures Received(r.calls, o) == [lc.state]
    ensures |r.calls| == 1
  {
    Outcome(PmLifecycle(lc.state, lc.observers + [o]), [Call(o, lc.state)])
  }

  /** `removeObserver`: drops the first registration of the observer. */
  function RemoveObserver<O(==)>(lc: PmLifecycle<O>, o: O): (r: PmLifecycle<O>)
    ensures r.state == lc.state
    ensures multiset(r.observers) == multiset(lc.observers) - multiset{o}
    ensures o !in lc.observers ==> r.observers == lc.observers
    ensures o in lc.observers ==>
              exists i :: 0 <= i < |lc.observers| && lc.observers[i] == o && o !in lc.observers[..i] &&
                          r.observers == lc.observers[..i] + lc.observers[i + 1..]
  {
    RemoveFirstMultiset(lc.observers, o);
    RemoveFirstSplit(lc.observers, o);
    PmLifecycle(lc.state, RemoveFirst(lc.observers, o))
  }

  /** Removing an observer that was just added undoes the registration. */
  lemma AddThenRemove<O>(lc: PmLifecycle<O>, o: O)
    requires o !in lc.observers
    ensures RemoveObserver(AddObserver(lc, o).lifecycle, o) == lc
  {
    RemoveFirstAppend(lc.observers, o, o);
  }

  /** One notification round: every registered observer is called with `s`,
      in registration order. */
  function Round<O(==)>(observers: seq<O>, s: State): (calls: seq<Call<O>>)
    ensures |calls| == |observers|
    ensures forall i :: 0 <= i < |calls| ==> calls[i] == Call(observers[i], s)
  {
    if observers == [] then [] else [Call(observers[0], s)] + Round(observers[1..], s)
  }

  /** `notifyChange(s)`: the state is updated first, so every observer
      reads `s`; then all observers are called; after a DESTROYED round the
      observer list is cleared. */
  function NotifyChange<O(==)>(lc: PmLifecycle<O>, s: State): (r: Outcome<O>)
    ensures r.lifecycle.state == s
    ensures r.calls == Round(lc.observers, s)
    ensures r.lifecycle.observers == if s == Destroyed then [] else lc.observers
  {
    Outcome(PmLifecycle(s, if s == Destroyed then [] else lc.observers), Round(lc.observers, s))
  }

  /** The calls a fixed observer list receives for a path of notifications:
      one full round per notification. */
  function Broadcast<O(==)>(observers: seq<O>, ss: seq<State>): seq<Call<O>>
  {
    if ss == [] then [] else Round(observers, ss[0]) + Broadcast(observers, ss[1..])
  }

  /** Delivers a legal path of notifications one round after the other. */
  function Deliver<O(==)>(lc: PmLifecycle<O>, ss: seq<State>): (r: Outcome<O>)
    requires Chain(lc.state, ss)
    ensures r.lifecycle.state == EndOf(lc.state, ss)
    ensures r.calls == Broadcast(lc.observers, ss)
    ensures r.lifecycle.observers == if Destroyed in ss then [] else lc.observers
    decreases |ss|
  {
    if ss == [] then Outcome(lc, [])
    else
      var first := NotifyChange(lc, ss[0]);
      assert Chain(ss[0], ss[1..]);
      if ss[0] == Destroyed then
        assert ss == [Destroyed];
        first
      else
        assert first.lifecycle.observers == lc.observers;
        var rest := Deliver(first.lifecycle, ss[1..]);
        assert Destroyed in ss <==> Destroyed in ss[1..];
        Outcome(rest.lifecycle, first.calls + rest.calls)
  }

  /** `moveTo(target)`. */
  function MoveTo<O(==)>(lc: PmLifecycle<O>, target: State): (r: Outcome<O>)
    ensures r.lifecycle.state == After(lc.state, target)
    ensures lc.state == target || lc.state == Destroyed ==> r == Outcome(lc, [])
    ensures r.calls == Broadcast(lc.observers, Notifications(lc.state, target))
    ensures r.lifecycle.observers ==
              if lc.state != Destroyed && target == Destroyed then [] else lc.observers
  {
    Deliver(lc, Notifications(lc.state, target))
  }

  /** The states delivered to observer `o`, in delivery order. */
  function Received<O(==)>(calls: seq<Call<O>>, o: O): seq<State>
  {
    if calls == [] then []
    else (if calls[0].observer == o then [calls[0].state] else []) + Received(calls[1..], o)
  }

  lemma {:induction false} ReceivedConcat<O>(a: seq<Call<O>>, b: seq<Call<O>>, o: O)
    ensures Received(a + b, o) == Received(a, o) + Received(b, o)
  {
    if a == [] {
      assert a + b == b;
    } else {
      var head := if a[0].observer == o then [a[0].state] else [];
      assert (a + b)[0] == a[0];
      assert (a + b)[1..] == a[1..] + b;
      assert Received(a + b, o) == head + Received(a[1..] + b, o);
      assert Received(a, o) == head + Received(a[1..], o);
      ReceivedConcat(a[1..], b, o);
      assert head + (Received(a[1..], o) + Received(b, o)) == (head + Received(a[1..], o)) + Received(b, o);
    }
  }

  /** An observer registered once hears a round exactly once. */
  lemma {:induction false} ReceivedRound<O>(observers: seq<O>, s: State, o: O)
    ensures Received(Round(observers, s), o) == if o in observers then [s] else []
    requires multiset(observers)[o] <= 1
  {
    if observers != [] {
      assert observers == [observers[0]] + observers[1..];
      assert multiset(observers) == multiset{observers[0]} + multiset(observers[1..]);
      ReceivedRound(observers[1..], s, o);
      ReceivedConcat([Call(observers[0], s)], Round(observers[1..], s), o);
    }
  }

  /** Every observer registered once receives exactly the emitted path of
      notifications, in order; an observer that is not registered receives
      nothing. */
  lemma {:induction false} ReceivedBroadcast<O>(observers: seq<O>, ss: seq<State>, o: O)
    requires multiset(observers)[o] <= 1
    ensures Received(Broadcast(observers, ss), o) == if o in observers then ss else []
  {
    if ss != [] {
      ReceivedRound(observers, ss[0], o);
      ReceivedBroadcast(observers, ss[1..], o);
      ReceivedConcat(Round(observers, ss[0]), Broadcast(observers, ss[1..]), o);
      assert ss == [ss[0]] + ss[1..];
    }
  }

  /** A late subscriber misses nothing: after `addObserver(o)` and any
      `moveTo(target)`, `o` has been told the state at registration and
      then exactly the notifications of the move. */
  lemma LateObserverSeesEverything<O>(lc: PmLifecycle<O>, o: O, target: State)
    requires o !in lc.observers
    ensures var added := AddObserver(lc, o);
            var moved := MoveTo(added.lifecycle, target);
            Received(added.calls + moved.calls, o) == [lc.state] + Notifications(lc.state, target)
  {
    var added := AddObserver(lc, o);
    var moved := MoveTo(added.lifecycle, target);
    assert multiset(added.lifecycle.observers)[o] == 1;
    ReceivedBroadcast(added.lifecycle.observers, Notifications(lc.state, target), o);
    ReceivedConcat(added.calls, moved.calls, o);
  }

  /** A sequence of `moveTo` calls. */
  function MoveAll<O(==)>(lc: PmLifecycle<O>, targets: seq<State>): (r: PmLifecycle<O>)
    decreases |targets|
  {
    if targets == [] then lc else MoveAll(MoveTo(lc, targets[0]).lifecycle, targets[1..])
  }

  /** After any sequence of `moveTo` calls the lifecycle is DESTROYED if it
      ever was asked to be (or already was), and otherwise sits in the last
      requested state. */
  lemma {:induction false} MoveAllState<O>(lc: PmLifecycle<O>, targets: seq<State>)
    ensures MoveAll(lc, targets).state ==
              if lc.state == Destroyed || Destroyed in targets then Destroyed
              else if targets == [] then lc.state
              else Last(targets)
    decreases |targets|
  {
    if targets != [] {
      var next := MoveTo(lc, targets[0]).lifecycle;
      assert next.state == After(lc.state, targets[0]);
      MoveAllState(next, targets[1..]);
      assert Destroyed in targets <==> targets[0] == Destroyed || Destroyed in targets[1..];
      assert targets[1..] != [] ==> Last(targets) == Last(targets[1..]);
    }
  }

  /** `moveTo` is idempotent: repeating a move changes nothing and calls
      nobody. */
  lemma MoveToIdempotent<O>(lc: PmLifecycle<O>, target: State)
    ensures var once := MoveTo(lc, target).lifecycle;
            MoveTo(once, target) == Outcome(once, [])
  {
  }

  /** An observer registered at most once hears nothing of a move made
      after its removal. */
  lemma RemovedHearsNothing<O>(lc: PmLifecycle<O>, o: O, target: State)
    requires multiset(lc.observers)[o] <= 1
    ensures var removed := RemoveObserver(lc, o);
            Received(MoveTo(removed, target).calls, o) == []
  {
    var removed := RemoveObserver(lc, o);
    assert o !in removed.observers by {
      assert multiset(removed.observers)[o] == 0;
    }
    ReceivedBroadcast(removed.observers, Notifications(removed.state, target), o);
  }
}
