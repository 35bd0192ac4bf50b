/** The stack navigator: a back stack of screens, bottom first. The top
    screen follows the host's state; every screen below it is kept CREATED
    (DESTROYED once the host is).

    Every operation is a `changeBackStack` to a new list: screens that leave
    the stack are destroyed, the rest are re-arranged. */
module StackNavigation {
  import opened Common
  import opened Lifecycle
  import opened StateStore
  import opened PresentationModel
  import opened Navigation

  /** A stack navigator hosted by node `host`; `key` is the key its back
      stack is saved under in the host's entry. */
  datatype StackNavigator = StackNavigator(host: NodeId, key: string, backStack: seq<NodeId>)

  /** The back stack holds distinct screens the host made with `Child`. */
  ghost predicate Valid(t: Tree, nav: StackNavigator)
  {
    && Wf(t) && nav.host in t.info
    && ScreensOf(t, nav.host, nav.backStack) && NoDup(nav.backStack)
  }

  /** `currentTop`: the last screen of the back stack, if any. */
  function CurrentTop(nav: StackNavigator): (top: Option<NodeId>)
    ensures top.None? <==> nav.backStack == []
    ensures top.Some? ==> top.value in nav.backStack && top.value == nav.backStack[|nav.backStack| - 1]
  {
    if nav.backStack == [] then None else Some(Last(nav.backStack))
  }

  /** The state of the host. */
  function HostState(t: Tree, nav: StackNavigator): State
  {
    StateOf(t, nav.host)
  }

  /** The screens are arranged for a host in state `s`: the top screen has
      the host's state, every other one is in `Hidden(s)`; a destroyed
      screen may be anywhere. */
  ghost predicate Arranged(t: Tree, xs: seq<NodeId>, s: State)
  {
    && (xs != [] ==> StateOf(t, Last(xs)) in {s, Destroyed})
    && (forall x :: x in xs && x != Last(xs) ==> StateOf(t, x) in {Hidden(s), Destroyed})
  }

  // ---------------------------------------------------------------------
  // Changing the back stack

  /** `changeBackStack(newStack)`: screens that leave the stack are
      destroyed, the new top takes the host's state and every other screen
      of the new stack is sent to the background. The host keeps its
      state. */
  function ChangeBackStack(t: Tree, nav: StackNavigator, newStack: seq<NodeId>): (r: Navigated<StackNavigator>)
    requires Valid(t, nav)
    requires NoDup(newStack) && ScreensOf(t, nav.host, newStack)
    ensures Valid(r.tree, r.nav) && Evolves(t, r.tree)
    ensures r.nav == nav.(backStack := newStack)
    ensures forall x :: x in nav.backStack && x !in newStack ==> StateOf(r.tree, x) == Destroyed
    ensures newStack != [] ==>
              StateOf(r.tree, Last(newStack)) == After(StateOf(t, Last(newStack)), HostState(t, nav))
    ensures forall x :: x in newStack && x != Last(newStack) ==>
              StateOf(r.tree, x) == After(StateOf(t, x), Hidden(HostState(t, nav)))
    ensures HostState(r.tree, r.nav) == HostState(t, nav)
  {
    var h := nav.host;
    var s := HostState(t, nav);
    var top := if newStack == [] then 0 else |newStack| - 1;
    ScreensOfAll(t, h, nav.backStack, newStack);
    var r := Replace(t, nav.backStack, newStack, top, s);
    EvolvesWf(t, r);
    ReplaceRemoves(t, nav.backStack, newStack, top, s);
    ReplaceArranges(t, nav.backStack, newStack, top, s);
    ReplaceFrame(t, nav.backStack, newStack, top, s);
    HostUntouched(t, r.life, h, nav.backStack + newStack, nav.backStack + newStack);
    Navigated(r, nav.(backStack := newStack))
  }

  /** `changeBackStack` touches nothing outside the subtrees of the old and
      the new screens. */
  lemma ChangeBackStackFrame(t: Tree, nav: StackNavigator, newStack: seq<NodeId>)
    requires Valid(t, nav)
    requires NoDup(newStack) && ScreensOf(t, nav.host, newStack)
    ensures SameOutsideAll(t, t.life, ChangeBackStack(t, nav, newStack).tree.life, nav.backStack + newStack)
  {
    var top := if newStack == [] then 0 else |newStack| - 1;
    ScreensOfAll(t, nav.host, nav.backStack, newStack);
    ReplaceFrame(t, nav.backStack, newStack, top, HostState(t, nav));
  }

  /** On a navigator whose screens are all alive, `changeBackStack` leaves
      the new stack arranged for the host, so at most one screen is
      IN_FOREGROUND: the top one. */
  lemma ChangeBackStackArranges(t: Tree, nav: StackNavigator, newStack: seq<NodeId>)
    requires Valid(t, nav)
    requires NoDup(newStack) && ScreensOf(t, nav.host, newStack)
    ensures var r := ChangeBackStack(t, nav, newStack);
            && Arranged(r.tree, newStack, HostState(t, nav))
            && OneForeground(r.tree, newStack)
  {
    var r := ChangeBackStack(t, nav, newStack);
    ArrangedOneForeground(r.tree, newStack, HostState(t, nav));
  }

  /** An arranged stack has at most one screen IN_FOREGROUND. */
  lemma ArrangedOneForeground(t: Tree, xs: seq<NodeId>, s: State)
    requires Arranged(t, xs, s)
    ensures OneForeground(t, xs)
  {
    forall i, j | 0 <= i < |xs| && 0 <= j < |xs| &&
                  StateOf(t, xs[i]) == InForeground && StateOf(t, xs[j]) == InForeground
      ensures xs[i] == xs[j]
    {
      assert xs[i] in xs && xs[j] in xs;
    }
  }

  // ---------------------------------------------------------------------
  // Operations on the back stack. Each function states the new back stack;
  // the lemma after it states what happens to the screens' lifecycles.

  /** `push(pm)`: `pm` goes on top of the back stack. */
  function Push(t: Tree, nav: StackNavigator, pm: NodeId): (r: Navigated<StackNavigator>)
    requires Valid(t, nav) && pm !in nav.backStack && ScreenOf(t, nav.host, pm)
    ensures Valid(r.tree, r.nav) && Evolves(t, r.tree)
    ensures r.nav.backStack == nav.backStack + [pm] && CurrentTop(r.nav) == Some(pm)
  {
    NoDupSnoc(nav.backStack, pm);
    ChangeBackStack(t, nav, nav.backStack + [pm])
  }

  /** After `push(pm)`, `pm` has the host's state and every screen below it
      is in the background; the host keeps its state. */
  lemma PushStates(t: Tree, nav: StackNavigator, pm: NodeId)
    requires Valid(t, nav) && pm !in nav.backStack && ScreenOf(t, nav.host, pm)
    ensures var r := Push(t, nav, pm);
            && StateOf(r.tree, pm) == After(StateOf(t, pm), HostState(t, nav))
            && (forall x :: x in nav.backStack ==> StateOf(r.tree, x) == After(StateOf(t, x), Hidden(HostState(t, nav))))
            && HostState(r.tree, r.nav) == HostState(t, nav)
  {
    NoDupSnoc(nav.backStack, pm);
    assert Last(nav.backStack + [pm]) == pm;
  }

  /** `pop()`: the top screen leaves the back stack; an empty navigator is
      left as it is. */
  function Pop(t: Tree, nav: StackNavigator): (r: Navigated<StackNavigator>)
    requires Valid(t, nav)
    ensures Valid(r.tree, r.nav) && Evolves(t, r.tree)
    ensures nav.backStack == [] ==> r == Navigated(t, nav)
    ensures nav.backStack != [] ==> r.nav.backStack == DropLast(nav.backStack)
    ensures |nav.backStack| > 1 ==> CurrentTop(r.nav) == Some(nav.backStack[|nav.backStack| - 2])
  {
    if nav.backStack == [] then
      EvolvesRefl(t);
      Navigated(t, nav)
    else
      NoDupDropLast(nav.backStack);
      ChangeBackStack(t, nav, DropLast(nav.backStack))
  }

  /** After `pop()` the old top is DESTROYED and the screen below it, the
      new top, has the host's state. */
  lemma PopStates(t: Tree, nav: StackNavigator)
    requires Valid(t, nav) && nav.backStack != []
    ensures var r := Pop(t, nav);
            && StateOf(r.tree, Last(nav.backStack)) == Destroyed
            && (|nav.backStack| > 1 ==>
                  var below := nav.backStack[|nav.backStack| - 2];
                  StateOf(r.tree, below) == After(StateOf(t, below), HostState(t, nav)))
  {
    NoDupDropLast(nav.backStack);
  }

  /** `popToRoot()`: with more than one screen only the bottom one stays
      and the answer is true; otherwise nothing happens and the answer is
      false. */
  function PopToRoot(t: Tree, nav: StackNavigator): (r: (Navigated<StackNavigator>, bool))
    requires Valid(t, nav)
    ensures Valid(r.0.tree, r.0.nav) && Evolves(t, r.0.tree)
    ensures r.1 <==> |nav.backStack| > 1
    ensures !r.1 ==> r.0 == Navigated(t, nav)
    ensures r.1 ==> r.0.nav.backStack == [nav.backStack[0]]
  {
    if |nav.backStack| <= 1 then
      EvolvesRefl(t);
      (Navigated(t, nav), false)
    else
      (ChangeBackStack(t, nav, [nav.backStack[0]]), true)
  }

  /** After a `popToRoot()` that answered true, the bottom screen has the
      host's state and every other screen is DESTROYED. */
  lemma PopToRootStates(t: Tree, nav: StackNavigator)
    requires Valid(t, nav) && |nav.backStack| > 1
    ensures var r := PopToRoot(t, nav).0;
            && StateOf(r.tree, nav.backStack[0]) == After(StateOf(t, nav.backStack[0]), HostState(t, nav))
            && forall x :: x in nav.backStack && x != nav.backStack[0] ==> StateOf(r.tree, x) == Destroyed
  {
  }

  /** The back stack `popUntil(predicate)` leaves: everything above the
      topmost screen that satisfies the predicate goes, and the whole stack
      goes when none does. */
  function KeepUntil(xs: seq<NodeId>, p: NodeId -> bool): (r: seq<NodeId>)
    ensures |r| <= |xs| && r == xs[..|r|]
    ensures r != [] ==> p(Last(r))
    ensures forall i :: |r| <= i < |xs| ==> !p(xs[i])
    decreases |xs|
  {
    if xs == [] then []
    else if p(Last(xs)) then xs
    else
      var r := KeepUntil(DropLast(xs), p);
      assert DropLast(xs)[..|r|] == xs[..|r|];
      r
  }

  /** `popUntil(predicate)`: screens are popped from the top until the top
      one satisfies the predicate. */
  function PopUntil(t: Tree, nav: StackNavigator, p: NodeId -> bool): (r: Navigated<StackNavigator>)
    requires Valid(t, nav)
    ensures Valid(r.tree, r.nav) && Evolves(t, r.tree)
    ensures r.nav.backStack == KeepUntil(nav.backStack, p)
  {
    PrefixNoDup(nav.backStack, |KeepUntil(nav.backStack, p)|);
    ChangeBackStack(t, nav, KeepUntil(nav.backStack, p))
  }

  /** After `popUntil(predicate)` every popped screen is DESTROYED and the
      new top has the host's state. */
  lemma PopUntilStates(t: Tree, nav: StackNavigator, p: NodeId -> bool)
    requires Valid(t, nav)
    ensures var r := PopUntil(t, nav, p);
            && (forall i :: |r.nav.backStack| <= i < |nav.backStack| ==> StateOf(r.tree, nav.backStack[i]) == Destroyed)
            && (r.nav.backStack != [] ==>
                  var top := Last(r.nav.backStack);
                  StateOf(r.tree, top) == After(StateOf(t, top), HostState(t, nav)))
  {
    var k := |KeepUntil(nav.backStack, p)|;
    PrefixNoDup(nav.backStack, k);
    PrefixDropped(nav.backStack, k);
  }

  /** The elements after a prefix of a list without duplicates are not in
      the prefix. */
  lemma PrefixDropped(xs: seq<NodeId>, k: nat)
    requires k <= |xs| && NoDup(xs)
    ensures forall i :: k <= i < |xs| ==> xs[i] in xs && xs[i] !in xs[..k]
  {
    forall i | k <= i < |xs|
      ensures xs[i] !in xs[..k]
    {
      forall j | 0 <= j < k
        ensures xs[..k][j] != xs[i]
      {
        assert xs[..k][j] == xs[j];
      }
    }
  }

  /** `replaceTop(pm)`: `pm` takes the place of the top screen, or becomes
      the only screen of an empty stack. */
  function ReplaceTop(t: Tree, nav: StackNavigator, pm: NodeId): (r: Navigated<StackNavigator>)
    requires Valid(t, nav) && pm !in nav.backStack && ScreenOf(t, nav.host, pm)
    ensures Valid(r.tree, r.nav) && Evolves(t, r.tree)
    ensures nav.backStack == [] ==> r.nav.backStack == [pm]
    ensures nav.backStack != [] ==> r.nav.backStack == DropLast(nav.backStack) + [pm]
    ensures CurrentTop(r.nav) == Some(pm)
  {
    if nav.backStack == [] then
      ChangeBackStack(t, nav, [pm])
    else
      var lower := DropLast(nav.backStack);
      NoDupDropLast(nav.backStack);
      NoDupSnoc(lower, pm);
      ChangeBackStack(t, nav, lower + [pm])
  }

  /** After `replaceTop(pm)` the old top is DESTROYED, `pm` has the host's
      state and the screens below stay in the background. */
  lemma ReplaceTopStates(t: Tree, nav: StackNavigator, pm: NodeId)
    requires Valid(t, nav) && pm !in nav.backStack && ScreenOf(t, nav.host, pm)
    ensures var r := ReplaceTop(t, nav, pm);
            && StateOf(r.tree, pm) == After(StateOf(t, pm), HostState(t, nav))
            && (nav.backStack != [] ==> StateOf(r.tree, Last(nav.backStack)) == Destroyed)
            && (nav.backStack != [] ==>
                  forall x :: x in DropLast(nav.backStack) ==>
                    StateOf(r.tree, x) == After(StateOf(t, x), Hidden(HostState(t, nav))))
  {
    if nav.backStack != [] {
      var lower := DropLast(nav.backStack);
      var ns := lower + [pm];
      NoDupDropLast(nav.backStack);
      NoDupSnoc(lower, pm);
      assert ReplaceTop(t, nav, pm) == ChangeBackStack(t, nav, ns);
      assert Last(ns) == pm;
      assert Last(nav.backStack) !in ns;
      forall x | x in lower
        ensures x in ns && x != Last(ns)
      {
      }
    }
  }

  /** `replaceAll(pm)`: `pm` becomes the only screen. */
  function ReplaceAll(t: Tree, nav: StackNavigator, pm: NodeId): (r: Navigated<StackNavigator>)
    requires Valid(t, nav) && ScreenOf(t, nav.host, pm)
    ensures Valid(r.tree, r.nav) && Evolves(t, r.tree)
    ensures r.nav.backStack == [pm]
  {
    ChangeBackStack(t, nav, [pm])
  }

  /** After `replaceAll(pm)` every other screen is DESTROYED and `pm` has
      the host's state. */
  lemma ReplaceAllStates(t: Tree, nav: StackNavigator, pm: NodeId)
    requires Valid(t, nav) && ScreenOf(t, nav.host, pm)
    ensures var r := ReplaceAll(t, nav, pm);
            && (forall x :: x in nav.backStack && x != pm ==> StateOf(r.tree, x) == Destroyed)
            && StateOf(r.tree, pm) == After(StateOf(t, pm), HostState(t, nav))
  {
  }

  /** `handleBack()`: with more than one screen it pops and answers true;
      otherwise nothing happens and the answer is false. */
  function HandleBack(t: Tree, nav: StackNavigator): (r: (Navigated<StackNavigator>, bool))
    requires Valid(t, nav)
    ensures Valid(r.0.tree, r.0.nav)
    ensures r.1 <==> |nav.backStack| > 1
    ensures r.1 ==> r.0 == Pop(t, nav) && |r.0.nav.backStack| == |nav.backStack| - 1
    ensures !r.1 ==> r.0 == Navigated(t, nav)
  {
    if |nav.backStack| > 1 then (Pop(t, nav), true) else (Navigated(t, nav), false)
  }

  // ---------------------------------------------------------------------
  // Following the host

  /** `host.lifecycle.moveTo(target)` with the navigator observing the
      host: when the host really changes state, the host moves first and
      the navigator then arranges the back stack for the host's new
      state. */
  function HostMoveTo(t: Tree, nav: StackNavigator, target: State): (r: Navigated<StackNavigator>)
    requires Valid(t, nav)
    ensures Valid(r.tree, r.nav) && Evolves(t, r.tree) && r.nav == nav
    ensures HostState(r.tree, nav) == After(HostState(t, nav), target)
    ensures HostState(t, nav) == target || HostState(t, nav) == Destroyed ==> r.tree == t
  {
    var h := nav.host;
    var xs := nav.backStack;
    var top := if xs == [] then 0 else |xs| - 1;
    if HostState(t, nav) == target || HostState(t, nav) == Destroyed then
      EvolvesRefl(t);
      Navigated(t, nav)
    else
      var r := FollowHost(t, h, xs, top, target);
      FollowHostHost(t, h, xs, top, target);
      EvolvesWf(t, r);
      Navigated(r, nav)
  }

  /** When the host really moves, the top screen follows it and the others
      go to `Hidden(target)`: all DESTROYED when the host is destroyed. */
  lemma HostMoveToStates(t: Tree, nav: StackNavigator, target: State)
    requires Valid(t, nav) && HostState(t, nav) != target && HostState(t, nav) != Destroyed
    requires nav.backStack != []
    ensures var r := HostMoveTo(t, nav, target);
            && StateOf(r.tree, Last(nav.backStack)) == After(StateOf(t, Last(nav.backStack)), target)
            && forall x :: x in nav.backStack && x != Last(nav.backStack) ==>
                 StateOf(r.tree, x) == After(StateOf(t, x), Hidden(target))
  {
    FollowHostScreens(t, nav.host, nav.backStack, |nav.backStack| - 1, target);
  }

  /** `HostMoveTo` keeps a stack arranged for its host: after the host goes
      to CREATED every screen is CREATED, and when it comes back to the
      foreground only the top one is IN_FOREGROUND again. */
  lemma HostMoveKeepsArranged(t: Tree, nav: StackNavigator, target: State)
    requires Valid(t, nav) && Arranged(t, nav.backStack, HostState(t, nav))
    ensures var r := HostMoveTo(t, nav, target);
            && Arranged(r.tree, nav.backStack, HostState(r.tree, nav))
            && OneForeground(r.tree, nav.backStack)
  {
    var r := HostMoveTo(t, nav, target);
    if HostState(t, nav) != target && HostState(t, nav) != Destroyed && nav.backStack != [] {
      HostMoveToStates(t, nav, target);
    }
    ArrangedOneForeground(r.tree, nav.backStack, HostState(r.tree, nav));
  }

  // ---------------------------------------------------------------------
  // Saving and restoring the back stack

  /** What the navigator gives the host's handler to save: the back stack's
      descriptions under the navigator's key. */
  function SavedEntry(t: Tree, nav: StackNavigator): (e: Entry)
    requires forall x :: x in nav.backStack ==> x in t.info
    ensures e.Keys == {nav.key}
    ensures e[nav.key] == DescriptionList(Descriptions(t.info, nav.backStack))
  {
    map[nav.key := DescriptionList(Descriptions(t.info, nav.backStack))]
  }

  /** The descriptions a new navigator starts from: a saved back stack
      under the key if there is one, else the initial descriptions. */
  function Restored(t: Tree, h: NodeId, key: string, initial: seq<Description>): (ds: seq<Description>)
    requires h in t.info
    ensures (exists saved :: GetSaved(t.store, t.info[h].tag, key) == Some(DescriptionList(saved))) ==>
              GetSaved(t.store, t.info[h].tag, key) == Some(DescriptionList(ds))
    ensures (forall saved :: GetSaved(t.store, t.info[h].tag, key) != Some(DescriptionList(saved))) ==>
              ds == initial
  {
    match GetSaved(t.store, t.info[h].tag, key)
    case Some(DescriptionList(saved)) => saved
    case _ => initial
  }

  /** `StackNavigator(initial...)` on host `h`: a new child of the host is
      created for every restored description, in order. */
  function Create(t: Tree, h: NodeId, key: string, initial: seq<Description>): (r: Navigated<StackNavigator>)
    requires Wf(t) && h in t.info
    ensures Valid(r.tree, r.nav) && r.nav.host == h && r.nav.key == key
    ensures Descriptions(r.tree.info, r.nav.backStack) == Restored(t, h, key, initial)
    ensures forall x :: x in r.nav.backStack ==> x !in t.info
  {
    var ds := Restored(t, h, key, initial);
    var c := CreateChildren(t, h, ds);
    CreateChildrenScreens(t, h, ds);
    CreateChildrenDescribed(t, h, ds);
    ChangeBackStack(c.tree, StackNavigator(h, key, []), c.nav)
  }

  /** A new navigator is arranged for the host's state: the last screen
      shown, the others hidden; the host keeps its state. */
  lemma CreateStates(t: Tree, h: NodeId, key: string, initial: seq<Description>)
    requires Wf(t) && h in t.info
    ensures var r := Create(t, h, key, initial);
            && StateOf(r.tree, h) == StateOf(t, h)
            && (r.nav.backStack != [] ==> StateOf(r.tree, Last(r.nav.backStack)) == StateOf(t, h))
            && forall x :: x in r.nav.backStack && x != Last(r.nav.backStack) ==>
                 StateOf(r.tree, x) == Hidden(StateOf(t, h))
  {
    var ds := Restored(t, h, key, initial);
    CreateChildrenScreens(t, h, ds);
  }

  /** Under a host that is not destroyed the new screens stay alive, and so
      do their state savers: every screen's tag has an entry in the store. */
  lemma CreateKeepsSavers(t: Tree, h: NodeId, key: string, initial: seq<Description>)
    requires Wf(t) && h in t.info && StateOf(t, h) != Destroyed
    ensures var r := Create(t, h, key, initial);
            forall x :: x in r.nav.backStack ==> r.tree.info[x].tag in r.tree.store
  {
    var ds := Restored(t, h, key, initial);
    var c := CreateChildren(t, h, ds);
    CreateChildrenScreens(t, h, ds);
    FreshStackKeepsSavers(c.tree, StackNavigator(h, key, []), c.nav);
  }

  /** Moving an empty navigator onto new leaf screens under a live host
      keeps every screen alive, and so keeps their entries in the store. */
  lemma FreshStackKeepsSavers(t: Tree, nav: StackNavigator, newStack: seq<NodeId>)
    requires Valid(t, nav) && nav.backStack == [] && HostState(t, nav) != Destroyed
    requires NoDup(newStack) && ScreensOf(t, nav.host, newStack)
    requires forall x :: x in newStack ==>
               && x in t.attached && t.attached[x] == []
               && StateOf(t, x) != Destroyed && t.info[x].tag in t.store
    ensures var r := ChangeBackStack(t, nav, newStack);
            forall x :: x in newStack ==> r.tree.info[x].tag in r.tree.store
  {
    var r := ChangeBackStack(t, nav, newStack);
    ChangeBackStackFrame(t, nav, newStack);
    assert nav.backStack + newStack == newStack;
    SpawnedSurvive(t, r.tree, nav.host, newStack);
  }

  /** Saving and restoring round-trips: when the host saves its state with
      the navigator's entry, a navigator created later on a host with the
      same tag, from the saved store, rebuilds a back stack with the same
      descriptions. */
  lemma SaveRestoreRoundTrip(t: Tree, nav: StackNavigator, capture: NodeId -> Entry,
                             t2: Tree, h2: NodeId, initial: seq<Description>)
    requires Valid(t, nav) && StateOf(t, nav.host) != Destroyed
    requires OnlyOwnerBelow(t, nav.host, nav.host)
    requires nav.key in capture(nav.host) && capture(nav.host)[nav.key] == SavedEntry(t, nav)[nav.key]
    requires Wf(t2) && h2 in t2.info && t2.info[h2].tag == t.info[nav.host].tag
    requires t2.store == SaveState(t, nav.host, capture).store
    ensures var r := Create(t2, h2, nav.key, initial);
            Descriptions(r.tree.info, r.nav.backStack) == Descriptions(t.info, nav.backStack)
  {
    SaveStateWrites(t, nav.host, capture, nav.host);
    var descs := Descriptions(t.info, nav.backStack);
    var saved := SaveState(t, nav.host, capture).store;
    assert saved[t.info[nav.host].tag][nav.key] == DescriptionList(descs);
    assert GetSaved(t2.store, t2.info[h2].tag, nav.key) == Some(DescriptionList(descs));
    assert Restored(t2, h2, nav.key, initial) == descs;
  }
}
