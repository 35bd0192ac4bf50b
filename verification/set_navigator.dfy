/** The set navigator: a fixed list of screens, one of which, the current
    one, is shown. The current screen follows the host's state; the other
    screens are kept CREATED and do not follow the host.

    Changing the current screen or the list re-arranges the screens for the
    host's state: the chosen screen takes it, the others are sent to the
    background, and screens that leave the list are destroyed. */
module SetNavigation {
  import opened Common
  import opened Lifecycle
  import opened PresentationModel
  import opened Navigation

  /** A set navigator hosted by node `host`: its screens in order and the
      index of the current one. */
  datatype SetNavigator = SetNavigator(host: NodeId, values: seq<NodeId>, index: Option<nat>)

  /** The screens are distinct screens the host made with `Child`; there is
      a current index exactly when there are screens, and it is in range. */
  ghost predicate Valid(t: Tree, nav: SetNavigator)
  {
    && Wf(t) && nav.host in t.info
    && ScreensOf(t, nav.host, nav.values) && NoDup(nav.values)
    && (nav.index.None? <==> nav.values == [])
    && (nav.index.Some? ==> nav.index.value < |nav.values|)
  }

  /** `current`: the screen at the current index, if any. */
  function Current(nav: SetNavigator): (c: Option<NodeId>)
    requires nav.index.Some? ==> nav.index.value < |nav.values|
    ensures c.None? <==> nav.index.None?
    ensures c.Some? ==> c.value in nav.values
  {
    match nav.index
    case None => None
    case Some(i) => Some(nav.values[i])
  }

  /** The screens are shown for a host in state `s`: the current screen is
      in `s`, every other screen is CREATED; a destroyed screen may be
      anywhere. */
  ghost predicate Shown(t: Tree, nav: SetNavigator, s: State)
  {
    forall i :: 0 <= i < |nav.values| ==>
      StateOf(t, nav.values[i]) in (if nav.index == Some(i) then {s, Destroyed} else {Created, Destroyed})
  }

  /** A shown navigator has at most one screen IN_FOREGROUND: the current
      one. */
  lemma ShownOneForeground(t: Tree, nav: SetNavigator, s: State)
    requires Shown(t, nav, s)
    ensures OneForeground(t, nav.values)
    ensures forall i :: 0 <= i < |nav.values| && StateOf(t, nav.values[i]) == InForeground ==> nav.index == Some(i)
  {
  }

  /** Screens arranged around the current one for a host in `s`, the
      current screen following the host and the others sent to the
      background, are shown. */
  lemma ArrangedIsShown(t: Tree, r: Tree, nav: SetNavigator, s: State)
    requires nav.index.Some? && nav.index.value < |nav.values| && NoDup(nav.values)
    requires StateOf(r, nav.values[nav.index.value]) == After(StateOf(t, nav.values[nav.index.value]), s)
    requires forall x :: x in nav.values && x != nav.values[nav.index.value] ==>
               StateOf(r, x) == After(StateOf(t, x), Hidden(s))
    ensures Shown(r, nav, s)
  {
    forall i | 0 <= i < |nav.values| && nav.index != Some(i)
      ensures StateOf(r, nav.values[i]) in {Created, Destroyed}
    {
      assert nav.values[i] != nav.values[nav.index.value];
    }
  }

  /** A shown navigator whose current screen follows the host to `target`
      while no other screen changes is shown for `target`. */
  lemma FollowedIsShown(t: Tree, r: Tree, nav: SetNavigator, s: State, target: State)
    requires nav.index.Some? && nav.index.value < |nav.values| && NoDup(nav.values)
    requires Shown(t, nav, s)
    requires StateOf(r, nav.values[nav.index.value]) == After(StateOf(t, nav.values[nav.index.value]), target)
    requires forall x :: x in nav.values && x != nav.values[nav.index.value] ==> StateOf(r, x) == StateOf(t, x)
    ensures Shown(r, nav, target)
  {
    forall i | 0 <= i < |nav.values| && nav.index != Some(i)
      ensures StateOf(r, nav.values[i]) in {Created, Destroyed}
    {
      assert nav.values[i] != nav.values[nav.index.value];
    }
  }

  // ---------------------------------------------------------------------
  // Changing the list and the current screen

  /** `changeValues(newValues)`: the list is replaced, the first new screen
      becomes current, whether or not the old current screen stays. */
  function ChangeValues(t: Tree, nav: SetNavigator, newValues: seq<NodeId>): (r: Navigated<SetNavigator>)
    requires Valid(t, nav)
    requires NoDup(newValues) && ScreensOf(t, nav.host, newValues)
    ensures Valid(r.tree, r.nav) && Evolves(t, r.tree)
    ensures r.nav.host == nav.host && r.nav.values == newValues
    ensures Current(r.nav) == if newValues == [] then None else Some(newValues[0])
    ensures StateOf(r.tree, nav.host) == StateOf(t, nav.host)
  {
    var h := nav.host;
    var s := StateOf(t, h);
    ScreensOfAll(t, h, nav.values, newValues);
    var r := Replace(t, nav.values, newValues, 0, s);
    EvolvesWf(t, r);
    ReplaceFrame(t, nav.values, newValues, 0, s);
    HostUntouched(t, r.life, h, nav.values + newValues, nav.values + newValues);
    Navigated(r, SetNavigator(h, newValues, if newValues == [] then None else Some(0)))
  }

  /** After `changeValues(newValues)` every screen that left the list is
      DESTROYED, the first new screen has the host's state and every other
      new screen is in the background. */
  lemma ChangeValuesStates(t: Tree, nav: SetNavigator, newValues: seq<NodeId>)
    requires Valid(t, nav)
    requires NoDup(newValues) && ScreensOf(t, nav.host, newValues)
    ensures var r := ChangeValues(t, nav, newValues);
            var s := StateOf(t, nav.host);
            && (forall x :: x in nav.values && x !in newValues ==> StateOf(r.tree, x) == Destroyed)
            && (newValues != [] ==> StateOf(r.tree, newValues[0]) == After(StateOf(t, newValues[0]), s))
            && forall x :: x in newValues && x != newValues[0] ==> StateOf(r.tree, x) == After(StateOf(t, x), Hidden(s))
  {
    ScreensOfAll(t, nav.host, nav.values, newValues);
    ReplaceRemoves(t, nav.values, newValues, 0, StateOf(t, nav.host));
    ReplaceArranges(t, nav.values, newValues, 0, StateOf(t, nav.host));
  }

  /** `changeValues` leaves the new list shown for the host. */
  lemma ChangeValuesShows(t: Tree, nav: SetNavigator, newValues: seq<NodeId>)
    requires Valid(t, nav)
    requires NoDup(newValues) && ScreensOf(t, nav.host, newValues)
    ensures var r := ChangeValues(t, nav, newValues);
            && Shown(r.tree, r.nav, StateOf(t, nav.host))
            && OneForeground(r.tree, newValues)
  {
    var r := ChangeValues(t, nav, newValues);
    ChangeValuesStates(t, nav, newValues);
    if newValues != [] {
      ArrangedIsShown(t, r.tree, r.nav, StateOf(t, nav.host));
    }
    ShownOneForeground(r.tree, r.nav, StateOf(t, nav.host));
  }

  /** `changeCurrent(index)`: the screen at `index` becomes current. An
      index out of range is the caller's error. */
  function ChangeCurrent(t: Tree, nav: SetNavigator, index: nat): (r: Navigated<SetNavigator>)
    requires Valid(t, nav) && index < |nav.values|
    ensures Valid(r.tree, r.nav) && Evolves(t, r.tree)
    ensures r.nav == nav.(index := Some(index)) && Current(r.nav) == Some(nav.values[index])
    ensures StateOf(r.tree, nav.host) == StateOf(t, nav.host)
  {
    var h := nav.host;
    var s := StateOf(t, h);
    ScreensOfAll(t, h, nav.values, nav.values);
    var r := Replace(t, nav.values, nav.values, index, s);
    EvolvesWf(t, r);
    ReplaceFrame(t, nav.values, nav.values, index, s);
    HostUntouched(t, r.life, h, nav.values + nav.values, nav.values + nav.values);
    Navigated(r, nav.(index := Some(index)))
  }

  /** After `changeCurrent(index)` the chosen screen has the host's state
      and every other screen, the previous current one included, is in the
      background; nothing is destroyed while the host is alive. */
  lemma ChangeCurrentStates(t: Tree, nav: SetNavigator, index: nat)
    requires Valid(t, nav) && index < |nav.values|
    ensures var r := ChangeCurrent(t, nav, index);
            var s := StateOf(t, nav.host);
            && StateOf(r.tree, nav.values[index]) == After(StateOf(t, nav.values[index]), s)
            && forall x :: x in nav.values && x != nav.values[index] ==> StateOf(r.tree, x) == After(StateOf(t, x), Hidden(s))
  {
    ScreensOfAll(t, nav.host, nav.values, nav.values);
    ReplaceArranges(t, nav.values, nav.values, index, StateOf(t, nav.host));
  }

  /** `changeCurrent` leaves the screens shown for the host. */
  lemma ChangeCurrentShows(t: Tree, nav: SetNavigator, index: nat)
    requires Valid(t, nav) && index < |nav.values|
    ensures var r := ChangeCurrent(t, nav, index);
            && Shown(r.tree, r.nav, StateOf(t, nav.host))
            && OneForeground(r.tree, nav.values)
  {
    var r := ChangeCurrent(t, nav, index);
    ChangeCurrentStates(t, nav, index);
    ArrangedIsShown(t, r.tree, r.nav, StateOf(t, nav.host));
    ShownOneForeground(r.tree, r.nav, StateOf(t, nav.host));
  }

  /** On a shown navigator under a live host, `changeCurrent` changes no
      screen but the previous and the new current one. */
  lemma ChangeCurrentKeepsOthers(t: Tree, nav: SetNavigator, index: nat)
    requires Valid(t, nav) && index < |nav.values|
    requires Shown(t, nav, StateOf(t, nav.host)) && StateOf(t, nav.host) != Destroyed
    ensures var r := ChangeCurrent(t, nav, index);
            forall j :: 0 <= j < |nav.values| && j != index && nav.index != Some(j) ==>
              StateOf(r.tree, nav.values[j]) == StateOf(t, nav.values[j])
  {
    var r := ChangeCurrent(t, nav, index);
    ChangeCurrentStates(t, nav, index);
    HiddenStay(t, r.tree, nav, StateOf(t, nav.host), index);
  }

  /** Sending a screen that is already in the background there again
      changes nothing. */
  lemma HiddenStay(t: Tree, r: Tree, nav: SetNavigator, s: State, index: nat)
    requires index < |nav.values| && NoDup(nav.values)
    requires Shown(t, nav, s) && s != Destroyed
    requires forall x :: x in nav.values && x != nav.values[index] ==>
               StateOf(r, x) == After(StateOf(t, x), Hidden(s))
    ensures forall j :: 0 <= j < |nav.values| && j != index && nav.index != Some(j) ==>
              StateOf(r, nav.values[j]) == StateOf(t, nav.values[j])
  {
    forall j | 0 <= j < |nav.values| && j != index && nav.index != Some(j)
      ensures StateOf(r, nav.values[j]) == StateOf(t, nav.values[j])
    {
      assert nav.values[j] != nav.values[index];
    }
  }

  /** `SetNavigator(values)` on host `h`: the first screen becomes current. */
  function Create(t: Tree, h: NodeId, values: seq<NodeId>): (r: Navigated<SetNavigator>)
    requires Wf(t) && h in t.info
    requires NoDup(values) && ScreensOf(t, h, values)
    ensures Valid(r.tree, r.nav) && Evolves(t, r.tree)
    ensures r.nav.host == h && r.nav.values == values
    ensures Current(r.nav) == if values == [] then None else Some(values[0])
  {
    ChangeValues(t, SetNavigator(h, [], None), values)
  }

  /** A new navigator shows its first screen in the host's state and keeps
      the others in the background. */
  lemma CreateStates(t: Tree, h: NodeId, values: seq<NodeId>)
    requires Wf(t) && h in t.info
    requires NoDup(values) && ScreensOf(t, h, values)
    ensures var r := Create(t, h, values);
            && Shown(r.tree, r.nav, StateOf(t, h))
            && StateOf(r.tree, h) == StateOf(t, h)
            && (values != [] ==> StateOf(r.tree, values[0]) == After(StateOf(t, values[0]), StateOf(t, h)))
            && forall x :: x in values && x != values[0] ==> StateOf(r.tree, x) == After(StateOf(t, x), Hidden(StateOf(t, h)))
  {
    ChangeValuesStates(t, SetNavigator(h, [], None), values);
    ChangeValuesShows(t, SetNavigator(h, [], None), values);
  }

  // ---------------------------------------------------------------------
  // Following the host

  /** The current screen, as a list of at most one screen. */
  function ShownList(nav: SetNavigator): (xs: seq<NodeId>)
    requires nav.index.Some? ==> nav.index.value < |nav.values|
    ensures |xs| <= 1 && (xs == [] <==> nav.index.None?)
    ensures forall x :: x in xs <==> nav.index.Some? && x == nav.values[nav.index.value]
  {
    match nav.index
    case None => []
    case Some(i) => [nav.values[i]]
  }

  /** `host.lifecycle.moveTo(target)` with the navigator observing the
      host: when the host really changes state, the host moves first and
      then the current screen follows it. */
  function HostMoveTo(t: Tree, nav: SetNavigator, target: State): (r: Navigated<SetNavigator>)
    requires Valid(t, nav)
    ensures Valid(r.tree, r.nav) && Evolves(t, r.tree) && r.nav == nav
    ensures StateOf(r.tree, nav.host) == After(StateOf(t, nav.host), target)
    ensures StateOf(t, nav.host) == target || StateOf(t, nav.host) == Destroyed ==> r.tree == t
    ensures forall x :: x in nav.values && x !in ShownList(nav) ==> StateOf(r.tree, x) == StateOf(t, x)
  {
    var h := nav.host;
    var xs := ShownList(nav);
    if StateOf(t, h) == target || StateOf(t, h) == Destroyed then
      EvolvesRefl(t);
      Navigated(t, nav)
    else
      var r := FollowHost(t, h, xs, 0, target);
      FollowHostHost(t, h, xs, 0, target);
      FollowHostFrameAll(t, h, xs, 0, target, nav.values);
      EvolvesWf(t, r);
      Navigated(r, nav)
  }

  /** When the host really moves, the current screen follows it and no
      other screen changes: in particular the others stay CREATED when the
      host is destroyed. */
  lemma HostMoveToStates(t: Tree, nav: SetNavigator, target: State)
    requires Valid(t, nav) && StateOf(t, nav.host) != target && StateOf(t, nav.host) != Destroyed
    requires nav.index.Some?
    ensures var r := HostMoveTo(t, nav, target);
            var c := nav.values[nav.index.value];
            && StateOf(r.tree, c) == After(StateOf(t, c), target)
            && forall x :: x in nav.values && x != c ==> StateOf(r.tree, x) == StateOf(t, x)
  {
    HostMoveCurrent(t, nav, target);
  }

  lemma HostMoveCurrent(t: Tree, nav: SetNavigator, target: State)
    requires Valid(t, nav) && StateOf(t, nav.host) != target && StateOf(t, nav.host) != Destroyed
    requires nav.index.Some?
    ensures var c := nav.values[nav.index.value];
            StateOf(HostMoveTo(t, nav, target).tree, c) == After(StateOf(t, c), target)
  {
    var xs := ShownList(nav);
    assert HostMoveTo(t, nav, target).tree == FollowHost(t, nav.host, xs, 0, target);
    FollowHostScreens(t, nav.host, xs, 0, target);
  }

  /** `HostMoveTo` keeps the screens shown for the host: after the host
      goes to CREATED every screen is CREATED, and when it comes back to the
      foreground only the current one is IN_FOREGROUND again. */
  lemma HostMoveKeepsShown(t: Tree, nav: SetNavigator, target: State)
    requires Valid(t, nav) && Shown(t, nav, StateOf(t, nav.host))
    ensures var r := HostMoveTo(t, nav, target);
            && Shown(r.tree, nav, StateOf(r.tree, nav.host))
            && OneForeground(r.tree, nav.values)
  {
    var r := HostMoveTo(t, nav, target);
    if StateOf(t, nav.host) != target && StateOf(t, nav.host) != Destroyed && nav.index.Some? {
      HostMoveToStates(t, nav, target);
      FollowedIsShown(t, r.tree, nav, StateOf(t, nav.host), target);
    }
    ShownOneForeground(r.tree, nav, StateOf(r.tree, nav.host));
  }
}
