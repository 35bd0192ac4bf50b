/** What the three navigators share: a host node, screens that are nodes of
    the same tree, and the rule that the shown screen follows the host while
    every other screen is kept in the background.

    A navigator's screens are not attached to the host: the navigator moves
    them itself, so that only the shown screen comes to the foreground. */
module Navigation {
  import opened Common
  import opened Lifecycle
  import opened StateStore
  import opened PresentationModel

  /** A navigator's new tree and its new state. */
  datatype Navigated<N> = Navigated(tree: Tree, nav: N)

  /** No screen is under another one. */
  ghost predicate Apart(info: map<NodeId, Info>, attached: map<NodeId, seq<NodeId>>, xs: seq<NodeId>)
  {
    forall a, b {:trigger Under(info, attached, a, b)} :: a in xs && b in xs && a != b ==> !Under(info, attached, a, b)
  }

  /** The screens `xs` of a navigator hosted by `h` exist, none is under
      another one, and the host's own moves do not reach them (nor theirs
      the host). */
  ghost predicate Screens(t: Tree, h: NodeId, xs: seq<NodeId>)
  {
    && (forall x :: x in xs ==> x in t.info)
    && Apart(t.info, t.attached, xs)
    && (forall x :: x in xs ==> !Under(t.info, t.attached, x, h) && !Under(t.info, t.attached, h, x))
  }

  /** The state a screen that is not shown is kept in while the host is in
      `s`: CREATED, or DESTROYED once the host is. */
  function Hidden(s: State): (r: State)
    ensures r != InForeground
    ensures r == Destroyed <==> s == Destroyed
  {
    if s == Destroyed then Destroyed else Created
  }

  /** At most one of the screens is IN_FOREGROUND. */
  ghost predicate OneForeground(t: Tree, xs: seq<NodeId>)
  {
    forall i, j ::
      (0 <= i < |xs| && 0 <= j < |xs| && StateOf(t, xs[i]) == InForeground && StateOf(t, xs[j]) == InForeground)
      ==> xs[i] == xs[j]
  }

  // ---------------------------------------------------------------------
  // Frames

  /** One node's frame, as a frame over a one-element list. */
  lemma SameOutsideOne(t: Tree, life1: map<NodeId, Life>, life2: map<NodeId, Life>, x: NodeId)
    requires SameOutside(t, life1, life2, x)
    ensures SameOutsideAll(t, life1, life2, [x])
  {
    forall n | n in t.info && n in life1 && n in life2 && !UnderAny(t.info, t.attached, n, [x])
      ensures life2[n] == life1[n]
    {
      assert !Under(t.info, t.attached, n, x);
    }
  }

  /** Two frames in a row, both inside `xs`, make one frame for `xs`. */
  lemma FrameCompose(t: Tree, t1: Tree, life2: map<NodeId, Life>, a: seq<NodeId>, b: seq<NodeId>, xs: seq<NodeId>)
    requires t1.info == t.info && t1.attached == t.attached && t1.life.Keys == t.life.Keys
    requires SameOutsideAll(t, t.life, t1.life, a) && SameOutsideAll(t1, t1.life, life2, b)
    requires forall y :: y in a ==> y in xs
    requires forall y :: y in b ==> y in xs
    ensures SameOutsideAll(t, t.life, life2, xs)
  {
    forall n | n in t.info && n in t.life && n in life2 && !UnderAny(t.info, t.attached, n, xs)
      ensures life2[n] == t.life[n]
    {
      UnderAnyMember(t.info, t.attached, n, xs);
      UnderAnyMember(t.info, t.attached, n, a);
      UnderAnyMember(t.info, t.attached, n, b);
      assert !UnderAny(t.info, t.attached, n, a);
      assert !UnderAny(t.info, t.attached, n, b);
    }
  }

  /** A screen outside the moved ones keeps its life. */
  lemma ScreenUntouched(t: Tree, life2: map<NodeId, Life>, xs: seq<NodeId>, ys: seq<NodeId>, e: NodeId)
    requires e in t.info && e in t.life && e in life2 && e in xs && e !in ys
    requires forall y :: y in ys ==> y in xs
    requires Apart(t.info, t.attached, xs)
    requires SameOutsideAll(t, t.life, life2, ys)
    ensures life2[e] == t.life[e]
  {
    UnderAnyMember(t.info, t.attached, e, ys);
  }

  /** The host keeps its life when only screens are moved. */
  lemma HostUntouched(t: Tree, life2: map<NodeId, Life>, h: NodeId, xs: seq<NodeId>, ys: seq<NodeId>)
    requires h in t.info && h in t.life && h in life2
    requires forall y :: y in ys ==> y in xs
    requires Screens(t, h, xs)
    requires SameOutsideAll(t, t.life, life2, ys)
    ensures life2[h] == t.life[h]
  {
    UnderAnyMember(t.info, t.attached, h, ys);
  }

  // ---------------------------------------------------------------------
  // Moving screens

  /** `xs.forEach { it.lifecycle.moveTo(s) }` over screens none of which is
      under another: each reaches `After(its state, s)`, and nothing
      outside their subtrees changes. */
  function MoveEach(t: Tree, xs: seq<NodeId>, s: State): (r: Tree)
    requires Shape(t) && (forall x :: x in xs ==> x in t.info) && Apart(t.info, t.attached, xs)
    ensures Shape(r) && Evolves(t, r)
    ensures forall x :: x in xs ==> r.life[x].state == After(t.life[x].state, s)
    ensures SameOutsideAll(t, t.life, r.life, xs)
    decreases |xs|
  {
    if xs == [] then
      EvolvesRefl(t);
      t
    else
      var t1 := MoveNode(t, xs[0], s);
      var r := MoveEach(t1, xs[1..], s);
      EvolvesTrans(t, t1, r);
      MoveEachKids(t, t1.life, r.life, xs, s);
      PropagateFrame(t, t1.life, r.life, xs);
      r
  }

  /** Moving the first screen and then the others leaves each in
      `After(its state, s)`. */
  lemma MoveEachKids(t: Tree, life1: map<NodeId, Life>, life2: map<NodeId, Life>, xs: seq<NodeId>, s: State)
    requires xs != [] && (forall x :: x in xs ==> x in t.info && x in t.life) && Apart(t.info, t.attached, xs)
    requires t.life.Keys == life1.Keys && t.life.Keys == life2.Keys
    requires life1[xs[0]].state == After(t.life[xs[0]].state, s)
    requires SameOutside(t, t.life, life1, xs[0])
    requires forall k :: k in xs[1..] ==> life2[k].state == After(life1[k].state, s)
    requires SameOutsideAll(t, life1, life2, xs[1..])
    ensures forall k :: k in xs ==> life2[k].state == After(t.life[k].state, s)
  {
    var k0 := xs[0];
    forall k | k in xs
      ensures life2[k].state == After(t.life[k].state, s)
    {
      if k in xs[1..] {
        if k != k0 {
          assert !Under(t.info, t.attached, k, k0);
          assert life1[k] == t.life[k];
        }
      } else {
        assert k == k0;
        UnderAnyMember(t.info, t.attached, k0, xs[1..]);
        assert life2[k0] == life1[k0];
      }
    }
  }

  /** Shows screen `xs[i]` in the host's state `s` and keeps every other
      screen in `Hidden(s)`: the others are moved first, the shown one
      last. */
  function Arrange(t: Tree, xs: seq<NodeId>, i: nat, s: State): (r: Tree)
    requires Shape(t) && i < |xs| && (forall x :: x in xs ==> x in t.info) && Apart(t.info, t.attached, xs)
    ensures Shape(r) && Evolves(t, r)
    ensures r.life[xs[i]].state == After(t.life[xs[i]].state, s)
    ensures forall x :: x in xs && x != xs[i] ==> r.life[x].state == After(t.life[x].state, Hidden(s))
    ensures SameOutsideAll(t, t.life, r.life, xs)
  {
    var shown := xs[i];
    var others := Without(xs, [shown]);
    var t1 := MoveEach(t, others, Hidden(s));
    var r := MoveNode(t1, shown, s);
    ScreenUntouched(t, t1.life, xs, others, shown);
    SameOutsideOne(t1, t1.life, r.life, shown);
    FrameCompose(t, t1, r.life, others, [shown], xs);
    EvolvesTrans(t, t1, r);
    forall x | x in xs && x != shown
      ensures r.life[x].state == After(t.life[x].state, Hidden(s))
    {
      assert x in others;
      ScreenUntouched(t1, r.life, xs, [shown], x);
    }
    r
  }

  /** A sub-list of screens none of which is under another. */
  lemma ApartSub(info: map<NodeId, Info>, attached: map<NodeId, seq<NodeId>>, xs: seq<NodeId>, ys: seq<NodeId>)
    requires Apart(info, attached, xs) && forall y :: y in ys ==> y in xs
    ensures Apart(info, attached, ys)
  {
  }

  /** Every screen of `bs` that is not in `ns` is destroyed; the screens of
      `ns` are not touched. */
  function Removal(t: Tree, bs: seq<NodeId>, ns: seq<NodeId>): (r: Tree)
    requires Shape(t) && (forall x :: x in bs + ns ==> x in t.info) && Apart(t.info, t.attached, bs + ns)
    ensures Shape(r) && Evolves(t, r)
    ensures forall x :: x in bs && x !in ns ==> r.life[x].state == Destroyed
    ensures forall x :: x in ns ==> r.life[x] == t.life[x]
    ensures SameOutsideAll(t, t.life, r.life, bs + ns)
  {
    var removed := Without(bs, ns);
    ApartSub(t.info, t.attached, bs + ns, removed);
    var r := MoveEach(t, removed, Destroyed);
    RemovalKeeps(t, r.life, bs, ns, removed);
    FrameCompose(t, r, r.life, removed, [], bs + ns);
    r
  }

  /** Destroying the removed screens leaves the kept ones alone. */
  lemma RemovalKeeps(t: Tree, life2: map<NodeId, Life>, bs: seq<NodeId>, ns: seq<NodeId>, removed: seq<NodeId>)
    requires Shape(t) && (forall x :: x in bs + ns ==> x in t.info) && Apart(t.info, t.attached, bs + ns)
    requires life2.Keys == t.life.Keys
    requires forall y :: y in removed <==> y in bs && y !in ns
    requires SameOutsideAll(t, t.life, life2, removed)
    ensures forall x :: x in ns ==> life2[x] == t.life[x]
  {
    forall x | x in ns
      ensures life2[x] == t.life[x]
    {
      ScreenUntouched(t, life2, bs + ns, removed, x);
    }
  }

  /** A navigator's screen list changes from `bs` to `ns` under a host in
      state `s`: the screens that leave are destroyed first, then `ns[i]`
      is shown and the rest of `ns` kept hidden. */
  function Replace(t: Tree, bs: seq<NodeId>, ns: seq<NodeId>, i: nat, s: State): (r: Tree)
    requires Shape(t) && (forall x :: x in bs + ns ==> x in t.info) && Apart(t.info, t.attached, bs + ns)
    requires ns != [] ==> i < |ns|
    ensures Shape(r) && Evolves(t, r)
  {
    var t1 := Removal(t, bs, ns);
    ApartSub(t.info, t.attached, bs + ns, ns);
    if ns == [] then t1
    else
      var r := Arrange(t1, ns, i, s);
      EvolvesTrans(t, t1, r);
      r
  }

  /** Screens that leave end up DESTROYED. */
  lemma ReplaceRemoves(t: Tree, bs: seq<NodeId>, ns: seq<NodeId>, i: nat, s: State)
    requires Shape(t) && (forall x :: x in bs + ns ==> x in t.info) && Apart(t.info, t.attached, bs + ns)
    requires ns != [] ==> i < |ns|
    ensures forall x :: x in bs && x !in ns ==> StateOf(Replace(t, bs, ns, i, s), x) == Destroyed
  {
    var t1 := Removal(t, bs, ns);
    var r := Replace(t, bs, ns, i, s);
    assert Evolves(t1, r) by {
      if ns == [] {
        EvolvesRefl(t1);
      }
    }
    forall x | x in bs && x !in ns
      ensures StateOf(r, x) == Destroyed
    {
      assert t1.life[x].state == Destroyed;
    }
  }

  /** The screens that stay: `ns[i]` follows `s`, the others go to
      `Hidden(s)`. */
  lemma ReplaceArranges(t: Tree, bs: seq<NodeId>, ns: seq<NodeId>, i: nat, s: State)
    requires Shape(t) && (forall x :: x in bs + ns ==> x in t.info) && Apart(t.info, t.attached, bs + ns)
    requires ns != [] ==> i < |ns|
    ensures ns != [] ==>
              var r := Replace(t, bs, ns, i, s);
              && StateOf(r, ns[i]) == After(StateOf(t, ns[i]), s)
              && forall x :: x in ns && x != ns[i] ==> StateOf(r, x) == After(StateOf(t, x), Hidden(s))
  {
    if ns != [] {
      var t1 := Removal(t, bs, ns);
      ApartSub(t.info, t.attached, bs + ns, ns);
      var r := Arrange(t1, ns, i, s);
      assert Replace(t, bs, ns, i, s) == r;
      assert t1.life[ns[i]] == t.life[ns[i]];
      forall x | x in ns && x != ns[i]
        ensures StateOf(r, x) == After(StateOf(t, x), Hidden(s))
      {
        assert t1.life[x] == t.life[x];
      }
    }
  }

  /** Nothing outside the screens' subtrees changes. */
  lemma ReplaceFrame(t: Tree, bs: seq<NodeId>, ns: seq<NodeId>, i: nat, s: State)
    requires Shape(t) && (forall x :: x in bs + ns ==> x in t.info) && Apart(t.info, t.attached, bs + ns)
    requires ns != [] ==> i < |ns|
    ensures SameOutsideAll(t, t.life, Replace(t, bs, ns, i, s).life, bs + ns)
  {
    if ns != [] {
      var t1 := Removal(t, bs, ns);
      var r := Replace(t, bs, ns, i, s);
      FrameCompose(t, t1, r.life, bs + ns, ns, bs + ns);
    }
  }

  /** The host `h` moves to `target` and the navigator, observing it,
      then shows `xs[i]` in the host's new state and keeps the other
      screens hidden. */
  function FollowHost(t: Tree, h: NodeId, xs: seq<NodeId>, i: nat, target: State): (r: Tree)
    requires Shape(t) && h in t.info && ScreensOf(t, h, xs) && (xs != [] ==> i < |xs|)
    ensures Shape(r) && Evolves(t, r)
  {
    var t1 := MoveNode(t, h, target);
    if xs == [] then t1
    else
      UnattachedChildrenAreScreens(t, h, xs);
      var r := Arrange(t1, xs, i, target);
      EvolvesTrans(t, t1, r);
      r
  }

  /** The host reaches `target`, unless it was destroyed. */
  lemma FollowHostHost(t: Tree, h: NodeId, xs: seq<NodeId>, i: nat, target: State)
    requires Shape(t) && h in t.info && ScreensOf(t, h, xs) && (xs != [] ==> i < |xs|)
    ensures StateOf(FollowHost(t, h, xs, i, target), h) == After(StateOf(t, h), target)
  {
    if xs != [] {
      UnattachedChildrenAreScreens(t, h, xs);
      var t1 := MoveNode(t, h, target);
      var r := Arrange(t1, xs, i, target);
      HostUntouched(t1, r.life, h, xs, xs);
    }
  }

  /** `xs[i]` follows the host to `target`; the other screens go to
      `Hidden(target)`. */
  lemma FollowHostScreens(t: Tree, h: NodeId, xs: seq<NodeId>, i: nat, target: State)
    requires Shape(t) && h in t.info && ScreensOf(t, h, xs) && i < |xs|
    ensures var r := FollowHost(t, h, xs, i, target);
            && StateOf(r, xs[i]) == After(StateOf(t, xs[i]), target)
            && forall x :: x in xs && x != xs[i] ==> StateOf(r, x) == After(StateOf(t, x), Hidden(target))
  {
    UnattachedChildrenAreScreens(t, h, xs);
    var t1 := MoveNode(t, h, target);
    forall x | x in xs
      ensures t1.life[x] == t.life[x]
    {
      assert !Under(t.info, t.attached, x, h);
    }
    var r := Arrange(t1, xs, i, target);
    assert FollowHost(t, h, xs, i, target) == r;
  }

  /** The screens of the host that are not among `xs` keep their states. */
  lemma FollowHostFrameAll(t: Tree, h: NodeId, xs: seq<NodeId>, i: nat, target: State, es: seq<NodeId>)
    requires Shape(t) && h in t.info && ScreensOf(t, h, xs) && (xs != [] ==> i < |xs|)
    requires ScreensOf(t, h, es)
    ensures forall e :: e in es && e !in xs ==> StateOf(FollowHost(t, h, xs, i, target), e) == StateOf(t, e)
  {
    forall e | e in es && e !in xs
      ensures StateOf(FollowHost(t, h, xs, i, target), e) == StateOf(t, e)
    {
      FollowHostFrame(t, h, xs, i, target, e);
    }
  }

  /** A screen of the host that is not among `xs` keeps its state. */
  lemma FollowHostFrame(t: Tree, h: NodeId, xs: seq<NodeId>, i: nat, target: State, e: NodeId)
    requires Shape(t) && h in t.info && ScreensOf(t, h, xs) && (xs != [] ==> i < |xs|)
    requires ScreenOf(t, h, e) && e !in xs
    ensures StateOf(FollowHost(t, h, xs, i, target), e) == StateOf(t, e)
  {
    var t1 := MoveNode(t, h, target);
    assert !Under(t.info, t.attached, e, h);
    assert t1.life[e] == t.life[e];
    if xs != [] {
      ScreensOfAll(t, h, xs, [e]);
      var r := Arrange(t1, xs, i, target);
      ScreenUntouched(t1, r.life, xs + [e], xs, e);
      assert FollowHost(t, h, xs, i, target) == r;
    }
  }

  // ---------------------------------------------------------------------
  // Screens created by the navigator

  /** The descriptions of the screens, in order. */
  function Descriptions(info: map<NodeId, Info>, xs: seq<NodeId>): (ds: seq<Description>)
    requires forall x :: x in xs ==> x in info
    ensures |ds| == |xs| && forall i :: 0 <= i < |xs| ==> ds[i] == info[xs[i]].description
  {
    if xs == [] then [] else [info[xs[0]].description] + Descriptions(info, xs[1..])
  }

  /** The children `CreateChildren` makes are screens of the host: new,
      distinct, CREATED, without attached children and with their state
      savers open. */
  lemma CreateChildrenScreens(t: Tree, h: NodeId, ds: seq<Description>)
    requires Wf(t) && h in t.info
    ensures var c := CreateChildren(t, h, ds);
            && ScreensOf(c.tree, h, c.nav)
            && forall x :: x in c.nav ==>
                 && x !in t.info && x in c.tree.attached && c.tree.attached[x] == []
                 && StateOf(c.tree, x) == Created && c.tree.info[x].tag in c.tree.store
  {
    var c := CreateChildren(t, h, ds);
    forall x | x in c.nav
      ensures ScreenOf(c.tree, h, x) && x !in t.info
      ensures x in c.tree.attached && c.tree.attached[x] == []
      ensures StateOf(c.tree, x) == Created && c.tree.info[x].tag in c.tree.store
    {
      var i :| 0 <= i < |c.nav| && c.nav[i] == x;
      NewScreenFacts(t, c.tree, h, ds[i], x);
    }
  }

  /** One new screen: it is not a node of the old tree, so in particular
      not attached to the host. */
  lemma NewScreenFacts(t: Tree, t1: Tree, h: NodeId, d: Description, x: NodeId)
    requires Wf(t) && h in t.info && x >= t.nextId
    requires NewScreen(t1, h, t.info[h].tag, d, x)
    requires h in t1.attached && t1.attached[h] == t.attached[h]
    ensures ScreenOf(t1, h, x) && x !in t.info
    ensures StateOf(t1, x) == Created
  {
    forall c | c in t.attached[h]
      ensures c != x
    {
      assert c in t.info;
    }
  }

  /** The children `CreateChildren` makes carry the given descriptions, in
      order. */
  lemma CreateChildrenDescribed(t: Tree, h: NodeId, ds: seq<Description>)
    requires Wf(t) && h in t.info
    ensures var c := CreateChildren(t, h, ds);
            && (forall x :: x in c.nav ==> x in c.tree.info)
            && Descriptions(c.tree.info, c.nav) == ds
  {
    var c := CreateChildren(t, h, ds);
    forall i | 0 <= i < |c.nav|
      ensures c.nav[i] in c.tree.info && c.tree.info[c.nav[i]].description == ds[i]
    {
      NewScreenDescription(c.tree, h, t.info[h].tag, ds[i], c.nav[i]);
    }
    forall x | x in c.nav
      ensures x in c.tree.info
    {
      var i :| 0 <= i < |c.nav| && c.nav[i] == x;
    }
  }

  lemma NewScreenDescription(r: Tree, h: NodeId, htag: Tag, d: Description, c: NodeId)
    requires NewScreen(r, h, htag, d, c)
    ensures c in r.info && r.info[c].description == d
  {
  }

  /** Arranging new screens under a live host destroys nothing, so every
      screen keeps its state saver. */
  lemma SpawnedSurvive(t: Tree, r: Tree, h: NodeId, xs: seq<NodeId>)
    requires Shape(t) && Evolves(t, r)
    requires forall x :: x in xs ==> x in t.attached && t.attached[x] == [] && x in t.info && t.info[x].tag in t.store
    requires forall x :: x in xs ==> StateOf(r, x) != Destroyed
    requires SameOutsideAll(t, t.life, r.life, xs)
    ensures forall x :: x in xs ==> r.info[x].tag in r.store
  {
    forall n | n in t.life && r.life[n].state == Destroyed
      ensures t.life[n].state == Destroyed
    {
      UnderAnyMember(t.info, t.attached, n, xs);
      if UnderAny(t.info, t.attached, n, xs) {
        var j :| j in xs && Under(t.info, t.attached, n, j);
        NothingAttachedBelow(t.info, t.attached, n, j);
      }
    }
    NoneDied(t, r);
  }

  /** A screen list holds screens whenever a larger one does. */
  lemma ScreensSub(t: Tree, h: NodeId, xs: seq<NodeId>, ys: seq<NodeId>)
    requires Screens(t, h, xs) && forall y :: y in ys ==> y in xs
    ensures Screens(t, h, ys)
  {
  }

  /** `x` is a screen the host `h` made with `Child`: a child of `h` that
      is not attached to it. */
  ghost predicate ScreenOf(t: Tree, h: NodeId, x: NodeId)
  {
    x in t.info && t.info[x].parent == Some(h) && h in t.attached && x !in t.attached[h]
  }

  /** Every one of `xs` is a screen of `h`. */
  ghost predicate ScreensOf(t: Tree, h: NodeId, xs: seq<NodeId>)
  {
    forall x :: x in xs ==> ScreenOf(t, h, x)
  }

  /** Two lists of screens of `h`, taken together, are independent screens. */
  lemma ScreensOfAll(t: Tree, h: NodeId, bs: seq<NodeId>, ns: seq<NodeId>)
    requires Shape(t) && h in t.info && ScreensOf(t, h, bs) && ScreensOf(t, h, ns)
    ensures forall x :: x in bs + ns ==> x in t.info
    ensures Apart(t.info, t.attached, bs + ns) && Screens(t, h, bs + ns)
  {
    UnattachedChildrenAreScreens(t, h, bs + ns);
  }

  /** Children of the host that are not attached to it are screens. */
  lemma UnattachedChildrenAreScreens(t: Tree, h: NodeId, xs: seq<NodeId>)
    requires Shape(t) && h in t.info
    requires forall x :: x in xs ==> x in t.info && t.info[x].parent == Some(h) && x !in t.attached[h]
    ensures Screens(t, h, xs)
  {
    forall a, b | a in xs && b in xs && a != b
      ensures !Under(t.info, t.attached, a, b)
    {
      SiblingsApart(t, a, b);
    }
    forall x | x in xs
      ensures !Under(t.info, t.attached, x, h) && !Under(t.info, t.attached, h, x)
    {
      ParentOutsideChild(t, h, x);
    }
  }

  /** A node without attached children has nothing under it but itself. */
  lemma {:induction false} NothingAttachedBelow(info: map<NodeId, Info>, attached: map<NodeId, seq<NodeId>>, n: NodeId, x: NodeId)
    requires x in attached && attached[x] == [] && Under(info, attached, n, x)
    ensures n == x
    decreases n
  {
    if n != x {
      var p := info[n].parent.value;
      NothingAttachedBelow(info, attached, p, x);
    }
  }

  /** When nothing died, the store is as it was. */
  lemma NoneDied(t: Tree, r: Tree)
    requires Evolves(t, r)
    requires forall n :: n in t.life && r.life[n].state == Destroyed ==> t.life[n].state == Destroyed
    ensures r.store == t.store
  {
    assert DiedTags(t, r) == {};
  }

  /** `Child(d)` for each description in turn: the new screens are
      numbered from `t.nextId` on, CREATED, unattached children of `h`. */
  function CreateChildren(t: Tree, h: NodeId, ds: seq<Description>): (r: Navigated<seq<NodeId>>)
    requires Wf(t) && h in t.info
    ensures Wf(r.tree) && h in r.tree.info && r.tree.nextId == t.nextId + |ds|
    ensures |r.nav| == |ds| && NoDup(r.nav)
    ensures forall i :: 0 <= i < |ds| ==> r.nav[i] == t.nextId + i && NewScreen(r.tree, h, t.info[h].tag, ds[i], r.nav[i])
    ensures forall n :: n in t.info ==> n in r.tree.info && r.tree.info[n] == t.info[n] && r.tree.life[n] == t.life[n]
    ensures forall n :: n in t.info ==> r.tree.attached[n] == t.attached[n]
    ensures t.store.Keys <= r.tree.store.Keys
    decreases |ds|
  {
    if ds == [] then Navigated(t, [])
    else
      var t1 := Child(t, h, ds[0]);
      var rest := CreateChildren(t1, h, ds[1..]);
      CreatedFirst(t, h, ds[0], t1, rest.tree);
      ShiftScreens(rest.tree, h, t.info[h].tag, ds, rest.nav, t.nextId);
      NoDupCons(t.nextId, rest.nav);
      Navigated(rest.tree, [t.nextId] + rest.nav)
  }

  /** The first new screen in front of the others. */
  lemma ShiftScreens(r: Tree, h: NodeId, htag: Tag, ds: seq<Description>, nav: seq<NodeId>, c0: NodeId)
    requires |ds| == |nav| + 1 && NewScreen(r, h, htag, ds[0], c0)
    requires forall i :: 0 <= i < |ds[1..]| ==> nav[i] == c0 + 1 + i && NewScreen(r, h, htag, ds[1..][i], nav[i])
    ensures forall i :: 0 <= i < |ds| ==> ([c0] + nav)[i] == c0 + i && NewScreen(r, h, htag, ds[i], ([c0] + nav)[i])
  {
    var ids := [c0] + nav;
    forall i | 0 <= i < |ds|
      ensures ids[i] == c0 + i && NewScreen(r, h, htag, ds[i], ids[i])
    {
      if i > 0 {
        assert ds[1..][i - 1] == ds[i] && ids[i] == nav[i - 1];
      }
    }
  }

  /** The first screen created keeps its record while the others are
      created. */
  lemma CreatedFirst(t: Tree, h: NodeId, d: Description, t1: Tree, r: Tree)
    requires Wf(t) && h in t.info && t1 == Child(t, h, d)
    requires forall n :: n in t1.info ==> n in r.info && n in r.life && r.info[n] == t1.info[n] && r.life[n] == t1.life[n]
    requires forall n :: n in t1.info ==> n in r.attached && r.attached[n] == t1.attached[n]
    requires t1.store.Keys <= r.store.Keys
    ensures NewScreen(r, h, t.info[h].tag, d, t.nextId)
  {
  }

  /** `c` was created by `Child(d)` on `h`, whose tag is `htag`, and is
      still CREATED and without attached children. */
  ghost predicate NewScreen(r: Tree, h: NodeId, htag: Tag, d: Description, c: NodeId)
  {
    && c in r.info && c in r.life && c in r.attached
    && r.info[c] == Info(d, ChildTag(htag, d.key), Some(h))
    && r.life[c] == Life(Created, false) && r.attached[c] == []
    && ChildTag(htag, d.key) in r.store
  }
}
