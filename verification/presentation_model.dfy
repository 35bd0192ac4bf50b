/** The tree of presentation models.

    A node's immutable part (description, tag, parent) is kept apart from
    its mutable part (lifecycle state and foreground flag) and from the list
    of attached children, so that lifecycle propagation visibly leaves the
    tree's shape alone. Node ids are handed out in creation order, so a
    child's id is always larger than its parent's; propagation recurses on
    that.

    `allChildren` is not stored: a node is added to its parent's list when
    it is created and removed when it reaches DESTROYED, which it never
    leaves, so the list is always the parent's live children in creation
    order. `AllChildren` computes exactly that, and `ChildAppends` and
    `DestroyRemoves` prove it changes the way the two list updates do. */
module PresentationModel {
  import opened Common
  import opened Lifecycle
  import opened StateStore

  type NodeId = nat

  /** What a node is: fixed when the factory creates it. */
  datatype Info = Info(description: Description, tag: Tag, parent: Option<NodeId>)

  /** A node's lifecycle state and whether its foreground scope exists
      (`inForegroundScope != null`). */
  datatype Life = Life(state: State, inForeground: bool)

  datatype Tree = Tree(
    info: map<NodeId, Info>,
    life: map<NodeId, Life>,
    attached: map<NodeId, seq<NodeId>>,  // attachedChildren
    store: Store,
    nextId: NodeId)

  /** The foreground flag agrees with the state. */
  predicate FgOk(l: Life)
  {
    l.inForeground <==> l.state == InForeground
  }

  /** Nodes are numbered below `nextId` and every parent was created before
      its children. */
  ghost predicate Ordered(info: map<NodeId, Info>, nextId: NodeId)
  {
    && (forall n :: n in info ==> n < nextId)
    && (forall n :: n in info && info[n].parent.Some? ==> info[n].parent.value < n)
  }

  /** Every attached list holds only children of its owner. */
  ghost predicate ChildLists(info: map<NodeId, Info>, lists: map<NodeId, seq<NodeId>>)
  {
    forall n, c :: n in lists && c in lists[n] ==> c in info && info[c].parent == Some(n)
  }

  /** Structural well-formedness: every map covers the same nodes, parents
      were created before their children, and attached lists only hold
      children of their owner. */
  ghost predicate Shape(t: Tree)
  {
    && t.life.Keys == t.info.Keys
    && t.attached.Keys == t.info.Keys
    && Ordered(t.info, t.nextId)
    && ChildLists(t.info, t.attached)
  }

  /** Every node's foreground flag agrees with its state. */
  ghost predicate FgConsistent(t: Tree)
  {
    forall n {:trigger t.life[n]} :: n in t.life ==> FgOk(t.life[n])
  }

  /** The tree invariant every operation keeps. */
  ghost predicate Wf(t: Tree)
  {
    Shape(t) && FgConsistent(t)
  }

  /** `c` is a child of `p` that has not been destroyed. */
  predicate IsLiveChild(t: Tree, c: NodeId, p: NodeId)
  {
    c in t.info && c in t.life && t.info[c].parent == Some(p) && t.life[c].state != Destroyed
  }

  /** The live children of `p` numbered below `k`, in creation order. */
  function LiveChildrenBelow(t: Tree, p: NodeId, k: nat): (cs: seq<NodeId>)
    ensures forall c: NodeId :: c in cs <==> c < k && IsLiveChild(t, c, p)
    ensures forall i, j :: 0 <= i < j < |cs| ==> cs[i] < cs[j]
    decreases k
  {
    if k == 0 then []
    else
      var below := LiveChildrenBelow(t, p, k - 1);
      assert forall i :: 0 <= i < |below| ==> below[i] < k - 1 by {
        forall i | 0 <= i < |below| ensures below[i] < k - 1 {
          assert below[i] in below;
        }
      }
      below + (if IsLiveChild(t, k - 1, p) then [k - 1] else [])
  }

  /** `allChildren` of `p`: its live children in creation order. */
  function AllChildren(t: Tree, p: NodeId): (cs: seq<NodeId>)
    requires Shape(t)
    ensures forall c: NodeId :: c in cs <==> IsLiveChild(t, c, p)
    ensures NoDup(cs)
  {
    LiveChildrenBelow(t, p, t.nextId)
  }

  /** `n` is `x` or hangs below `x` by a chain of attachments: exactly the
      nodes a lifecycle change of `x` can reach. */
  ghost predicate Under(info: map<NodeId, Info>, attached: map<NodeId, seq<NodeId>>, n: NodeId, x: NodeId)
    decreases n
  {
    || n == x
    || (&& n in info && info[n].parent.Some?
        && var p := info[n].parent.value;
        && p < n && p in attached && n in attached[p]
        && Under(info, attached, p, x))
  }

  /** `n` is under one of `xs`. */
  ghost predicate UnderAny(info: map<NodeId, Info>, attached: map<NodeId, seq<NodeId>>, n: NodeId, xs: seq<NodeId>)
    decreases |xs|
  {
    xs != [] && (Under(info, attached, n, xs[0]) || UnderAny(info, attached, n, xs[1..]))
  }

  lemma {:induction false} UnderAnyMember(info: map<NodeId, Info>, attached: map<NodeId, seq<NodeId>>, n: NodeId, xs: seq<NodeId>)
    ensures UnderAny(info, attached, n, xs) <==> exists j :: j in xs && Under(info, attached, n, j)
    decreases |xs|
  {
    if xs != [] {
      UnderAnyMember(info, attached, n, xs[1..]);
      if Under(info, attached, n, xs[0]) {
        assert xs[0] in xs;
      } else {
        forall j | j in xs && Under(info, attached, n, j)
          ensures j in xs[1..]
        {
          assert j != xs[0];
        }
      }
    }
  }

  /** A node is never under a node created after it. */
  lemma {:induction false} UnderOrder(info: map<NodeId, Info>, attached: map<NodeId, seq<NodeId>>, n: NodeId, x: NodeId)
    requires Under(info, attached, n, x)
    ensures x <= n
    decreases n
  {
    if n != x {
      UnderOrder(info, attached, info[n].parent.value, x);
    }
  }

  /** Whatever is under an attached child of `x` is under `x`. */
  lemma {:induction false} UnderAttached(t: Tree, n: NodeId, k: NodeId, x: NodeId)
    requires Shape(t) && x in t.info && k in t.attached[x]
    requires Under(t.info, t.attached, n, k)
    ensures Under(t.info, t.attached, n, x) && n != x
    decreases n
  {
    if n == k {
    } else {
      var p := t.info[n].parent.value;
      UnderAttached(t, p, k, x);
      UnderOrder(t.info, t.attached, p, x);
    }
  }

  /** A parent is never under its child. */
  lemma ParentOutsideChild(t: Tree, p: NodeId, c: NodeId)
    requires Shape(t) && c in t.info && t.info[c].parent == Some(p)
    ensures !Under(t.info, t.attached, p, c)
  {
    if Under(t.info, t.attached, p, c) {
      UnderOrder(t.info, t.attached, p, c);
    }
  }

  /** Two different children of one node are never under each other. */
  lemma SiblingsApart(t: Tree, a: NodeId, b: NodeId)
    requires Shape(t) && a in t.info && b in t.info && a != b
    requires t.info[a].parent.Some? && t.info[a].parent == t.info[b].parent
    ensures !Under(t.info, t.attached, a, b)
  {
    if Under(t.info, t.attached, a, b) {
      var p := t.info[a].parent.value;
      UnderOrder(t.info, t.attached, p, b);
      assert false;
    }
  }

  /** Outside `x`'s attachment subtree, `life2` agrees with `life1`. */
  ghost predicate SameOutside(t: Tree, life1: map<NodeId, Life>, life2: map<NodeId, Life>, x: NodeId)
  {
    forall n {:trigger Under(t.info, t.attached, n, x)} :: n in t.info && n in life1 && n in life2 && !Under(t.info, t.attached, n, x) ==>
      life2[n] == life1[n]
  }

  /** Outside the attachment subtrees of all of `xs`, `life2` agrees with `life1`. */
  ghost predicate SameOutsideAll(t: Tree, life1: map<NodeId, Life>, life2: map<NodeId, Life>, xs: seq<NodeId>)
  {
    forall n {:trigger UnderAny(t.info, t.attached, n, xs)} :: n in t.info && n in life1 && n in life2 && !UnderAny(t.info, t.attached, n, xs) ==>
      life2[n] == life1[n]
  }

  /** The lifecycle state of node `x`; a node the tree does not hold
      counts as DESTROYED. */
  function StateOf(t: Tree, x: NodeId): (s: State)
    ensures x in t.life ==> s == t.life[x].state
  {
    if x in t.life then t.life[x].state else Destroyed
  }

  /** `n` was alive in `t` and is DESTROYED in `r`. */
  ghost predicate Died(t: Tree, r: Tree, n: NodeId)
  {
    n in t.life && n in r.life && t.life[n].state != Destroyed && r.life[n].state == Destroyed
  }

  /** The tags of the nodes that died between `t` and `r`. */
  ghost function DiedTags(t: Tree, r: Tree): set<Tag>
  {
    set n | n in t.info && Died(t, r, n) :: t.info[n].tag
  }

  /** What lifecycle propagation may do to a tree: the nodes and the
      attachments stay; DESTROYED nodes stay as they are; foreground flags
      stay consistent; a store entry disappears exactly when a node with
      that tag dies. */
  ghost predicate Evolves(t: Tree, r: Tree)
  {
    && r.info == t.info && r.attached == t.attached && r.nextId == t.nextId
    && r.life.Keys == t.life.Keys
    && (forall n {:trigger r.life[n]} :: n in t.life && t.life[n].state == Destroyed ==> r.life[n] == t.life[n])
    && (forall n {:trigger r.life[n]} :: n in t.life && FgOk(t.life[n]) ==> FgOk(r.life[n]))
    && r.store == t.store - DiedTags(t, r)
  }

  lemma EvolvesRefl(t: Tree)
    ensures Evolves(t, t)
  {
    assert DiedTags(t, t) == {};
  }

  lemma EvolvesTrans(t1: Tree, t2: Tree, t3: Tree)
    requires Evolves(t1, t2) && Evolves(t2, t3)
    ensures Evolves(t1, t3)
  {
    forall n | n in t1.life
      ensures Died(t1, t3, n) <==> Died(t1, t2, n) || Died(t2, t3, n)
    {
    }
    assert DiedTags(t1, t3) == DiedTags(t1, t2) + DiedTags(t2, t3);
  }

  /** Propagation keeps the tree invariant. */
  lemma EvolvesWf(t: Tree, r: Tree)
    requires Wf(t) && Evolves(t, r)
    ensures Wf(r)
  {
    forall n | n in r.life
      ensures FgOk(r.life[n])
    {
      assert FgOk(t.life[n]);
    }
  }

  /** A node that died has no store entry left. */
  lemma DiedLosesEntry(t: Tree, r: Tree, n: NodeId)
    requires Evolves(t, r) && n in t.info
    ensures Died(t, r, n) ==> t.info[n].tag !in r.store
  {
    if Died(t, r, n) {
      assert t.info[n].tag in DiedTags(t, r);
    }
  }

  // ---------------------------------------------------------------------
  // Lifecycle propagation. `MoveNode` is `lifecycle.moveTo`; the observer
  // each node registers on its own lifecycle is `Notify`: update the
  // state, move every attached child to it, then handle the scope.

  /** `x.lifecycle.moveTo(target)`. */
  function MoveNode(t: Tree, x: NodeId, target: State): (r: Tree)
    requires Shape(t) && x in t.info
    ensures Shape(r) && Evolves(t, r)
    ensures r.life[x].state == After(t.life[x].state, target)
    ensures t.life[x].state != Destroyed && t.life[x].state != target ==>
              forall k :: k in t.attached[x] ==> StateOf(r, k) == After(StateOf(t, k), target)
    ensures SameOutside(t, t.life, r.life, x)
    ensures t.life[x].state == target || t.life[x].state == Destroyed ==> r == t
    decreases t.nextId - x, 3, 0
  {
    var ss := Notifications(t.life[x].state, target);
    var r := NotifySeq(t, x, ss);
    assert ss != [] ==> Last(ss) == target;
    r
  }

  /** Delivers a legal path of notifications to the node's own observer. */
  function NotifySeq(t: Tree, x: NodeId, ss: seq<State>): (r: Tree)
    requires Shape(t) && x in t.info && Chain(t.life[x].state, ss)
    ensures Shape(r) && Evolves(t, r)
    ensures r.life[x].state == EndOf(t.life[x].state, ss)
    ensures ss != [] ==>
              forall k :: k in t.attached[x] ==> StateOf(r, k) == After(StateOf(t, k), Last(ss))
    ensures SameOutside(t, t.life, r.life, x)
    ensures ss == [] ==> r == t
    decreases t.nextId - x, 2, |ss|
  {
    if ss == [] then
      EvolvesRefl(t);
      t
    else
      var t1 := Notify(t, x, ss[0]);
      assert Chain(ss[0], ss[1..]);
      var r := NotifySeq(t1, x, ss[1..]);
      NotifySeqStep(t, t1, r, x, ss);
      r
  }

  lemma NotifySeqStep(t: Tree, t1: Tree, r: Tree, x: NodeId, ss: seq<State>)
    requires Shape(t) && x in t.info && ss != []
    requires Evolves(t, t1) && Evolves(t1, r)
    requires StateOf(t1, x) == ss[0]
    requires forall k :: k in t.attached[x] ==> StateOf(t1, k) == After(StateOf(t, k), ss[0])
    requires StateOf(r, x) == EndOf(ss[0], ss[1..])
    requires ss[1..] != [] ==>
               forall k :: k in t1.attached[x] ==> StateOf(r, k) == After(StateOf(t1, k), Last(ss[1..]))
    requires ss[1..] == [] ==> r == t1
    ensures Evolves(t, r)
    ensures StateOf(r, x) == Last(ss)
    ensures forall k :: k in t.attached[x] ==> StateOf(r, k) == After(StateOf(t, k), Last(ss))
  {
    EvolvesTrans(t, t1, r);
  }

  /** The node's own lifecycle observer, called with the new state `s`
      after the state has been updated. */
  function Notify(t: Tree, x: NodeId, s: State): (r: Tree)
    requires Shape(t) && x in t.info && Step(t.life[x].state, s)
    ensures Shape(r) && Evolves(t, r)
    ensures r.life[x].state == s
    ensures s != Destroyed ==> r.life[x].inForeground == (s == InForeground)
    ensures forall k :: k in t.attached[x] ==> StateOf(r, k) == After(StateOf(t, k), s)
    ensures SameOutside(t, t.life, r.life, x)
    decreases t.nextId - x, 1, 0
  {
    var t1 := t.(life := t.life[x := t.life[x].(state := s)]);
    assert Shape(t1);
    var t2 := PropagateList(t1, x, t1.attached[x], s);
    NotifyChildren(t, x, s, t1, t2);
    NotifyEvolves(t, t1, t2, x, s);
    Scope(t2, x, s)
  }

  /** The first half of the observer: once the node's own state is set and
      the attached children have followed it, the node keeps its new state
      and nothing outside its subtree has changed. */
  lemma NotifyChildren(t: Tree, x: NodeId, s: State, t1: Tree, t2: Tree)
    requires Shape(t) && x in t.info
    requires t1 == t.(life := t.life[x := t.life[x].(state := s)])
    requires Shape(t2) && Evolves(t1, t2)
    requires forall k :: k in t1.attached[x] ==> StateOf(t2, k) == After(StateOf(t1, k), s)
    requires SameOutsideAll(t1, t1.life, t2.life, t1.attached[x])
    ensures x !in t.attached[x] && t2.life[x] == t1.life[x]
    ensures forall k :: k in t.attached[x] ==> StateOf(t2, k) == After(StateOf(t, k), s)
    ensures SameOutside(t, t.life, t2.life, x)
  {
    NotUnderOwnChildren(t, x);
    NotifyFrame(t, t1.life, t2.life, x);
  }

  /** The scope handling at the end of the observer: IN_FOREGROUND opens
      the foreground scope, CREATED closes it, DESTROYED deletes the
      node's saved state. */
  function Scope(t: Tree, x: NodeId, s: State): (r: Tree)
    requires x in t.info && x in t.life
    ensures r.info == t.info && r.attached == t.attached && r.nextId == t.nextId
    ensures r.life.Keys == t.life.Keys && r.life[x].state == t.life[x].state
    ensures forall n :: n in t.life && n != x ==> r.life[n] == t.life[n]
    ensures s != Destroyed ==> r.life[x].inForeground == (s == InForeground)
    ensures s == Destroyed ==> r.store == DeleteSaver(t.store, t.info[x].tag)
    ensures s != Destroyed ==> r.store == t.store
  {
    match s
    case InForeground => t.(life := t.life[x := t.life[x].(inForeground := true)])
    case Created => t.(life := t.life[x := t.life[x].(inForeground := false)])
    case Destroyed => t.(store := DeleteSaver(t.store, t.info[x].tag))
  }

  /** A node is not under any of its own attached children. */
  lemma NotUnderOwnChildren(t: Tree, x: NodeId)
    requires Shape(t) && x in t.info
    ensures !UnderAny(t.info, t.attached, x, t.attached[x])
  {
    if UnderAny(t.info, t.attached, x, t.attached[x]) {
      UnderAnyMember(t.info, t.attached, x, t.attached[x]);
      var k :| k in t.attached[x] && Under(t.info, t.attached, x, k);
      assert t.info[k].parent == Some(x);
      UnderOrder(t.info, t.attached, x, k);
      assert false;
    }
  }

  /** A node outside `x`'s subtree is outside the subtrees of its children. */
  lemma NotifyFrame(t: Tree, life1: map<NodeId, Life>, life2: map<NodeId, Life>, x: NodeId)
    requires Shape(t) && x in t.info
    requires SameOutsideAll(t, life1, life2, t.attached[x])
    ensures SameOutside(t, life1, life2, x)
  {
    forall n | n in t.info && n in life1 && n in life2 && !Under(t.info, t.attached, n, x)
      ensures life2[n] == life1[n]
    {
      if UnderAny(t.info, t.attached, n, t.attached[x]) {
        UnderAnyMember(t.info, t.attached, n, t.attached[x]);
        var k :| k in t.attached[x] && Under(t.info, t.attached, n, k);
        UnderAttached(t, n, k, x);
        assert false;
      }
    }
  }

  lemma NotifyEvolves(t: Tree, t1: Tree, t2: Tree, x: NodeId, s: State)
    requires x in t.info && x in t.life && Step(t.life[x].state, s)
    requires t1 == t.(life := t.life[x := t.life[x].(state := s)])
    requires Evolves(t1, t2) && t2.life[x] == t1.life[x]
    ensures Evolves(t, Scope(t2, x, s))
  {
    var r := Scope(t2, x, s);
    forall n | n in t.life
      ensures Died(t, r, n) <==> Died(t1, t2, n) || (n == x && s == Destroyed)
    {
    }
    if s == Destroyed {
      assert DiedTags(t, r) == DiedTags(t1, t2) + {t.info[x].tag};
    } else {
      assert DiedTags(t, r) == DiedTags(t1, t2);
    }
  }

  /** `kids` are all children of `x`. */
  ghost predicate ChildrenOf(t: Tree, kids: seq<NodeId>, x: NodeId)
  {
    forall k :: k in kids ==> k in t.info && t.info[k].parent == Some(x)
  }

  /** `kids.forEach { it.lifecycle.moveTo(s) }` over children of `x`: the
      attached children when `x` is notified, or the screens a navigator
      hosted by `x` moves. */
  function PropagateList(t: Tree, x: NodeId, kids: seq<NodeId>, s: State): (r: Tree)
    requires Shape(t) && x in t.info && ChildrenOf(t, kids, x)
    ensures Shape(r) && Evolves(t, r)
    ensures forall k :: k in kids ==> StateOf(r, k) == After(StateOf(t, k), s)
    ensures SameOutsideAll(t, t.life, r.life, kids)
    decreases t.nextId - x, 0, |kids|
  {
    if kids == [] then
      EvolvesRefl(t);
      t
    else
      var k := kids[0];
      assert k in kids;
      var t1 := MoveNode(t, k, s);
      var r := PropagateList(t1, x, kids[1..], s);
      EvolvesTrans(t, t1, r);
      PropagateKids(t, t1.life, r.life, x, kids, s);
      PropagateFrame(t, t1.life, r.life, kids);
      r
  }

  /** Outside all the children's subtrees, neither step changed anything. */
  lemma PropagateFrame(t: Tree, life1: map<NodeId, Life>, life2: map<NodeId, Life>, kids: seq<NodeId>)
    requires kids != [] && t.life.Keys == life1.Keys
    requires SameOutside(t, t.life, life1, kids[0])
    requires SameOutsideAll(t, life1, life2, kids[1..])
    ensures SameOutsideAll(t, t.life, life2, kids)
  {
    forall n | n in t.info && n in t.life && n in life2 && !UnderAny(t.info, t.attached, n, kids)
      ensures life2[n] == t.life[n]
    {
      assert !Under(t.info, t.attached, n, kids[0]) && !UnderAny(t.info, t.attached, n, kids[1..]);
      assert life1[n] == t.life[n];
    }
  }

  /** Moving the first child and then the others leaves every child in
      `After(its state, s)`: siblings are never under each other, and a
      repeated child is moved again without effect. */
  lemma PropagateKids(t: Tree, life1: map<NodeId, Life>, life2: map<NodeId, Life>, x: NodeId, kids: seq<NodeId>, s: State)
    requires Shape(t) && x in t.info && kids != []
    requires t.life.Keys == life1.Keys && t.life.Keys == life2.Keys
    requires ChildrenOf(t, kids, x)
    requires life1[kids[0]].state == After(t.life[kids[0]].state, s)
    requires SameOutside(t, t.life, life1, kids[0])
    requires forall k :: k in kids[1..] ==> life2[k].state == After(life1[k].state, s)
    requires SameOutsideAll(t, life1, life2, kids[1..])
    ensures forall k :: k in kids ==> life2[k].state == After(t.life[k].state, s)
  {
    var k0 := kids[0];
    forall k | k in kids
      ensures life2[k].state == After(t.life[k].state, s)
    {
      assert t.info[k].parent == Some(x);
      if k in kids[1..] {
        if k != k0 {
          assert t.info[k0].parent == Some(x);
          SiblingsApart(t, k, k0);
          assert life1[k] == t.life[k];
        }
      } else {
        assert k == k0;
        if UnderAny(t.info, t.attached, k0, kids[1..]) {
          UnderAnyMember(t.info, t.attached, k0, kids[1..]);
          var j :| j in kids[1..] && Under(t.info, t.attached, k0, j);
          assert t.info[j].parent == Some(x);
          SiblingsApart(t, k0, j);
          assert false;
        }
        assert life2[k0] == life1[k0];
      }
    }
  }

  // ---------------------------------------------------------------------
  // `allChildren`: the derived list changes the way the source updates it.

  /** The live children below `k` only depend on the nodes below `k`. */
  lemma {:induction false} LiveChildrenBelowSame(t: Tree, r: Tree, p: NodeId, k: nat)
    requires forall c: NodeId :: c < k ==> (IsLiveChild(t, c, p) <==> IsLiveChild(r, c, p))
    ensures LiveChildrenBelow(r, p, k) == LiveChildrenBelow(t, p, k)
    decreases k
  {
    if k > 0 {
      LiveChildrenBelowSame(t, r, p, k - 1);
    }
  }

  /** When only `x` stops being a live child, the list loses `x`. */
  lemma {:induction false} LiveChildrenBelowRemove(t: Tree, r: Tree, p: NodeId, x: NodeId, k: nat)
    requires forall c: NodeId :: c < k && c != x ==> (IsLiveChild(t, c, p) <==> IsLiveChild(r, c, p))
    requires !IsLiveChild(r, x, p)
    ensures LiveChildrenBelow(r, p, k) == RemoveFirst(LiveChildrenBelow(t, p, k), x)
    decreases k
  {
    if k > 0 {
      var y: NodeId := k - 1;
      var a := LiveChildrenBelow(t, p, y);
      var b := LiveChildrenBelow(r, p, y);
      var e := if IsLiveChild(t, y, p) then [y] else [];
      var f := if IsLiveChild(r, y, p) then [y] else [];
      assert LiveChildrenBelow(t, p, k) == a + e;
      assert LiveChildrenBelow(r, p, k) == b + f;
      assert y != x ==> e == f;
      LiveChildrenBelowRemove(t, r, p, x, y);
      RemoveFirstAppend(a, y, x);
      if e == [] {
        assert a + e == a && b + f == b;
      } else if y == x {
        assert x !in a;
      }
    }
  }

  /** `parent?.removeChild(this)` on DESTROYED: moving a child to
      DESTROYED removes exactly that child from its parent's
      `allChildren`. */
  lemma DestroyRemoves(t: Tree, x: NodeId, p: NodeId)
    requires Shape(t) && x in t.info && t.info[x].parent == Some(p)
    ensures AllChildren(MoveNode(t, x, Destroyed), p) == RemoveFirst(AllChildren(t, p), x)
  {
    var r := MoveNode(t, x, Destroyed);
    forall c: NodeId | c < t.nextId && c != x
      ensures IsLiveChild(t, c, p) <==> IsLiveChild(r, c, p)
    {
      if c in t.info && t.info[c].parent == Some(p) {
        SiblingsApart(t, c, x);
      }
    }
    LiveChildrenBelowRemove(t, r, p, x, t.nextId);
  }

  /** Moving a node never changes the `allChildren` of a node outside its
      subtree's parents: only the live children that died drop out. */
  lemma AllChildrenEvolve(t: Tree, r: Tree, p: NodeId)
    requires Shape(t) && Shape(r) && Evolves(t, r)
    ensures forall c: NodeId :: c in AllChildren(r, p) <==> c in AllChildren(t, p) && !Died(t, r, c)
  {
  }

  // ---------------------------------------------------------------------
  // Creating nodes.

  /** A tree with no nodes yet, over a store that may hold saved state. */
  function Empty(store: Store): (t: Tree)
    ensures Wf(t) && t.info == map[] && t.store == store
  {
    Tree(map[], map[], map[], store, 0)
  }

  /** The tag of a node: the parent's tag, a slash and the key for a
      child; the bare key for a root. */
  function TagFor(t: Tree, parent: Option<NodeId>, d: Description): (tag: Tag)
    requires parent.Some? ==> parent.value in t.info
    ensures parent.None? ==> tag == d.key
    ensures parent.Some? ==>
              var pt := t.info[parent.value].tag;
              |tag| == |pt| + 1 + |d.key| && tag[..|pt|] == pt && tag[|pt|] == '/' && tag[|pt| + 1..] == d.key
  {
    match parent
    case None => d.key
    case Some(p) => ChildTag(t.info[p].tag, d.key)
  }

  /** The factory creating a node numbered `t.nextId`: it starts CREATED
      without a foreground scope and without attached children, and its
      state saver opens the entry for its tag. */
  function CreateNode(t: Tree, parent: Option<NodeId>, d: Description): (r: Tree)
    requires Wf(t) && (parent.Some? ==> parent.value in t.info)
    ensures Wf(r) && r.nextId == t.nextId + 1 && t.nextId !in t.info
    ensures r.info == t.info[t.nextId := Info(d, TagFor(t, parent, d), parent)]
    ensures r.life == t.life[t.nextId := Life(Created, false)]
    ensures r.attached == t.attached[t.nextId := []]
    ensures r.store == CreateSaver(t.store, TagFor(t, parent, d))
  {
    var c := t.nextId;
    Tree(t.info[c := Info(d, TagFor(t, parent, d), parent)],
         t.life[c := Life(Created, false)],
         t.attached[c := []],
         CreateSaver(t.store, TagFor(t, parent, d)),
         c + 1)
  }

  /** A root presentation model. */
  function NewRoot(t: Tree, d: Description): (r: Tree)
    requires Wf(t)
    ensures Wf(r)
    ensures t.nextId in r.info && r.info[t.nextId] == Info(d, d.key, None)
    ensures r.life[t.nextId] == Life(Created, false)
    ensures d.key in r.store && r.store[d.key] == EntryOf(t.store, d.key)
  {
    CreateNode(t, None, d)
  }

  /** `Child(description)`: a new node under `p`, CREATED and not attached;
      every existing node keeps its record and its lifecycle. */
  function Child(t: Tree, p: NodeId, d: Description): (r: Tree)
    requires Wf(t) && p in t.info
    ensures Wf(r) && t.nextId in r.info && t.nextId !in t.info
    ensures r.info[t.nextId] == Info(d, ChildTag(t.info[p].tag, d.key), Some(p))
    ensures r.life[t.nextId] == Life(Created, false)
    ensures forall n :: n in t.info ==> n in r.info && r.info[n] == t.info[n] && r.life[n] == t.life[n]
    ensures forall n :: n in t.info ==> r.attached[n] == t.attached[n]
    ensures r.attached[t.nextId] == [] && r.nextId == t.nextId + 1
    ensures t.store.Keys <= r.store.Keys
    ensures ChildTag(t.info[p].tag, d.key) in r.store
    ensures r.store[ChildTag(t.info[p].tag, d.key)] == EntryOf(t.store, ChildTag(t.info[p].tag, d.key))
  {
    CreateNode(t, Some(p), d)
  }

  /** `allChildren.add(childPm)`: the new child is appended to its parent's
      `allChildren` and every other list is unchanged. */
  lemma ChildAppends(t: Tree, p: NodeId, d: Description, q: NodeId)
    requires Wf(t) && p in t.info
    ensures AllChildren(Child(t, p, d), q) ==
              if q == p then AllChildren(t, p) + [t.nextId] else AllChildren(t, q)
  {
    var r := Child(t, p, d);
    LiveChildrenBelowSame(t, r, q, t.nextId);
  }

  // ---------------------------------------------------------------------
  // Attaching and detaching.

  /** `attachChild(c)`: `c` is moved to the host's state, then appended to
      the host's `attachedChildren`. */
  function AttachChild(t: Tree, p: NodeId, c: NodeId): (r: Tree)
    requires Wf(t) && p in t.info && c in t.info && t.info[c].parent == Some(p)
    ensures Wf(r) && Evolves(t, r.(attached := t.attached))
    ensures r.life[c].state == After(t.life[c].state, t.life[p].state)
    ensures r.life[p] == t.life[p]
    ensures r.attached == t.attached[p := t.attached[p] + [c]]
    ensures SameOutside(t, t.life, r.life, c)
  {
    var m := MoveNode(t, c, t.life[p].state);
    EvolvesWf(t, m);
    ParentOutsideChild(t, p, c);
    m.(attached := m.attached[p := m.attached[p] + [c]])
  }

  /** `detachChild(c)`: `c` is moved to DESTROYED, then its first
      occurrence is removed from the host's `attachedChildren`. */
  function DetachChild(t: Tree, p: NodeId, c: NodeId): (r: Tree)
    requires Wf(t) && p in t.info && c in t.info
    ensures Wf(r) && Evolves(t, r.(attached := t.attached))
    ensures r.life[c].state == Destroyed
    ensures t.life[c].state != Destroyed ==> t.info[c].tag !in r.store
    ensures r.attached == t.attached[p := RemoveFirst(t.attached[p], c)]
    ensures SameOutside(t, t.life, r.life, c)
  {
    var m := MoveNode(t, c, Destroyed);
    EvolvesWf(t, m);
    DiedLosesEntry(t, m, c);
    RemoveFirstSubset(m.attached[p], c);
    m.(attached := m.attached[p := RemoveFirst(m.attached[p], c)])
  }

  /** `detachChild(c)` on the parent of `c`, when `c` was attached once:
      `c` ends up in neither child list. */
  lemma DetachLeavesNeither(t: Tree, p: NodeId, c: NodeId)
    requires Wf(t) && p in t.info && c in t.info && t.info[c].parent == Some(p)
    requires multiset(t.attached[p])[c] <= 1
    ensures var r := DetachChild(t, p, c);
            c !in AllChildren(r, p) && c !in r.attached[p]
  {
    RemoveFirstMultiset(t.attached[p], c);
  }

  /** `attachToParent()`: attaches the node to its parent; a root has none
      and nothing happens. */
  function AttachToParent(t: Tree, x: NodeId): (r: Tree)
    requires Wf(t) && x in t.info
    requires t.info[x].parent.Some? ==> t.info[x].parent.value in t.info
    ensures Wf(r) && r.info == t.info
    ensures t.info[x].parent.None? ==> r == t
    ensures t.info[x].parent.Some? ==>
              var p := t.info[x].parent.value;
              && r.attached[p] == t.attached[p] + [x]
              && r.life[x].state == After(t.life[x].state, t.life[p].state)
  {
    match t.info[x].parent
    case None => t
    case Some(p) => AttachChild(t, p, x)
  }

  /** `detachFromParent()`: detaches the node from its parent; a root has
      none and nothing happens. */
  function DetachFromParent(t: Tree, x: NodeId): (r: Tree)
    requires Wf(t) && x in t.info
    requires t.info[x].parent.Some? ==> t.info[x].parent.value in t.info
    ensures Wf(r) && r.info == t.info
    ensures t.info[x].parent.None? ==> r == t
    ensures t.info[x].parent.Some? ==>
              var p := t.info[x].parent.value;
              && r.attached[p] == RemoveFirst(t.attached[p], x)
              && r.life[x].state == Destroyed
              && x !in AllChildren(r, p)
  {
    match t.info[x].parent
    case None => t
    case Some(p) => DetachChild(t, p, x)
  }

  /** `AttachedChild(description)`: a new child, attached at once, so it
      takes the host's state; under a DESTROYED host it is destroyed at
      once and leaves `allChildren` again. */
  function AttachedChild(t: Tree, p: NodeId, d: Description): (r: Tree)
    requires Wf(t) && p in t.info
    ensures Wf(r) && t.nextId in r.info && p in r.info
    ensures r.info[t.nextId] == Info(d, ChildTag(t.info[p].tag, d.key), Some(p))
    ensures r.life[t.nextId].state == t.life[p].state
    ensures r.attached[p] == t.attached[p] + [t.nextId]
    ensures t.nextId in AllChildren(r, p) <==> t.life[p].state != Destroyed
    ensures r.life[p] == t.life[p]
  {
    var c := Child(t, p, d);
    AttachChild(c, p, t.nextId)
  }

  /** Every attached child of `p` is in `p`'s state, unless it is
      DESTROYED. */
  ghost predicate Synced(t: Tree, p: NodeId)
    requires Shape(t) && p in t.info
  {
    forall k :: k in t.attached[p] ==> t.life[k].state == t.life[p].state || t.life[k].state == Destroyed
  }

  /** Moving a node keeps its attached children in step with it. */
  lemma MoveKeepsSynced(t: Tree, p: NodeId, target: State)
    requires Shape(t) && p in t.info && Synced(t, p)
    ensures Synced(MoveNode(t, p, target), p)
  {
  }

  /** Attaching keeps the attached children in step with the host. */
  lemma AttachKeepsSynced(t: Tree, p: NodeId, c: NodeId)
    requires Wf(t) && p in t.info && c in t.info && t.info[c].parent == Some(p) && Synced(t, p)
    ensures Synced(AttachChild(t, p, c), p)
  {
    var r := AttachChild(t, p, c);
    forall k | k in r.attached[p]
      ensures r.life[k].state == r.life[p].state || r.life[k].state == Destroyed
    {
      if k != c {
        assert k in t.attached[p];
        SiblingsApart(t, k, c);
      }
    }
  }

  /** Detaching a child keeps the children that stay attached in step. */
  lemma DetachKeepsSynced(t: Tree, p: NodeId, c: NodeId)
    requires Wf(t) && p in t.info && c in t.info && t.info[c].parent == Some(p) && Synced(t, p)
    ensures Synced(DetachChild(t, p, c), p)
  {
    var r := DetachChild(t, p, c);
    RemoveFirstSubset(t.attached[p], c);
    ParentOutsideChild(t, p, c);
    forall k | k in r.attached[p]
      ensures r.life[k].state == r.life[p].state || r.life[k].state == Destroyed
    {
      assert k in t.attached[p];
      if k != c {
        SiblingsApart(t, k, c);
      }
    }
  }

  // ---------------------------------------------------------------------
  // saveState: a pre-order walk over allChildren

  /** `n` is `x`, or a live child of a node `LiveBelow` `x`: the nodes that
      `saveState` on `x` reaches through `allChildren`. */
  ghost predicate LiveBelow(t: Tree, n: NodeId, x: NodeId)
    decreases n
  {
    || n == x
    || (&& n in t.info && t.info[n].parent.Some?
        && var p := t.info[n].parent.value;
           p < n && IsLiveChild(t, n, p) && LiveBelow(t, p, x))
  }

  lemma {:induction false} LiveBelowOrder(t: Tree, n: NodeId, x: NodeId)
    requires LiveBelow(t, n, x)
    ensures x <= n
    decreases n
  {
    if n != x {
      LiveBelowOrder(t, t.info[n].parent.value, x);
    }
  }

  /** A live child of `x` and everything below it are below `x`. */
  lemma {:induction false} LiveBelowExtend(t: Tree, n: NodeId, c: NodeId, x: NodeId)
    requires Shape(t) && IsLiveChild(t, c, x) && LiveBelow(t, n, c)
    ensures LiveBelow(t, n, x)
    decreases n
  {
    if n != c {
      LiveBelowExtend(t, t.info[n].parent.value, c, x);
    }
  }

  /** Two nodes above `n` lie on one chain: the lower one is below the
      higher one. */
  lemma {:induction false} LiveBelowChain(t: Tree, n: NodeId, a: NodeId, b: NodeId)
    requires LiveBelow(t, n, a) && LiveBelow(t, n, b) && a <= b
    ensures LiveBelow(t, b, a)
    decreases n
  {
    if n != b {
      LiveBelowOrder(t, n, b);
      if n != a {
        LiveBelowChain(t, t.info[n].parent.value, a, b);
      }
    }
  }

  /** The head of a list of live children of `x` was created after `x`. */
  lemma ChildAfterParent(t: Tree, cs: seq<NodeId>, x: NodeId)
    requires Shape(t) && cs != [] && forall c :: c in cs ==> IsLiveChild(t, c, x)
    ensures x < cs[0] < t.nextId && IsLiveChild(t, cs[0], x)
  {
    assert cs[0] in cs;
  }

  /** The nodes `saveState` on `x` visits, in visiting order: `x` itself,
      then the walk of every node of its `allChildren`, in order. */
  function Walk(t: Tree, x: NodeId): (w: seq<NodeId>)
    requires Shape(t) && x in t.info
    ensures w != [] && w[0] == x
    ensures forall n :: n in w ==> n in t.info && x <= n
    decreases t.nextId - x, 1
  {
    [x] + WalkList(t, x, AllChildren(t, x))
  }

  /** The walks of the children `cs` of `x`, one after the other. */
  function WalkList(t: Tree, x: NodeId, cs: seq<NodeId>): (w: seq<NodeId>)
    requires Shape(t) && x in t.info
    requires forall c :: c in cs ==> IsLiveChild(t, c, x)
    ensures forall n :: n in w ==> n in t.info && x < n
    decreases t.nextId - x, 0, |cs|
  {
    if cs == [] then []
    else
      ChildAfterParent(t, cs, x);
      Walk(t, cs[0]) + WalkList(t, x, cs[1..])
  }

  /** Everything the walk visits hangs below `x` by live children. */
  lemma {:induction false} WalkSound(t: Tree, x: NodeId)
    requires Shape(t) && x in t.info
    ensures forall n :: n in Walk(t, x) ==> LiveBelow(t, n, x)
    decreases t.nextId - x, 1
  {
    var cs := AllChildren(t, x);
    forall n | n in WalkList(t, x, cs)
      ensures LiveBelow(t, n, x)
    {
      WalkListSound(t, x, cs);
      var c :| c in cs && LiveBelow(t, n, c);
      LiveBelowExtend(t, n, c, x);
    }
  }

  lemma {:induction false} WalkListSound(t: Tree, x: NodeId, cs: seq<NodeId>)
    requires Shape(t) && x in t.info
    requires forall c :: c in cs ==> IsLiveChild(t, c, x)
    ensures forall n :: n in WalkList(t, x, cs) ==> exists c :: c in cs && LiveBelow(t, n, c)
    decreases t.nextId - x, 0, |cs|
  {
    if cs != [] {
      ChildAfterParent(t, cs, x);
      WalkSound(t, cs[0]);
      WalkListSound(t, x, cs[1..]);
      forall n | n in WalkList(t, x, cs)
        ensures exists c :: c in cs && LiveBelow(t, n, c)
      {
        if n in Walk(t, cs[0]) {
          assert cs[0] in cs && LiveBelow(t, n, cs[0]);
        } else {
          assert n in WalkList(t, x, cs[1..]);
          var c :| c in cs[1..] && LiveBelow(t, n, c);
          assert c in cs;
        }
      }
    }
  }

  /** The walk of a visited node is part of the walk. */
  lemma {:induction false} WalkClosed(t: Tree, x: NodeId, m: NodeId)
    requires Shape(t) && x in t.info && m in Walk(t, x)
    ensures forall n :: n in Walk(t, m) ==> n in Walk(t, x)
    decreases t.nextId - x, 1
  {
    if m != x {
      WalkListClosed(t, x, AllChildren(t, x), m);
    }
  }

  lemma {:induction false} WalkListClosed(t: Tree, x: NodeId, cs: seq<NodeId>, m: NodeId)
    requires Shape(t) && x in t.info
    requires forall c :: c in cs ==> IsLiveChild(t, c, x)
    requires m in WalkList(t, x, cs)
    ensures m in t.info && forall n :: n in Walk(t, m) ==> n in WalkList(t, x, cs)
    decreases t.nextId - x, 0, |cs|
  {
    ChildAfterParent(t, cs, x);
    if m in Walk(t, cs[0]) {
      WalkClosed(t, cs[0], m);
    } else {
      WalkListClosed(t, x, cs[1..], m);
    }
  }

  /** The walk of every listed child is part of the list's walk. */
  lemma {:induction false} WalkListHeads(t: Tree, x: NodeId, cs: seq<NodeId>, c: NodeId)
    requires Shape(t) && x in t.info
    requires forall c :: c in cs ==> IsLiveChild(t, c, x)
    requires c in cs
    ensures c in t.info && forall n :: n in Walk(t, c) ==> n in WalkList(t, x, cs)
    decreases |cs|
  {
    if c != cs[0] {
      WalkListHeads(t, x, cs[1..], c);
    }
  }

  /** The walk misses nothing: every node hanging below `x` by live
      children is visited. */
  lemma {:induction false} WalkComplete(t: Tree, x: NodeId, n: NodeId)
    requires Shape(t) && x in t.info && LiveBelow(t, n, x)
    ensures n in Walk(t, x)
    decreases n
  {
    if n != x {
      var p := t.info[n].parent.value;
      WalkComplete(t, x, p);
      WalkClosed(t, x, p);
      assert n in AllChildren(t, p);
      WalkListHeads(t, p, AllChildren(t, p), n);
      assert n in Walk(t, n);
      assert n in Walk(t, p);
    }
  }

  /** `saveState` on `x` visits exactly the nodes hanging below `x` by
      live children, starting with `x`, and each of them once. */
  lemma WalkVisits(t: Tree, x: NodeId)
    requires Shape(t) && x in t.info
    ensures Walk(t, x)[0] == x
    ensures forall n :: n in Walk(t, x) <==> LiveBelow(t, n, x)
    ensures NoDup(Walk(t, x))
  {
    WalkSound(t, x);
    forall n | LiveBelow(t, n, x)
      ensures n in Walk(t, x)
    {
      WalkComplete(t, x, n);
    }
    WalkNoDup(t, x);
  }

  lemma {:induction false} WalkNoDup(t: Tree, x: NodeId)
    requires Shape(t) && x in t.info
    ensures NoDup(Walk(t, x))
    decreases t.nextId - x, 1
  {
    var cs := AllChildren(t, x);
    WalkListNoDup(t, x, cs);
    var w := WalkList(t, x, cs);
    assert x !in w;
    NoDupCons(x, w);
  }

  lemma {:induction false} WalkListNoDup(t: Tree, x: NodeId, cs: seq<NodeId>)
    requires Shape(t) && x in t.info && NoDup(cs)
    requires forall c :: c in cs ==> IsLiveChild(t, c, x)
    ensures NoDup(WalkList(t, x, cs))
    decreases t.nextId - x, 0, |cs|
  {
    if cs != [] {
      var c0 := cs[0];
      ChildAfterParent(t, cs, x);
      assert NoDup(cs[1..]);
      WalkNoDup(t, c0);
      WalkListNoDup(t, x, cs[1..]);
      WalkSound(t, c0);
      WalkListSound(t, x, cs[1..]);
      forall n | n in Walk(t, c0) && n in WalkList(t, x, cs[1..])
        ensures false
      {
        var c :| c in cs[1..] && LiveBelow(t, n, c);
        assert c != c0;
        assert IsLiveChild(t, c, x) && IsLiveChild(t, c0, x);
        if c0 < c {
          LiveBelowChain(t, n, c0, c);
          assert LiveBelow(t, x, c0);
          LiveBelowOrder(t, x, c0);
        } else {
          LiveBelowChain(t, n, c, c0);
          assert LiveBelow(t, x, c);
          LiveBelowOrder(t, x, c);
        }
      }
      NoDupConcat(Walk(t, c0), WalkList(t, x, cs[1..]));
    }
  }

  /** One node's `stateHandler.saveState()`: the captured values go under
      the node's tag. A destroyed node's saver has been deleted, so what it
      writes is no longer in the store. */
  function SaveOwn(t: Tree, store: Store, n: NodeId, capture: NodeId -> Entry): (r: Store)
    requires n in t.info && n in t.life
    ensures t.life[n].state != Destroyed ==> r == SaveValues(store, t.info[n].tag, capture(n))
    ensures t.life[n].state == Destroyed ==> r == store
  {
    if t.life[n].state == Destroyed then store else SaveValues(store, t.info[n].tag, capture(n))
  }

  /** `saveState()` on `x`, as the source writes it: its own handler, then
      `saveState()` on each node of `allChildren`, in order. `capture`
      gives the values each node's handler holds. */
  function SaveNode(t: Tree, store: Store, x: NodeId, capture: NodeId -> Entry): (r: Store)
    requires Shape(t) && x in t.info
    ensures store.Keys <= r.Keys
    decreases t.nextId - x, 1
  {
    SaveList(t, SaveOwn(t, store, x, capture), x, AllChildren(t, x), capture)
  }

  function SaveList(t: Tree, store: Store, x: NodeId, cs: seq<NodeId>, capture: NodeId -> Entry): (r: Store)
    requires Shape(t) && x in t.info
    requires forall c :: c in cs ==> IsLiveChild(t, c, x)
    ensures store.Keys <= r.Keys
    decreases t.nextId - x, 0, |cs|
  {
    if cs == [] then store
    else
      ChildAfterParent(t, cs, x);
      SaveList(t, SaveNode(t, store, cs[0], capture), x, cs[1..], capture)
  }

  /** Reference meaning of a save: every node of `ns` saves its own
      values, in the order of `ns`. */
  function SaveAll(t: Tree, store: Store, ns: seq<NodeId>, capture: NodeId -> Entry): Store
    requires forall n :: n in ns ==> n in t.info && n in t.life
    decreases |ns|
  {
    if ns == [] then store else SaveAll(t, SaveOwn(t, store, ns[0], capture), ns[1..], capture)
  }

  lemma {:induction false} SaveAllConcat(t: Tree, store: Store, a: seq<NodeId>, b: seq<NodeId>, capture: NodeId -> Entry)
    requires forall n :: n in a + b ==> n in t.info && n in t.life
    ensures SaveAll(t, store, a + b, capture) == SaveAll(t, SaveAll(t, store, a, capture), b, capture)
    decreases |a|
  {
    if a == [] {
      assert a + b == b;
    } else {
      assert (a + b)[0] == a[0] && (a + b)[1..] == a[1..] + b;
      SaveAllConcat(t, SaveOwn(t, store, a[0], capture), a[1..], b, capture);
    }
  }

  /** The recursive save is the in-order save of the walk. */
  lemma {:induction false} SaveNodeIsWalk(t: Tree, store: Store, x: NodeId, capture: NodeId -> Entry)
    requires Shape(t) && x in t.info
    ensures SaveNode(t, store, x, capture) == SaveAll(t, store, Walk(t, x), capture)
    decreases t.nextId - x, 1
  {
    var cs := AllChildren(t, x);
    SaveListIsWalk(t, SaveOwn(t, store, x, capture), x, cs, capture);
    var w := Walk(t, x);
    assert w[0] == x && w[1..] == WalkList(t, x, cs);
  }

  lemma {:induction false} SaveListIsWalk(t: Tree, store: Store, x: NodeId, cs: seq<NodeId>, capture: NodeId -> Entry)
    requires Shape(t) && x in t.info
    requires forall c :: c in cs ==> IsLiveChild(t, c, x)
    ensures SaveList(t, store, x, cs, capture) == SaveAll(t, store, WalkList(t, x, cs), capture)
    decreases t.nextId - x, 0, |cs|
  {
    if cs != [] {
      ChildAfterParent(t, cs, x);
      var s1 := SaveNode(t, store, cs[0], capture);
      SaveNodeIsWalk(t, store, cs[0], capture);
      SaveListIsWalk(t, s1, x, cs[1..], capture);
      SaveAllConcat(t, store, Walk(t, cs[0]), WalkList(t, x, cs[1..]), capture);
    }
  }

  /** A tag that no writing node of `ns` owns keeps its entry, or its
      absence. */
  lemma {:induction false} SaveAllOther(t: Tree, store: Store, ns: seq<NodeId>, capture: NodeId -> Entry, tag: Tag)
    requires forall n :: n in ns ==> n in t.info && n in t.life
    requires forall n :: n in ns && t.life[n].state != Destroyed ==> t.info[n].tag != tag
    ensures var r := SaveAll(t, store, ns, capture);
            (tag in r <==> tag in store) && (tag in store ==> r[tag] == store[tag])
    decreases |ns|
  {
    if ns != [] {
      assert ns[0] in ns;
      SaveAllOther(t, SaveOwn(t, store, ns[0], capture), ns[1..], capture, tag);
    }
  }

  /** The only writing node of `ns` with a given tag leaves its captured
      values over whatever the tag held before. */
  lemma {:induction false} SaveAllOwner(t: Tree, store: Store, ns: seq<NodeId>, capture: NodeId -> Entry, n: NodeId)
    requires forall m :: m in ns ==> m in t.info && m in t.life
    requires n in ns && t.life[n].state != Destroyed
    requires forall m :: m in ns && t.life[m].state != Destroyed && t.info[m].tag == t.info[n].tag ==> m == n
    ensures var r := SaveAll(t, store, ns, capture);
            var tag := t.info[n].tag;
            tag in r && r[tag] == EntryOf(store, tag) + capture(n)
    decreases |ns|
  {
    var tag := t.info[n].tag;
    var s1 := SaveOwn(t, store, ns[0], capture);
    assert ns[0] in ns;
    if ns[0] == n {
      assert EntryOf(s1, tag) == EntryOf(store, tag) + capture(n);
      if n in ns[1..] {
        SaveAllOwner(t, s1, ns[1..], capture, n);
        assert EntryOf(s1, tag) + capture(n) == EntryOf(store, tag) + capture(n);
      } else {
        SaveAllOther(t, s1, ns[1..], capture, tag);
      }
    } else {
      assert EntryOf(s1, tag) == EntryOf(store, tag);
      SaveAllOwner(t, s1, ns[1..], capture, n);
    }
  }

  /** `saveState()` on node `x`: only the store changes. */
  function SaveState(t: Tree, x: NodeId, capture: NodeId -> Entry): (r: Tree)
    requires Shape(t) && x in t.info
    ensures r.info == t.info && r.life == t.life && r.attached == t.attached && r.nextId == t.nextId
    ensures t.store.Keys <= r.store.Keys
  {
    t.(store := SaveNode(t, t.store, x, capture))
  }

  /** `n` is the only live node below `x` with its tag. */
  ghost predicate OnlyOwnerBelow(t: Tree, x: NodeId, n: NodeId)
    requires n in t.info
  {
    forall m :: LiveBelow(t, m, x) && m in t.info && m in t.life && t.life[m].state != Destroyed ==>
      t.info[m].tag == t.info[n].tag ==> m == n
  }

  /** After `saveState()` on `x`, every live node below `x` that owns its
      tag there has its captured values saved under the tag, over what the
      tag held before. */
  lemma SaveStateWrites(t: Tree, x: NodeId, capture: NodeId -> Entry, n: NodeId)
    requires Shape(t) && x in t.info && n in t.info
    requires LiveBelow(t, n, x) && t.life[n].state != Destroyed && OnlyOwnerBelow(t, x, n)
    ensures var r := SaveState(t, x, capture).store;
            var tag := t.info[n].tag;
            tag in r && r[tag] == EntryOf(t.store, tag) + capture(n)
  {
    WalkVisits(t, x);
    SaveNodeIsWalk(t, t.store, x, capture);
    SaveAllOwner(t, t.store, Walk(t, x), capture, n);
  }

  /** A tag of no live node below `x` is left as it was by `saveState()`
      on `x`. */
  lemma SaveStateKeeps(t: Tree, x: NodeId, capture: NodeId -> Entry, tag: Tag)
    requires Shape(t) && x in t.info
    requires forall n :: LiveBelow(t, n, x) && n in t.info && n in t.life && t.life[n].state != Destroyed ==>
               t.info[n].tag != tag
    ensures var r := SaveState(t, x, capture).store;
            (tag in r <==> tag in t.store) && (tag in t.store ==> r[tag] == t.store[tag])
  {
    WalkVisits(t, x);
    SaveNodeIsWalk(t, t.store, x, capture);
    SaveAllOther(t, t.store, Walk(t, x), capture, tag);
  }
}
