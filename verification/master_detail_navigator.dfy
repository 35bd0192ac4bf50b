/** The master/detail navigator: a master screen attached to the host for
    the host's whole life, and at most one detail screen, also attached.

    Both screens are attached children of the host, so they follow every
    move of the host; changing the detail destroys the previous one. The
    detail's description is saved under the navigator's key, and a new
    navigator recreates the saved detail. */
module MasterDetailNavigation {
  import opened Common
  import opened Lifecycle
  import opened StateStore
  import opened PresentationModel
  import opened Navigation

  /** A master/detail navigator hosted by node `host`; `key` is the key the
      detail's description is saved under in the host's entry. */
  datatype MasterDetailNavigator = MasterDetailNavigator(host: NodeId, key: string, master: NodeId, detail: Option<NodeId>)

  /** `d` may be shown as the detail: a child of the host other than the
      master. */
  ghost predicate DetailCandidate(t: Tree, nav: MasterDetailNavigator, d: NodeId)
  {
    d in t.info && t.info[d].parent == Some(nav.host) && d != nav.master
  }

  /** The master and the detail, if any, are children of the host attached
      to it. */
  ghost predicate Valid(t: Tree, nav: MasterDetailNavigator)
  {
    && Wf(t) && nav.host in t.info
    && nav.master in t.info && t.info[nav.master].parent == Some(nav.host)
    && nav.master in t.attached[nav.host]
    && (nav.detail.Some? ==> DetailCandidate(t, nav, nav.detail.value) && nav.detail.value in t.attached[nav.host])
  }

  // ---------------------------------------------------------------------
  // Changing the detail

  /** `changeDetail(pm)`: the previous detail, if any, is detached, which
      destroys it; then `pm`, if any, is attached and takes the host's
      state. */
  function ChangeDetail(t: Tree, nav: MasterDetailNavigator, d: Option<NodeId>): (r: Navigated<MasterDetailNavigator>)
    requires Valid(t, nav)
    requires d.Some? ==> DetailCandidate(t, nav, d.value)
    ensures Valid(r.tree, r.nav) && r.nav == nav.(detail := d)
    ensures r.tree.info == t.info
  {
    var h := nav.host;
    var t1 := if nav.detail.Some? then Detach(t, nav) else t;
    if d.Some? then Navigated(AttachChild(t1, h, d.value), nav.(detail := d))
    else Navigated(t1, nav.(detail := d))
  }

  /** The detach half of `changeDetail`: the master stays attached. */
  function Detach(t: Tree, nav: MasterDetailNavigator): (r: Tree)
    requires Valid(t, nav) && nav.detail.Some?
    ensures Valid(r, nav.(detail := None)) && r.info == t.info
    ensures r == DetachChild(t, nav.host, nav.detail.value)
  {
    var r := DetachChild(t, nav.host, nav.detail.value);
    RemoveFirstMultiset(t.attached[nav.host], nav.detail.value);
    assert nav.master in multiset(r.attached[nav.host]);
    r
  }

  /** Detaching the child `c` changes neither the host nor any other child
      of it. */
  lemma DetachOthers(t: Tree, h: NodeId, c: NodeId, n: NodeId)
    requires Wf(t) && h in t.info && c in t.info && t.info[c].parent == Some(h)
    requires n in t.info && (n == h || (t.info[n].parent == Some(h) && n != c))
    ensures StateOf(DetachChild(t, h, c), n) == StateOf(t, n)
  {
    if n == h {
      ParentOutsideChild(t, h, c);
    } else {
      SiblingsApart(t, n, c);
    }
  }

  /** Attaching the child `c` changes neither the host nor any other child
      of it. */
  lemma AttachOthers(t: Tree, h: NodeId, c: NodeId, n: NodeId)
    requires Wf(t) && h in t.info && c in t.info && t.info[c].parent == Some(h)
    requires n in t.info && (n == h || (t.info[n].parent == Some(h) && n != c))
    ensures StateOf(AttachChild(t, h, c), n) == StateOf(t, n)
  {
    if n == h {
      ParentOutsideChild(t, h, c);
    } else {
      SiblingsApart(t, n, c);
    }
  }

  /** After `changeDetail(pm)` the previous detail is DESTROYED, a new
      detail has the host's state, and neither the host nor the master has
      changed. */
  lemma ChangeDetailStates(t: Tree, nav: MasterDetailNavigator, d: Option<NodeId>)
    requires Valid(t, nav)
    requires d.Some? ==> DetailCandidate(t, nav, d.value)
    ensures var r := ChangeDetail(t, nav, d).tree;
            && StateOf(r, nav.host) == StateOf(t, nav.host)
            && StateOf(r, nav.master) == StateOf(t, nav.master)
            && (nav.detail.Some? ==> StateOf(r, nav.detail.value) == Destroyed)
            && (d.Some? && d != nav.detail ==> StateOf(r, d.value) == After(StateOf(t, d.value), StateOf(t, nav.host)))
  {
    var h := nav.host;
    var t1 := if nav.detail.Some? then Detach(t, nav) else t;
    if nav.detail.Some? {
      var prev := nav.detail.value;
      DetachOthers(t, h, prev, h);
      DetachOthers(t, h, prev, nav.master);
      if d.Some? && d != nav.detail {
        DetachOthers(t, h, prev, d.value);
      }
    }
    if d.Some? {
      var c := d.value;
      AttachOthers(t1, h, c, h);
      AttachOthers(t1, h, c, nav.master);
      if nav.detail.Some? && d != nav.detail {
        AttachOthers(t1, h, c, nav.detail.value);
      }
    }
  }

  /** `changeDetail` keeps the master and the detail in step with the
      host: each has the host's state or is DESTROYED. */
  lemma ChangeDetailKeepsSynced(t: Tree, nav: MasterDetailNavigator, d: Option<NodeId>)
    requires Valid(t, nav) && Synced(t, nav.host)
    requires d.Some? ==> DetailCandidate(t, nav, d.value)
    ensures Synced(ChangeDetail(t, nav, d).tree, nav.host)
  {
    var t1 := if nav.detail.Some? then Detach(t, nav) else t;
    if nav.detail.Some? {
      DetachKeepsSynced(t, nav.host, nav.detail.value);
    }
    if d.Some? {
      AttachKeepsSynced(t1, nav.host, d.value);
    }
  }

  /** `handleBack()`: with a detail shown, the detail is cleared and the
      answer is true; otherwise nothing happens and the answer is false. */
  function HandleBack(t: Tree, nav: MasterDetailNavigator): (r: (Navigated<MasterDetailNavigator>, bool))
    requires Valid(t, nav)
    ensures Valid(r.0.tree, r.0.nav)
    ensures r.1 <==> nav.detail.Some?
    ensures !r.1 ==> r.0 == Navigated(t, nav)
    ensures r.1 ==> r.0.nav.detail == None && StateOf(r.0.tree, nav.detail.value) == Destroyed
  {
    if nav.detail.Some? then
      ChangeDetailStates(t, nav, None);
      (ChangeDetail(t, nav, None), true)
    else
      (Navigated(t, nav), false)
  }

  // ---------------------------------------------------------------------
  // Following the host

  /** `host.lifecycle.moveTo(target)`: the master and the detail are
      attached, so they follow the host. */
  function HostMoveTo(t: Tree, nav: MasterDetailNavigator, target: State): (r: Navigated<MasterDetailNavigator>)
    requires Valid(t, nav)
    ensures Valid(r.tree, r.nav) && Evolves(t, r.tree) && r.nav == nav
    ensures StateOf(r.tree, nav.host) == After(StateOf(t, nav.host), target)
    ensures StateOf(t, nav.host) != Destroyed && StateOf(t, nav.host) != target ==>
              && StateOf(r.tree, nav.master) == After(StateOf(t, nav.master), target)
              && (nav.detail.Some? ==> StateOf(r.tree, nav.detail.value) == After(StateOf(t, nav.detail.value), target))
  {
    var r := MoveNode(t, nav.host, target);
    EvolvesWf(t, r);
    Navigated(r, nav)
  }

  /** Host moves keep the master and the detail in step with the host. */
  lemma HostMoveKeepsSynced(t: Tree, nav: MasterDetailNavigator, target: State)
    requires Valid(t, nav) && Synced(t, nav.host)
    ensures Synced(HostMoveTo(t, nav, target).tree, nav.host)
  {
    MoveKeepsSynced(t, nav.host, target);
  }

  // ---------------------------------------------------------------------
  // Saving and restoring the detail

  /** The description of the detail, if any. */
  function DetailDescription(t: Tree, nav: MasterDetailNavigator): Option<Description>
    requires nav.detail.Some? ==> nav.detail.value in t.info
  {
    match nav.detail
    case None => None
    case Some(d) => Some(t.info[d].description)
  }

  /** What the navigator gives the host's handler to save: the detail's
      description, or its absence, under the navigator's key. */
  function SavedEntry(t: Tree, nav: MasterDetailNavigator): (e: Entry)
    requires nav.detail.Some? ==> nav.detail.value in t.info
    ensures e.Keys == {nav.key}
    ensures e[nav.key].OptionalDescription? && e[nav.key].description == DetailDescription(t, nav)
  {
    map[nav.key := OptionalDescription(DetailDescription(t, nav))]
  }

  /** The detail a new navigator starts with: the description saved under
      the key, if one was saved, and none otherwise. */
  function RestoredDetail(t: Tree, h: NodeId, key: string): (d: Option<Description>)
    requires h in t.info
    ensures (exists saved :: GetSaved(t.store, t.info[h].tag, key) == Some(OptionalDescription(saved))) ==>
              GetSaved(t.store, t.info[h].tag, key) == Some(OptionalDescription(d))
    ensures (forall saved :: GetSaved(t.store, t.info[h].tag, key) != Some(OptionalDescription(saved))) ==>
              d == None
  {
    match GetSaved(t.store, t.info[h].tag, key)
    case Some(OptionalDescription(saved)) => saved
    case _ => None
  }

  /** `MasterDetailNavigator(masterDescription)` on host `h`: the master is
      created attached; a saved detail is recreated and attached. */
  function Create(t: Tree, h: NodeId, key: string, masterDescription: Description): (r: Navigated<MasterDetailNavigator>)
    requires Wf(t) && h in t.info
    ensures Valid(r.tree, r.nav) && r.nav.host == h && r.nav.key == key
    ensures r.tree.info[r.nav.master].description == masterDescription
    ensures DetailDescription(r.tree, r.nav) == RestoredDetail(t, h, key)
    ensures r.nav.master !in t.info && (r.nav.detail.Some? ==> r.nav.detail.value !in t.info)
    ensures StateOf(r.tree, h) == StateOf(t, h)
  {
    var master := t.nextId;
    var t1 := AttachedChild(t, h, masterDescription);
    match RestoredDetail(t, h, key)
    case None => Navigated(t1, MasterDetailNavigator(h, key, master, None))
    case Some(d) =>
      var t2 := Child(t1, h, d);
      var detail := t1.nextId;
      var nav := MasterDetailNavigator(h, key, master, Some(detail));
      var t3 := AttachChild(t2, h, detail);
      assert t3.attached[h] == t2.attached[h] + [detail];
      Navigated(t3, nav)
  }

  /** The master and a restored detail start in the host's state. */
  lemma CreateStates(t: Tree, h: NodeId, key: string, masterDescription: Description)
    requires Wf(t) && h in t.info
    ensures var r := Create(t, h, key, masterDescription);
            && StateOf(r.tree, r.nav.master) == StateOf(t, h)
            && (r.nav.detail.Some? ==> StateOf(r.tree, r.nav.detail.value) == StateOf(t, h))
  {
    var master := t.nextId;
    var t1 := AttachedChild(t, h, masterDescription);
    if RestoredDetail(t, h, key).Some? {
      var t2 := Child(t1, h, RestoredDetail(t, h, key).value);
      AttachOthers(t2, h, t1.nextId, master);
    }
  }

  // ---------------------------------------------------------------------
  // State savers of the screens

  /** Attaching a child with nothing attached below it to a live host
      destroys nothing, so the store stays as it was. */
  lemma AttachFreshKeepsStore(t: Tree, p: NodeId, c: NodeId)
    requires Wf(t) && p in t.info && c in t.info && t.info[c].parent == Some(p)
    requires t.attached[c] == [] && StateOf(t, p) != Destroyed
    ensures AttachChild(t, p, c).store == t.store
  {
    var r := AttachChild(t, p, c);
    var r1 := r.(attached := t.attached);
    forall n | n in t.life && r1.life[n].state == Destroyed
      ensures t.life[n].state == Destroyed
    {
      if Under(t.info, t.attached, n, c) {
        NothingAttachedBelow(t.info, t.attached, n, c);
      }
    }
    NoneDied(t, r1);
  }

  /** Detaching a child with nothing attached below it deletes at most the
      child's own entry. */
  lemma DetachFreshKeepsOthers(t: Tree, p: NodeId, c: NodeId, tag: Tag)
    requires Wf(t) && p in t.info && c in t.info && t.info[c].parent == Some(p)
    requires t.attached[c] == [] && tag in t.store && tag != t.info[c].tag
    ensures tag in DetachChild(t, p, c).store
  {
    var r := DetachChild(t, p, c);
    var r1 := r.(attached := t.attached);
    forall n | n in t.info && Died(t, r1, n)
      ensures t.info[n].tag != tag
    {
      if Under(t.info, t.attached, n, c) {
        NothingAttachedBelow(t.info, t.attached, n, c);
      }
    }
    assert tag !in DiedTags(t, r1);
  }

  /** Under a live host, the master and a restored detail get their state
      savers, under their own child tags, and have nothing attached below
      them. */
  lemma CreateKeepsSavers(t: Tree, h: NodeId, key: string, masterDescription: Description)
    requires Wf(t) && h in t.info && StateOf(t, h) != Destroyed
    ensures var r := Create(t, h, key, masterDescription);
            var m := r.nav.master;
            && r.tree.info[h] == t.info[h]
            && r.tree.info[m].tag == ChildTag(t.info[h].tag, masterDescription.key)
            && r.tree.info[m].tag in r.tree.store && r.tree.attached[m] == []
            && (r.nav.detail.Some? ==>
                  var d := r.nav.detail.value;
                  && RestoredDetail(t, h, key).Some?
                  && r.tree.info[d].tag == ChildTag(t.info[h].tag, RestoredDetail(t, h, key).value.key)
                  && r.tree.info[d].tag in r.tree.store && r.tree.attached[d] == [])
  {
    var m := t.nextId;
    var c := Child(t, h, masterDescription);
    AttachFreshKeepsStore(c, h, m);
    var t1 := AttachChild(c, h, m);
    assert t1 == AttachedChild(t, h, masterDescription);
    match RestoredDetail(t, h, key)
    case None =>
    case Some(dd) =>
      var t2 := Child(t1, h, dd);
      var d := t1.nextId;
      AttachFreshKeepsStore(t2, h, d);
  }

  /** Changing the detail under a live host keeps the savers of the master
      and of the new detail, unless the previous detail shares one of their
      tags: its destruction deletes the entry for that tag. */
  lemma ChangeDetailKeepsSavers(t: Tree, nav: MasterDetailNavigator, d: NodeId)
    requires Valid(t, nav) && DetailCandidate(t, nav, d) && StateOf(t, nav.host) != Destroyed
    requires t.attached[d] == [] && (nav.detail.Some? ==> t.attached[nav.detail.value] == [])
    requires t.info[nav.master].tag in t.store && t.info[d].tag in t.store
    requires nav.detail.Some? ==>
               var prev := t.info[nav.detail.value].tag;
               prev != t.info[nav.master].tag && prev != t.info[d].tag
    ensures var r := ChangeDetail(t, nav, Some(d)).tree;
            t.info[nav.master].tag in r.store && t.info[d].tag in r.store
  {
    var h := nav.host;
    if nav.detail.Some? {
      var prev := nav.detail.value;
      var t1 := Detach(t, nav);
      DetachFreshKeepsOthers(t, h, prev, t.info[nav.master].tag);
      DetachFreshKeepsOthers(t, h, prev, t.info[d].tag);
      DetachOthers(t, h, prev, h);
      assert t1.attached[d] == t.attached[d];
      AttachFreshKeepsStore(t1, h, d);
    } else {
      AttachFreshKeepsStore(t, h, d);
    }
  }

  /** A navigator created under a live host, given a new child as its
      detail, holds a state saver for the master's tag and for the
      detail's tag, provided no restored detail shares a key with them;
      saving the host keeps both entries. */
  lemma DetailKeepsSavers(t: Tree, h: NodeId, key: string, masterDescription: Description, detailDescription: Description,
                          capture: NodeId -> Entry)
    requires Wf(t) && h in t.info && StateOf(t, h) != Destroyed
    requires masterDescription.key != detailDescription.key
    requires RestoredDetail(t, h, key).Some? ==>
               RestoredDetail(t, h, key).value.key != masterDescription.key &&
               RestoredDetail(t, h, key).value.key != detailDescription.key
    ensures var r := Create(t, h, key, masterDescription);
            var c := Child(r.tree, h, detailDescription);
            var n := ChangeDetail(c, r.nav, Some(r.tree.nextId));
            && n.nav.detail == Some(r.tree.nextId)
            && ChildTag(t.info[h].tag, masterDescription.key) in n.tree.store
            && ChildTag(t.info[h].tag, detailDescription.key) in n.tree.store
            && var saved := SaveState(n.tree, h, capture).store;
               ChildTag(t.info[h].tag, masterDescription.key) in saved &&
               ChildTag(t.info[h].tag, detailDescription.key) in saved
  {
    var r := Create(t, h, key, masterDescription);
    CreateKeepsSavers(t, h, key, masterDescription);
    var c := Child(r.tree, h, detailDescription);
    var htag := t.info[h].tag;
    ChildTagInjective(htag, masterDescription.key, detailDescription.key);
    if RestoredDetail(t, h, key).Some? {
      var k := RestoredDetail(t, h, key).value.key;
      ChildTagInjective(htag, k, masterDescription.key);
      ChildTagInjective(htag, k, detailDescription.key);
    }
    ChangeDetailKeepsSavers(c, r.nav, r.tree.nextId);
  }

  /** Saving and restoring round-trips: when the host saves its state with
      the navigator's entry, a navigator created later on a host with the
      same tag, from the saved store, recreates a detail with the same
      description, or none when there was none. */
  lemma SaveRestoreRoundTrip(t: Tree, nav: MasterDetailNavigator, capture: NodeId -> Entry,
                             t2: Tree, h2: NodeId, masterDescription: Description)
    requires Valid(t, nav) && StateOf(t, nav.host) != Destroyed
    requires OnlyOwnerBelow(t, nav.host, nav.host)
    requires nav.key in capture(nav.host) && capture(nav.host)[nav.key] == SavedEntry(t, nav)[nav.key]
    requires Wf(t2) && h2 in t2.info && t2.info[h2].tag == t.info[nav.host].tag
    requires t2.store == SaveState(t, nav.host, capture).store
    ensures var r := Create(t2, h2, nav.key, masterDescription);
            DetailDescription(r.tree, r.nav) == DetailDescription(t, nav)
  {
    SaveStateWrites(t, nav.host, capture, nav.host);
    var saved := SaveState(t, nav.host, capture).store;
    var desc := DetailDescription(t, nav);
    assert saved[t.info[nav.host].tag][nav.key] == OptionalDescription(desc);
    assert GetSaved(t2.store, t2.info[h2].tag, nav.key) == Some(OptionalDescription(desc));
    assert RestoredDetail(t2, h2, nav.key) == desc;
  }
}
