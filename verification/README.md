# Premo presentation-model core in Dafny

Premo organises a user interface as a tree of presentation models (PMs). Each
PM owns a lifecycle that moves between CREATED, IN_FOREGROUND and DESTROYED.
A PM propagates every lifecycle change to its *attached* children, and it
keeps a list of *all* its live children so that `saveState` can walk the
whole tree. Navigators are built on top of this tree:

- the stack navigator keeps a back stack of screens;
- the set navigator keeps a fixed list of screens with one current screen;
- the master/detail navigator keeps a master screen and at most one detail
  screen.

Each navigator brings only the screen it shows to the foreground.

The model is split into modules that follow the program:

| file | module | what it holds |
|---|---|---|
| `common.dfy` | `Common` | `Option`, `NoDup`, `RemoveFirst` (Kotlin's `MutableList.remove`) and list lemmas |
| `lifecycle.dfy` | `Lifecycle` | `PmLifecycle`: the state machine, the observer list and the sequence of observer calls each operation makes |
| `state_store.dfy` | `StateStore` | descriptions, saved values and the per-tag store of the state-saver factory |
| `presentation_model.dfy` | `PresentationModel` | the PM tree, lifecycle propagation, `Child`, attach/detach, `AttachedChild`, `saveState` |
| `navigation.dfy` | `Navigation` | what the navigators share: screens, re-arranging screens for the host's state, creating screens from descriptions |
| `stack_navigator.dfy` | `StackNavigation` | the stack navigator |
| `set_navigator.dfy` | `SetNavigation` | the set navigator |
| `master_detail_navigator.dfy` | `MasterDetailNavigation` | the master/detail navigator |

Main modelling choices:

- **The tree.** It is a value with four maps keyed by node id:
  - `info`: description, tag and parent, fixed at creation;
  - `life`: state and foreground-scope flag;
  - `attached`: the `attachedChildren` list;
  - the state store.

  Ids are handed out in creation order. A child's id is therefore always
  larger than its parent's, which makes propagation terminate.
- **`allChildren` is computed, not stored.** A PM joins its parent's list on
  creation and leaves it on DESTROYED, a state it never leaves, so the list
  always equals the parent's live children in creation order.
  `AllChildren` computes exactly that. `ChildAppends` and `DestroyRemoves`
  prove that it changes the way `allChildren.add` and `removeChild` change
  the list.
- **A lifecycle move of a PM** is `MoveNode`. It delivers the same path of
  notifications `PmLifecycle.moveTo` does. On each notification the PM:
  - moves every attached child to its new state (recursively);
  - updates its foreground-scope flag;
  - on DESTROYED, leaves its parent's children and deletes its state saver.
- **Navigators** are modelled from their tests; their implementation files
  are not part of this model.
  - The screens of the stack and set navigators are children of the host
    that the host does not attach. The navigator moves them itself: the
    shown screen takes the host's state and every other screen is kept
    CREATED.
  - The master/detail navigator attaches its master and its detail to the
    host, so both follow every move of the host.
  - The stack and set navigators react to a move made on the host itself
    (`HostMoveTo`); a move that reaches the host by propagation from an
    ancestor is not passed on to their screens (see "Left out").

## Model

| member | source | states |
|---|---|---|
| `Lifecycle.Notifications` | premo/src/commonMain/kotlin/me/dmdev/premo/PmLifecycle.kt:47-83 | the notifications `moveTo` sends form a legal path of single steps, end in the state the move reaches, are empty exactly when the state does not change, and number two only for IN_FOREGROUND to DESTROYED |
| `Lifecycle.NotificationsShortest` | premo/src/commonMain/kotlin/me/dmdev/premo/PmLifecycle.kt:69-77 | no legal path of steps reaches the target state in fewer notifications than `moveTo` sends (IN_FOREGROUND must pass CREATED on the way to DESTROYED) |
| `Lifecycle.MoveTo` | premo/src/commonMain/kotlin/me/dmdev/premo/PmLifecycle.kt:47-83 | `moveTo`: the new state is the one the transition table allows; moving to the current state, or out of DESTROYED, changes nothing and calls nobody; otherwise every observer gets one call per notification, and the observer list is cleared exactly when the move reaches DESTROYED |
| `Lifecycle.MoveToIdempotent` | premo/src/commonMain/kotlin/me/dmdev/premo/PmLifecycle.kt:48 | repeating a `moveTo` with the same target changes nothing and notifies nobody |
| `Lifecycle.MoveAllState` | premo/src/commonMain/kotlin/me/dmdev/premo/PmLifecycle.kt:47-83 | after any sequence of moves the lifecycle is DESTROYED if it ever was asked to be, and otherwise sits in the last requested state |
| `Lifecycle.NotifyChange` | premo/src/commonMain/kotlin/me/dmdev/premo/PmLifecycle.kt:95-105 | `notifyChange(s)`: the lifecycle ends in `s`, every observer receives `s` once, in registration order, and the list is cleared after a DESTROYED round |
| `Lifecycle.Deliver` | premo/src/commonMain/kotlin/me/dmdev/premo/PmLifecycle.kt:95-105 | delivering a legal path of notifications ends in the path's last state, calls the observers one full round per notification, and clears them iff DESTROYED was on the path |
| `Lifecycle.AddObserver` | premo/src/commonMain/kotlin/me/dmdev/premo/PmLifecycle.kt:38-41 | `addObserver` appends the observer and makes exactly one call, which tells the new observer the current state |
| `Lifecycle.RemoveObserver` | premo/src/commonMain/kotlin/me/dmdev/premo/PmLifecycle.kt:43-45 | `removeObserver` keeps the state and removes the first registration of the observer, if there is one, keeping every other registration in its order, which is the notification order |
| `Lifecycle.AddThenRemove` | premo/src/commonMain/kotlin/me/dmdev/premo/PmLifecycle.kt:38-45 | removing an observer that was just added gives back the lifecycle as it was |
| `Lifecycle.RemovedHearsNothing` | premo/src/commonMain/kotlin/me/dmdev/premo/PmLifecycle.kt:43-45 | a removed observer receives no call from any later move |
| `Lifecycle.ReceivedBroadcast` | premo/src/commonMain/kotlin/me/dmdev/premo/PmLifecycle.kt:98-100 | an observer registered once receives exactly the notified states in order; an unregistered one receives nothing |
| `Lifecycle.LateObserverSeesEverything` | premo/src/commonMain/kotlin/me/dmdev/premo/PmLifecycle.kt:38-41 | an observer added before a move sees the state it joined in followed by every notification of the move, so it never misses a state |
| `StateStore.ChildTag` | premo/src/commonMain/kotlin/me/dmdev/premo/PresentationModel.kt:44-48 | a child's tag is its parent's tag, a `/`, then the child's key |
| `StateStore.ChildTagInjective` | premo/src/commonMain/kotlin/me/dmdev/premo/PresentationModel.kt:44-48 | two children of one parent get the same tag iff they have the same key |
| `StateStore.CreateSaver` | premo/src/commonMain/kotlin/me/dmdev/premo/PresentationModel.kt:55 | creating a PM's state saver adds its tag to the store and keeps an existing entry for that tag and every other entry |
| `StateStore.DeleteSaver` | premo/src/commonMain/kotlin/me/dmdev/premo/PresentationModel.kt:114 | deleting a saver removes exactly that tag's entry and keeps the others |
| `StateStore.SaveValues` | premo/src/commonMain/kotlin/me/dmdev/premo/PresentationModel.kt:89 | saving a PM's values writes every captured key, keeps the keys not captured and leaves other tags alone |
| `StateStore.SaveThenGet` | premo/src/commonMain/kotlin/me/dmdev/premo/PresentationModel.kt:89 | reading a key right after saving gives the saved value, or the earlier one if the key was not captured |
| `PresentationModel.TagFor` | premo/src/commonMain/kotlin/me/dmdev/premo/PresentationModel.kt:44-48 | a root's tag is its key; a child's tag is the parent's tag, `/`, and its key |
| `PresentationModel.NewRoot` | premo/src/commonMain/kotlin/me/dmdev/premo/PresentationModel.kt:42-62 | a new root PM has no parent, its key as tag, starts CREATED without a foreground scope, and has a saver entry for its tag |
| `PresentationModel.Child` | premo/src/commonMain/kotlin/me/dmdev/premo/PresentationModel.kt:74-86 | `Child` creates a fresh CREATED PM whose parent is the host and whose tag is the child tag; it attaches nothing and leaves every existing PM as it was |
| `PresentationModel.ChildAppends` | premo/src/commonMain/kotlin/me/dmdev/premo/PresentationModel.kt:84 | creating a child appends it to its parent's `allChildren` and to no other list |
| `PresentationModel.AllChildren` | premo/src/commonMain/kotlin/me/dmdev/premo/PresentationModel.kt:57 | `allChildren` holds exactly the parent's children that are not DESTROYED, each once |
| `PresentationModel.DestroyRemoves` | premo/src/commonMain/kotlin/me/dmdev/premo/PresentationModel.kt:93-95 | destroying a child removes it from its parent's `allChildren`, as `removeChild` does |
| `PresentationModel.AllChildrenEvolve` | premo/src/commonMain/kotlin/me/dmdev/premo/PresentationModel.kt:111-114 | after any propagation a PM's `allChildren` are its former ones minus those that died |
| `PresentationModel.DiedLosesEntry` | premo/src/commonMain/kotlin/me/dmdev/premo/PresentationModel.kt:111-114 | a PM that reaches DESTROYED loses its saved-state entry |
| `PresentationModel.MoveNode` | premo/src/commonMain/kotlin/me/dmdev/premo/PresentationModel.kt:97-118 | `lifecycle.moveTo` on a PM: the PM reaches the state its lifecycle allows, every attached child follows to the target, nothing outside its attached subtree changes, and a move to the current state or out of DESTROYED changes nothing |
| `PresentationModel.NotifySeq` | premo/src/commonMain/kotlin/me/dmdev/premo/PresentationModel.kt:97-118 | delivering a path of notifications to a PM ends in the path's last state with every attached child moved to it, and touches nothing outside the attached subtree |
| `PresentationModel.Notify` | premo/src/commonMain/kotlin/me/dmdev/premo/PresentationModel.kt:97-118 | one notification: the PM takes the new state, its attached children are moved to it, and its foreground scope exists iff the new state is IN_FOREGROUND |
| `PresentationModel.PropagateList` | premo/src/commonMain/kotlin/me/dmdev/premo/PresentationModel.kt:99-101 | every attached child is moved to the new state, in list order, and nothing outside their subtrees changes |
| `PresentationModel.Scope` | premo/src/commonMain/kotlin/me/dmdev/premo/PresentationModel.kt:103-115 | the foreground scope is created on IN_FOREGROUND and dropped on CREATED, with the store untouched; on DESTROYED the node's saver entry is deleted; the tree and every other node stay as they were |
| `PresentationModel.AttachChild` | premo/src/commonMain/kotlin/me/dmdev/premo/PresentationModel.kt:64-67 | `attachChild` moves the child to the host's state and then appends it to the attached list; the host and everything outside the child's subtree keep their state |
| `PresentationModel.DetachChild` | premo/src/commonMain/kotlin/me/dmdev/premo/PresentationModel.kt:69-72 | `detachChild` destroys the child, which loses its saver entry if it was alive, and removes its first occurrence from the attached list |
| `PresentationModel.DetachLeavesNeither` | premo/src/commonMain/kotlin/me/dmdev/premo/PresentationModel.kt:69-72 | after `detachChild` the child is in neither of the host's lists |
| `PresentationModel.AttachToParent` | premo/src/commonMain/kotlin/me/dmdev/premo/PresentationModel.kt:121-123 | a root is unchanged; any other PM is attached to its parent and takes the parent's state |
| `PresentationModel.DetachFromParent` | premo/src/commonMain/kotlin/me/dmdev/premo/PresentationModel.kt:125-127 | a root is unchanged; any other PM is detached from its parent, DESTROYED and gone from the parent's `allChildren` |
| `PresentationModel.AttachedChild` | premo/src/commonMain/kotlin/me/dmdev/premo/PresentationModel.kt:129-134 | `AttachedChild` yields a new child in the host's state, appended to the attached list; it stays in `allChildren` unless the host was DESTROYED |
| `PresentationModel.MoveKeepsSynced` | premo/src/commonMain/kotlin/me/dmdev/premo/PresentationModel.kt:97-101 | if every attached child shares the host's state (or is DESTROYED), that stays so after any move of the host |
| `PresentationModel.AttachKeepsSynced` | premo/src/commonMain/kotlin/me/dmdev/premo/PresentationModel.kt:64-67 | attaching a child keeps every attached child in the host's state |
| `PresentationModel.DetachKeepsSynced` | premo/src/commonMain/kotlin/me/dmdev/premo/PresentationModel.kt:69-72 | detaching a child keeps every attached child in the host's state |
| `PresentationModel.WalkVisits` | premo/src/commonMain/kotlin/me/dmdev/premo/PresentationModel.kt:88-91 | the recursive `saveState` walk visits the PM first, then exactly the PMs reachable through `allChildren` links, each once |
| `PresentationModel.SaveNodeIsWalk` | premo/src/commonMain/kotlin/me/dmdev/premo/PresentationModel.kt:88-91 | the recursive save equals saving each PM of the walk in turn |
| `PresentationModel.SaveState` | premo/src/commonMain/kotlin/me/dmdev/premo/PresentationModel.kt:88-91 | `saveState` changes only the store and removes no entry |
| `PresentationModel.SaveStateWrites` | premo/src/commonMain/kotlin/me/dmdev/premo/PresentationModel.kt:88-91 | every live PM below the saved one, whose tag no other PM of the walk shares, ends with its entry merged with what its handler captured |
| `PresentationModel.SaveStateKeeps` | premo/src/commonMain/kotlin/me/dmdev/premo/PresentationModel.kt:88-91 | an entry whose tag no live PM below the saved one carries is left exactly as it was |
| `StackNavigation.CurrentTop` | premo-navigation/src/commonTest/kotlin/me.dmdev.premo/navigation/StackNavigatorTest.kt:58-63 | `currentTop` is absent iff the back stack is empty, else it is the last screen |
| `StackNavigation.ChangeBackStack` | premo-navigation/src/commonTest/kotlin/me.dmdev.premo/navigation/StackNavigatorTest.kt:199-208 | `changeBackStack`: the stack becomes the new list, screens that leave are DESTROYED, the new top moves to the host's state, every other screen moves to CREATED (DESTROYED with the host), and the host keeps its state |
| `StackNavigation.ChangeBackStackArranges` | premo-navigation/src/commonTest/kotlin/me.dmdev.premo/navigation/StackNavigatorTest.kt:199-208 | after `changeBackStack` only the top can be IN_FOREGROUND |
| `StackNavigation.ArrangedOneForeground` | premo-navigation/src/commonTest/kotlin/me.dmdev.premo/navigation/StackNavigatorTest.kt:90-98 | a stack arranged for the host's state has at most one screen IN_FOREGROUND |
| `StackNavigation.Push` | premo-navigation/src/commonTest/kotlin/me.dmdev.premo/navigation/StackNavigatorTest.kt:80-98 | `push` appends the screen, which becomes the current top |
| `StackNavigation.PushStates` | premo-navigation/src/commonTest/kotlin/me.dmdev.premo/navigation/StackNavigatorTest.kt:80-98 | the pushed screen takes the host's state, the screens below go to the background, the host keeps its state |
| `StackNavigation.Pop` | premo-navigation/src/commonTest/kotlin/me.dmdev.premo/navigation/StackNavigatorTest.kt:100-130 | `pop` on an empty stack does nothing; otherwise the top is dropped and the screen below becomes the current top |
| `StackNavigation.PopStates` | premo-navigation/src/commonTest/kotlin/me.dmdev.premo/navigation/StackNavigatorTest.kt:110-130 | the popped screen is DESTROYED and the screen below takes the host's state |
| `StackNavigation.PopToRoot` | premo-navigation/src/commonTest/kotlin/me.dmdev.premo/navigation/StackNavigatorTest.kt:132-151 | `popToRoot` reports true iff there was more than one screen, leaves only the bottom screen then, and otherwise changes nothing |
| `StackNavigation.PopToRootStates` | premo-navigation/src/commonTest/kotlin/me.dmdev.premo/navigation/StackNavigatorTest.kt:133-143 | the root takes the host's state and every other screen is DESTROYED |
| `StackNavigation.KeepUntil` | premo-navigation/src/commonTest/kotlin/me.dmdev.premo/navigation/StackNavigatorTest.kt:186-197 | popping until a predicate holds keeps a prefix of the stack whose top satisfies it, and no dropped screen satisfies it |
| `StackNavigation.PopUntil` | premo-navigation/src/commonTest/kotlin/me.dmdev.premo/navigation/StackNavigatorTest.kt:186-197 | `popUntil` leaves exactly that prefix as the back stack |
| `StackNavigation.PopUntilStates` | premo-navigation/src/commonTest/kotlin/me.dmdev.premo/navigation/StackNavigatorTest.kt:186-197 | every dropped screen is DESTROYED and the new top takes the host's state |
| `StackNavigation.ReplaceTop` | premo-navigation/src/commonTest/kotlin/me.dmdev.premo/navigation/StackNavigatorTest.kt:153-172 | `replaceTop` swaps the top for the new screen, or pushes it onto an empty stack; the new screen is the current top |
| `StackNavigation.ReplaceTopStates` | premo-navigation/src/commonTest/kotlin/me.dmdev.premo/navigation/StackNavigatorTest.kt:153-163 | the new screen takes the host's state, the old top is DESTROYED and the screens below go to the background |
| `StackNavigation.ReplaceAll` | premo-navigation/src/commonTest/kotlin/me.dmdev.premo/navigation/StackNavigatorTest.kt:174-184 | `replaceAll` leaves the new screen as the only one |
| `StackNavigation.ReplaceAllStates` | premo-navigation/src/commonTest/kotlin/me.dmdev.premo/navigation/StackNavigatorTest.kt:174-184 | every former screen is DESTROYED and the new one takes the host's state |
| `StackNavigation.HandleBack` | premo-navigation/src/commonTest/kotlin/me.dmdev.premo/navigation/StackNavigatorTest.kt:210-233 | back is handled iff more than one screen is stacked; it then pops once, and otherwise changes nothing |
| `StackNavigation.HostMoveTo` | premo-navigation/src/commonTest/kotlin/me.dmdev.premo/navigation/StackNavigatorTest.kt:235-264 | a move of the host takes the host to its new state and keeps the stack; a no-op move changes nothing |
| `StackNavigation.HostMoveToStates` | premo-navigation/src/commonTest/kotlin/me.dmdev.premo/navigation/StackNavigatorTest.kt:235-264 | on a host move the top follows the host, and the other screens stay CREATED, or become DESTROYED with the host |
| `StackNavigation.HostMoveKeepsArranged` | premo-navigation/src/commonTest/kotlin/me.dmdev.premo/navigation/StackNavigatorTest.kt:246-254 | a stack arranged for the host stays arranged after any host move, so only the top can come back to the foreground |
| `StackNavigation.SavedEntry` | premo-navigation/src/commonTest/kotlin/me.dmdev.premo/navigation/StackNavigatorTest.kt:295-320 | the navigator saves, under its key, the descriptions of the back stack in order |
| `StackNavigation.Restored` | premo-navigation/src/commonTest/kotlin/me.dmdev.premo/navigation/StackNavigatorTest.kt:266-293 | a saved description list under the navigator's key is used; anything else falls back to the initial descriptions |
| `StackNavigation.Create` | premo-navigation/src/commonTest/kotlin/me.dmdev.premo/navigation/StackNavigatorTest.kt:65-78 | creating a navigator makes one new child per restored (or initial) description, in order |
| `StackNavigation.CreateStates` | premo-navigation/src/commonTest/kotlin/me.dmdev.premo/navigation/StackNavigatorTest.kt:266-293 | the new top takes the host's state, the others are CREATED (DESTROYED with the host), and the host keeps its state |
| `StackNavigation.CreateKeepsSavers` | premo-navigation/src/commonTest/kotlin/me.dmdev.premo/navigation/StackNavigatorTest.kt:296-320 | every screen of a navigator created under a live host has a saver entry for its tag |
| `StackNavigation.SaveRestoreRoundTrip` | premo-navigation/src/commonTest/kotlin/me.dmdev.premo/navigation/StackNavigatorTest.kt:266-320 | when the host's handler saves the navigator's entry under its key, among any other values, creating a navigator under a host with the same tag from the saved store restores the same description list |
| `SetNavigation.Current` | premo-navigation/src/commonTest/kotlin/me.dmdev.premo/navigation/SetNavigatorTest.kt:95-105 | there is a current screen iff an index is set, and it is one of the screens |
| `SetNavigation.ShownOneForeground` | premo-navigation/src/commonTest/kotlin/me.dmdev.premo/navigation/SetNavigatorTest.kt:57-74 | when the screens are shown for the host, only the current screen can be IN_FOREGROUND |
| `SetNavigation.Create` | premo-navigation/src/commonTest/kotlin/me.dmdev.premo/navigation/SetNavigatorTest.kt:43-64 | a new navigator holds the given screens with the first one current, or none if the list is empty |
| `SetNavigation.CreateStates` | premo-navigation/src/commonTest/kotlin/me.dmdev.premo/navigation/SetNavigatorTest.kt:57-64 | the first screen takes the host's state, the others are CREATED (DESTROYED with the host), and the host keeps its state |
| `SetNavigation.ChangeValues` | premo-navigation/src/commonTest/kotlin/me.dmdev.premo/navigation/SetNavigatorTest.kt:107-160 | `changeValues` installs the new list with its first screen current (none if empty) and keeps the host's state |
| `SetNavigation.ChangeValuesStates` | premo-navigation/src/commonTest/kotlin/me.dmdev.premo/navigation/SetNavigatorTest.kt:128-160 | screens that leave are DESTROYED, the first new screen takes the host's state, the other new screens go to the background, a kept screen included |
| `SetNavigation.ChangeValuesShows` | premo-navigation/src/commonTest/kotlin/me.dmdev.premo/navigation/SetNavigatorTest.kt:107-126 | after `changeValues` the screens are shown for the host and at most one is IN_FOREGROUND |
| `SetNavigation.ChangeCurrent` | premo-navigation/src/commonTest/kotlin/me.dmdev.premo/navigation/SetNavigatorTest.kt:66-74 | `changeCurrent(i)` makes the i-th screen current and keeps the list and the host's state |
| `SetNavigation.ChangeCurrentStates` | premo-navigation/src/commonTest/kotlin/me.dmdev.premo/navigation/SetNavigatorTest.kt:66-74 | the chosen screen takes the host's state and every other screen goes to the background |
| `SetNavigation.ChangeCurrentShows` | premo-navigation/src/commonTest/kotlin/me.dmdev.premo/navigation/SetNavigatorTest.kt:66-74 | after `changeCurrent` the screens are shown for the host and at most one is IN_FOREGROUND |
| `SetNavigation.ChangeCurrentKeepsOthers` | premo-navigation/src/commonTest/kotlin/me.dmdev.premo/navigation/SetNavigatorTest.kt:66-74 | switching the current screen under a live host changes no screen other than the old and the new current one |
| `SetNavigation.HostMoveTo` | premo-navigation/src/commonTest/kotlin/me.dmdev.premo/navigation/SetNavigatorTest.kt:76-93 | a host move takes the host to its new state, keeps the navigator, and leaves every non-current screen as it was |
| `SetNavigation.HostMoveToStates` | premo-navigation/src/commonTest/kotlin/me.dmdev.premo/navigation/SetNavigatorTest.kt:76-93 | on a real host move the current screen follows the host and every other screen keeps its state |
| `SetNavigation.HostMoveKeepsShown` | premo-navigation/src/commonTest/kotlin/me.dmdev.premo/navigation/SetNavigatorTest.kt:85-93 | screens shown for the host stay shown after any host move, so only the current screen comes back to the foreground |
| `MasterDetailNavigation.ChangeDetail` | premo-navigation/src/commonTest/kotlin/me.dmdev.premo/navigation/MasterDetailNavigatorTest.kt:67-94 | `changeDetail` installs the new detail (or none), keeps the master, and creates no PM |
| `MasterDetailNavigation.ChangeDetailStates` | premo-navigation/src/commonTest/kotlin/me.dmdev.premo/navigation/MasterDetailNavigatorTest.kt:67-94 | the old detail is DESTROYED, a new detail takes the host's state, and the host and the master keep theirs |
| `MasterDetailNavigation.ChangeDetailKeepsSynced` | premo-navigation/src/commonTest/kotlin/me.dmdev.premo/navigation/MasterDetailNavigatorTest.kt:67-84 | after `changeDetail` every attached screen of the host is still in the host's state or DESTROYED |
| `MasterDetailNavigation.HandleBack` | premo-navigation/src/commonTest/kotlin/me.dmdev.premo/navigation/MasterDetailNavigatorTest.kt:96-114 | back is handled iff there is a detail; the detail is then DESTROYED and cleared, and otherwise nothing changes |
| `MasterDetailNavigation.HostMoveTo` | premo-navigation/src/commonTest/kotlin/me.dmdev.premo/navigation/MasterDetailNavigatorTest.kt:49-65 | a host move takes the master and the detail along to the host's new state |
| `MasterDetailNavigation.HostMoveKeepsSynced` | premo-navigation/src/commonTest/kotlin/me.dmdev.premo/navigation/MasterDetailNavigatorTest.kt:49-65 | master and detail stay in the host's state through any host move |
| `MasterDetailNavigation.SavedEntry` | premo-navigation/src/commonTest/kotlin/me.dmdev.premo/navigation/MasterDetailNavigatorTest.kt:141-167 | the navigator saves, under its key, the detail's description or null |
| `MasterDetailNavigation.RestoredDetail` | premo-navigation/src/commonTest/kotlin/me.dmdev.premo/navigation/MasterDetailNavigatorTest.kt:116-139 | a saved optional description under the navigator's key is used; anything else means no detail |
| `MasterDetailNavigation.Create` | premo-navigation/src/commonTest/kotlin/me.dmdev.premo/navigation/MasterDetailNavigatorTest.kt:116-139 | a new navigator creates a fresh master from its description and recreates the restored detail, if any, keeping the host's state |
| `MasterDetailNavigation.CreateStates` | premo-navigation/src/commonTest/kotlin/me.dmdev.premo/navigation/MasterDetailNavigatorTest.kt:60-65 | the new master, and a restored detail, take the host's state |
| `MasterDetailNavigation.SaveRestoreRoundTrip` | premo-navigation/src/commonTest/kotlin/me.dmdev.premo/navigation/MasterDetailNavigatorTest.kt:116-167 | when the host's handler saves the navigator's entry under its key, among any other values, creating a navigator under a host with the same tag from the saved store restores the detail's description |
| `MasterDetailNavigation.CreateKeepsSavers` | premo-navigation/src/commonTest/kotlin/me.dmdev.premo/navigation/MasterDetailNavigatorTest.kt:141-167 | under a live host the master and a restored detail get saver entries under their child tags |
| `MasterDetailNavigation.ChangeDetailKeepsSavers` | premo-navigation/src/commonTest/kotlin/me.dmdev.premo/navigation/MasterDetailNavigatorTest.kt:141-167 | changing the detail under a live host keeps the master's and the new detail's saver entries, unless the destroyed previous detail shares their tag |
| `MasterDetailNavigation.DetailKeepsSavers` | premo-navigation/src/commonTest/kotlin/me.dmdev.premo/navigation/MasterDetailNavigatorTest.kt:141-167 | after creating the navigator and setting a new child as its detail, the store, and the store after saving the host, hold entries for the master's and the detail's tags |

## Left out

- Coroutine scopes are left out. Only whether the foreground scope exists
  is kept, as a flag; `scope.cancel()` on DESTROYED has no observable
  effect in the model.
- `Action`, `SaveableFlow` and type-driven save mappers, state codecs, the
  internals of `PmStateHandler` and `PmMessageHandler`, and the samples are
  left out.
  - A PM's state handler is a function parameter (`capture`) giving the
    entry it saves.
  - Saved values are descriptions, optional descriptions or opaque values.
  - A saved value of the wrong type falls back to the initial value, as
    in the navigators' `Restored` and `RestoredDetail`.
- `PmFactory` is not modelled beyond record creation: `Child` creates a node
  from a description. What kind of PM the factory builds is not modelled.
- Observers other than the PM's own propagation observer are not part of
  the tree model; `Lifecycle` models the observer list on its own.
  - Re-entrant calls from inside an observer are not modelled.
  - Every operation runs to completion before the next one starts.
- `PresentationModel.MoveNode`: states the tree after the whole move, not
  the interleaving of notifications between parent and children, which are
  not observable outside observers.
- `PresentationModel.StateOf`: a node the tree does not hold counts as
  DESTROYED; navigator contracts are stated through it.
- `PresentationModel.AttachChild`: requires the attached PM to be a child of
  the host. Kotlin accepts any PM, but then the child's `removeChild` call on
  DESTROYED goes to a different parent.
- `PresentationModel.AttachToParent` and `PresentationModel.DetachFromParent`:
  require the parent to be in the tree, which a live Kotlin reference always
  is.
- `StackNavigation.HostMoveTo` and `SetNavigation.HostMoveTo`: the
  navigator's reaction to the host's lifecycle exists only as this
  operation, for a move made on the host itself. When the host is moved
  because an ancestor it is attached to moved, `MoveNode` does not reach
  the screens: the top or current screen keeps its state, so it can stay
  IN_FOREGROUND under a CREATED host. The navigator's lifecycle observer
  is not part of the propagation in `Notify`.
- `PresentationModel.SaveOwn`: a DESTROYED node writes nothing when the
  tree is saved, because its saver has been deleted. The state handler and
  the saver factory are not part of this model, so this is a modelling
  choice.
- `StateStore.SaveValues`: saving merges the captured values into the
  tag's existing entry rather than replacing it. Keys the handler did not
  capture keep their earlier values; the saver factory is not part of this
  model, so this too is a modelling choice.
- `SetNavigation.ChangeCurrent` and `SetNavigation.ChangeValues`: under a
  DESTROYED host they send the non-current screens to DESTROYED
  (`Hidden(Destroyed)`), while `SetNavigation.HostMoveTo` to DESTROYED
  leaves them CREATED. No test covers a destroyed host, and the two
  behaviours are not reconciled.
- `MasterDetailNavigation.ChangeDetailKeepsSavers`: requires the new and
  the previous detail to have nothing attached below them, as freshly
  created children do.
- The navigator implementation files are not part of this model; the three
  navigators are modelled from their tests.
  - Key names are parameters: `DEFAULT_STACK_NAVIGATOR_BACKSTACK_STATE_KEY`
    and `DEFAULT_MASTER_DETAIL_NAVIGATOR_DETAIL_STATE_KEY`.
  - Flows such as `backStackFlow` and `detailFlow` are the navigator value.
  - `BackStackChange` payloads are not modelled.
- `StackNavigation.Push`, `StackNavigation.ReplaceTop` and
  `StackNavigation.ChangeBackStack`: require the screens of the new stack to
  be distinct. The tests never put a screen on the stack twice, and what a
  duplicate does is not visible.
- `StackNavigation.PopUntil`: states the resulting stack and states, not the
  single pops it may be built from. Its return value is not modelled, since
  the tests never read it.
- `SetNavigation.HostMoveTo`: only the current screen follows the host. A
  host that reaches DESTROYED leaves the other screens CREATED, and the tests
  do not say otherwise.
  - The navigator is hosted by a node, where the tests pass a bare
    lifecycle.
  - The `onChangeCurrent` callback is not modelled; `changeCurrent` is called
    directly.
  - The set navigator's saving and restoring are not modelled.
- `MasterDetailNavigation.ChangeDetailStates`: states nothing about
  `changeDetail` with the detail that is already shown. The model detaches
  it, which destroys it, and then attaches it again.
- `MasterDetailNavigation.ChangeDetail`: requires the new detail to be a
  child of the host distinct from the master, as every use in the tests is.
- `Lifecycle.ReceivedBroadcast` and `Lifecycle.RemovedHearsNothing`: require
  the observer to be registered at most once; with duplicates an observer
  hears each notification once per registration.
