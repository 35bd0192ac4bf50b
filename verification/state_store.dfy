/** The keyed state store: saved values addressed by a node's tag and a key.

    Values are opaque to the core except for the node descriptions the
    navigators save. */
module StateStore {
  import opened Common

  /** `PmDescription`: the immutable identity of a node; its `key` is the
      last segment of the node's tag. */
  datatype Description = Description(key: string)

  /** A saved value. */
  datatype Value =
    | DescriptionList(descriptions: seq<Description>)
    | OptionalDescription(description: Option<Description>)
    | Opaque(payload: string)

  /** A node's tag, its address in the store. */
  type Tag = string

  /** The values saved for one tag, by key. */
  type Entry = map<string, Value>

  type Store = map<Tag, Entry>

  /** The tag of a child: the parent's tag, a slash and the child's key. */
  function ChildTag(parentTag: Tag, key: string): (tag: Tag)
    ensures |tag| == |parentTag| + 1 + |key|
    ensures tag[..|parentTag|] == parentTag && tag[|parentTag|] == '/'
    ensures tag[|parentTag| + 1..] == key
  {
    parentTag + "/" + key
  }

  /** Two children of the same parent share a tag exactly when their keys
      are equal. */
  lemma ChildTagInjective(parentTag: Tag, k1: string, k2: string)
    ensures ChildTag(parentTag, k1) == ChildTag(parentTag, k2) <==> k1 == k2
  {
    if ChildTag(parentTag, k1) == ChildTag(parentTag, k2) {
      assert k1 == ChildTag(parentTag, k1)[|parentTag| + 1..];
    }
  }

  /** The values saved for a tag; nothing saved reads as an empty entry. */
  function EntryOf(store: Store, tag: Tag): Entry
  {
    if tag in store then store[tag] else map[]
  }

  /** `getSaved(key)` on the handler of `tag`. */
  function GetSaved(store: Store, tag: Tag, key: string): (v: Option<Value>)
    ensures v.Some? <==> tag in store && key in store[tag]
    ensures v.Some? ==> v.value == store[tag][key]
  {
    if tag in store && key in store[tag] then Some(store[tag][key]) else None
  }

  /** Creating the state saver of a node opens an empty entry for its tag,
      keeping whatever was saved there before (that is what a restore
      reads). */
  function CreateSaver(store: Store, tag: Tag): (r: Store)
    ensures r.Keys == store.Keys + {tag}
    ensures r[tag] == EntryOf(store, tag)
    ensures forall k :: k in store ==> r[k] == store[k]
  {
    store[tag := EntryOf(store, tag)]
  }

  /** A handler's `saveState`: the captured values are written under the
      tag, replacing older values of the same keys. */
  function SaveValues(store: Store, tag: Tag, values: Entry): (r: Store)
    ensures r.Keys == store.Keys + {tag}
    ensures r[tag].Keys == EntryOf(store, tag).Keys + values.Keys
    ensures forall key :: key in values ==> r[tag][key] == values[key]
    ensures forall key :: key in EntryOf(store, tag) && key !in values ==>
              r[tag][key] == EntryOf(store, tag)[key]
    ensures forall k :: k in store && k != tag ==> r[k] == store[k]
  {
    store[tag := EntryOf(store, tag) + values]
  }

  /** Deleting the state saver of a destroyed node drops its entry. */
  function DeleteSaver(store: Store, tag: Tag): (r: Store)
    ensures r.Keys == store.Keys - {tag}
    ensures forall k :: k in r ==> r[k] == store[k]
  {
    store - {tag}
  }

  /** What was saved can be read back. */
  lemma SaveThenGet(store: Store, tag: Tag, values: Entry, key: string)
    ensures GetSaved(SaveValues(store, tag, values), tag, key) ==
              if key in values then Some(values[key]) else GetSaved(store, tag, key)
  {
  }
}
