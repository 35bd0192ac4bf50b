/** Small sequence and option helpers shared by the lifecycle, the node tree
    and the navigators. */
module Common {

  /** Kotlin's nullable reference: `null` or a value. */
  datatype Option<+T> = None | Some(value: T)

  /** No element occurs twice. */
  predicate NoDup<T(==)>(s: seq<T>)
  {
    forall i, j :: 0 <= i < j < |s| ==> s[i] != s[j]
  }

  /** `MutableList.remove(x)`: drops the first occurrence of `x`, if any,
      keeping the order of the remaining elements. */
  function RemoveFirst<T(==)>(s: seq<T>, x: T): (r: seq<T>)
    ensures x !in s ==> r == s
    ensures x in s ==> |r| == |s| - 1
  {
    if s == [] then []
    else if s[0] == x then s[1..]
    else [s[0]] + RemoveFirst(s[1..], x)
  }

  /** Exactly one occurrence of `x` goes, if there is one. */
  lemma {:induction false} RemoveFirstMultiset<T>(s: seq<T>, x: T)
    ensures multiset(RemoveFirst(s, x)) == multiset(s) - multiset{x}
  {
    if s != [] {
      assert s == [s[0]] + s[1..];
      if s[0] != x {
        RemoveFirstMultiset(s[1..], x);
      }
    }
  }

  /** Removing never adds an element. */
  lemma RemoveFirstSubset<T>(s: seq<T>, x: T)
    ensures forall y :: y in RemoveFirst(s, x) ==> y in s
  {
    RemoveFirstMultiset(s, x);
    forall y | y in RemoveFirst(s, x)
      ensures y in s
    {
      assert y in multiset(RemoveFirst(s, x));
    }
  }

  /** On a list without duplicates, removing the first occurrence removes
      the element altogether and keeps the list free of duplicates. */
  lemma RemoveFirstNoDup<T>(s: seq<T>, x: T)
    requires NoDup(s)
    ensures NoDup(RemoveFirst(s, x))
    ensures forall y :: y in RemoveFirst(s, x) <==> y in s && y != x
  {
    var r := RemoveFirst(s, x);
    RemoveFirstMultiset(s, x);
    forall y ensures y in r <==> y in multiset(r)
    {
    }
    if s != [] && s[0] != x {
      assert NoDup(s[1..]);
      RemoveFirstNoDup(s[1..], x);
      var rest := RemoveFirst(s[1..], x);
      assert s[0] !in s[1..];
      assert s[0] !in rest;
      assert r == [s[0]] + rest;
    }
  }

  /** `RemoveFirst` cuts the list at the first occurrence of `x` and keeps
      both sides in order. */
  lemma {:induction false} RemoveFirstSplit<T>(s: seq<T>, x: T)
    ensures x !in s ==> RemoveFirst(s, x) == s
    ensures x in s ==>
              exists i :: 0 <= i < |s| && s[i] == x && x !in s[..i] && RemoveFirst(s, x) == s[..i] + s[i + 1..]
  {
    if x in s {
      if s[0] == x {
        RemoveFirstAt(s, x, 0);
      } else {
        var rest := s[1..];
        assert x in rest;
        RemoveFirstSplit(rest, x);
        var i :| 0 <= i < |rest| && rest[i] == x && x !in rest[..i];
        assert s[..i + 1] == [s[0]] + rest[..i];
        RemoveFirstAt(s, x, i + 1);
      }
    }
  }

  /** Removing `x` whose first occurrence is at `i` cuts the list there. */
  lemma {:induction false} RemoveFirstAt<T>(s: seq<T>, x: T, i: nat)
    requires i < |s| && s[i] == x && x !in s[..i]
    ensures RemoveFirst(s, x) == s[..i] + s[i + 1..]
  {
    if i == 0 {
      assert s[..0] == [];
    } else {
      assert s[0] in s[..i];
      var rest := s[1..];
      assert rest[..i - 1] == s[1..i];
      assert x !in rest[..i - 1];
      RemoveFirstAt(rest, x, i - 1);
      assert s[..i] == [s[0]] + rest[..i - 1];
      assert s[i + 1..] == rest[i..];
    }
  }

  /** Removing the first `x` from `a + [y]`: the appended element stays
      unless it is the first `x`. */
  lemma {:induction false} RemoveFirstAppend<T>(a: seq<T>, y: T, x: T)
    ensures RemoveFirst(a + [y], x) ==
              if x in a then RemoveFirst(a, x) + [y] else if y == x then a else a + [y]
  {
    var ay := a + [y];
    if a == [] {
      assert ay == [y] && ay[1..] == [];
    } else {
      assert ay[0] == a[0] && ay[1..] == a[1..] + [y];
      if a[0] == x {
        assert RemoveFirst(ay, x) == a[1..] + [y];
      } else {
        RemoveFirstAppend(a[1..], y, x);
        assert RemoveFirst(ay, x) == [a[0]] + RemoveFirst(a[1..] + [y], x);
        assert x in a <==> x in a[1..];
        if x in a[1..] {
          assert RemoveFirst(a, x) == [a[0]] + RemoveFirst(a[1..], x);
        }
      }
    }
  }

  /** The last element of a non-empty sequence. */
  function Last<T>(s: seq<T>): T
    requires |s| > 0
  {
    s[|s| - 1]
  }

  /** All elements except the last one. */
  function DropLast<T>(s: seq<T>): (r: seq<T>)
    requires |s| > 0
    ensures |r| == |s| - 1 && forall i :: 0 <= i < |r| ==> r[i] == s[i]
  {
    s[..|s| - 1]
  }

  /** The elements of `s` that do not occur in `keep`, in their order. */
  function Without<T(==,!new)>(s: seq<T>, keep: seq<T>): (r: seq<T>)
    ensures forall y :: y in r <==> y in s && y !in keep
  {
    if s == [] then []
    else if s[0] in keep then Without(s[1..], keep)
    else [s[0]] + Without(s[1..], keep)
  }

  lemma NoDupDropLast<T>(s: seq<T>)
    requires |s| > 0 && NoDup(s)
    ensures NoDup(DropLast(s)) && Last(s) !in DropLast(s)
  {
  }

  lemma NoDupCons<T>(x: T, s: seq<T>)
    requires x !in s && NoDup(s)
    ensures NoDup([x] + s)
  {
    var r := [x] + s;
    forall i, j | 0 <= i < j < |r|
      ensures r[i] != r[j]
    {
      if i == 0 {
        assert r[j] == s[j - 1];
      } else {
        assert r[i] == s[i - 1] && r[j] == s[j - 1];
      }
    }
  }

  lemma NoDupConcat<T>(a: seq<T>, b: seq<T>)
    requires NoDup(a) && NoDup(b)
    requires forall y :: y in a ==> y !in b
    ensures NoDup(a + b)
  {
    var r := a + b;
    forall i, j | 0 <= i < j < |r|
      ensures r[i] != r[j]
    {
      if j < |a| {
      } else if i >= |a| {
        assert r[i] == b[i - |a|] && r[j] == b[j - |a|];
      } else {
        assert r[i] == a[i] && r[j] == b[j - |a|];
        assert r[i] in a;
      }
    }
  }

  lemma NoDupSnoc<T>(s: seq<T>, x: T)
    requires x !in s && NoDup(s)
    ensures NoDup(s + [x])
  {
    var r := s + [x];
    forall i, j | 0 <= i < j < |r|
      ensures r[i] != r[j]
    {
      if j == |s| {
        assert r[i] == s[i];
      } else {
        assert r[i] == s[i] && r[j] == s[j];
      }
    }
  }

  lemma PrefixNoDup<T>(s: seq<T>, k: nat)
    requires k <= |s| && NoDup(s)
    ensures NoDup(s[..k])
  {
  }
}
