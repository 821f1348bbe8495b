/** Expanding permission keys into scopes and reading them back
    (util/permissions.go, util/reach.go). */
module Grants {
  import opened Results
  import opened Catalogue
  import opened Sorting

  function Elems(xs: seq<string>): set<string> { set x | x in xs }

  ghost predicate NoDup(xs: seq<string>) {
    forall i, j :: 0 <= i < j < |xs| ==> xs[i] != xs[j]
  }

  // --------------------------------------------------------------------- sorting

  /** Byte order. */
  predicate Precedes(a: string, b: string) {
    a == "" || (b != "" && (a[0] < b[0] || (a[0] == b[0] && Precedes(a[1..], b[1..]))))
  }

  lemma {:induction false} PrecedesTotal(a: string, b: string)
    ensures Precedes(a, b) || Precedes(b, a)
    ensures Precedes(a, b) && Precedes(b, a) ==> a == b
  {
    if a != "" && b != "" && a[0] == b[0] {
      PrecedesTotal(a[1..], b[1..]);
      assert a == [a[0]] + a[1..] && b == [b[0]] + b[1..];
    }
  }

  lemma {:induction false} PrecedesTransitive(a: string, b: string, c: string)
    requires Precedes(a, b) && Precedes(b, c)
    ensures Precedes(a, c)
  {
    if a != "" && a[0] == b[0] == c[0] {
      PrecedesTransitive(a[1..], b[1..], c[1..]);
    }
  }

  lemma PrecedesIsLinear()
    ensures LinearOrder(Precedes)
  {
    forall a, b ensures Precedes(a, b) || Precedes(b, a)
      ensures Precedes(a, b) && Precedes(b, a) ==> a == b
    {
      PrecedesTotal(a, b);
    }
    forall a, b, c | Precedes(a, b) && Precedes(b, c) ensures Precedes(a, c) {
      PrecedesTransitive(a, b, c);
    }
  }

  /** A sorted list without repetition is fixed by what it holds. */
  lemma SortedUnique(xs: seq<string>, ys: seq<string>)
    requires Sorted(Precedes, xs) && Sorted(Precedes, ys) && NoDup(xs) && NoDup(ys) && Elems(xs) == Elems(ys)
    ensures xs == ys
  {
    hide Precedes;
    PrecedesIsLinear();
    NoDupCounts(xs);
    NoDupCounts(ys);
    forall x ensures multiset(xs)[x] == multiset(ys)[x] {
      assert x in multiset(xs) <==> x in Elems(xs);
      assert x in multiset(ys) <==> x in Elems(ys);
    }
    SortedSame(Precedes, xs, ys);
  }

  lemma Twice(xs: seq<string>, i: nat, j: nat)
    requires i < j < |xs| && xs[i] == xs[j]
    ensures multiset(xs)[xs[i]] >= 2
  {
    assert xs == xs[..j] + xs[j..];
    assert xs[..j][i] == xs[i] && xs[j..][0] == xs[j];
    assert multiset(xs) == multiset(xs[..j]) + multiset(xs[j..]);
  }

  lemma SortKeeps(xs: seq<string>)
    ensures Elems(Sort(Precedes, xs)) == Elems(xs)
    ensures NoDup(xs) ==> NoDup(Sort(Precedes, xs))
  {
    var r := Sort(Precedes, xs);
    forall x ensures x in r <==> x in xs {
      assert x in r <==> x in multiset(r);
      assert x in xs <==> x in multiset(xs);
    }
    if NoDup(xs) {
      NoDupCounts(xs);
      CountsNoDup(r);
    }
  }

  lemma {:induction false} NoDupCounts(xs: seq<string>)
    requires NoDup(xs)
    ensures forall x :: multiset(xs)[x] <= 1
  {
    if xs != [] {
      assert xs == [xs[0]] + xs[1..];
      NoDupCounts(xs[1..]);
      assert xs[0] !in xs[1..];
    }
  }

  lemma CountsNoDup(xs: seq<string>)
    requires forall x :: multiset(xs)[x] <= 1
    ensures NoDup(xs)
  {
    forall i, j | 0 <= i < j < |xs| ensures xs[i] != xs[j] {
      if xs[i] == xs[j] { Twice(xs, i, j); }
    }
  }

  // ------------------------------------------------------- keys and their scopes

  /** The first catalogue entry of a key, from k on. */
  function EntryFrom(key: string, k: nat): (r: Option<nat>)
    requires k <= |Permissions()|
    ensures r.Some? ==> k <= r.value < |Permissions()| && Permissions()[r.value].key == key
    ensures r.None? ==> forall i :: k <= i < |Permissions()| ==> Permissions()[i].key != key
    decreases |Permissions()| - k
  {
    if k == |Permissions()| then None
    else if Permissions()[k].key == key then Some(k)
    else EntryFrom(key, k + 1)
  }

  predicate Known(key: string) { EntryFrom(key, 0).Some? }

  function ScopesOf(key: string): seq<string> {
    var e := EntryFrom(key, 0);
    if e.Some? then Permissions()[e.value].scopes else []
  }

  /** The scopes some key of a list stands for. */
  ghost predicate Grants(keys: seq<string>, s: string) {
    exists k :: 0 <= k < |keys| && s in ScopesOf(keys[k])
  }

  /** acc, followed by the new ones of xs, each once. */
  function Merge(acc: seq<string>, xs: seq<string>): (r: seq<string>)
    ensures forall x :: x in r <==> x in acc || x in xs
    ensures NoDup(acc) ==> NoDup(r)
  {
    if xs == [] then acc
    else
      var before, last := Merge(acc, xs[..|xs| - 1]), xs[|xs| - 1];
      assert xs == xs[..|xs| - 1] + [last];
      if last in before then before else before + [last]
  }

  function Gather(keys: seq<string>): (r: seq<string>)
    ensures NoDup(r)
  {
    if keys == [] then [] else Merge(Gather(keys[..|keys| - 1]), ScopesOf(keys[|keys| - 1]))
  }

  function Unknown(keys: seq<string>): (r: seq<string>)
    ensures forall x :: x in r <==> x in keys && !Known(x)
  {
    if keys == [] then []
    else
      assert keys == keys[..|keys| - 1] + [keys[|keys| - 1]];
      Unknown(keys[..|keys| - 1]) + if Known(keys[|keys| - 1]) then [] else [keys[|keys| - 1]]
  }

  function Expand(keys: seq<string>): seq<string> { Sort(Precedes, Gather(keys)) }

  method PermissionByKey(key: string) returns (perm: Option<Permission>)
    ensures perm == if Known(key) then Some(Permissions()[EntryFrom(key, 0).value]) else None
  {
    hide Permissions;
    for k := 0 to |Permissions()|
      invariant EntryFrom(key, 0) == EntryFrom(key, k)
    {
      if Permissions()[k].key == key {
        return Some(Permissions()[k]);
      }
    }
    return None;
  }

  lemma GatherSnoc(keys: seq<string>, k: nat)
    requires k < |keys|
    ensures Gather(keys[..k + 1]) == Merge(Gather(keys[..k]), ScopesOf(keys[k]))
    ensures Unknown(keys[..k + 1]) == Unknown(keys[..k]) + if Known(keys[k]) then [] else [keys[k]]
  {
    hide ScopesOf, Known, Merge;
    assert keys[..k + 1][..k] == keys[..k];
  }

  lemma MergeSnoc(acc: seq<string>, xs: seq<string>, j: nat)
    requires j < |xs|
    ensures Merge(acc, xs[..j + 1])
         == if xs[j] in Merge(acc, xs[..j]) then Merge(acc, xs[..j]) else Merge(acc, xs[..j]) + [xs[j]]
  {
    assert xs[..j + 1][..j] == xs[..j];
  }

  lemma NothingGathered(acc: seq<string>)
    ensures Gather([]) == [] && Unknown([]) == [] && Merge(acc, []) == acc
  {
  }

  method ExpandPermissions(keys: seq<string>) returns (scopes: seq<string>, unknown: seq<string>)
    ensures scopes == Expand(keys) && unknown == Unknown(keys)
  {
    hide Permissions, Known, Sort, Gather, Unknown, Merge, ScopesOf;
    var seen: set<string> := {};
    scopes, unknown := [], [];
    NothingGathered([]);
    for k := 0 to |keys|
      invariant scopes == Gather(keys[..k]) && unknown == Unknown(keys[..k])
      invariant seen == Elems(scopes)
    {
      GatherSnoc(keys, k);
      NothingGathered(scopes);
      KnownHas(keys[k]);
      var perm := PermissionByKey(keys[k]);
      if perm.None? {
        unknown := unknown + [keys[k]];
        continue;
      }
      ghost var before := scopes;
      for j := 0 to |perm.value.scopes|
        invariant scopes == Merge(before, perm.value.scopes[..j])
        invariant seen == Elems(scopes)
      {
        MergeSnoc(before, perm.value.scopes, j);
        var s := perm.value.scopes[j];
        if s !in seen {
          seen := seen + {s};
          scopes := scopes + [s];
        }
      }
      assert perm.value.scopes[..|perm.value.scopes|] == perm.value.scopes;
    }
    assert keys[..|keys|] == keys;
    scopes := Sort(Precedes, scopes);
  }

  lemma KnownHas(key: string)
    ensures ScopesOf(key) == if Known(key) then Permissions()[EntryFrom(key, 0).value].scopes else []
  {
    hide Permissions;
  }

  lemma {:induction false} GatherHolds(keys: seq<string>)
    ensures forall s :: s in Gather(keys) <==> Grants(keys, s)
  {
    hide ScopesOf;
    if keys != [] {
      var init, last := keys[..|keys| - 1], keys[|keys| - 1];
      GatherHolds(init);
      forall s ensures Grants(keys, s) <==> Grants(init, s) || s in ScopesOf(last) {
        if Grants(init, s) {
          var k :| 0 <= k < |init| && s in ScopesOf(init[k]);
          assert keys[k] == init[k];
        }
        if Grants(keys, s) {
          var k :| 0 <= k < |keys| && s in ScopesOf(keys[k]);
          assert k < |init| ==> init[k] == keys[k];
        }
      }
    }
  }

  /** What an expansion is: exactly the scopes of its known keys, in order, each once. */
  lemma ExpandHolds(keys: seq<string>)
    ensures Sorted(Precedes, Expand(keys)) && NoDup(Expand(keys))
    ensures forall s :: s in Expand(keys) <==> Grants(keys, s)
  {
    hide Sort, Gather, Grants;
    PrecedesIsLinear();
    SortSorts(Precedes, Gather(keys));
    SortKeeps(Gather(keys));
    GatherHolds(keys);
    forall s ensures s in Expand(keys) <==> s in Gather(keys) {
      assert s in Expand(keys) <==> s in Elems(Expand(keys));
      assert s in Gather(keys) <==> s in Elems(Gather(keys));
    }
  }
}
