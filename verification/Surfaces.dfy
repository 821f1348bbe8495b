/** Reading a stored scope set back as permissions, and splitting a key's grant into
    scopes and reach (util/permissions.go, util/reach.go). */
module Surfaces {
  import opened Results
  import opened Catalogue
  import opened Grants
  import opened Sorting

  // ------------------------------------------------------------- filters of lists

  function Missing(granter: seq<string>, want: seq<string>): (r: seq<string>)
    ensures forall s :: s in r <==> s in want && s !in granter
  {
    if want == [] then []
    else
      assert want == want[..|want| - 1] + [want[|want| - 1]];
      Missing(granter, want[..|want| - 1]) + if want[|want| - 1] in granter then [] else [want[|want| - 1]]
  }

  method MissingScopes(granter: seq<string>, want: seq<string>) returns (missing: seq<string>)
    ensures missing == Missing(granter, want)
  {
    missing := [];
    for i := 0 to |want|
      invariant missing == Missing(granter, want[..i])
    {
      assert want[..i + 1][..i] == want[..i];
      if want[i] !in granter {
        missing := missing + [want[i]];
      }
    }
    assert want[..|want|] == want;
  }

  method HasAllScopes(have: seq<string>, want: seq<string>) returns (all: bool)
    ensures all <==> forall s :: s in want ==> s in have
  {
    for i := 0 to |want|
      invariant forall j :: 0 <= j < i ==> want[j] in have
    {
      if want[i] !in have {
        return false;
      }
    }
    return true;
  }

  /** The values that are scopes, in order. */
  function ScopesIn(values: seq<string>): (r: seq<string>)
    ensures forall s :: s in r <==> s in values && s in AllScopes()
  {
    if values == [] then []
    else
      assert values == values[..|values| - 1] + [values[|values| - 1]];
      ScopesIn(values[..|values| - 1]) + if values[|values| - 1] in AllScopes() then [values[|values| - 1]] else []
  }

  method KnownScopes(values: seq<string>) returns (out: seq<string>)
    ensures out == ScopesIn(values)
  {
    hide AllScopes;
    out := [];
    for i := 0 to |values|
      invariant out == ScopesIn(values[..i])
    {
      assert values[..i + 1][..i] == values[..i];
      if values[i] in AllScopes() {
        out := out + [values[i]];
      }
    }
    assert values[..|values|] == values;
  }

  predicate Meaningless(value: string) { !Known(value) && value !in AllScopes() }

  /** The values that are neither a permission nor a scope, in order. */
  function MeaninglessIn(values: seq<string>): seq<string> {
    if values == [] then []
    else
      MeaninglessIn(values[..|values| - 1]) + if Meaningless(values[|values| - 1]) then [values[|values| - 1]] else []
  }

  lemma {:induction false} MeaninglessInHolds(values: seq<string>)
    ensures forall s :: s in MeaninglessIn(values) <==> s in values && Meaningless(s)
  {
    hide Meaningless;
    if values != [] {
      MeaninglessInHolds(values[..|values| - 1]);
      assert values == values[..|values| - 1] + [values[|values| - 1]];
    }
  }

  method UnknownScopes(values: seq<string>) returns (out: seq<string>)
    ensures out == MeaninglessIn(values)
    ensures forall s :: s in out <==> s in values && Meaningless(s)
  {
    hide AllScopes, Known, Permissions;
    MeaninglessInHolds(values);
    out := [];
    for i := 0 to |values|
      invariant out == MeaninglessIn(values[..i])
    {
      assert values[..i + 1][..i] == values[..i];
      var perm := PermissionByKey(values[i]);
      if perm.Some? {
        continue;
      }
      if values[i] in AllScopes() {
        continue;
      }
      out := out + [values[i]];
    }
    assert values[..|values|] == values;
  }

  // -------------------------------------------------------------- what a set holds

  predicate Complete(entry: Permission, scopes: seq<string>) {
    entry.scopes != [] && forall i :: 0 <= i < |entry.scopes| ==> entry.scopes[i] in scopes
  }

  /** The keys of the first k catalogue entries a scope set holds in full. */
  function SurfacesUpTo(scopes: seq<string>, k: nat): (r: seq<string>)
    requires k <= |Permissions()|
    ensures forall x ::
              x in r <==> exists i :: 0 <= i < k && Permissions()[i].key == x && Complete(Permissions()[i], scopes)
  {
    if k == 0 then []
    else if Complete(Permissions()[k - 1], scopes) then SurfacesUpTo(scopes, k - 1) + [Permissions()[k - 1].key]
    else SurfacesUpTo(scopes, k - 1)
  }

  function SurfaceKeys(scopes: seq<string>): seq<string> { SurfacesUpTo(scopes, |Permissions()|) }

  method SurfacesFor(scopes: seq<string>) returns (granted: seq<string>)
    ensures granted == SurfaceKeys(scopes)
  {
    hide Permissions;
    granted := [];
    for k := 0 to |Permissions()|
      invariant granted == SurfacesUpTo(scopes, k)
    {
      var p := Permissions()[k];
      if |p.scopes| == 0 {
        continue;
      }
      var complete := true;
      for i := 0 to |p.scopes|
        invariant complete
        invariant forall j :: 0 <= j < i ==> p.scopes[j] in scopes
      {
        if p.scopes[i] !in scopes {
          complete := false;
          break;
        }
      }
      if complete {
        granted := granted + [p.key];
      }
    }
  }

  /** Whether a scope set can extend and revoke other people's access. */
  method IsAdminScopeSet(scopes: seq<string>) returns (admin: bool)
    ensures admin <==> MEMBERS_ADD in SurfaceKeys(scopes) && MEMBERS_REMOVE in SurfaceKeys(scopes)
  {
    hide Permissions, Known, SurfaceKeys, ScopesOf;
    var keys := [MEMBERS_ADD, MEMBERS_REMOVE];
    AdminKeysKnown();
    HeldMeansScopes(MEMBERS_ADD, scopes);
    HeldMeansScopes(MEMBERS_REMOVE, scopes);
    for k := 0 to |keys|
      invariant forall j :: 0 <= j < k ==> keys[j] in SurfaceKeys(scopes)
    {
      var perm := PermissionByKey(keys[k]);
      KnownHas(keys[k]);
      if perm.None? {
        return false;
      }
      for i := 0 to |perm.value.scopes|
        invariant forall j :: 0 <= j < i ==> perm.value.scopes[j] in scopes
      {
        if perm.value.scopes[i] !in scopes {
          return false;
        }
      }
      assert keys[k] in SurfaceKeys(scopes);
    }
    assert keys[0] in SurfaceKeys(scopes) && keys[1] in SurfaceKeys(scopes);
    return true;
  }

  lemma AdminKeysKnown()
    ensures Known(MEMBERS_ADD) && Known(MEMBERS_REMOVE)
  {
    assert Permissions()[17].key == MEMBERS_ADD && Permissions()[18].key == MEMBERS_REMOVE;
  }

  lemma EntryIs(key: string, i: nat)
    requires i < |Permissions()| && Permissions()[i].key == key
    ensures EntryFrom(key, 0) == Some(i)
  {
    hide Permissions;
    KeysAreDistinct();
  }

  /** A known key is held exactly when all its scopes are. */
  lemma HeldMeansScopes(key: string, scopes: seq<string>)
    ensures key in SurfaceKeys(scopes) <==> Known(key) && forall s :: s in ScopesOf(key) ==> s in scopes
  {
    hide Permissions;
    EveryEntryHasScopes();
    if key in SurfaceKeys(scopes) {
      var i :| 0 <= i < |Permissions()| && Permissions()[i].key == key && Complete(Permissions()[i], scopes);
      EntryIs(key, i);
    }
    if Known(key) && forall s :: s in ScopesOf(key) ==> s in scopes {
      var i := EntryFrom(key, 0).value;
      assert Complete(Permissions()[i], scopes);
    }
  }

  ghost predicate AllKnown(keys: seq<string>) {
    forall k :: 0 <= k < |keys| ==> Known(keys[k])
  }

  ghost predicate Within(xs: seq<string>, ys: seq<string>) {
    forall x :: x in xs ==> x in ys
  }

  /** Expansion and surfaces are a Galois connection: an expansion is within a scope
      set exactly when every key is among what the set satisfies. */
  lemma ExpansionIsAdjoint(keys: seq<string>, scopes: seq<string>)
    requires AllKnown(keys)
    ensures Within(Expand(keys), scopes) <==> Within(keys, SurfaceKeys(scopes))
  {
    hide Expand, SurfaceKeys, Known, ScopesOf;
    ExpandHolds(keys);
    forall key ensures key in SurfaceKeys(scopes) <==> Known(key) && forall s :: s in ScopesOf(key) ==> s in scopes {
      HeldMeansScopes(key, scopes);
    }
    if Within(Expand(keys), scopes) {
      forall key | key in keys ensures key in SurfaceKeys(scopes) {
        forall s | s in ScopesOf(key) ensures s in scopes {
          assert Grants.Grants(keys, s);
        }
      }
    }
    if Within(keys, SurfaceKeys(scopes)) {
      forall s | s in Expand(keys) ensures s in scopes {
        var k :| 0 <= k < |keys| && s in ScopesOf(keys[k]);
      }
    }
  }

  lemma SurfacesAreKnown(scopes: seq<string>)
    ensures AllKnown(SurfaceKeys(scopes))
  {
    hide SurfaceKeys, Known, ScopesOf;
    forall k | 0 <= k < |SurfaceKeys(scopes)| ensures Known(SurfaceKeys(scopes)[k]) {
      HeldMeansScopes(SurfaceKeys(scopes)[k], scopes);
    }
  }

  /** Reading an expansion back and expanding again changes nothing. */
  lemma ExpandSurfacesExpand(keys: seq<string>)
    requires AllKnown(keys)
    ensures Expand(SurfaceKeys(Expand(keys))) == Expand(keys)
  {
    hide Expand, SurfaceKeys, Known, Sorted, NoDup;
    var scopes := Expand(keys);
    var back := SurfaceKeys(scopes);
    SurfacesAreKnown(scopes);
    ExpansionIsAdjoint(back, scopes);
    ExpansionIsAdjoint(keys, scopes);
    ExpansionIsAdjoint(keys, Expand(back));
    ExpansionIsAdjoint(back, Expand(back));
    assert Within(keys, back);
    assert Within(back, SurfaceKeys(Expand(back)));
    assert Elems(Expand(back)) == Elems(scopes);
    ExpandHolds(keys);
    ExpandHolds(back);
    SortedUnique(Expand(back), scopes);
  }
}
