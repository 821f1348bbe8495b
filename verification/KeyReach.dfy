/** Keys hold no scope of the vault: what a grant asks of it is split off and kept
    as reach (util/reach.go, util/permissions.go). */
module KeyReach {
  import opened Results
  import opened Catalogue
  import opened Grants
  import opened Surfaces

  datatype Access = NoAccess | ReadAccess | WriteAccess

  predicate IsVaultKey(key: string) { key == VAULT_READ || key == VAULT_WRITE }

  function Rest(keys: seq<string>): (r: seq<string>)
    ensures forall k :: k in r <==> k in keys && !IsVaultKey(k)
  {
    if keys == [] then []
    else
      assert keys == keys[..|keys| - 1] + [keys[|keys| - 1]];
      Rest(keys[..|keys| - 1]) + if IsVaultKey(keys[|keys| - 1]) then [] else [keys[|keys| - 1]]
  }

  /** Write implies read, in whatever order the keys come. */
  function Asked(keys: seq<string>): Access {
    if VAULT_WRITE in keys then WriteAccess else if VAULT_READ in keys then ReadAccess else NoAccess
  }

  method SplitVaultPermissions(keys: seq<string>) returns (rest: seq<string>, access: Access)
    ensures rest == Rest(keys) && access == Asked(keys)
  {
    rest, access := [], NoAccess;
    for k := 0 to |keys|
      invariant rest == Rest(keys[..k]) && access == Asked(keys[..k])
    {
      assert keys[..k + 1][..k] == keys[..k];
      assert keys[..k + 1] == keys[..k] + [keys[k]];
      if keys[k] == VAULT_WRITE {
        access := WriteAccess;
      } else if keys[k] == VAULT_READ {
        if access == NoAccess {
          access := ReadAccess;
        }
      } else {
        rest := rest + [keys[k]];
      }
    }
    assert keys[..|keys|] == keys;
  }

  predicate HeldEntry(entry: Permission, scopes: seq<string>, access: Access) {
    if entry.key == VAULT_READ then access != NoAccess
    else if entry.key == VAULT_WRITE then access == WriteAccess
    else Complete(entry, scopes)
  }

  function HeldUpTo(scopes: seq<string>, access: Access, k: nat): (r: seq<string>)
    requires k <= |Permissions()|
    ensures forall x :: x in r <==>
              exists i :: 0 <= i < k && Permissions()[i].key == x && HeldEntry(Permissions()[i], scopes, access)
  {
    if k == 0 then []
    else if HeldEntry(Permissions()[k - 1], scopes, access) then
      HeldUpTo(scopes, access, k - 1) + [Permissions()[k - 1].key]
    else HeldUpTo(scopes, access, k - 1)
  }

  function Held(scopes: seq<string>, access: Access): seq<string> { HeldUpTo(scopes, access, |Permissions()|) }

  method HeldPermissions(scopes: seq<string>, vaultAccess: Access) returns (out: seq<string>)
    ensures out == Held(scopes, vaultAccess)
  {
    hide Permissions;
    out := [];
    for k := 0 to |Permissions()|
      invariant out == HeldUpTo(scopes, vaultAccess, k)
    {
      var p := Permissions()[k];
      if p.key == VAULT_READ {
        if vaultAccess != NoAccess {
          out := out + [p.key];
        }
        continue;
      }
      if p.key == VAULT_WRITE {
        if vaultAccess == WriteAccess {
          out := out + [p.key];
        }
        continue;
      }
      var all := HasAllScopes(scopes, p.scopes);
      if |p.scopes| > 0 && all {
        out := out + [p.key];
      }
    }
  }

  /** The scopes of an entry that a set has and acc has not, after acc. */
  function Picked(acc: seq<string>, of: seq<string>, scopes: seq<string>): (r: seq<string>)
    ensures forall s :: s in r <==> s in acc || (s in of && s in scopes)
    ensures NoDup(acc) ==> NoDup(r)
  {
    if of == [] then acc
    else
      var before, last := Picked(acc, of[..|of| - 1], scopes), of[|of| - 1];
      assert of == of[..|of| - 1] + [last];
      if last in scopes && last !in before then before + [last] else before
  }

  /** What only a person may hold, out of a scope set, in the catalogue's order. */
  function MembersOnlyUpTo(scopes: seq<string>, k: nat): (r: seq<string>)
    requires k <= |Permissions()|
    ensures NoDup(r)
    ensures forall s :: s in r <==>
              s in scopes && exists i :: 0 <= i < k && Permissions()[i].membersOnly && s in Permissions()[i].scopes
  {
    if k == 0 then []
    else
      var before, p := MembersOnlyUpTo(scopes, k - 1), Permissions()[k - 1];
      if p.membersOnly then Picked(before, p.scopes, scopes) else before
  }

  lemma MembersOnlyIsVault(scopes: seq<string>)
    ensures forall s :: s in MembersOnlyUpTo(scopes, |Permissions()|) <==> s in scopes && s in VAULT_SCOPES
  {
    hide Permissions;
    VaultEntries();
  }

  method MembersOnlyScopes(scopes: seq<string>) returns (out: seq<string>)
    ensures out == MembersOnlyUpTo(scopes, |Permissions()|)
    ensures forall s :: s in out <==> s in scopes && s in VAULT_SCOPES
  {
    hide Permissions;
    MembersOnlyIsVault(scopes);
    out := [];
    for k := 0 to |Permissions()|
      invariant out == MembersOnlyUpTo(scopes, k)
    {
      var p := Permissions()[k];
      if !p.membersOnly {
        continue;
      }
      for i := 0 to |p.scopes|
        invariant out == Picked(MembersOnlyUpTo(scopes, k), p.scopes[..i], scopes)
      {
        assert p.scopes[..i + 1][..i] == p.scopes[..i];
        var s := p.scopes[i];
        if s in scopes && s !in out {
          out := out + [s];
        }
      }
      assert p.scopes[..|p.scopes|] == p.scopes;
    }
  }

  lemma HeldMeans(scopes: seq<string>, access: Access, key: string)
    ensures key in Held(scopes, access) <==>
              if key == VAULT_READ then access != NoAccess
              else if key == VAULT_WRITE then access == WriteAccess
              else key in SurfaceKeys(scopes)
  {
    hide Permissions;
    VaultEntries();
    if key == VAULT_READ {
      assert Permissions()[0].key == key;
    } else if key == VAULT_WRITE {
      assert Permissions()[1].key == key;
    } else if key in SurfaceKeys(scopes) {
      var i :| 0 <= i < |Permissions()| && Permissions()[i].key == key && Complete(Permissions()[i], scopes);
      assert HeldEntry(Permissions()[i], scopes, access);
    }
  }

  /** Outside the vault, no permission stands for a scope of it. */
  lemma NoVaultScope(key: string)
    requires !IsVaultKey(key)
    ensures forall s :: s in ScopesOf(key) ==> s !in VAULT_SCOPES
  {
    hide Permissions;
    VaultEntries();
    OtherEntriesHoldNoVaultScope();
    KnownHas(key);
  }

  lemma VaultScopesOfVaultKey(key: string)
    requires IsVaultKey(key)
    ensures forall s :: s in ScopesOf(key) ==> s in VAULT_SCOPES
  {
    hide Permissions;
    VaultEntries();
    EntryIs(key, if key == VAULT_READ then 0 else 1);
    KnownHas(key);
  }

  /** What is left after the split expands to exactly the scopes outside the vault. */
  lemma RestExpands(keys: seq<string>)
    ensures forall s :: s in Expand(Rest(keys)) <==> s in Expand(keys) && s !in VAULT_SCOPES
  {
    hide Permissions, Expand, ScopesOf, Rest;
    ExpandHolds(keys);
    ExpandHolds(Rest(keys));
    forall s ensures Grants.Grants(Rest(keys), s) <==> Grants.Grants(keys, s) && s !in VAULT_SCOPES {
      if Grants.Grants(Rest(keys), s) {
        var k :| 0 <= k < |Rest(keys)| && s in ScopesOf(Rest(keys)[k]);
        var key := Rest(keys)[k];
        assert key in keys && !IsVaultKey(key);
        NoVaultScope(key);
        var j :| 0 <= j < |keys| && keys[j] == key;
      }
      if Grants.Grants(keys, s) && s !in VAULT_SCOPES {
        var k :| 0 <= k < |keys| && s in ScopesOf(keys[k]);
        if IsVaultKey(keys[k]) {
          VaultScopesOfVaultKey(keys[k]);
        } else {
          assert keys[k] in Rest(keys);
          var j :| 0 <= j < |Rest(keys)| && Rest(keys)[j] == keys[k];
        }
      }
    }
  }

  /** A grant split into scopes and reach reads back as what was asked: every key of
      it, write with read, and beyond the vault just what its expansion satisfies. */
  lemma SplitReadsBack(keys: seq<string>, key: string)
    requires AllKnown(keys)
    ensures
      var held := Held(Expand(Rest(keys)), Asked(keys));
      && (key in keys ==> key in held)
      && (VAULT_READ in held <==> VAULT_READ in keys || VAULT_WRITE in keys)
      && (VAULT_WRITE in held <==> VAULT_WRITE in keys)
      && (!IsVaultKey(key) ==> (key in held <==> key in SurfaceKeys(Expand(keys))))
  {
    hide Permissions, Expand, ScopesOf, Rest, Held, SurfaceKeys, Known;
    HeldMeans(Expand(Rest(keys)), Asked(keys), VAULT_READ);
    HeldMeans(Expand(Rest(keys)), Asked(keys), VAULT_WRITE);
    HeldMeans(Expand(Rest(keys)), Asked(keys), key);
    if !IsVaultKey(key) {
      RestExpands(keys);
      NoVaultScope(key);
      HeldMeansScopes(key, Expand(Rest(keys)));
      HeldMeansScopes(key, Expand(keys));
      ExpansionIsAdjoint(keys, Expand(keys));
      assert Within(Expand(keys), Expand(keys));
    }
  }
}
