/** Which components a resolution holds and in which order, in terms of the definitions alone. */
module ScopeRules {
  import opened ComponentRegistry
  import opened ScopeResolution

  /** The component belongs to the scope, and is shared or owned by a product the scope covers. */
  ghost predicate Wanted(d: Definition, scope: Scope, enabled: set<Product>) {
    && scope in d.scopes
    && (d.owner == Shared || (scope == PosScope && d.owner == Pos) || (scope == WmsScope && d.owner == Wms)
        || (scope == AllEnabled && d.owner in enabled))
  }

  /** A resolution holds exactly the wanted definitions of the registry. */
  lemma ResolvedAreWanted(r: Registry, scope: Scope, enabled: set<Product>)
    requires WellBuilt(r) && Resolve(r, Known(scope), enabled).Resolved?
    ensures forall d :: d in Resolve(r, Known(scope), enabled).definitions <==> d in r.definitions && Wanted(d, scope, enabled)
  {
    ResolvedIsExactClosedAndSorted(r, scope, enabled);
    hide Resolve, WellBuilt, Closed;
  }

  /** It is refused exactly for an unknown scope, a product that is none, a scope the business has not, or a wanted component with a need that is not wanted. */
  lemma RefusalsExactly(r: Registry, argument: ScopeArgument, enabled: set<Product>)
    requires WellBuilt(r)
    ensures Resolve(r, argument, enabled).Resolved? <==>
            && argument.Known? && Shared !in enabled
            && (argument.scope == PosScope ==> Pos in enabled) && (argument.scope == WmsScope ==> Wms in enabled)
            && (argument.scope == AllEnabled ==> enabled != {})
            && (forall d, n :: d in r.definitions && Wanted(d, argument.scope, enabled) && n in d.needs ==>
                  exists e :: e in r.definitions && e.key == n && Wanted(e, argument.scope, enabled))
  {
    if argument.Known? {
      ResolvesExactlyWhenClosed(r, argument.scope, enabled);
      var scope, keys, selected := argument.scope, KeyMap(r.definitions), SelectedProducts(argument.scope, enabled);
      hide Resolve, NeedsIncluded, Wanted, Cyclic, KnownDependencies, ModelsClassifiedOnce, DistinctKeys, KeyMap, SelectedProducts;
      if NeedsIncluded(r.definitions, keys, scope, selected) {
        IncludedMeansWanted(r.definitions, scope, enabled);
      }
      if NeedsWanted(r.definitions, scope, enabled) {
        WantedMeansIncluded(r.definitions, scope, enabled);
      }
    }
  }

  lemma WantedIsIncluded(d: Definition, scope: Scope, enabled: set<Product>)
    ensures Wanted(d, scope, enabled) <==> Included(d, scope, SelectedProducts(scope, enabled))
  {
  }

  lemma KeysFindDefinitions(ds: seq<Definition>, d: Definition)
    requires DistinctKeys(ds) && d in ds
    ensures d.key in KeyMap(ds) && KeyMap(ds)[d.key] == d
  {
    KeyMapIndexes(ds);
    hide KeyMap, DistinctKeys;
    var i :| 0 <= i < |ds| && ds[i] == d;
  }

  lemma FoundAreDefinitions(ds: seq<Definition>, n: string)
    requires DistinctKeys(ds) && n in KeyMap(ds)
    ensures KeyMap(ds)[n] in ds && KeyMap(ds)[n].key == n
  {
    KeyMapIndexes(ds);
  }

  ghost predicate NeedsWanted(ds: seq<Definition>, scope: Scope, enabled: set<Product>) {
    forall d, n :: d in ds && Wanted(d, scope, enabled) && n in d.needs ==>
                     exists e :: e in ds && e.key == n && Wanted(e, scope, enabled)
  }

  lemma IncludedMeansWanted(ds: seq<Definition>, scope: Scope, enabled: set<Product>)
    requires DistinctKeys(ds) && NeedsIncluded(ds, KeyMap(ds), scope, SelectedProducts(scope, enabled))
    ensures NeedsWanted(ds, scope, enabled)
  {
    hide KeyMap, DistinctKeys, Wanted, Included, SelectedProducts;
    forall d, n | d in ds && Wanted(d, scope, enabled) && n in d.needs
      ensures exists e :: e in ds && e.key == n && Wanted(e, scope, enabled)
    {
      WantedIsIncluded(d, scope, enabled);
      FoundAreDefinitions(ds, n);
      WantedIsIncluded(KeyMap(ds)[n], scope, enabled);
    }
  }

  lemma WantedMeansIncluded(ds: seq<Definition>, scope: Scope, enabled: set<Product>)
    requires DistinctKeys(ds) && NeedsWanted(ds, scope, enabled)
    ensures NeedsIncluded(ds, KeyMap(ds), scope, SelectedProducts(scope, enabled))
  {
    hide KeyMap, DistinctKeys, Wanted, Included, SelectedProducts;
    var selected := SelectedProducts(scope, enabled);
    forall d, n | d in ds && Included(d, scope, selected) && n in d.needs
      ensures n in KeyMap(ds) && Included(KeyMap(ds)[n], scope, selected)
    {
      WantedIsIncluded(d, scope, enabled);
      var e :| e in ds && e.key == n && Wanted(e, scope, enabled);
      KeysFindDefinitions(ds, e);
      WantedIsIncluded(e, scope, enabled);
    }
  }

  /** Export order is that of the order number, and of the key where numbers are equal. */
  lemma OrderExactly(a: Definition, b: Definition)
    ensures Before(a, b) <==> a.exportOrder < b.exportOrder || (a.exportOrder == b.exportOrder && KeyLess(a.key, b.key))
  {
    KeysAreOrdered(a.key, b.key);
  }

  /** The strings agree up to position `k`, where the first one ends or has the smaller character. */
  ghost predicate DiffersAt(a: string, b: string, k: nat) {
    && k <= |a| && k < |b| && a[..k] == b[..k] && (k == |a| || a[k] < b[k])
  }

  ghost predicate KeyLess(a: string, b: string) {
    exists k: nat :: DiffersAt(a, b, k)
  }

  lemma DiffersAfterEqual(a: string, b: string, k: nat)
    requires DiffersAt(a, b, k) && k > 0
    ensures a[0] == b[0]
  {
    assert a[..k][0] == b[..k][0];
  }

  lemma {:induction false} KeysAreOrdered(a: string, b: string)
    ensures StringLess(a, b) <==> KeyLess(a, b)
  {
    if a == "" && b != "" {
      assert DiffersAt(a, b, 0);
    } else if a != "" && b != "" {
      KeysAreOrdered(a[1..], b[1..]);
      if a[0] < b[0] {
        assert DiffersAt(a, b, 0);
      } else if a[0] == b[0] {
        if KeyLess(a[1..], b[1..]) {
          var k: nat :| DiffersAt(a[1..], b[1..], k);
          assert a[..k + 1] == [a[0]] + a[1..][..k] && b[..k + 1] == [b[0]] + b[1..][..k];
          assert DiffersAt(a, b, k + 1);
        }
        if KeyLess(a, b) {
          var k: nat :| DiffersAt(a, b, k);
          assert k > 0;
          assert a[1..][..k - 1] == a[..k][1..] && b[1..][..k - 1] == b[..k][1..];
          assert DiffersAt(a[1..], b[1..], k - 1);
        }
      } else {
        if k: nat :| DiffersAt(a, b, k) {
          DiffersAfterEqual(a, b, k);
        }
      }
    }
  }
}
