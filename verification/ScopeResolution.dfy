/** Which components a backup scope includes, in export order. */
module ScopeResolution {
  import opened ComponentRegistry

  // ---- Export order: by (exportOrder, key), keys compared code point by code point ----

  predicate StringLess(a: string, b: string) {
    if b == "" then false
    else if a == "" then true
    else a[0] < b[0] || (a[0] == b[0] && StringLess(a[1..], b[1..]))
  }

  predicate Before(a: Definition, b: Definition) {
    a.exportOrder < b.exportOrder || (a.exportOrder == b.exportOrder && StringLess(a.key, b.key))
  }

  lemma {:induction false} StringLessIsTotal(a: string, b: string)
    ensures a == b || StringLess(a, b) || StringLess(b, a)
  {
    if a != "" && b != "" && a[0] == b[0] {
      StringLessIsTotal(a[1..], b[1..]);
      assert a == [a[0]] + a[1..] && b == [b[0]] + b[1..];
    }
  }

  lemma {:induction false} StringLessIsTransitive(a: string, b: string, c: string)
    requires StringLess(a, b) && StringLess(b, c)
    ensures StringLess(a, c)
  {
    if a != "" && a[0] == b[0] == c[0] {
      StringLessIsTransitive(a[1..], b[1..], c[1..]);
    }
  }

  lemma {:induction false} StringLessIsIrreflexive(a: string)
    ensures !StringLess(a, a)
  {
    if a != "" {
      StringLessIsIrreflexive(a[1..]);
    }
  }

  ghost predicate Sorted(ds: seq<Definition>) {
    forall i, j :: 0 <= i < j < |ds| ==> Before(ds[i], ds[j])
  }

  lemma SortedHasNoRepeats(ds: seq<Definition>)
    requires Sorted(ds)
    ensures forall i, j :: 0 <= i < j < |ds| ==> ds[i] != ds[j]
  {
    forall i, j | 0 <= i < j < |ds|
      ensures ds[i] != ds[j]
    {
      StringLessIsIrreflexive(ds[i].key);
    }
  }

  /** Where `d` goes: after everything that comes before it. */
  function Insert(d: Definition, ds: seq<Definition>): (r: seq<Definition>)
    ensures multiset(r) == multiset(ds) + multiset{d}
  {
    if ds == [] || !Before(ds[0], d) then
      assert [d] + ds == [d] + ds;
      [d] + ds
    else
      assert ds == [ds[0]] + ds[1..];
      [ds[0]] + Insert(d, ds[1..])
  }

  function SortForExport(ds: seq<Definition>): (r: seq<Definition>)
    ensures multiset(r) == multiset(ds)
  {
    if ds == [] then []
    else
      assert ds == [ds[0]] + ds[1..];
      Insert(ds[0], SortForExport(ds[1..]))
  }

  lemma BeforeIsTransitive(a: Definition, b: Definition, c: Definition)
    requires Before(a, b) && Before(b, c)
    ensures Before(a, c)
  {
    if a.exportOrder == b.exportOrder == c.exportOrder {
      StringLessIsTransitive(a.key, b.key, c.key);
    }
  }

  lemma {:induction false} InsertKeepsSorted(d: Definition, ds: seq<Definition>)
    requires Sorted(ds) && forall i :: 0 <= i < |ds| ==> ds[i].key != d.key
    ensures Sorted(Insert(d, ds))
  {
    if ds == [] {
    } else if !Before(ds[0], d) {
      StringLessIsTotal(ds[0].key, d.key);
      assert Before(d, ds[0]);
      forall i | 0 <= i < |ds|
        ensures Before(d, ds[i])
      {
        if i > 0 {
          BeforeIsTransitive(d, ds[0], ds[i]);
        }
      }
    } else {
      InsertKeepsSorted(d, ds[1..]);
      var rest := Insert(d, ds[1..]);
      forall i | 0 <= i < |rest|
        ensures Before(ds[0], rest[i])
      {
        assert rest[i] in multiset(rest);
        assert rest[i] == d || rest[i] in ds[1..];
      }
    }
  }

  lemma {:induction false} SortForExportSorts(ds: seq<Definition>)
    requires DistinctKeys(ds)
    ensures Sorted(SortForExport(ds))
  {
    if ds != [] {
      SortForExportSorts(ds[1..]);
      var rest := SortForExport(ds[1..]);
      forall i | 0 <= i < |rest|
        ensures rest[i].key != ds[0].key
      {
        assert rest[i] in multiset(rest);
        var j :| 0 <= j < |ds[1..]| && ds[1..][j] == rest[i];
        assert ds[0].key != ds[j + 1].key;
      }
      InsertKeepsSorted(ds[0], rest);
    }
  }

  // ---- Resolution ----

  datatype ResolutionError = UnknownScope | InvalidProduct | PosNotEnabled | WmsNotEnabled | NothingEnabled | MissingDependency

  datatype Resolution = Resolved(definitions: seq<Definition>) | Refused(error: ResolutionError)

  datatype ScopeArgument = Known(scope: Scope) | Unknown

  function SelectedProducts(scope: Scope, enabled: set<Product>): set<Product> {
    match scope
    case PosScope => {Pos}
    case WmsScope => {Wms}
    case AllEnabled => enabled
  }

  predicate Included(d: Definition, scope: Scope, selected: set<Product>) {
    scope in d.scopes && (d.owner == Shared || d.owner in selected)
  }

  function Select(ds: seq<Definition>, scope: Scope, selected: set<Product>): seq<Definition> {
    if ds == [] then []
    else (if Included(ds[0], scope, selected) then [ds[0]] else []) + Select(ds[1..], scope, selected)
  }

  predicate Closed(ds: seq<Definition>) {
    forall i :: 0 <= i < |ds| ==> forall n :: n in ds[i].needs ==> exists j :: 0 <= j < |ds| && ds[j].key == n
  }

  function Resolve(r: Registry, argument: ScopeArgument, enabled: set<Product>): Resolution {
    if argument.Unknown? then Refused(UnknownScope)
    else if Shared in enabled then Refused(InvalidProduct)
    else if argument.scope == PosScope && Pos !in enabled then Refused(PosNotEnabled)
    else if argument.scope == WmsScope && Wms !in enabled then Refused(WmsNotEnabled)
    else if argument.scope == AllEnabled && enabled == {} then Refused(NothingEnabled)
    else
      var chosen := Select(r.definitions, argument.scope, SelectedProducts(argument.scope, enabled));
      if Closed(chosen) then Resolved(SortForExport(chosen)) else Refused(MissingDependency)
  }

  lemma {:induction false} SelectIsExact(ds: seq<Definition>, scope: Scope, selected: set<Product>)
    ensures forall d :: d in Select(ds, scope, selected) <==> d in ds && Included(d, scope, selected)
    ensures DistinctKeys(ds) ==> DistinctKeys(Select(ds, scope, selected))
  {
    if ds != [] {
      SelectIsExact(ds[1..], scope, selected);
      assert ds == [ds[0]] + ds[1..];
      if DistinctKeys(ds) {
        var rest := Select(ds[1..], scope, selected);
        assert DistinctKeys(ds[1..]);
        forall i | 0 <= i < |rest|
          ensures rest[i].key != ds[0].key
        {
          assert rest[i] in rest;
          var j :| 0 <= j < |ds[1..]| && ds[1..][j] == rest[i];
          assert ds[0].key != ds[j + 1].key;
        }
      }
    }
  }

  lemma ClosedUnderPermutation(a: seq<Definition>, b: seq<Definition>)
    requires multiset(a) == multiset(b) && Closed(a)
    ensures Closed(b)
  {
    forall i, n | 0 <= i < |b| && n in b[i].needs
      ensures exists j :: 0 <= j < |b| && b[j].key == n
    {
      assert b[i] in multiset(a);
      var i' :| 0 <= i' < |a| && a[i'] == b[i];
      var j' :| 0 <= j' < |a| && a[j'].key == n;
      assert a[j'] in multiset(b);
      var j :| 0 <= j < |b| && b[j] == a[j'];
    }
  }

  lemma SameMembers(a: seq<Definition>, b: seq<Definition>)
    requires multiset(a) == multiset(b)
    ensures forall d :: d in a <==> d in b
  {
    forall d
      ensures d in a <==> d in b
    {
      assert d in multiset(a) <==> d in multiset(b);
    }
  }

  ghost predicate ScopeOpen(scope: Scope, enabled: set<Product>) {
    && Shared !in enabled
    && match scope
       case PosScope => Pos in enabled
       case WmsScope => Wms in enabled
       case AllEnabled => enabled != {}
  }

  /** Exactly the included components, each once, in strict export order. */
  ghost predicate ExactAndSorted(result: seq<Definition>, ds: seq<Definition>, scope: Scope, selected: set<Product>) {
    && Sorted(result)
    && (forall i, j :: 0 <= i < j < |result| ==> result[i] != result[j])
    && forall d :: d in result <==> d in ds && Included(d, scope, selected)
  }

  lemma SelectionIsSorted(ds: seq<Definition>, scope: Scope, selected: set<Product>)
    requires DistinctKeys(ds)
    ensures ExactAndSorted(SortForExport(Select(ds, scope, selected)), ds, scope, selected)
  {
    var chosen := Select(ds, scope, selected);
    SelectIsExact(ds, scope, selected);
    hide Select, Included, SortForExport;
    SortForExportSorts(chosen);
    SortedHasNoRepeats(SortForExport(chosen));
    hide Sorted, DistinctKeys;
    SameMembers(chosen, SortForExport(chosen));
  }

  lemma SelectionStaysClosed(ds: seq<Definition>, scope: Scope, selected: set<Product>)
    requires DistinctKeys(ds) && Closed(Select(ds, scope, selected))
    ensures Closed(SortForExport(Select(ds, scope, selected)))
  {
    hide Included, Closed, SortForExport, Select, Sorted;
    var chosen := Select(ds, scope, selected);
    SelectIsExact(ds, scope, selected);
    SortForExportSorts(chosen);
    ClosedUnderPermutation(chosen, SortForExport(chosen));
  }

  /**
   For an accepted registry a resolution holds exactly the included components, each once, in
   strict export order, together with everything they need.
   */
  lemma ResolvedIsExactClosedAndSorted(r: Registry, scope: Scope, enabled: set<Product>)
    requires WellBuilt(r) && Resolve(r, Known(scope), enabled).Resolved?
    ensures var ds := Resolve(r, Known(scope), enabled).definitions;
            ExactAndSorted(ds, r.definitions, scope, SelectedProducts(scope, enabled)) && Closed(ds)
  {
    hide ExactAndSorted, Select, Closed, SortForExport, KnownDependencies, Cyclic, Owns, ModelsClassifiedOnce, DistinctKeys;
    SelectionIsSorted(r.definitions, scope, SelectedProducts(scope, enabled));
    SelectionStaysClosed(r.definitions, scope, SelectedProducts(scope, enabled));
  }

  ghost predicate NeedsIncluded(ds: seq<Definition>, byKey: Definitions, scope: Scope, selected: set<Product>) {
    forall d, n :: d in ds && Included(d, scope, selected) && n in d.needs ==>
                     n in byKey && Included(byKey[n], scope, selected)
  }

  lemma ClosedMeansNeedsIncluded(ds: seq<Definition>, scope: Scope, selected: set<Product>)
    requires DistinctKeys(ds) && Closed(Select(ds, scope, selected))
    ensures NeedsIncluded(ds, KeyMap(ds), scope, selected)
  {
    var chosen := Select(ds, scope, selected);
    SelectIsExact(ds, scope, selected);
    KeyMapIndexes(ds);
    hide Included, KeyMap, Select;
    forall d, n | d in ds && Included(d, scope, selected) && n in d.needs
      ensures n in KeyMap(ds) && Included(KeyMap(ds)[n], scope, selected)
    {
      assert d in chosen;
      var i :| 0 <= i < |chosen| && chosen[i] == d;
      var j :| 0 <= j < |chosen| && chosen[j].key == n;
      assert chosen[j] in chosen;
      var k :| 0 <= k < |ds| && ds[k] == chosen[j];
    }
  }

  lemma NeedsIncludedMeansClosed(ds: seq<Definition>, scope: Scope, selected: set<Product>)
    requires DistinctKeys(ds) && NeedsIncluded(ds, KeyMap(ds), scope, selected)
    ensures Closed(Select(ds, scope, selected))
  {
    var chosen := Select(ds, scope, selected);
    SelectIsExact(ds, scope, selected);
    KeyMapIndexes(ds);
    hide Included, KeyMap, Select;
    forall i, n | 0 <= i < |chosen| && n in chosen[i].needs
      ensures exists j :: 0 <= j < |chosen| && chosen[j].key == n
    {
      assert chosen[i] in chosen;
      assert KeyMap(ds)[n] in chosen && KeyMap(ds)[n].key == n;
    }
  }

  /** Resolution is refused exactly when the scope is closed to the business or a need is not included. */
  lemma ResolvesExactlyWhenClosed(r: Registry, scope: Scope, enabled: set<Product>)
    requires WellBuilt(r)
    ensures Resolve(r, Known(scope), enabled).Resolved? <==>
            ScopeOpen(scope, enabled) && NeedsIncluded(r.definitions, r.byKey, scope, SelectedProducts(scope, enabled))
  {
    var selected := SelectedProducts(scope, enabled);
    hide Select, Closed, NeedsIncluded, KeyMap;
    if Closed(Select(r.definitions, scope, selected)) {
      ClosedMeansNeedsIncluded(r.definitions, scope, selected);
    }
    if NeedsIncluded(r.definitions, r.byKey, scope, selected) {
      NeedsIncludedMeansClosed(r.definitions, scope, selected);
    }
  }
}
