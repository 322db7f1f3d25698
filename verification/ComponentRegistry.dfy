/**
 The registry of backup components: construction, the dependency check, scope resolution,
 and the discovery of tenant-related models.
 */
module ComponentRegistry {
  datatype Product = Shared | Pos | Wms

  datatype Scope = PosScope | WmsScope | AllEnabled

  datatype Definition = Definition(
    key: string,
    owner: Product,
    models: seq<string>,
    needs: seq<string>,
    exportOrder: int,
    scopes: set<Scope>)

  type Definitions = map<string, Definition>

  // ---- Dependency graph ----

  predicate Edge(defs: Definitions, a: string, b: string) {
    a in defs && b in defs[a].needs
  }

  ghost predicate Chain(defs: Definitions, p: seq<string>) {
    forall i :: 0 <= i < |p| - 1 ==> Edge(defs, p[i], p[i + 1])
  }

  ghost predicate Cyclic(defs: Definitions) {
    exists p :: |p| >= 2 && Chain(defs, p) && p[0] == p[|p| - 1]
  }

  ghost predicate KnownDependencies(defs: Definitions) {
    forall a, b :: Edge(defs, a, b) ==> b in defs
  }

  /** Every component of `order` comes after the components it needs. */
  ghost predicate DependencyOrder(defs: Definitions, order: seq<string>) {
    forall i :: 0 <= i < |order| ==>
                  order[i] in defs && forall d :: d in defs[order[i]].needs ==> d in order[..i]
  }

  ghost function FirstIndex(order: seq<string>, x: string): (i: nat)
    requires x in order
    ensures i < |order| && order[i] == x && x !in order[..i]
  {
    if order[0] == x then 0 else 1 + FirstIndex(order[1..], x)
  }

  /** Along a chain the first positions in a dependency order only go down. */
  lemma {:induction false} ChainDescends(defs: Definitions, order: seq<string>, p: seq<string>)
    requires DependencyOrder(defs, order) && Chain(defs, p) && |p| >= 2 && p[0] in order
    ensures p[|p| - 1] in order && FirstIndex(order, p[|p| - 1]) < FirstIndex(order, p[0])
  {
    var i := FirstIndex(order, p[0]);
    assert Edge(defs, p[0], p[1]) && p[1] in order[..i];
    assert FirstIndex(order, p[1]) < i;
    if |p| > 2 {
      ChainDescends(defs, order, p[1..]);
    }
  }

  lemma OrderedIsAcyclic(defs: Definitions, order: seq<string>)
    requires DependencyOrder(defs, order) && forall a :: a in defs ==> a in order
    ensures !Cyclic(defs)
  {
    if Cyclic(defs) {
      var p :| |p| >= 2 && Chain(defs, p) && p[0] == p[|p| - 1];
      assert Edge(defs, p[0], p[1]);
      ChainDescends(defs, order, p);
    }
  }

  /** The two sets of the depth-first check, with the order in which components are finished. */
  class DependencyCheck {
    const defs: Definitions
    var visiting: set<string>
    var visited: set<string>
    ghost var finished: seq<string>

    constructor (defs: Definitions)
      ensures this.defs == defs && visiting == {} && visited == {} && finished == []
    {
      this.defs := defs;
      visiting, visited, finished := {}, {}, [];
    }

    ghost predicate Valid()
      reads this
    {
      && KnownDependencies(defs)
      && visiting <= defs.Keys && visited <= defs.Keys && visiting !! visited
      && (forall x :: x in finished <==> x in visited)
      && DependencyOrder(defs, finished)
    }

    /** `path` leads to `key` through the components being visited. */
    ghost predicate OnPath(path: seq<string>, key: string)
      reads this
    {
      && (forall x :: x in path <==> x in visiting)
      && Chain(defs, path + [key])
    }

    /** False stands for the cycle error. */
    method Visit(key: string, ghost path: seq<string>) returns (ok: bool)
      requires Valid() && key in defs && OnPath(path, key)
      modifies this
      ensures ok ==> Valid() && visiting == old(visiting) && old(visited) <= visited && key in visited
      ensures !ok ==> Cyclic(defs)
      decreases defs.Keys - visiting
    {
      if key in visited {
        return true;
      }
      if key in visiting {
        BackEdgeClosesCycle(defs, path, key);
        return false;
      }
      visiting := visiting + {key};
      var needs := defs[key].needs;
      for i := 0 to |needs|
        invariant Valid() && visiting == old(visiting) + {key} && old(visited) <= visited
        invariant forall d :: d in needs[..i] ==> d in visited
      {
        assert Edge(defs, key, needs[i]);
        ExtendChain(defs, path, key, needs[i]);
        ok := Visit(needs[i], path + [key]);
        if !ok {
          return false;
        }
      }
      assert needs[..|needs|] == needs;
      visiting := visiting - {key};
      visited := visited + {key};
      AppendFinished(defs, finished, key);
      finished := finished + [key];
      return true;
    }
  }

  lemma BackEdgeClosesCycle(defs: Definitions, path: seq<string>, key: string)
    requires key in path && Chain(defs, path + [key])
    ensures Cyclic(defs)
  {
    var i :| 0 <= i < |path| && path[i] == key;
    var p := (path + [key])[i..];
    forall j | 0 <= j < |p| - 1
      ensures Edge(defs, p[j], p[j + 1])
    {
      assert Edge(defs, (path + [key])[i + j], (path + [key])[i + j + 1]);
    }
    assert |p| >= 2 && Chain(defs, p) && p[0] == p[|p| - 1];
  }

  lemma ExtendChain(defs: Definitions, path: seq<string>, key: string, next: string)
    requires Chain(defs, path + [key]) && Edge(defs, key, next)
    ensures Chain(defs, path + [key] + [next])
  {
    var p := path + [key] + [next];
    forall i | 0 <= i < |p| - 1
      ensures Edge(defs, p[i], p[i + 1])
    {
      if i < |path| {
        assert Edge(defs, (path + [key])[i], (path + [key])[i + 1]);
      }
    }
  }

  lemma AppendFinished(defs: Definitions, order: seq<string>, key: string)
    requires DependencyOrder(defs, order) && key in defs && forall d :: d in defs[key].needs ==> d in order
    ensures DependencyOrder(defs, order + [key])
  {
    forall i | 0 <= i < |order + [key]|
      ensures forall d :: d in defs[(order + [key])[i]].needs ==> d in (order + [key])[..i]
    {
      assert (order + [key])[..i] == order[..i];
      assert order[..|order|] == order;
    }
  }

  /** The check accepts exactly the acyclic graphs. */
  method AssertAcyclic(defs: Definitions, keys: seq<string>) returns (ok: bool)
    requires KnownDependencies(defs) && forall k :: k in keys <==> k in defs
    ensures ok <==> !Cyclic(defs)
  {
    var check := new DependencyCheck(defs);
    for i := 0 to |keys|
      invariant check.defs == defs && check.Valid() && check.visiting == {}
      invariant forall k :: k in keys[..i] ==> k in check.visited
    {
      assert check.OnPath([], keys[i]);
      ok := check.Visit(keys[i], []);
      if !ok {
        return;
      }
    }
    assert keys[..|keys|] == keys;
    OrderedIsAcyclic(defs, check.finished);
    ok := true;
  }

  // ---- Construction ----

  datatype Registry = Registry(definitions: seq<Definition>, byKey: Definitions, owners: map<string, string>)

  datatype RegistryError = DuplicateKey | ModelClassifiedTwice | UnknownDependency | DependencyCycle

  datatype Construction = Built(registry: Registry) | Rejected(error: RegistryError)

  ghost predicate DistinctKeys(ds: seq<Definition>) {
    forall i, j :: 0 <= i < j < |ds| ==> ds[i].key != ds[j].key
  }

  function AllModels(ds: seq<Definition>): seq<string> {
    if ds == [] then [] else AllModels(ds[..|ds| - 1]) + ds[|ds| - 1].models
  }

  ghost predicate NoRepeats(s: seq<string>) {
    forall i, j :: 0 <= i < j < |s| ==> s[i] != s[j]
  }

  /** No model is listed twice, neither in one definition nor in two. */
  ghost predicate ModelsClassifiedOnce(ds: seq<Definition>) {
    NoRepeats(AllModels(ds))
  }

  function KeyMap(ds: seq<Definition>): Definitions {
    if ds == [] then map[] else KeyMap(ds[..|ds| - 1])[ds[|ds| - 1].key := ds[|ds| - 1]]
  }

  /** With distinct keys the map holds every definition under its key, and nothing else. */
  lemma {:induction false} KeyMapIndexes(ds: seq<Definition>)
    requires DistinctKeys(ds)
    ensures forall i :: 0 <= i < |ds| ==> ds[i].key in KeyMap(ds) && KeyMap(ds)[ds[i].key] == ds[i]
    ensures forall k :: k in KeyMap(ds) ==> KeyMap(ds)[k] in ds && KeyMap(ds)[k].key == k
  {
    if ds != [] {
      KeyMapIndexes(ds[..|ds| - 1]);
    }
  }

  ghost predicate Owns(owners: map<string, string>, ds: seq<Definition>) {
    && (forall i, a :: 0 <= i < |ds| && 0 <= a < |ds[i].models| ==>
                         ds[i].models[a] in owners && owners[ds[i].models[a]] == ds[i].key)
    && (forall model :: model in owners <==> model in AllModels(ds))
  }

  ghost predicate Acceptable(ds: seq<Definition>) {
    && DistinctKeys(ds) && ModelsClassifiedOnce(ds)
    && KnownDependencies(KeyMap(ds)) && !Cyclic(KeyMap(ds))
  }

  ghost predicate WellBuilt(r: Registry) {
    Acceptable(r.definitions) && r.byKey == KeyMap(r.definitions) && Owns(r.owners, r.definitions)
  }

  method BuildRegistry(ds: seq<Definition>) returns (r: Construction)
    ensures r.Built? <==> Acceptable(ds)
    ensures r.Built? ==> WellBuilt(r.registry) && r.registry.definitions == ds
    ensures r == Rejected(DuplicateKey) ==> !DistinctKeys(ds)
    ensures r == Rejected(ModelClassifiedTwice) ==> !ModelsClassifiedOnce(ds)
    ensures r == Rejected(UnknownDependency) <==>
            DistinctKeys(ds) && ModelsClassifiedOnce(ds) && !KnownDependencies(KeyMap(ds))
    ensures r == Rejected(DependencyCycle) <==>
            DistinctKeys(ds) && ModelsClassifiedOnce(ds) && KnownDependencies(KeyMap(ds)) && Cyclic(KeyMap(ds))
  {
    hide Owns, ModelsClassifiedOnce, Cyclic;
    var byKey: Definitions := map[];
    var owners: map<string, string> := map[];
    var keys: seq<string> := [];
    EmptyOwns();
    for i := 0 to |ds|
      invariant byKey == KeyMap(ds[..i]) && DistinctKeys(ds[..i])
      invariant ModelsClassifiedOnce(ds[..i]) && Owns(owners, ds[..i])
      invariant forall k :: k in keys <==> k in byKey
    {
      KeyMapIndexes(ds[..i]);
      if ds[i].key in byKey {
        return Rejected(DuplicateKey);
      }
      assert ds[..i + 1] == ds[..i] + [ds[i]] && ds[..i + 1][..i] == ds[..i];
      var clash;
      owners, clash := ClaimModels(owners, ds[..i], ds[i]);
      if clash {
        PrefixSharesModel(ds, i + 1);
        return Rejected(ModelClassifiedTwice);
      }
      byKey := byKey[ds[i].key := ds[i]];
      keys := keys + [ds[i].key];
    }
    assert ds[..|ds|] == ds;
    if exists k :: k in byKey && exists d :: d in byKey[k].needs && d !in byKey {
      ghost var k :| k in byKey && exists d :: d in byKey[k].needs && d !in byKey;
      ghost var d :| d in byKey[k].needs && d !in byKey;
      assert Edge(byKey, k, d);
      return Rejected(UnknownDependency);
    }
    var acyclic := AssertAcyclic(byKey, keys);
    return if acyclic then Built(Registry(ds, byKey, owners)) else Rejected(DependencyCycle);
  }

  lemma EmptyOwns()
    ensures Owns(map[], []) && ModelsClassifiedOnce([])
  {
  }

  lemma {:induction false} PrefixSharesModel(ds: seq<Definition>, n: nat)
    requires n <= |ds| && !ModelsClassifiedOnce(ds[..n])
    ensures !ModelsClassifiedOnce(ds)
  {
    if n == |ds| {
      assert ds[..n] == ds;
    } else {
      var last := |ds| - 1;
      assert ds[..last][..n] == ds[..n];
      PrefixSharesModel(ds[..last], n);
      var i, j :| 0 <= i < j < |AllModels(ds[..last])| && AllModels(ds[..last])[i] == AllModels(ds[..last])[j];
      assert AllModels(ds)[i] == AllModels(ds)[j];
    }
  }

  method ClaimModels(owners: map<string, string>, ghost before: seq<Definition>, d: Definition)
    returns (owners': map<string, string>, clash: bool)
    requires Owns(owners, before) && ModelsClassifiedOnce(before)
    ensures clash <==> !ModelsClassifiedOnce(before + [d])
    ensures !clash ==> Owns(owners', before + [d])
  {
    owners', clash := owners, false;
    ghost var earlier := AllModels(before);
    assert (before + [d])[..|before|] == before;
    assert AllModels(before + [d]) == earlier + d.models;
    for a := 0 to |d.models|
      invariant forall model :: model in owners' <==> model in earlier || model in d.models[..a]
      invariant forall model :: model in owners ==> owners'[model] == owners[model]
      invariant forall b :: 0 <= b < a ==> owners'[d.models[b]] == d.key
      invariant NoRepeats(earlier + d.models[..a])
    {
      var model := d.models[a];
      if model in owners' {
        RepeatedModel(earlier, d.models, a);
        return owners', true;
      }
      AppendNoRepeat(earlier + d.models[..a], model);
      assert earlier + d.models[..a + 1] == earlier + d.models[..a] + [model];
      owners' := owners'[model := d.key];
    }
    assert d.models[..|d.models|] == d.models;
    OwnersOfAppended(owners, owners', before, d);
  }

  lemma AppendNoRepeat(s: seq<string>, x: string)
    requires NoRepeats(s) && x !in s
    ensures NoRepeats(s + [x])
  {
  }

  lemma RepeatedModel(earlier: seq<string>, models: seq<string>, a: nat)
    requires a < |models| && (models[a] in earlier || models[a] in models[..a])
    ensures !NoRepeats(earlier + models)
  {
    var s := earlier + models;
    assert models[a] in earlier + models[..a];
    var i :| 0 <= i < |earlier| + a && (earlier + models[..a])[i] == models[a];
    assert s[i] == s[|earlier| + a];
  }

  lemma OwnersOfAppended(owners: map<string, string>, owners': map<string, string>, before: seq<Definition>, d: Definition)
    requires Owns(owners, before) && NoRepeats(AllModels(before) + d.models)
    requires forall model :: model in owners' <==> model in AllModels(before) || model in d.models
    requires forall model :: model in owners ==> owners'[model] == owners[model]
    requires forall b :: 0 <= b < |d.models| ==> owners'[d.models[b]] == d.key
    ensures Owns(owners', before + [d])
  {
    var ds := before + [d];
    assert ds[..|before|] == before;
    assert AllModels(ds) == AllModels(before) + d.models;
    forall i, a | 0 <= i < |ds| && 0 <= a < |ds[i].models|
      ensures ds[i].models[a] in owners' && owners'[ds[i].models[a]] == ds[i].key
    {
      if i < |before| {
        assert before[i].models[a] in owners;
      }
    }
  }
}
