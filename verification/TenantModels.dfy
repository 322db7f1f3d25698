/** Discovery of the models that belong to a tenant, directly or through chains of parents. */
module TenantModels {
  /** `parents` are the models reached by its many-to-one fields. */
  datatype Model = Model(name: string, hasBusinessField: bool, parents: set<string>)

  predicate IsRoot(m: Model) {
    m.name == "tenants.Business" || m.hasBusinessField
  }

  ghost predicate ParentOf(models: seq<Model>, child: string, parent: string) {
    exists m :: m in models && m.name == child && parent in m.parents
  }

  /** From the first name a chain of many-to-one fields leads to a root. */
  ghost predicate LeadsToRoot(models: seq<Model>, chain: seq<string>) {
    && chain != []
    && (forall i :: 0 <= i < |chain| - 1 ==> ParentOf(models, chain[i], chain[i + 1]))
    && exists m :: m in models && IsRoot(m) && m.name == chain[|chain| - 1]
  }

  ghost predicate TenantRelated(models: seq<Model>, name: string) {
    exists chain :: LeadsToRoot(models, chain) && chain[0] == name
  }

  lemma ExtendToParent(models: seq<Model>, child: string, parent: string)
    requires ParentOf(models, child, parent) && TenantRelated(models, parent)
    ensures TenantRelated(models, child)
  {
    var chain :| LeadsToRoot(models, chain) && chain[0] == parent;
    var longer := [child] + chain;
    assert longer[|longer| - 1] == chain[|chain| - 1];
    assert LeadsToRoot(models, longer) && longer[0] == child;
  }

  ghost predicate ClosedUnderChildren(models: seq<Model>, found: set<string>) {
    && (forall m :: m in models && IsRoot(m) ==> m.name in found)
    && forall m :: m in models && m.parents * found != {} ==> m.name in found
  }

  lemma {:induction false} ClosedHoldsChain(models: seq<Model>, found: set<string>, chain: seq<string>)
    requires ClosedUnderChildren(models, found) && LeadsToRoot(models, chain)
    ensures chain[0] in found
  {
    if |chain| > 1 {
      var rest := chain[1..];
      forall i | 0 <= i < |rest| - 1
        ensures ParentOf(models, rest[i], rest[i + 1])
      {
        assert ParentOf(models, chain[i + 1], chain[i + 2]);
      }
      assert rest[|rest| - 1] == chain[|chain| - 1];
      ClosedHoldsChain(models, found, rest);
      assert ParentOf(models, chain[0], chain[1]);
      var m :| m in models && m.name == chain[0] && chain[1] in m.parents;
      assert chain[1] in m.parents * found;
    }
  }

  lemma ClosedHoldsRelated(models: seq<Model>, found: set<string>)
    requires ClosedUnderChildren(models, found)
    ensures forall name :: TenantRelated(models, name) ==> name in found
  {
    forall name | TenantRelated(models, name)
      ensures name in found
    {
      var chain :| LeadsToRoot(models, chain) && chain[0] == name;
      ClosedHoldsChain(models, found, chain);
    }
  }

  lemma RootsAreRelated(models: seq<Model>)
    ensures forall m :: m in models && IsRoot(m) ==> TenantRelated(models, m.name)
  {
    forall m | m in models && IsRoot(m)
      ensures TenantRelated(models, m.name)
    {
      assert LeadsToRoot(models, [m.name]);
    }
  }

  /** Every chain ends in the business itself or in a model with a business field; each of these is related, and each child of a related model. */
  lemma RelatedExactly(models: seq<Model>, name: string)
    ensures TenantRelated(models, name) <==>
            || (exists m :: m in models && m.name == name && (name == "tenants.Business" || m.hasBusinessField))
            || (exists m, parent :: m in models && m.name == name && parent in m.parents && TenantRelated(models, parent))
  {
    hide TenantRelated;
    if exists m :: m in models && m.name == name && (name == "tenants.Business" || m.hasBusinessField) {
      RootsAreRelated(models);
    }
    if m, parent :| m in models && m.name == name && parent in m.parents && TenantRelated(models, parent) {
      assert ParentOf(models, name, parent);
      ExtendToParent(models, name, parent);
    }
    if TenantRelated(models, name) {
      RelatedByRootOrParent(models, name);
    }
  }

  lemma RelatedByRootOrParent(models: seq<Model>, name: string)
    requires TenantRelated(models, name)
    ensures || (exists m :: m in models && m.name == name && IsRoot(m))
            || (exists m, parent :: m in models && m.name == name && parent in m.parents && TenantRelated(models, parent))
  {
    var chain :| LeadsToRoot(models, chain) && chain[0] == name;
    if |chain| > 1 {
      var rest := chain[1..];
      assert rest[|rest| - 1] == chain[|chain| - 1];
      forall i | 0 <= i < |rest| - 1
        ensures ParentOf(models, rest[i], rest[i + 1])
      {
        assert ParentOf(models, chain[i + 1], chain[i + 2]);
      }
      assert LeadsToRoot(models, rest) && rest[0] == chain[1];
      assert ParentOf(models, chain[0], chain[1]);
      assert TenantRelated(models, chain[1]);
    }
  }

  lemma ChildIsRelated(models: seq<Model>, found: set<string>, m: Model)
    requires m in models && m.parents * found != {} && forall name :: name in found ==> TenantRelated(models, name)
    ensures TenantRelated(models, m.name)
  {
    var parent :| parent in m.parents * found;
    assert ParentOf(models, m.name, parent);
    ExtendToParent(models, m.name, parent);
  }

  /** The in-place loop computes the least set that holds the roots and every child of a member. */
  method TenantRelatedModels(models: seq<Model>) returns (found: set<string>)
    ensures forall name :: name in found <==> TenantRelated(models, name)
    ensures ClosedUnderChildren(models, found)
  {
    hide TenantRelated, ParentOf, LeadsToRoot, IsRoot;
    ghost var all := set m | m in models :: m.name;
    found := set m | m in models && IsRoot(m) :: m.name;
    RootsAreRelated(models);
    var changed := true;
    while changed
      invariant found <= all
      invariant forall name :: name in found ==> TenantRelated(models, name)
      invariant forall m :: m in models && IsRoot(m) ==> m.name in found
      invariant !changed ==> forall m :: m in models && m.parents * found != {} ==> m.name in found
      decreases all - found, changed
    {
      ghost var before := found;
      changed := false;
      for i := 0 to |models|
        invariant before <= found <= all && (changed <==> before != found)
        invariant forall name :: name in found ==> TenantRelated(models, name)
        invariant !changed ==> forall j :: 0 <= j < i && models[j].parents * found != {} ==> models[j].name in found
      {
        var m := models[i];
        if m.name !in found && m.parents * found != {} {
          ChildIsRelated(models, found, m);
          found := found + {m.name};
          assert m.name !in before;
          changed := true;
        }
      }
    }
    ClosedHoldsRelated(models, found);
  }
}
