/**
 Resolving method specs that import each other (pkg/methods/resolved_specs.go):
 a depth-first walk with a memo and cycle detection, against a definition by
 depth of import.
 */
module SpecImports {
  import opened Common

  // How a spec is put together: begun from its own methods, each import checked
  // and merged in order, and finished. Any of these can refuse.
  datatype Rules<!R> = Rules(
    begin: string -> Option<R>,
    merge: (string, R, string, R) -> Option<R>,
    finish: (string, R) -> Option<R>)

  datatype Graph<!R> = Graph(imports: map<string, seq<string>>, rules: Rules<R>)

  // ---- what a spec resolves to ----

  // The value of a spec whose imports nest less than d deep.
  function Value<R>(g: Graph<R>, name: string, d: nat): Option<R>
    decreases d, 0
  {
    if d == 0 || name !in g.imports then None
    else
      var acc := Merged(g, name, |g.imports[name]|, d - 1);
      if acc.None? then None else g.rules.finish(name, acc.value)
  }

  // A spec with its first k imports merged.
  function Merged<R>(g: Graph<R>, name: string, k: nat, d: nat): Option<R>
    requires name in g.imports && k <= |g.imports[name]|
    decreases d, k
  {
    if k == 0 then g.rules.begin(name)
    else
      var acc := Merged(g, name, k - 1, d);
      var imported := Value(g, g.imports[name][k - 1], d);
      if acc.None? || imported.None? then None
      else g.rules.merge(name, acc.value, g.imports[name][k - 1], imported.value)
  }

  ghost predicate Resolves<R>(g: Graph<R>, name: string) {
    exists d: nat :: Value(g, name, d).Some?
  }

  ghost predicate ResolvesTo<R(!new)>(g: Graph<R>, name: string, value: R) {
    exists d: nat :: Value(g, name, d) == Some(value)
  }

  lemma {:induction false} DeeperIsSame<R>(g: Graph<R>, name: string, d: nat, e: nat)
    requires d <= e && Value(g, name, d).Some?
    ensures Value(g, name, e) == Value(g, name, d)
    decreases d, 0
  {
    MergedDeeper(g, name, |g.imports[name]|, d - 1, e - 1);
  }

  lemma {:induction false} MergedDeeper<R>(g: Graph<R>, name: string, k: nat, d: nat, e: nat)
    requires name in g.imports && k <= |g.imports[name]| && d <= e && Merged(g, name, k, d).Some?
    ensures Merged(g, name, k, e) == Merged(g, name, k, d)
    decreases d, k
  {
    if k > 0 {
      MergedDeeper(g, name, k - 1, d, e);
      DeeperIsSame(g, g.imports[name][k - 1], d, e);
    }
  }

  lemma {:induction false} MergedFromFewer<R>(g: Graph<R>, name: string, k: nat, n: nat, d: nat)
    requires name in g.imports && k <= n <= |g.imports[name]| && Merged(g, name, n, d).Some?
    ensures Merged(g, name, k, d).Some?
    decreases n
  {
    if k < n {
      MergedFromFewer(g, name, k, n - 1, d);
    }
  }

  // A spec resolves only after each of its imports, and less deep.
  lemma ImportsResolveFirst<R>(g: Graph<R>, name: string, i: nat, d: nat)
    requires name in g.imports && i < |g.imports[name]| && Value(g, name, d).Some?
    ensures d > 0 && Value(g, g.imports[name][i], d - 1).Some?
  {
    MergedFromFewer(g, name, i + 1, |g.imports[name]|, d - 1);
  }

  // ---- needing a spec ----

  // However deep one spec resolves, the other resolves less deep.
  ghost predicate Needs<R>(g: Graph<R>, name: string, other: string) {
    forall d: nat | Value(g, name, d).Some? :: d > 0 && Value(g, other, d - 1).Some?
  }

  lemma NeedsImport<R>(g: Graph<R>, name: string, i: nat)
    requires name in g.imports && i < |g.imports[name]|
    ensures Needs(g, name, g.imports[name][i])
  {
    forall d: nat | Value(g, name, d).Some? ensures d > 0 && Value(g, g.imports[name][i], d - 1).Some? {
      ImportsResolveFirst(g, name, i, d);
    }
  }

  lemma NeedsTransitive<R>(g: Graph<R>, a: string, b: string, c: string)
    requires Needs(g, a, b) && Needs(g, b, c)
    ensures Needs(g, a, c)
  {
    forall d: nat | Value(g, a, d).Some? ensures d > 0 && Value(g, c, d - 1).Some? {
      assert Value(g, b, d - 1).Some?;
      DeeperIsSame(g, c, d - 2, d - 1);
    }
  }

  // A spec that needs itself does not resolve.
  lemma CircularNeverResolves<R>(g: Graph<R>, name: string)
    requires Needs(g, name, name)
    ensures !Resolves(g, name)
  {
    forall d: nat ensures Value(g, name, d).None? {
      NotAtDepth(g, name, d);
    }
  }

  lemma {:induction false} NotAtDepth<R>(g: Graph<R>, name: string, d: nat)
    requires Needs(g, name, name)
    ensures Value(g, name, d).None?
  {
    if Value(g, name, d).Some? {
      NotAtDepth(g, name, d - 1);
    }
  }

  // ---- the walk ----

  class Loader<R(!new)> {
    const g: Graph<R>
    var resolved: map<string, R>

    // Everything resolved so far has its value, and its imports were resolved before it.
    ghost predicate Valid()
      reads this
    {
      && (forall name | name in resolved :: ResolvesTo(g, name, resolved[name]))
      && (forall name | name in resolved :: name in g.imports && ImportsIn(g.imports[name], resolved.Keys))
    }

    constructor (g: Graph<R>)
      ensures Valid() && this.g == g && resolved == map[]
    {
      this.g := g;
      resolved := map[];
    }

    // Resolves one spec and everything it imports. The specs being visited all need it.
    method EnrichSpec(name: string, visiting: set<string>) returns (ok: bool)
      requires Valid() && visiting <= g.imports.Keys
      requires forall v | v in visiting :: Needs(g, v, name)
      modifies this`resolved
      ensures Valid() && Extends(old(resolved), resolved)
      ensures ok ==> name in resolved
      ensures !ok ==> !Resolves(g, name)
      decreases g.imports.Keys - visiting, 0
    {
      if name in resolved {
        return true;
      }
      if name !in g.imports {
        return false;
      }
      if name in visiting {
        CircularNeverResolves(g, name);
        return false;
      }
      var begun := g.rules.begin(name);
      if begun.None? {
        NeverMerged(g, name, 0);
        return false;
      }
      assert g.imports.Keys - (visiting + {name}) < g.imports.Keys - visiting by {
        assert name in g.imports.Keys - visiting && name !in g.imports.Keys - (visiting + {name});
      }
      var acc, depth := ResolveImports(name, visiting + {name}, begun.value);
      if acc.None? {
        return false;
      }
      var finished := g.rules.finish(name, acc.value);
      assert Value(g, name, depth + 1) == finished;
      if finished.None? {
        UnfinishedForGood(g, name, depth);
        return false;
      }
      resolved := resolved[name := finished.value];
      return true;
    }

    // Resolves the imports of a spec in order, merging each.
    method ResolveImports(name: string, visiting: set<string>, begun: R) returns (acc: Option<R>, ghost depth: nat)
      requires Valid() && name in visiting && visiting <= g.imports.Keys && g.rules.begin(name) == Some(begun)
      requires forall v | v in visiting && v != name :: Needs(g, v, name)
      modifies this`resolved
      ensures Valid() && Extends(old(resolved), resolved)
      ensures acc.Some? ==> Merged(g, name, |g.imports[name]|, depth) == acc
      ensures acc.Some? ==> ImportsIn(g.imports[name], resolved.Keys)
      ensures acc.None? ==> !Resolves(g, name)
      decreases g.imports.Keys - visiting, 1
    {
      acc, depth := Some(begun), 0;
      var imports := g.imports[name];
      for k := 0 to |imports|
        invariant Valid() && Extends(old(resolved), resolved)
        invariant acc.Some? && Merged(g, name, k, depth) == acc
        invariant ImportsIn(imports[..k], resolved.Keys)
      {
        if imports[k] !in g.imports {
          NeverImports(g, name, k);
          return None, 0;
        }
        VisitingNeed(g, name, visiting, k);
        var done := EnrichSpec(imports[k], visiting);
        if !done {
          NeverImports(g, name, k);
          return None, 0;
        }
        ImportsInSnoc(imports, k, resolved.Keys);
        acc, depth := MergeImport(name, k, acc.value, depth);
        if acc.None? {
          return;
        }
      }
      assert imports[..|imports|] == imports;
    }

    // Merges an import that is resolved.
    method MergeImport(name: string, k: nat, acc: R, ghost depth: nat) returns (merged: Option<R>, ghost both: nat)
      requires Valid() && name in g.imports && k < |g.imports[name]| && g.imports[name][k] in resolved
      requires Merged(g, name, k, depth) == Some(acc)
      ensures merged.Some? ==> Merged(g, name, k + 1, both) == merged
      ensures merged.None? ==> !Resolves(g, name)
    {
      var name' := g.imports[name][k];
      both := MergeNext(g, name, k, depth, acc, resolved[name']);
      merged := g.rules.merge(name, acc, name', resolved[name']);
      if merged.None? {
        RefusedForGood(g, name, k + 1, both);
      }
    }

    // Resolves all specs, in whatever order the map is walked.
    method EnrichSpecs() returns (ok: bool)
      requires Valid() && resolved == map[]
      modifies this`resolved
      ensures Valid()
      ensures ok <==> AllResolve(g)
      ensures ok ==> resolved.Keys == g.imports.Keys
    {
      var todo := g.imports.Keys;
      while todo != {}
        invariant Valid() && todo <= g.imports.Keys && resolved.Keys <= g.imports.Keys
        invariant forall name | name in g.imports && name !in todo :: name in resolved
        decreases |todo|
      {
        var name: string :| name in todo;
        todo := todo - {name};
        var done := EnrichSpec(name, {});
        if !done {
          return false;
        }
      }
      forall name | name in g.imports ensures Resolves(g, name) {
        assert ResolvesTo(g, name, resolved[name]);
      }
      return true;
    }
  }

  lemma VisitingNeed<R>(g: Graph<R>, name: string, visiting: set<string>, k: nat)
    requires name in g.imports && k < |g.imports[name]| && forall v | v in visiting && v != name :: Needs(g, v, name)
    ensures forall v | v in visiting :: Needs(g, v, g.imports[name][k])
  {
    NeedsImport(g, name, k);
    forall v | v in visiting ensures Needs(g, v, g.imports[name][k]) {
      if v != name {
        NeedsTransitive(g, v, name, g.imports[name][k]);
      }
    }
  }

  // A depth at which both the spec so far and its next import have their values.
  lemma MergeNext<R(!new)>(g: Graph<R>, name: string, k: nat, depth: nat, acc: R, imported: R) returns (both: nat)
    requires name in g.imports && k < |g.imports[name]| && Merged(g, name, k, depth) == Some(acc)
    requires ResolvesTo(g, g.imports[name][k], imported)
    ensures Merged(g, name, k, both) == Some(acc) && Value(g, g.imports[name][k], both) == Some(imported)
    ensures Merged(g, name, k + 1, both) == g.rules.merge(name, acc, g.imports[name][k], imported)
  {
    var more: nat :| Value(g, g.imports[name][k], more) == Some(imported);
    both := if depth < more then more else depth;
    MergedDeeper(g, name, k, depth, both);
    DeeperIsSame(g, g.imports[name][k], more, both);
  }

  ghost predicate ImportsIn(imports: seq<string>, names: set<string>) {
    forall i | 0 <= i < |imports| :: imports[i] in names
  }

  ghost predicate Extends<R(!new)>(before: map<string, R>, after: map<string, R>) {
    forall name | name in before :: name in after && after[name] == before[name]
  }

  ghost predicate AllResolve<R>(g: Graph<R>) {
    forall name | name in g.imports :: Resolves(g, name)
  }

  // ---- what is refused once is refused at every depth ----

  lemma NeverImports<R>(g: Graph<R>, name: string, i: nat)
    requires name in g.imports && i < |g.imports[name]| && !Resolves(g, g.imports[name][i])
    ensures !Resolves(g, name)
  {
    NeedsImport(g, name, i);
  }

  lemma NeverMerged<R>(g: Graph<R>, name: string, k: nat)
    requires name in g.imports && k <= |g.imports[name]| && forall d: nat :: Merged(g, name, k, d).None?
    ensures !Resolves(g, name)
  {
    forall d: nat ensures Value(g, name, d).None? {
      if Value(g, name, d).Some? {
        MergedFromFewer(g, name, k, |g.imports[name]|, d - 1);
      }
    }
  }

  lemma RefusedForGood<R>(g: Graph<R>, name: string, k: nat, d: nat)
    requires name in g.imports && 0 < k <= |g.imports[name]|
    requires Merged(g, name, k - 1, d).Some? && Value(g, g.imports[name][k - 1], d).Some? && Merged(g, name, k, d).None?
    ensures !Resolves(g, name)
  {
    forall e: nat ensures Merged(g, name, k, e).None? {
      if Merged(g, name, k, e).Some? {
        if d <= e {
          MergedDeeper(g, name, k - 1, d, e);
          DeeperIsSame(g, g.imports[name][k - 1], d, e);
        } else {
          MergedDeeper(g, name, k, e, d);
        }
      }
    }
    NeverMerged(g, name, k);
  }

  lemma UnfinishedForGood<R>(g: Graph<R>, name: string, d: nat)
    requires name in g.imports && Merged(g, name, |g.imports[name]|, d).Some? && Value(g, name, d + 1).None?
    ensures !Resolves(g, name)
  {
    forall e: nat ensures Value(g, name, e).None? {
      if Value(g, name, e).Some? {
        if e <= d + 1 {
          DeeperIsSame(g, name, e, d + 1);
        } else {
          MergedDeeper(g, name, |g.imports[name]|, d, e - 1);
        }
      }
    }
  }

  // ---- the outcome does not depend on the order ----

  lemma ValueIsUnique<R(!new)>(g: Graph<R>, name: string, a: R, b: R)
    requires ResolvesTo(g, name, a) && ResolvesTo(g, name, b)
    ensures a == b
  {
    var d: nat :| Value(g, name, d) == Some(a);
    var e: nat :| Value(g, name, e) == Some(b);
    if d <= e {
      DeeperIsSame(g, name, d, e);
    } else {
      DeeperIsSame(g, name, e, d);
    }
  }

  // Two walks of the same specs that both succeed resolve them to the same values.
  lemma OrderIsIrrelevant<R(!new)>(g: Graph<R>, a: map<string, R>, b: map<string, R>)
    requires a.Keys == b.Keys
    requires forall name | name in a :: ResolvesTo(g, name, a[name])
    requires forall name | name in b :: ResolvesTo(g, name, b[name])
    ensures a == b
  {
    forall name | name in a ensures a[name] == b[name] {
      ValueIsUnique(g, name, a[name], b[name]);
    }
  }

  // ---- in terms of the import graph ----

  // Each name imports the next.
  ghost predicate IsPath<R>(g: Graph<R>, p: seq<string>) {
    forall k | 0 <= k < |p| - 1 :: p[k] in g.imports && p[k + 1] in g.imports[p[k]]
  }

  ghost predicate Reaches<R>(g: Graph<R>, a: string, b: string) {
    exists p: seq<string> :: |p| >= 2 && p[0] == a && p[|p| - 1] == b && IsPath(g, p)
  }

  ghost predicate Acyclic<R>(g: Graph<R>) {
    forall name | name in g.imports :: !Reaches(g, name, name)
  }

  ghost predicate Closed<R>(g: Graph<R>) {
    forall name, i | name in g.imports && 0 <= i < |g.imports[name]| :: g.imports[name][i] in g.imports
  }

  // No check refuses a spec whose imports resolve.
  ghost predicate ChecksPass<R>(g: Graph<R>) {
    forall name, d: nat | name in g.imports && ImportsResolve(g, name, d) :: Value(g, name, d + 1).Some?
  }

  ghost predicate ImportsResolve<R>(g: Graph<R>, name: string, d: nat)
    requires name in g.imports
  {
    forall i | 0 <= i < |g.imports[name]| :: Value(g, g.imports[name][i], d).Some?
  }

  lemma {:induction false} PathNeeds<R>(g: Graph<R>, p: seq<string>)
    requires |p| >= 2 && IsPath(g, p)
    ensures Needs(g, p[0], p[|p| - 1])
    decreases |p|
  {
    assert p[0] in g.imports && p[1] in g.imports[p[0]];
    var i :| 0 <= i < |g.imports[p[0]]| && g.imports[p[0]][i] == p[1];
    NeedsImport(g, p[0], i);
    if |p| > 2 {
      PathNeeds(g, p[1..]);
      NeedsTransitive(g, p[0], p[1], p[|p| - 1]);
    }
  }

  lemma ReachesImport<R>(g: Graph<R>, name: string, i: nat)
    requires name in g.imports && i < |g.imports[name]|
    ensures Reaches(g, name, g.imports[name][i])
  {
    var p := [name, g.imports[name][i]];
    assert IsPath(g, p);
  }

  lemma ReachesOn<R>(g: Graph<R>, a: string, name: string, i: nat)
    requires Reaches(g, a, name) && name in g.imports && i < |g.imports[name]|
    ensures Reaches(g, a, g.imports[name][i])
  {
    var p :| |p| >= 2 && p[0] == a && p[|p| - 1] == name && IsPath(g, p);
    var q := p + [g.imports[name][i]];
    forall k | 0 <= k < |q| - 1 ensures q[k] in g.imports && q[k + 1] in g.imports[q[k]] {
      if k < |p| - 1 {
        assert q[k] == p[k] && q[k + 1] == p[k + 1];
      }
    }
    assert q[0] == a && q[|q| - 1] == g.imports[name][i] && IsPath(g, q);
  }

  lemma AllReach<R>(g: Graph<R>, name: string, above: set<string>, i: nat)
    requires name in g.imports && i < |g.imports[name]| && forall a | a in above :: Reaches(g, a, name)
    ensures forall a | a in above + {name} :: Reaches(g, a, g.imports[name][i])
  {
    ReachesImport(g, name, i);
    forall a | a in above ensures Reaches(g, a, g.imports[name][i]) {
      ReachesOn(g, a, name, i);
    }
  }

  // On a closed graph without cycles every spec resolves no deeper than there are specs.
  lemma {:induction false} ResolvesWithin<R>(g: Graph<R>, name: string, above: set<string>, d: nat)
    requires Closed(g) && Acyclic(g) && ChecksPass(g)
    requires name in g.imports && above <= g.imports.Keys && forall a | a in above :: Reaches(g, a, name)
    requires d == |g.imports.Keys - above|
    ensures Value(g, name, d).Some?
    decreases d
  {
    assert name !in above;
    OneLess(g.imports.Keys, above, name);
    forall i | 0 <= i < |g.imports[name]| ensures Value(g, g.imports[name][i], d - 1).Some? {
      AllReach(g, name, above, i);
      ResolvesWithin(g, g.imports[name][i], above + {name}, d - 1);
    }
    assert ImportsResolve(g, name, d - 1);
  }

  lemma ImportsInSnoc(imports: seq<string>, k: nat, names: set<string>)
    requires k < |imports| && ImportsIn(imports[..k], names) && imports[k] in names
    ensures ImportsIn(imports[..k + 1], names)
  {
    assert imports[..k + 1] == imports[..k] + [imports[k]];
  }

  lemma OneLess(names: set<string>, above: set<string>, name: string)
    requires name in names && name !in above
    ensures |names - above| == |names - (above + {name})| + 1
  {
    assert names - above == (names - (above + {name})) + {name};
  }

  lemma {:induction false} MergedAgree<R>(g: Graph<R>, name: string, k: nat, d: nat, e: nat)
    requires name in g.imports && k <= |g.imports[name]|
    requires ImportsResolve(g, name, d) && ImportsResolve(g, name, e) && d <= e
    ensures Merged(g, name, k, d) == Merged(g, name, k, e)
    decreases k
  {
    if k > 0 {
      MergedAgree(g, name, k - 1, d, e);
      DeeperIsSame(g, g.imports[name][k - 1], d, e);
    }
  }

  // A spec that resolves at all does so as soon as its imports do.
  lemma ResolvesOnceImportsDo<R>(g: Graph<R>, name: string, d: nat)
    requires name in g.imports && ImportsResolve(g, name, d) && Resolves(g, name)
    ensures Value(g, name, d + 1).Some?
  {
    var e: nat :| Value(g, name, e).Some?;
    forall i | 0 <= i < |g.imports[name]| ensures Value(g, g.imports[name][i], e - 1).Some? {
      ImportsResolveFirst(g, name, i, e);
    }
    var n := |g.imports[name]|;
    if d <= e - 1 {
      MergedAgree(g, name, n, d, e - 1);
    } else {
      MergedAgree(g, name, n, e - 1, d);
    }
  }

  // All specs resolve exactly when every import exists, none is circular and no check refuses.
  lemma ResolvesExactlyWhen<R>(g: Graph<R>)
    ensures AllResolve(g) <==> Closed(g) && Acyclic(g) && ChecksPass(g)
  {
    if AllResolve(g) {
      forall name, i | name in g.imports && 0 <= i < |g.imports[name]| ensures g.imports[name][i] in g.imports {
        var d: nat :| Value(g, name, d).Some?;
        ImportsResolveFirst(g, name, i, d);
      }
      forall name | name in g.imports ensures !Reaches(g, name, name) {
        if Reaches(g, name, name) {
          var p :| |p| >= 2 && p[0] == name && p[|p| - 1] == name && IsPath(g, p);
          PathNeeds(g, p);
          CircularNeverResolves(g, name);
        }
      }
      forall name, d: nat | name in g.imports && ImportsResolve(g, name, d) ensures Value(g, name, d + 1).Some? {
        ResolvesOnceImportsDo(g, name, d);
      }
    }
    if Closed(g) && Acyclic(g) && ChecksPass(g) {
      forall name | name in g.imports ensures Resolves(g, name) {
        ResolvesWithin(g, name, {}, |g.imports.Keys - {}|);
      }
    }
  }
}
