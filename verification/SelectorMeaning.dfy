/**
 What selectors say about node classes (internal/protocol/request_selector_key.go):
 a class is a set of labels with values, and every selector that is not about
 labels admits all of them. Requests that share a cache key admit the same classes.
 */
module SelectorMeaning {
  import opened Sorting
  import opened SelectorKey
  import opened SelectorIdentity

  type NodeLabels = map<string, string>

  // A label selector without values asks only for the label.
  predicate HasLabel(labels: NodeLabels, name: string, values: seq<string>) {
    name in labels && (values == [] || labels[name] in values)
  }

  ghost predicate Admits(s: Selector, labels: NodeLabels) {
    match s
    case LabelSelector(name, values) => HasLabel(labels, name, values)
    case ExistsSelector(name) => name in labels
    case AndSelector(children) => forall c | c in children :: Admits(c, labels)
    case OrSelector(children) => exists c | c in children :: Admits(c, labels)
    case NotSelector(child) => !Admits(child, labels)
    case _ => true
  }

  ghost predicate TreeAdmits(t: Tree, labels: NodeLabels) {
    match t
    case Top => true
    case LabelTree(name, values) => HasLabel(labels, name, values)
    case ExistsTree(name) => name in labels
    case AndTree(parts) => forall p | p in parts :: TreeAdmits(p, labels)
    case OrTree(parts) => exists p | p in parts :: TreeAdmits(p, labels)
    case NotTree(part) => !TreeAdmits(part, labels)
  }

  // No union is empty, and only what constrains the class is negated.
  ghost predicate Regular(s: Selector) {
    match s
    case AndSelector(children) => forall c | c in children :: Regular(c)
    case OrSelector(children) => children != [] && forall c | c in children :: Regular(c)
    case NotSelector(child) => Constrains(child) && Regular(child)
    case _ => true
  }

  // ---- the reduction keeps the meaning ----

  lemma {:induction false} ReductionKeepsMeaning(s: Selector, labels: NodeLabels)
    requires Regular(s)
    ensures Admits(s, labels) <==> TreeAdmits(Reduce(s), labels)
    decreases s, 1
  {
    match s
    case AndSelector(children) =>
      AllKeepMeaning(children, labels);
      IntersectMeans(ReduceAll(children), labels);
    case OrSelector(children) =>
      AllKeepMeaning(children, labels);
      UniteMeans(ReduceAll(children), labels);
    case NotSelector(child) =>
      ReductionKeepsMeaning(child, labels);
      TopExactlyWhen(child);
    case _ =>
  }

  lemma TopExactlyWhen(s: Selector)
    ensures Reduce(s) == Top <==> !Constrains(s)
  {
    KeyExactlyWhen(s);
    KeyIsPrinted(s);
    PrintTop(Reduce(s));
  }

  lemma {:induction false} AllKeepMeaning(ss: seq<Selector>, labels: NodeLabels)
    requires forall s | s in ss :: Regular(s)
    ensures (forall s | s in ss :: Admits(s, labels)) <==> forall t | t in ReduceAll(ss) :: TreeAdmits(t, labels)
    ensures (exists s | s in ss :: Admits(s, labels)) <==> exists t | t in ReduceAll(ss) :: TreeAdmits(t, labels)
    decreases ss, 0
  {
    var ts := ReduceAll(ss);
    forall i | 0 <= i < |ss| ensures Admits(ss[i], labels) <==> TreeAdmits(ts[i], labels) {
      ReductionKeepsMeaning(ss[i], labels);
    }
    SameMeaning(ss, ts, labels);
  }

  lemma SameMeaning(ss: seq<Selector>, ts: seq<Tree>, labels: NodeLabels)
    requires |ss| == |ts| && forall i | 0 <= i < |ss| :: Admits(ss[i], labels) <==> TreeAdmits(ts[i], labels)
    ensures (forall s | s in ss :: Admits(s, labels)) <==> forall t | t in ts :: TreeAdmits(t, labels)
    ensures (exists s | s in ss :: Admits(s, labels)) <==> exists t | t in ts :: TreeAdmits(t, labels)
  {
    forall i | 0 <= i < |ss| ensures ss[i] in ss && ts[i] in ts {}
    if forall s | s in ss :: Admits(s, labels) {
      forall t | t in ts ensures TreeAdmits(t, labels) {
        var i :| 0 <= i < |ts| && ts[i] == t;
      }
    } else {
      var s :| s in ss && !Admits(s, labels);
      var i :| 0 <= i < |ss| && ss[i] == s;
      assert !TreeAdmits(ts[i], labels);
    }
    SomeMeaning(ss, ts, labels);
  }

  lemma SomeMeaning(ss: seq<Selector>, ts: seq<Tree>, labels: NodeLabels)
    requires |ss| == |ts| && forall i | 0 <= i < |ss| :: Admits(ss[i], labels) <==> TreeAdmits(ts[i], labels)
    ensures (exists s | s in ss :: Admits(s, labels)) <==> exists t | t in ts :: TreeAdmits(t, labels)
  {
    if s :| s in ss && Admits(s, labels) {
      var i :| 0 <= i < |ss| && ss[i] == s;
      assert ts[i] in ts && TreeAdmits(ts[i], labels);
    }
    if t :| t in ts && TreeAdmits(t, labels) {
      var i :| 0 <= i < |ts| && ts[i] == t;
      assert ss[i] in ss && Admits(ss[i], labels);
    }
  }

  lemma {:induction false} NonTopMeans(ts: seq<Tree>, labels: NodeLabels)
    ensures (forall t | t in ts :: TreeAdmits(t, labels)) <==> forall t | t in NonTop(ts) :: TreeAdmits(t, labels)
  {
    if ts != [] {
      NonTopMeans(ts[1..], labels);
      assert ts == [ts[0]] + ts[1..];
    }
  }

  lemma IntersectMeans(ts: seq<Tree>, labels: NodeLabels)
    ensures TreeAdmits(Intersect(ts), labels) <==> forall t | t in ts :: TreeAdmits(t, labels)
  {
    NonTopMeans(ts, labels);
  }

  lemma UniteMeans(ts: seq<Tree>, labels: NodeLabels)
    requires ts != []
    ensures TreeAdmits(Unite(ts), labels) <==> exists t | t in ts :: TreeAdmits(t, labels)
  {
    if Top in ts {
      assert TreeAdmits(Top, labels);
    } else if |ts| == 1 {
      assert ts[0] in ts;
    }
  }

  // ---- where it does not ----

  // The complement of what constrains nothing admits no class, and still has the
  // shared key: the reduction keeps the meaning of a negation exactly if what is
  // negated constrains the class.
  lemma NegationKeepsMeaningExactlyWhen(child: Selector)
    requires Regular(child)
    ensures (forall labels: NodeLabels ::
               Admits(NotSelector(child), labels) <==> TreeAdmits(Reduce(NotSelector(child)), labels))
            <==> Constrains(child)
  {
    TopExactlyWhen(child);
    if Constrains(child) {
      forall labels: NodeLabels
        ensures Admits(NotSelector(child), labels) <==> TreeAdmits(Reduce(NotSelector(child)), labels)
      {
        ReductionKeepsMeaning(NotSelector(child), labels);
      }
    } else {
      var labels: NodeLabels := map[];
      ReductionKeepsMeaning(child, labels);
      assert !Admits(NotSelector(child), labels) && TreeAdmits(Reduce(NotSelector(child)), labels);
    }
  }

  // Nor is anything admitted by an empty union, which has the shared key, too.
  lemma EmptyUnionAdmitsNothing(labels: NodeLabels)
    ensures !Admits(OrSelector([]), labels) && TreeAdmits(Reduce(OrSelector([])), labels)
    ensures ClassKey(OrSelector([])) == ""
  {}

  // ---- what a shared key promises ----

  lemma {:induction false} ClassMeans(t: Tree, u: Tree, labels: NodeLabels)
    requires Canon(t) == Canon(u)
    ensures TreeAdmits(t, labels) <==> TreeAdmits(u, labels)
    decreases t, 1
  {
    match t
    case Top => OnlyTop(u);
    case LabelTree(name, values) => SameValues(values, u.values, labels, name);
    case ExistsTree(name) =>
    case AndTree(parts) => ClassesMean(parts, u.parts, labels);
    case OrTree(parts) => ClassesMean(parts, u.parts, labels);
    case NotTree(part) => ClassMeans(part, u.part, labels);
  }

  lemma SameValues(a: seq<string>, b: seq<string>, labels: NodeLabels, name: string)
    requires multiset(a) == multiset(b)
    ensures HasLabel(labels, name, a) <==> HasLabel(labels, name, b)
  {
    assert |multiset(a)| == |a| && |multiset(b)| == |b|;
    assert forall v :: v in a <==> v in multiset(a);
    assert forall v :: v in b <==> v in multiset(b);
  }

  lemma {:induction false} ClassesMean(ts: seq<Tree>, us: seq<Tree>, labels: NodeLabels)
    requires multiset(CanonAll(ts)) == multiset(CanonAll(us))
    ensures (forall t | t in ts :: TreeAdmits(t, labels)) <==> forall u | u in us :: TreeAdmits(u, labels)
    ensures (exists t | t in ts :: TreeAdmits(t, labels)) <==> exists u | u in us :: TreeAdmits(u, labels)
    decreases ts, 0
  {
    forall t | t in ts ensures exists u | u in us :: TreeAdmits(t, labels) <==> TreeAdmits(u, labels) {
      var i :| 0 <= i < |ts| && ts[i] == t;
      var j := PartnerOf(ts, us, i);
      ClassMeans(ts[i], us[j], labels);
      assert us[j] in us;
    }
    forall u | u in us ensures exists t | t in ts :: TreeAdmits(t, labels) <==> TreeAdmits(u, labels) {
      var i :| 0 <= i < |us| && us[i] == u;
      var j := PartnerOf(us, ts, i);
      ClassMeans(ts[j], us[i], labels);
      assert ts[j] in ts;
    }
  }

  lemma PartnerOf(ts: seq<Tree>, us: seq<Tree>, i: nat) returns (j: nat)
    requires multiset(CanonAll(ts)) == multiset(CanonAll(us)) && i < |ts|
    ensures j < |us| && Canon(us[j]) == Canon(ts[i])
  {
    var c := CanonAll(ts)[i];
    assert c in multiset(CanonAll(ts));
    j := Occurs(CanonAll(us), c);
  }

  // Requests with readable names that share a cache key admit the same node classes.
  lemma SharedKeySameClasses(a: seq<Selector>, b: seq<Selector>, labels: NodeLabels)
    requires forall s | s in a :: PlainSelector(s) && Regular(s)
    requires forall s | s in b :: PlainSelector(s) && Regular(s)
    requires CacheKey(a) == CacheKey(b)
    ensures Admits(AndSelector(a), labels) <==> Admits(AndSelector(b), labels)
  {
    KeyIsIdentity(a, b);
    ReductionKeepsMeaning(AndSelector(a), labels);
    ReductionKeepsMeaning(AndSelector(b), labels);
    ClassMeans(Reduce(AndSelector(a)), Reduce(AndSelector(b)), labels);
  }

  // A request with the shared key admits every class, whatever its names.
  lemma SharedEntryAdmitsAll(a: seq<Selector>, labels: NodeLabels)
    requires (forall s | s in a :: Regular(s)) && CacheKey(a) == ""
    ensures Admits(AndSelector(a), labels)
  {
    ReductionKeepsMeaning(AndSelector(a), labels);
    KeyIsPrinted(AndSelector(a));
    PrintTop(Reduce(AndSelector(a)));
  }
}
