/**
 Why the names and values of SelectorIdentity must be free of the marks they are
 free of: each mark it excludes makes two different node classes share a key.
 */
module SelectorCollisions {
  import opened Common
  import opened Sorting
  import opened SelectorKey
  import opened SelectorIdentity

  lemma SingleLabel(name: string, values: seq<string>)
    ensures CacheKey([LabelSelector(name, values)]) == LabelKey(name, values)
    ensures ClassOf([LabelSelector(name, values)]) == LabelClass(name, multiset(values))
  {
    var l := LabelSelector(name, values);
    ReduceSingle(l);
    var t := LabelTree(name, values);
    assert [t][1..] == [];
    assert NonTop([t]) == [t];
    assert Reduce(AndSelector([l])) == t;
    KeyIsPrinted(AndSelector([l]));
  }

  // A name with an '=' reads like a shorter name and a longer value ...
  lemma NameCollides(n: string, m: string, v: string)
    ensures var longName, longValue := [LabelSelector(n + "=" + m, [v])], [LabelSelector(n, [m + "=" + v])];
            CacheKey(longName) == CacheKey(longValue) && ClassOf(longName) != ClassOf(longValue)
  {
    var value := m + "=" + v;
    SingleLabel(n + "=" + m, [v]);
    SingleLabel(n, [value]);
    SortLength([v]);
    SortLength([value]);
    assert (n + "=" + m) + ("=" + v) == n + ("=" + value);
    assert |n + "=" + m| > |n|;
  }

  // ... a value that contains the separator reads like two values ...
  lemma SeparatorCollides(name: string)
    ensures var joined, split := [LabelSelector(name, ["a|b"])], [LabelSelector(name, ["a", "b"])];
            CacheKey(joined) == CacheKey(split) && ClassOf(joined) != ClassOf(split)
  {
    SingleLabel(name, ["a|b"]);
    SingleLabel(name, ["a", "b"]);
    SortLength(["a|b"]);
    SortLength(["b"]);
    assert ["a", "b"][1..] == ["b"];
    assert Sort(["a", "b"]) == ["a", "b"];
    assert "a" in multiset(["a", "b"]) && "a" !in multiset(["a|b"]);
  }

  // ... no values at all read like one empty value ...
  lemma EmptyListCollides(name: string)
    ensures var none, empty := [LabelSelector(name, [])], [LabelSelector(name, [""])];
            CacheKey(none) == CacheKey(empty) && ClassOf(none) != ClassOf(empty)
  {
    SingleLabel(name, []);
    SingleLabel(name, [""]);
    SortLength([""]);
    assert "" in multiset([""]);
  }

  // ... and a value or an exists name with a ')' moves the end of a group:
  // or(and(a|b)|c)|d) has c outside the conjunction if the ')' is the group's and
  // inside if it is the name's.
  function LeafOf(valued: bool, n: string): Selector {
    if valued then LabelSelector("n", [n]) else ExistsSelector(n)
  }

  function Opening(valued: bool): string {
    if valued then "label(n=" else "exists("
  }

  lemma LeafKey(valued: bool, n: string)
    ensures ClassKey(LeafOf(valued, n)) == Opening(valued) + (n + ")")
    ensures ClassKey(LeafOf(valued, n + ")")) == ClassKey(LeafOf(valued, n)) + ")"
  {
    SortLength([n]);
    SortLength([n + ")"]);
    var o := Opening(valued);
    assert "label" + ("(" + (("n" + ("=" + n)) + ")")) == "label(n=" + (n + ")");
    assert "label" + ("(" + (("n" + ("=" + (n + ")"))) + ")")) == "label(n=" + ((n + ")") + ")");
    assert "exists" + ("(" + (n + ")")) == "exists(" + (n + ")");
    assert "exists" + ("(" + ((n + ")") + ")")) == "exists(" + ((n + ")") + ")");
    Assoc(o, n + ")", ")");
  }

  // Leaves are ordered by their names, and conjunctions come before them.
  lemma LeavesOrdered(valued: bool, n: string, m: string)
    requires n != "" && m != "" && n[0] < m[0]
    ensures Leq(ClassKey(LeafOf(valued, n)), ClassKey(LeafOf(valued, m)))
  {
    LeafKey(valued, n);
    LeafKey(valued, m);
    assert Leq(n + ")", m + ")");
    LeqAfter(Opening(valued), n + ")", m + ")");
  }

  lemma JoinCons(p: string, ks: seq<string>)
    requires ks != []
    ensures Join([p] + ks) == p + ("|" + Join(ks))
  {
    assert ([p] + ks)[1..] == ks;
  }

  lemma Grouped2(p: string, q: string)
    requires Leq(p, q)
    ensures Sort([p, q]) == [p, q] && Join([p, q]) == p + ("|" + q)
  {
    SortOfSorted([p, q]);
    assert [p, q] == [p] + [q];
    JoinCons(p, [q]);
  }

  lemma Grouped3(p: string, q: string, r: string)
    requires Leq(p, q) && Leq(q, r)
    ensures Sort([p, q, r]) == [p, q, r] && Join([p, q, r]) == p + ("|" + (q + ("|" + r)))
  {
    LeqTransitive(p, q, r);
    SortOfSorted([p, q, r]);
    assert [p, q, r] == [p] + [q, r];
    JoinCons(p, [q, r]);
    Grouped2(q, r);
  }

  // The keys of two and three leaves in a conjunction.
  lemma AndKeys(valued: bool)
    ensures var two := AndSelector([LeafOf(valued, "a"), LeafOf(valued, "b")]);
            var three := AndSelector([LeafOf(valued, "a"), LeafOf(valued, "b)"), LeafOf(valued, "c")]);
            var c := ClassKey(LeafOf(valued, "c)"));
            && ClassKey(two) != "" && ClassKey(two)[0] == 'a' && ClassKey(three) != "" && ClassKey(three)[0] == 'a'
            && ClassKey(three) == ClassKey(two) + ("|" + c)
  {
    var a, b, b', c := ClassKey(LeafOf(valued, "a")), ClassKey(LeafOf(valued, "b")), ClassKey(LeafOf(valued, "b)")),
        ClassKey(LeafOf(valued, "c"));
    LeafKey(valued, "a");
    LeafKey(valued, "b");
    LeafKey(valued, "c");
    assert "b" + ")" == "b)" && "c" + ")" == "c)";
    LeavesOrdered(valued, "a", "b");
    LeavesOrdered(valued, "a", "b)");
    LeavesOrdered(valued, "b)", "c");
    Grouped2(a, b);
    Grouped3(a, b', c);
    ClassKeysOf2(LeafOf(valued, "a"), LeafOf(valued, "b"));
    ClassKeysOf3(LeafOf(valued, "a"), LeafOf(valued, "b)"), LeafOf(valued, "c"));
    ClosesLater(a, b, c);
  }

  lemma ClosesLater(a: string, b: string, c: string)
    ensures Wrap("and", a + ("|" + ((b + ")") + ("|" + c)))) == Wrap("and", a + ("|" + b)) + ("|" + (c + ")"))
  {
    var left, right := "and(" + a + "|" + b + ")|" + c + ")", "and(" + a + "|" + b + ")|" + c + ")";
    assert Wrap("and", a + ("|" + ((b + ")") + ("|" + c)))) == left;
    assert Wrap("and", a + ("|" + b)) + ("|" + (c + ")")) == right;
  }

  lemma {:induction false} AllKept(ks: seq<string>)
    requires forall i | 0 <= i < |ks| :: ks[i] != ""
    ensures NonEmpty(ks) == ks
  {
    if ks != [] {
      AllKept(ks[1..]);
      assert ks == [ks[0]] + ks[1..];
    }
  }

  lemma ClassKeysOf2(s: Selector, t: Selector)
    requires ClassKey(s) != "" && ClassKey(t) != ""
    ensures ClassKeys([s, t]) == [ClassKey(s), ClassKey(t)] && NonEmpty(ClassKeys([s, t])) == [ClassKey(s), ClassKey(t)]
  {
    AllKept(ClassKeys([s, t]));
  }

  lemma ClassKeysOf3(s: Selector, t: Selector, u: Selector)
    requires ClassKey(s) != "" && ClassKey(t) != "" && ClassKey(u) != ""
    ensures ClassKeys([s, t, u]) == [ClassKey(s), ClassKey(t), ClassKey(u)]
    ensures NonEmpty(ClassKeys([s, t, u])) == [ClassKey(s), ClassKey(t), ClassKey(u)]
  {
    AllKept(ClassKeys([s, t, u]));
  }

  function Outside(valued: bool): Selector {
    OrSelector([AndSelector([LeafOf(valued, "a"), LeafOf(valued, "b")]), LeafOf(valued, "c)"), LeafOf(valued, "d")])
  }

  function Inside(valued: bool): Selector {
    OrSelector([AndSelector([LeafOf(valued, "a"), LeafOf(valued, "b)"), LeafOf(valued, "c")]), LeafOf(valued, "d")])
  }

  lemma SameUnion(two: Selector, three: Selector, c: Selector, d: Selector)
    requires ClassKey(two) != "" && ClassKey(c) != "" && ClassKey(d) != ""
    requires ClassKey(three) == ClassKey(two) + ("|" + ClassKey(c))
    requires Leq(ClassKey(two), ClassKey(c)) && Leq(ClassKey(c), ClassKey(d)) && Leq(ClassKey(three), ClassKey(d))
    ensures ClassKey(OrSelector([two, c, d])) == ClassKey(OrSelector([three, d]))
  {
    var p, q, r := ClassKey(two), ClassKey(c), ClassKey(d);
    ClassKeysOf3(two, c, d);
    ClassKeysOf2(three, d);
    Grouped3(p, q, r);
    Grouped2(ClassKey(three), r);
    Assoc(p, "|" + q, "|" + r);
    Assoc("|", q, "|" + r);
  }

  // A single selector that constrains labels is its own conjunction.
  lemma Alone(s: Selector)
    requires Reduce(s) != Top
    ensures CacheKey([s]) == ClassKey(s) && ClassOf([s]) == Canon(Reduce(s))
  {
    ReduceSingle(s);
    AllNonTop([Reduce(s)]);
    KeyIsPrinted(AndSelector([s]));
    KeyIsPrinted(s);
  }

  lemma ParenCollides(valued: bool)
    ensures var outside, inside := [Outside(valued)], [Inside(valued)];
            CacheKey(outside) == CacheKey(inside) && ClassOf(outside) != ClassOf(inside)
  {
    var two := AndSelector([LeafOf(valued, "a"), LeafOf(valued, "b")]);
    var three := AndSelector([LeafOf(valued, "a"), LeafOf(valued, "b)"), LeafOf(valued, "c")]);
    AndKeys(valued);
    LeafKey(valued, "c)");
    LeafKey(valued, "d");
    LeavesOrdered(valued, "c)", "d");
    AndBefore(ClassKey(two), valued, "c)");
    AndBefore(ClassKey(three), valued, "d");
    SameUnion(two, three, LeafOf(valued, "c)"), LeafOf(valued, "d"));
    MembersDiffer(valued);
    Alone(Outside(valued));
    Alone(Inside(valued));
  }

  lemma AndBefore(k: string, valued: bool, n: string)
    requires k != "" && k[0] == 'a'
    ensures Leq(k, ClassKey(LeafOf(valued, n)))
  {
    LeafKey(valued, n);
    assert (Opening(valued) + (n + ")"))[0] > 'a';
  }

  // One union has three members, the other two.
  lemma MembersDiffer(valued: bool)
    ensures Reduce(Outside(valued)) != Top && Reduce(Inside(valued)) != Top
    ensures Canon(Reduce(Outside(valued))) != Canon(Reduce(Inside(valued)))
  {
    var a, b, b', c := LeafOf(valued, "a"), LeafOf(valued, "b"), LeafOf(valued, "b)"), LeafOf(valued, "c");
    GroupReduces([a, b]);
    GroupReduces([a, b', c]);
    SizesDiffer([AndSelector([a, b]), LeafOf(valued, "c)"), LeafOf(valued, "d")],
        [AndSelector([a, b', c]), LeafOf(valued, "d")]);
  }

  lemma SizesDiffer(x: seq<Selector>, y: seq<Selector>)
    requires |x| >= 2 && forall i | 0 <= i < |x| :: Reduce(x[i]) != Top
    requires |y| >= 2 && forall i | 0 <= i < |y| :: Reduce(y[i]) != Top
    requires |x| != |y|
    ensures Reduce(OrSelector(x)) != Top && Reduce(OrSelector(y)) != Top
    ensures Canon(Reduce(OrSelector(x))) != Canon(Reduce(OrSelector(y)))
  {
    UnionReduces(x);
    UnionReduces(y);
    BagsDiffer(CanonAll(ReduceAll(x)), CanonAll(ReduceAll(y)));
  }

  lemma BagsDiffer(p: seq<Class>, q: seq<Class>)
    requires |p| != |q|
    ensures OrClass(multiset(p)) != OrClass(multiset(q))
  {
    assert |multiset(p)| == |p| && |multiset(q)| == |q|;
  }

  lemma {:induction false} AllNonTop(ts: seq<Tree>)
    requires forall i | 0 <= i < |ts| :: ts[i] != Top
    ensures NonTop(ts) == ts
  {
    if ts != [] {
      AllNonTop(ts[1..]);
      assert ts == [ts[0]] + ts[1..];
    }
  }

  lemma GroupReduces(children: seq<Selector>)
    requires |children| >= 2 && forall i | 0 <= i < |children| :: Reduce(children[i]) != Top
    ensures Reduce(AndSelector(children)) == AndTree(ReduceAll(children))
  {
    AllNonTop(ReduceAll(children));
  }

  lemma UnionReduces(children: seq<Selector>)
    requires |children| >= 2 && forall i | 0 <= i < |children| :: Reduce(children[i]) != Top
    ensures Reduce(OrSelector(children)) == OrTree(ReduceAll(children))
  {
    assert Top !in ReduceAll(children);
  }
}
