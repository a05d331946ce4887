/**
 The node-class part of the cache key (internal/protocol/request_selector_key.go):
 a selector tree is reduced to its label constraints and printed with sorted
 children. Two requests share the printed key exactly when their reduced trees
 are equal up to order.
 */
module SelectorKey {
  import opened Sorting

  datatype Selector =
    | AnySelector
    | LabelSelector(name: string, values: seq<string>)
    | ExistsSelector(name: string)
    | AndSelector(children: seq<Selector>)
    | OrSelector(children: seq<Selector>)
    | NotSelector(child: Selector)
    | HeightSelector(height: int)
    | BlockTagSelector(tag: int)
    | SlotHeightSelector(slot: int)
    | LowerHeightSelector(height: int, bound: int, offset: int, delta: int)
    | UnsupportedSelector(reason: string)
    | NilSelector

  // ---- the key ----

  function Join(parts: seq<string>): string {
    if parts == [] then "" else if |parts| == 1 then parts[0] else parts[0] + ("|" + Join(parts[1..]))
  }

  function Wrap(word: string, body: string): string {
    word + ("(" + (body + ")"))
  }

  function LabelKey(name: string, values: seq<string>): string {
    Wrap("label", name + ("=" + Join(Sort(values))))
  }

  // `parts` come sorted.
  function GroupKey(word: string, parts: seq<string>): string {
    if parts == [] then "" else if |parts| == 1 then parts[0] else Wrap(word, Join(parts))
  }

  function ClassKey(s: Selector): string
    decreases s, 1
  {
    match s
    case LabelSelector(name, values) => LabelKey(name, values)
    case ExistsSelector(name) => Wrap("exists", name)
    case AndSelector(children) => GroupKey("and", Sort(NonEmpty(ClassKeys(children))))
    case OrSelector(children) => if "" in ClassKeys(children) then "" else GroupKey("or", Sort(ClassKeys(children)))
    case NotSelector(child) => if ClassKey(child) == "" then "" else Wrap("not", ClassKey(child))
    case _ => ""
  }

  function ClassKeys(ss: seq<Selector>): (ks: seq<string>)
    ensures |ks| == |ss|
    ensures forall i | 0 <= i < |ss| :: ks[i] == ClassKey(ss[i])
    decreases ss, 0
  {
    if ss == [] then [] else [ClassKey(ss[0])] + ClassKeys(ss[1..])
  }

  function NonEmpty(ks: seq<string>): seq<string> {
    if ks == [] then [] else (if ks[0] == "" then [] else [ks[0]]) + NonEmpty(ks[1..])
  }

  function CacheKey(selectors: seq<Selector>): string {
    ClassKey(AndSelector(selectors))
  }

  // ---- the source's loops ----

  lemma {:induction false} NonEmptyAppend(ks: seq<string>, k: string)
    ensures NonEmpty(ks + [k]) == NonEmpty(ks) + (if k == "" then [] else [k])
  {
    if ks == [] {
      assert [k][1..] == [];
    } else {
      NonEmptyAppend(ks[1..], k);
      var first, last := if ks[0] == "" then [] else [ks[0]], if k == "" then [] else [k];
      assert (ks + [k])[0] == ks[0] && (ks + [k])[1..] == ks[1..] + [k];
      assert first + (NonEmpty(ks[1..]) + last) == first + NonEmpty(ks[1..]) + last;
    }
  }

  lemma TakeNext(ks: seq<string>, i: nat)
    requires i < |ks|
    ensures ks[..i] + [ks[i]] == ks[..i + 1]
  {}

  method LabelClassKey(selector: Selector) returns (key: string)
    ensures key == ClassKey(selector)
    decreases selector, 1
  {
    match selector {
      case LabelSelector(name, values) => key := LabelKey(name, values);
      case ExistsSelector(name) => key := Wrap("exists", name);
      case AndSelector(children) =>
        var parts := LabelClassParts(children);
        key := GroupKey("and", parts);
      case OrSelector(children) =>
        var parts, top := UnionParts(children);
        key := if top then "" else GroupKey("or", Sort(parts));
      case NotSelector(child) =>
        var k := LabelClassKey(child);
        key := if k == "" then "" else Wrap("not", k);
      case _ => key := "";
    }
  }

  // The loop of the OR case: a single unconstrained child ends it.
  method UnionParts(children: seq<Selector>) returns (parts: seq<string>, top: bool)
    ensures top <==> "" in ClassKeys(children)
    ensures !top ==> parts == ClassKeys(children)
    decreases children, 0
  {
    parts, top := [], false;
    var i := 0;
    ghost var ks := ClassKeys(children);
    while i < |children|
      invariant 0 <= i == |parts| <= |children|
      invariant forall j | 0 <= j < i :: parts[j] == ks[j] && |ks[j]| > 0
    {
      var k := LabelClassKey(children[i]);
      if |k| == 0 {
        assert ks[i] == "";
        return parts, true;
      }
      parts := parts + [k];
      i := i + 1;
    }
    assert parts == ks;
  }

  method LabelClassParts(children: seq<Selector>) returns (parts: seq<string>)
    ensures parts == Sort(NonEmpty(ClassKeys(children)))
    decreases children, 0
  {
    parts := [];
    var i := 0;
    ghost var ks := ClassKeys(children);
    while i < |children|
      invariant 0 <= i <= |children| && parts == NonEmpty(ks[..i])
    {
      var k := LabelClassKey(children[i]);
      NonEmptyAppend(ks[..i], k);
      TakeNext(ks, i);
      if k != "" {
        parts := parts + [k];
      }
      i := i + 1;
    }
    assert ks[..i] == ks;
    parts := Sort(parts);
  }

  method LabelCacheKey(selectors: seq<Selector>) returns (key: string)
    ensures key == CacheKey(selectors)
  {
    key := LabelClassKey(AndSelector(selectors));
  }

  // ---- the reduced tree ----

  // What is left of a selector: `Top` admits every node class, groups have at
  // least two members and no member of anything is `Top`.
  datatype Tree =
    | Top
    | LabelTree(name: string, values: seq<string>)
    | ExistsTree(name: string)
    | AndTree(parts: seq<Tree>)
    | OrTree(parts: seq<Tree>)
    | NotTree(part: Tree)

  function Reduce(s: Selector): Tree
    decreases s, 1
  {
    match s
    case LabelSelector(name, values) => LabelTree(name, values)
    case ExistsSelector(name) => ExistsTree(name)
    case AndSelector(children) =>
      var parts := NonTop(ReduceAll(children));
      if parts == [] then Top else if |parts| == 1 then parts[0] else AndTree(parts)
    case OrSelector(children) =>
      var parts := ReduceAll(children);
      if Top in parts || parts == [] then Top else if |parts| == 1 then parts[0] else OrTree(parts)
    case NotSelector(child) => if Reduce(child) == Top then Top else NotTree(Reduce(child))
    case _ => Top
  }

  function ReduceAll(ss: seq<Selector>): (ts: seq<Tree>)
    ensures |ts| == |ss|
    ensures forall i | 0 <= i < |ss| :: ts[i] == Reduce(ss[i])
    decreases ss, 0
  {
    if ss == [] then [] else [Reduce(ss[0])] + ReduceAll(ss[1..])
  }

  function NonTop(ts: seq<Tree>): (r: seq<Tree>)
    ensures Top !in r
    ensures forall t | t in r :: t in ts
  {
    if ts == [] then [] else (if ts[0] == Top then [] else [ts[0]]) + NonTop(ts[1..])
  }

  function Print(t: Tree): string
    decreases t, 1
  {
    match t
    case Top => ""
    case LabelTree(name, values) => LabelKey(name, values)
    case ExistsTree(name) => Wrap("exists", name)
    case AndTree(parts) => Wrap("and", Join(Sort(PrintAll(parts))))
    case OrTree(parts) => Wrap("or", Join(Sort(PrintAll(parts))))
    case NotTree(part) => Wrap("not", Print(part))
  }

  function PrintAll(ts: seq<Tree>): (ks: seq<string>)
    ensures |ks| == |ts|
    ensures forall i | 0 <= i < |ts| :: ks[i] == Print(ts[i])
    decreases ts, 0
  {
    if ts == [] then [] else [Print(ts[0])] + PrintAll(ts[1..])
  }

  ghost predicate Reduced(t: Tree) {
    match t
    case AndTree(parts) => |parts| >= 2 && forall p | p in parts :: p != Top && Reduced(p)
    case OrTree(parts) => |parts| >= 2 && forall p | p in parts :: p != Top && Reduced(p)
    case NotTree(part) => part != Top && Reduced(part)
    case _ => true
  }

  lemma {:induction false} ReduceIsReduced(s: Selector)
    ensures Reduced(Reduce(s))
    decreases s, 1
  {
    match s
    case AndSelector(children) => AllReduced(children);
    case OrSelector(children) => AllReduced(children);
    case NotSelector(child) => ReduceIsReduced(child);
    case _ =>
  }

  lemma {:induction false} AllReduced(ss: seq<Selector>)
    ensures forall t | t in ReduceAll(ss) :: Reduced(t)
    decreases ss, 0
  {
    forall t | t in ReduceAll(ss) ensures Reduced(t) {
      var i :| 0 <= i < |ss| && ReduceAll(ss)[i] == t;
      ReduceIsReduced(ss[i]);
    }
  }

  lemma PrintTop(t: Tree)
    ensures Print(t) == "" <==> t == Top
  {}

  lemma {:induction false} NonTopPrints(ts: seq<Tree>)
    ensures PrintAll(NonTop(ts)) == NonEmpty(PrintAll(ts))
  {
    if ts != [] {
      NonTopPrints(ts[1..]);
      PrintTop(ts[0]);
      assert PrintAll(ts)[1..] == PrintAll(ts[1..]);
      var rest := NonTop(ts[1..]);
      if ts[0] != Top {
        assert NonTop(ts)[1..] == rest;
      } else {
        assert NonTop(ts) == rest;
      }
    }
  }

  lemma SortLength(xs: seq<string>)
    ensures |Sort(xs)| == |xs|
    ensures |xs| == 1 ==> Sort(xs) == xs
  {
    SortIs(xs);
    assert |multiset(xs)| == |xs| && |multiset(Sort(xs))| == |Sort(xs)|;
    if |xs| == 1 {
      assert xs[1..] == [];
      assert [xs[0]] + [] == xs;
    }
  }

  lemma TopPrints(ts: seq<Tree>)
    ensures "" in PrintAll(ts) <==> Top in ts
  {
    if Top in ts {
      var i :| 0 <= i < |ts| && ts[i] == Top;
      assert PrintAll(ts)[i] == "";
    }
    if "" in PrintAll(ts) {
      var i :| 0 <= i < |ts| && PrintAll(ts)[i] == "";
      PrintTop(ts[i]);
    }
  }

  // The key is the reduced tree, printed.
  lemma {:induction false} KeyIsPrinted(s: Selector)
    ensures ClassKey(s) == Print(Reduce(s))
    decreases s, 1
  {
    match s
    case AndSelector(children) =>
      KeysArePrinted(children);
      NonTopPrints(ReduceAll(children));
      SortLength(NonEmpty(ClassKeys(children)));
    case OrSelector(children) =>
      KeysArePrinted(children);
      TopPrints(ReduceAll(children));
      SortLength(ClassKeys(children));
    case NotSelector(child) => KeyIsPrinted(child); PrintTop(Reduce(child));
    case _ =>
  }

  lemma {:induction false} KeysArePrinted(ss: seq<Selector>)
    ensures ClassKeys(ss) == PrintAll(ReduceAll(ss))
    decreases ss, 0
  {
    forall i | 0 <= i < |ss| ensures ClassKeys(ss)[i] == PrintAll(ReduceAll(ss))[i] {
      KeyIsPrinted(ss[i]);
    }
  }

  // ---- which selectors have a key ----

  // A label or exists selector occurs somewhere.
  ghost predicate Mentions(s: Selector) {
    match s
    case LabelSelector(_, _) => true
    case ExistsSelector(_) => true
    case AndSelector(children) => exists c | c in children :: Mentions(c)
    case OrSelector(children) => exists c | c in children :: Mentions(c)
    case NotSelector(child) => Mentions(child)
    case _ => false
  }

  // The node class matters: one conjunct constrains it, or every alternative does.
  ghost predicate Constrains(s: Selector) {
    match s
    case LabelSelector(_, _) => true
    case ExistsSelector(_) => true
    case AndSelector(children) => exists c | c in children :: Constrains(c)
    case OrSelector(children) => children != [] && forall c | c in children :: Constrains(c)
    case NotSelector(child) => Constrains(child)
    case _ => false
  }

  lemma {:induction false} UnlabelledIsFree(s: Selector)
    requires !Mentions(s)
    ensures !Constrains(s)
  {
    match s
    case AndSelector(children) =>
      forall c | c in children ensures !Constrains(c) {
        UnlabelledIsFree(c);
      }
    case OrSelector(children) =>
      if children != [] {
        UnlabelledIsFree(children[0]);
      }
    case NotSelector(child) => UnlabelledIsFree(child);
    case _ =>
  }

  // The shared entry is for exactly the requests to which the node class does not matter.
  lemma {:induction false} KeyExactlyWhen(s: Selector)
    ensures ClassKey(s) == "" <==> !Constrains(s)
    decreases s, 1
  {
    match s
    case AndSelector(children) =>
      KeysExactlyWhen(children);
      var ks := ClassKeys(children);
      AllEmpty(ks);
      SortLength(NonEmpty(ks));
      SortMembersOf(NonEmpty(ks));
    case OrSelector(children) =>
      KeysExactlyWhen(children);
      var ks := ClassKeys(children);
      SortLength(ks);
      if children != [] && "" !in ks {
        SortMembersOf(ks);
      }
    case NotSelector(child) => KeyExactlyWhen(child);
    case _ =>
  }

  lemma {:induction false} KeysExactlyWhen(ss: seq<Selector>)
    ensures forall i | 0 <= i < |ss| :: ClassKeys(ss)[i] == "" <==> !Constrains(ss[i])
    ensures (exists c | c in ss :: Constrains(c)) <==> exists k | k in ClassKeys(ss) :: k != ""
    ensures (forall c | c in ss :: Constrains(c)) <==> "" !in ClassKeys(ss)
    decreases ss, 0
  {
    var ks := ClassKeys(ss);
    forall i | 0 <= i < |ss| ensures ks[i] == "" <==> !Constrains(ss[i]) {
      KeyExactlyWhen(ss[i]);
    }
    if c :| c in ss && Constrains(c) {
      var i :| 0 <= i < |ss| && ss[i] == c;
      assert ks[i] in ks;
    }
    if k :| k in ks && k != "" {
      var i :| 0 <= i < |ks| && ks[i] == k;
      assert ss[i] in ss;
    }
    if "" in ks {
      var i :| 0 <= i < |ks| && ks[i] == "";
      assert ss[i] in ss;
    }
  }

  lemma {:induction false} NonEmptyMembers(ks: seq<string>, k: string)
    ensures k in NonEmpty(ks) <==> k in ks && k != ""
  {
    if ks != [] {
      NonEmptyMembers(ks[1..], k);
      assert ks == [ks[0]] + ks[1..];
    }
  }

  lemma AllEmpty(ks: seq<string>)
    ensures NonEmpty(ks) == [] <==> !exists k | k in ks :: k != ""
    ensures "" !in NonEmpty(ks)
  {
    NonEmptyMembers(ks, "");
    if NonEmpty(ks) != [] {
      NonEmptyMembers(ks, NonEmpty(ks)[0]);
    }
    if k :| k in ks && k != "" {
      NonEmptyMembers(ks, k);
    }
  }

  lemma SortMembersOf(ks: seq<string>)
    requires "" !in ks
    ensures "" !in Sort(ks)
  {
    SortIs(ks);
    assert multiset(Sort(ks))[""] == multiset(ks)[""] == 0;
  }
}
