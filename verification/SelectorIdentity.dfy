/**
 What equal cache keys mean: the printed key of SelectorKey can be read back, so
 it determines the reduced tree up to the order of children and values, and
 nothing but that order is lost.
 */
module SelectorIdentity {
  import opened Common
  import opened Sorting
  import opened SelectorKey

  // ---- trees up to order ----

  datatype Class =
    | TopClass
    | LabelClass(name: string, values: multiset<string>)
    | ExistsClass(name: string)
    | AndClass(parts: multiset<Class>)
    | OrClass(parts: multiset<Class>)
    | NotClass(part: Class)

  ghost function Canon(t: Tree): Class
    decreases t, 1
  {
    match t
    case Top => TopClass
    case LabelTree(name, values) => LabelClass(name, multiset(values))
    case ExistsTree(name) => ExistsClass(name)
    case AndTree(parts) => AndClass(multiset(CanonAll(parts)))
    case OrTree(parts) => OrClass(multiset(CanonAll(parts)))
    case NotTree(part) => NotClass(Canon(part))
  }

  ghost function CanonAll(ts: seq<Tree>): (cs: seq<Class>)
    ensures |cs| == |ts|
    ensures forall i | 0 <= i < |ts| :: cs[i] == Canon(ts[i])
    decreases ts, 0
  {
    if ts == [] then [] else [Canon(ts[0])] + CanonAll(ts[1..])
  }

  // The node class a request is pinned to.
  ghost function ClassOf(selectors: seq<Selector>): Class {
    Canon(Reduce(AndSelector(selectors)))
  }

  // ---- names that cannot be confused with the key's own punctuation ----

  // None of these characters occurs.
  predicate Free(s: string, marks: string) {
    forall i | 0 <= i < |s| :: s[i] !in marks
  }

  // Where a name or value ends in the key must be plain to see: a label's name at
  // the first '=', a value at the first '|' or ')', an exists name at the first ')'.
  predicate PlainLabel(name: string, values: seq<string>) {
    Free(name, "=") && values != [] && forall i | 0 <= i < |values| :: Free(values[i], "|)")
  }

  ghost predicate PlainTree(t: Tree) {
    match t
    case Top => true
    case LabelTree(name, values) => PlainLabel(name, values)
    case ExistsTree(name) => Free(name, ")")
    case AndTree(parts) => forall p | p in parts :: PlainTree(p)
    case OrTree(parts) => forall p | p in parts :: PlainTree(p)
    case NotTree(part) => PlainTree(part)
  }

  ghost predicate PlainSelector(s: Selector) {
    match s
    case LabelSelector(name, values) => PlainLabel(name, values)
    case ExistsSelector(name) => Free(name, ")")
    case AndSelector(children) => forall c | c in children :: PlainSelector(c)
    case OrSelector(children) => forall c | c in children :: PlainSelector(c)
    case NotSelector(child) => PlainSelector(child)
    case _ => true
  }

  lemma {:induction false} ReducePlain(s: Selector)
    requires PlainSelector(s)
    ensures PlainTree(Reduce(s))
    decreases s, 1
  {
    match s
    case AndSelector(children) => ReduceAllPlain(children);
    case OrSelector(children) => ReduceAllPlain(children);
    case NotSelector(child) => ReducePlain(child);
    case _ =>
  }

  lemma {:induction false} ReduceAllPlain(ss: seq<Selector>)
    requires forall s | s in ss :: PlainSelector(s)
    ensures forall t | t in ReduceAll(ss) :: PlainTree(t)
    decreases ss, 0
  {
    forall t | t in ReduceAll(ss) ensures PlainTree(t) {
      var i :| 0 <= i < |ss| && ReduceAll(ss)[i] == t;
      ReducePlain(ss[i]);
    }
  }

  // ---- reading a key back ----

  // A text is determined by what it starts if it ends before the first mark.
  lemma {:induction false} UntilMark(a: string, b: string, x: string, y: string, marks: string)
    requires Free(a, marks) && Free(b, marks) && a + x == b + y
    requires x != "" && x[0] in marks && y != "" && y[0] in marks
    ensures a == b && x == y
    decreases |a|
  {
    assert (a + x)[0] == (if a == "" then x[0] else a[0]);
    assert (b + y)[0] == (if b == "" then y[0] else b[0]);
    if a == "" {
      assert a + x == x && b + y == y;
    } else {
      assert (a + x)[1..] == a[1..] + x && (b + y)[1..] == b[1..] + y;
      UntilMark(a[1..], b[1..], x, y, marks);
    }
  }

  lemma DropFirst(a: string, b: string)
    requires |a| == 1
    ensures (a + b)[1..] == b && (a + b)[0] == a[0]
  {
  }

  // What can follow an entry of a list.
  predicate Tail(x: string) {
    x != "" && (x[0] == '|' || x[0] == ')')
  }

  // Two entries in front of whatever can follow them.
  ghost predicate Distinguishes(k: string, l: string) {
    forall x, y | Tail(x) && Tail(y) && k + x == l + y :: k == l && x == y
  }

  // What follows the first entry of a list, given what follows its closing parenthesis.
  function Rest(ks: seq<string>, x: string): string
    requires ks != []
  {
    if |ks| == 1 then ")" + x else "|" + (Join(ks[1..]) + (")" + x))
  }

  lemma FirstEntry(ks: seq<string>, x: string)
    requires ks != []
    ensures Join(ks) + (")" + x) == ks[0] + Rest(ks, x) && Tail(Rest(ks, x))
    ensures |ks| > 1 ==> Rest(ks, x)[0] == '|' && Rest(ks, x)[1..] == Join(ks[1..]) + (")" + x)
    ensures |ks| == 1 ==> Rest(ks, x)[0] == ')' && Rest(ks, x)[1..] == x
  {
    if |ks| > 1 {
      var tail := Join(ks[1..]);
      Assoc(ks[0], "|" + tail, ")" + x);
      Assoc("|", tail, ")" + x);
      DropFirst("|", tail + (")" + x));
    } else {
      DropFirst(")", x);
    }
  }

  lemma SameEntry(k: string, l: string, x: string, y: string)
    requires Distinguishes(k, l) && Tail(x) && Tail(y) && k + x == l + y
    ensures k == l && x == y
  {
  }

  // A list of entries can be read back, and so can what follows it.
  lemma {:induction false} ListReads(ks: seq<string>, ls: seq<string>, x: string, y: string)
    requires ks != [] && ls != []
    requires forall i, j | 0 <= i < |ks| && 0 <= j < |ls| :: Distinguishes(ks[i], ls[j])
    requires Join(ks) + (")" + x) == Join(ls) + (")" + y)
    ensures ks == ls && x == y
    decreases |ks|
  {
    FirstEntry(ks, x);
    FirstEntry(ls, y);
    SameEntry(ks[0], ls[0], Rest(ks, x), Rest(ls, y));
    if |ks| > 1 {
      ListReads(ks[1..], ls[1..], x, y);
    }
    assert ks == [ks[0]] + ks[1..] && ls == [ls[0]] + ls[1..];
  }

  lemma SortMembers(xs: seq<string>)
    ensures |Sort(xs)| == |xs|
    ensures forall i | 0 <= i < |xs| :: Sort(xs)[i] in xs
  {
    SortIs(xs);
    SortLength(xs);
    forall i | 0 <= i < |xs| ensures Sort(xs)[i] in xs {
      assert Sort(xs)[i] in multiset(Sort(xs));
    }
  }

  lemma ValuesDistinguish(v: string, w: string)
    requires Free(v, "|)") && Free(w, "|)")
    ensures Distinguishes(v, w)
  {
    forall x, y | Tail(x) && Tail(y) && v + x == w + y ensures v == w && x == y {
      UntilMark(v, w, x, y, "|)");
    }
  }

  lemma LabelReads(n: string, vs: seq<string>, x: string, m: string, ws: seq<string>, y: string)
    requires PlainLabel(n, vs) && PlainLabel(m, ws)
    requires n + ("=" + Join(Sort(vs))) + (")" + x) == m + ("=" + Join(Sort(ws))) + (")" + y)
    ensures n == m && Sort(vs) == Sort(ws) && x == y
  {
    var a, b := Join(Sort(vs)) + (")" + x), Join(Sort(ws)) + (")" + y);
    LabelText(n, Join(Sort(vs)), ")" + x);
    LabelText(m, Join(Sort(ws)), ")" + y);
    DropFirst("=", a);
    DropFirst("=", b);
    UntilMark(n, m, "=" + a, "=" + b, "=");
    SortMembers(vs);
    SortMembers(ws);
    forall i, j | 0 <= i < |vs| && 0 <= j < |ws| ensures Distinguishes(Sort(vs)[i], Sort(ws)[j]) {
      ValuesDistinguish(Sort(vs)[i], Sort(ws)[j]);
    }
    ListReads(Sort(vs), Sort(ws), x, y);
  }

  lemma LabelText(n: string, values: string, tail: string)
    ensures n + ("=" + values) + tail == n + ("=" + (values + tail))
  {
    Assoc(n, "=" + values, tail);
    Assoc("=", values, tail);
  }

  function Word(t: Tree): string {
    match t
    case Top => ""
    case LabelTree(_, _) => "label"
    case ExistsTree(_) => "exists"
    case AndTree(_) => "and"
    case OrTree(_) => "or"
    case NotTree(_) => "not"
  }

  function Inner(t: Tree): string {
    match t
    case Top => ""
    case LabelTree(name, values) => name + ("=" + Join(Sort(values)))
    case ExistsTree(name) => name
    case AndTree(parts) => Join(Sort(PrintAll(parts)))
    case OrTree(parts) => Join(Sort(PrintAll(parts)))
    case NotTree(part) => Print(part)
  }

  lemma Opened(t: Tree, x: string)
    requires t != Top
    ensures Print(t) + x == Word(t) + ("(" + (Inner(t) + (")" + x)))
  {
    var inner := Inner(t) + ")";
    assert Print(t) == Word(t) + ("(" + inner);
    Assoc(Word(t), "(" + inner, x);
    Assoc("(", inner, x);
    Assoc(Inner(t), ")", x);
  }

  lemma WordsRead(v: string, w: string, a: string, b: string)
    requires Free(v, "(") && Free(w, "(") && v + ("(" + a) == w + ("(" + b)
    ensures v == w && a == b
  {
    DropFirst("(", a);
    DropFirst("(", b);
    UntilMark(v, w, "(" + a, "(" + b, "(");
  }

  lemma WordIsFree(t: Tree)
    ensures Free(Word(t), "(")
  {
  }

  // Whatever follows two keys, the words they start with can be read.
  lemma SameWord(t: Tree, u: Tree, x: string, y: string)
    requires t != Top && u != Top && Print(t) + x == Print(u) + y
    ensures Word(t) == Word(u) && Inner(t) + (")" + x) == Inner(u) + (")" + y)
  {
    Opened(t, x);
    Opened(u, y);
    WordIsFree(t);
    WordIsFree(u);
    WordsRead(Word(t), Word(u), Inner(t) + (")" + x), Inner(u) + (")" + y));
  }

  // Printed trees can be told apart whatever follows them: the text says where it ends.
  lemma {:induction false} PrintsDistinguish(t: Tree, u: Tree)
    requires Reduced(t) && PlainTree(t) && t != Top && Reduced(u) && PlainTree(u) && u != Top
    ensures Distinguishes(Print(t), Print(u))
    decreases t, 2
  {
    forall x, y | Tail(x) && Tail(y) && Print(t) + x == Print(u) + y ensures Print(t) == Print(u) && x == y {
      SameWord(t, u, x, y);
      InnerReads(t, u, x, y);
    }
  }

  lemma {:induction false} InnerReads(t: Tree, u: Tree, x: string, y: string)
    requires Reduced(t) && PlainTree(t) && t != Top && Reduced(u) && PlainTree(u) && u != Top
    requires Word(t) == Word(u) && Inner(t) + (")" + x) == Inner(u) + (")" + y)
    ensures Print(t) == Print(u) && x == y
    decreases t, 1
  {
    DropFirst(")", x);
    DropFirst(")", y);
    SameKind(t, u);
    match t
    case LabelTree(name, values) => LabelReads(name, values, x, u.name, u.values, y);
    case ExistsTree(name) => UntilMark(name, u.name, ")" + x, ")" + y, ")");
    case AndTree(parts) =>
      GroupsDistinguish(parts, u.parts);
      ListReads(Sort(PrintAll(parts)), Sort(PrintAll(u.parts)), x, y);
    case OrTree(parts) =>
      GroupsDistinguish(parts, u.parts);
      ListReads(Sort(PrintAll(parts)), Sort(PrintAll(u.parts)), x, y);
    case NotTree(part) =>
      PrintsDistinguish(part, u.part);
      assert Tail(")" + x) && Tail(")" + y);
  }

  lemma SameKind(t: Tree, u: Tree)
    requires Word(t) == Word(u)
    ensures t.LabelTree? == u.LabelTree? && t.ExistsTree? == u.ExistsTree? && t.AndTree? == u.AndTree?
            && t.OrTree? == u.OrTree? && t.NotTree? == u.NotTree? && t.Top? == u.Top?
  {
    assert |"label"| == 5 && |"exists"| == 6 && |"and"| == 3 && |"or"| == 2 && |"not"| == 3 && "and"[0] != "not"[0];
  }

  lemma {:induction false} GroupsDistinguish(ts: seq<Tree>, us: seq<Tree>)
    requires forall t | t in ts :: Reduced(t) && PlainTree(t) && t != Top
    requires forall u | u in us :: Reduced(u) && PlainTree(u) && u != Top
    ensures |Sort(PrintAll(ts))| == |ts| && |Sort(PrintAll(us))| == |us|
    ensures forall i, j | 0 <= i < |ts| && 0 <= j < |us| :: Distinguishes(Sort(PrintAll(ts))[i], Sort(PrintAll(us))[j])
    decreases ts, 0
  {
    var ks, ls := PrintAll(ts), PrintAll(us);
    SortMembers(ks);
    SortMembers(ls);
    forall i, j | 0 <= i < |ts| && 0 <= j < |us| ensures Distinguishes(Sort(ks)[i], Sort(ls)[j]) {
      assert Sort(ks)[i] in ks && Sort(ls)[j] in ls;
      var p :| 0 <= p < |ts| && ks[p] == Sort(ks)[i];
      var q :| 0 <= q < |us| && ls[q] == Sort(ls)[j];
      PrintsDistinguish(ts[p], us[q]);
    }
  }

  // ---- equal keys, equal classes ----

  lemma GroupReads(ts: seq<Tree>, us: seq<Tree>)
    requires ts != [] && us != []
    requires forall t | t in ts :: Reduced(t) && PlainTree(t) && t != Top
    requires forall u | u in us :: Reduced(u) && PlainTree(u) && u != Top
    requires Join(Sort(PrintAll(ts))) + (")" + "") == Join(Sort(PrintAll(us))) + (")" + "")
    ensures multiset(PrintAll(ts)) == multiset(PrintAll(us))
  {
    GroupsDistinguish(ts, us);
    ListReads(Sort(PrintAll(ts)), Sort(PrintAll(us)), "", "");
    SortIs(PrintAll(ts));
    SortIs(PrintAll(us));
  }

  lemma ClosedInner(a: string, b: string)
    requires a + (")" + "") == b + (")" + "")
    ensures a == b
  {
    assert a == (a + (")" + ""))[..|a + (")" + "")| - 1] && b == (b + (")" + ""))[..|b + (")" + "")| - 1];
  }

  lemma {:induction false} KeyDeterminesTree(t: Tree, u: Tree)
    requires Reduced(t) && PlainTree(t) && Reduced(u) && PlainTree(u)
    requires Print(t) == Print(u)
    ensures Canon(t) == Canon(u)
    decreases t, 1
  {
    PrintTop(t);
    PrintTop(u);
    if t != Top {
      SameWord(t, u, "", "");
      SameKind(t, u);
      match t
      case LabelTree(name, values) =>
        LabelReads(name, values, "", u.name, u.values, "");
        SortIs(values);
        SortIs(u.values);
      case ExistsTree(name) => ClosedInner(name, u.name);
      case AndTree(parts) => GroupReads(parts, u.parts); KeysDetermineTrees(parts, u.parts);
      case OrTree(parts) => GroupReads(parts, u.parts); KeysDetermineTrees(parts, u.parts);
      case NotTree(part) => ClosedInner(Print(part), Print(u.part)); KeyDeterminesTree(part, u.part);
    }
  }

  lemma {:induction false} KeysDetermineTrees(ts: seq<Tree>, us: seq<Tree>)
    requires forall t | t in ts :: Reduced(t) && PlainTree(t)
    requires forall u | u in us :: Reduced(u) && PlainTree(u)
    requires multiset(PrintAll(ts)) == multiset(PrintAll(us))
    ensures multiset(CanonAll(ts)) == multiset(CanonAll(us))
    decreases ts, 0
  {
    forall i, j | 0 <= i < |ts| && 0 <= j < |us| && PrintAll(ts)[i] == PrintAll(us)[j]
      ensures CanonAll(ts)[i] == CanonAll(us)[j]
    {
      KeyDeterminesTree(ts[i], us[j]);
    }
    MultisetMap(PrintAll(ts), CanonAll(ts), PrintAll(us), CanonAll(us));
  }

  lemma {:induction false} TreeDeterminesKey(t: Tree, u: Tree)
    requires Canon(t) == Canon(u)
    ensures Print(t) == Print(u)
    decreases t, 1
  {
    match t
    case Top =>
    case LabelTree(name, values) => SortCanonical(values, u.values);
    case ExistsTree(name) =>
    case AndTree(parts) => TreesDetermineKeys(parts, u.parts);
    case OrTree(parts) => TreesDetermineKeys(parts, u.parts);
    case NotTree(part) => TreeDeterminesKey(part, u.part);
  }

  lemma {:induction false} TreesDetermineKeys(ts: seq<Tree>, us: seq<Tree>)
    requires multiset(CanonAll(ts)) == multiset(CanonAll(us))
    ensures Sort(PrintAll(ts)) == Sort(PrintAll(us))
    decreases ts, 0
  {
    forall i, j | 0 <= i < |ts| && 0 <= j < |us| && CanonAll(ts)[i] == CanonAll(us)[j]
      ensures PrintAll(ts)[i] == PrintAll(us)[j]
    {
      TreeDeterminesKey(ts[i], us[j]);
    }
    MultisetMap(CanonAll(ts), PrintAll(ts), CanonAll(us), PrintAll(us));
    SortCanonical(PrintAll(ts), PrintAll(us));
  }

  // Requests whose label names are free of '=', whose values are free of '|' and
  // ')' and whose exists names are free of ')' share a cache key exactly when they
  // are pinned to the same node class.
  lemma KeyIsIdentity(a: seq<Selector>, b: seq<Selector>)
    requires (forall s | s in a :: PlainSelector(s)) && (forall s | s in b :: PlainSelector(s))
    ensures CacheKey(a) == CacheKey(b) <==> ClassOf(a) == ClassOf(b)
  {
    var x, y := AndSelector(a), AndSelector(b);
    KeyIsPrinted(x);
    KeyIsPrinted(y);
    ReduceIsReduced(x);
    ReduceIsReduced(y);
    ReducePlain(x);
    ReducePlain(y);
    if CacheKey(a) == CacheKey(b) {
      KeyDeterminesTree(Reduce(x), Reduce(y));
    } else if ClassOf(a) == ClassOf(b) {
      TreeDeterminesKey(Reduce(x), Reduce(y));
    }
  }

  // The other direction needs nothing of the names.
  lemma SameClassSameKey(a: seq<Selector>, b: seq<Selector>)
    requires ClassOf(a) == ClassOf(b)
    ensures CacheKey(a) == CacheKey(b)
  {
    KeyIsPrinted(AndSelector(a));
    KeyIsPrinted(AndSelector(b));
    TreeDeterminesKey(Reduce(AndSelector(a)), Reduce(AndSelector(b)));
  }

  // ---- order and unconstrained conjuncts ----

  // A selector up to the order of children and values at every depth.
  datatype Shape =
    | LabelShape(name: string, values: multiset<string>)
    | AndShape(parts: multiset<Shape>)
    | OrShape(parts: multiset<Shape>)
    | NotShape(part: Shape)
    | Leaf(s: Selector)

  ghost function ShapeOf(s: Selector): Shape
    decreases s, 1
  {
    match s
    case LabelSelector(name, values) => LabelShape(name, multiset(values))
    case AndSelector(children) => AndShape(multiset(ShapesOf(children)))
    case OrSelector(children) => OrShape(multiset(ShapesOf(children)))
    case NotSelector(child) => NotShape(ShapeOf(child))
    case _ => Leaf(s)
  }

  ghost function ShapesOf(ss: seq<Selector>): (r: seq<Shape>)
    ensures |r| == |ss|
    ensures forall i | 0 <= i < |ss| :: r[i] == ShapeOf(ss[i])
    decreases ss, 0
  {
    if ss == [] then [] else [ShapeOf(ss[0])] + ShapesOf(ss[1..])
  }

  lemma ConsClass(c: Class, cs: seq<Class>)
    ensures multiset([c] + cs)[TopClass := 0] ==
            (if c == TopClass then multiset{} else multiset{c}) + multiset(cs)[TopClass := 0]
  {}

  lemma {:induction false} NonTopCanon(ts: seq<Tree>)
    ensures multiset(CanonAll(NonTop(ts))) == multiset(CanonAll(ts))[TopClass := 0]
  {
    if ts != [] {
      NonTopCanon(ts[1..]);
      OnlyTop(ts[0]);
      ConsClass(Canon(ts[0]), CanonAll(ts[1..]));
      var rest := NonTop(ts[1..]);
      if ts[0] == Top {
        assert NonTop(ts) == rest;
      } else {
        assert NonTop(ts)[1..] == rest;
        assert CanonAll(NonTop(ts)) == [Canon(ts[0])] + CanonAll(rest);
      }
    }
  }

  ghost function Intersect(ts: seq<Tree>): Tree {
    var parts := NonTop(ts);
    if parts == [] then Top else if |parts| == 1 then parts[0] else AndTree(parts)
  }

  lemma SingleCanon(ts: seq<Tree>, us: seq<Tree>)
    requires multiset(CanonAll(ts)) == multiset(CanonAll(us))
    ensures |ts| == |us|
    ensures |ts| == 1 ==> Canon(ts[0]) == Canon(us[0])
  {
    var a, b := CanonAll(ts), CanonAll(us);
    assert |multiset(a)| == |a| && |multiset(b)| == |b|;
    if |ts| == 1 {
      assert a[0] in multiset(a);
      var j := Occurs(b, a[0]);
    }
  }

  lemma IntersectCanon(ts: seq<Tree>, us: seq<Tree>)
    requires multiset(CanonAll(ts))[TopClass := 0] == multiset(CanonAll(us))[TopClass := 0]
    ensures Canon(Intersect(ts)) == Canon(Intersect(us))
  {
    NonTopCanon(ts);
    NonTopCanon(us);
    SingleCanon(NonTop(ts), NonTop(us));
  }

  lemma OnlyTop(t: Tree)
    ensures Canon(t) == TopClass <==> t == Top
  {}

  lemma TopCanon(ts: seq<Tree>)
    ensures Top in ts <==> TopClass in multiset(CanonAll(ts))
  {
    if Top in ts {
      var i :| 0 <= i < |ts| && ts[i] == Top;
      assert CanonAll(ts)[i] == TopClass;
    }
    if TopClass in multiset(CanonAll(ts)) {
      var i := Occurs(CanonAll(ts), TopClass);
      OnlyTop(ts[i]);
    }
  }

  ghost function Unite(ts: seq<Tree>): Tree {
    if Top in ts || ts == [] then Top else if |ts| == 1 then ts[0] else OrTree(ts)
  }

  lemma UniteCanon(ts: seq<Tree>, us: seq<Tree>)
    requires multiset(CanonAll(ts)) == multiset(CanonAll(us))
    ensures Canon(Unite(ts)) == Canon(Unite(us))
  {
    TopCanon(ts);
    TopCanon(us);
    SingleCanon(ts, us);
  }

  lemma GroupsReduce(children: seq<Selector>)
    ensures Reduce(AndSelector(children)) == Intersect(ReduceAll(children))
    ensures Reduce(OrSelector(children)) == Unite(ReduceAll(children))
  {}

  // Reordering children or values anywhere in the tree leaves the class alone.
  lemma {:induction false} ShapeDeterminesClass(a: Selector, b: Selector)
    requires ShapeOf(a) == ShapeOf(b)
    ensures Canon(Reduce(a)) == Canon(Reduce(b))
    decreases a, 1
  {
    match a
    case AndSelector(children) => GroupShapes(children, b.children);
    case OrSelector(children) => GroupShapes(children, b.children);
    case NotSelector(child) =>
      ShapeDeterminesClass(child, b.child);
      NotReduces(child, b.child);
    case _ => LeafShapes(a, b);
  }

  lemma NotReduces(a: Selector, b: Selector)
    requires Canon(Reduce(a)) == Canon(Reduce(b))
    ensures Canon(Reduce(NotSelector(a))) == Canon(Reduce(NotSelector(b)))
  {
    NotIs(a);
    NotIs(b);
    NegateCanon(Reduce(a), Reduce(b));
  }

  function Negate(t: Tree): Tree {
    if t == Top then Top else NotTree(t)
  }

  lemma NotIs(s: Selector)
    ensures Reduce(NotSelector(s)) == Negate(Reduce(s))
  {}

  lemma NegateCanon(t: Tree, u: Tree)
    requires Canon(t) == Canon(u)
    ensures Canon(Negate(t)) == Canon(Negate(u))
  {
    OnlyTop(t);
    OnlyTop(u);
  }

  lemma LeafShapes(a: Selector, b: Selector)
    requires ShapeOf(a) == ShapeOf(b) && !a.AndSelector? && !a.OrSelector? && !a.NotSelector?
    ensures Canon(Reduce(a)) == Canon(Reduce(b))
  {
  }

  lemma {:induction false} GroupShapes(xs: seq<Selector>, ys: seq<Selector>)
    requires multiset(ShapesOf(xs)) == multiset(ShapesOf(ys))
    ensures Canon(Reduce(AndSelector(xs))) == Canon(Reduce(AndSelector(ys)))
    ensures Canon(Reduce(OrSelector(xs))) == Canon(Reduce(OrSelector(ys)))
    decreases xs, 0, 1
  {
    ShapesDetermineClasses(xs, ys);
    GroupsReduce(xs);
    GroupsReduce(ys);
    IntersectCanon(ReduceAll(xs), ReduceAll(ys));
    UniteCanon(ReduceAll(xs), ReduceAll(ys));
  }

  lemma {:induction false} ShapesDetermineClasses(xs: seq<Selector>, ys: seq<Selector>)
    requires multiset(ShapesOf(xs)) == multiset(ShapesOf(ys))
    ensures multiset(CanonAll(ReduceAll(xs))) == multiset(CanonAll(ReduceAll(ys)))
    decreases xs, 0, 0
  {
    var x, y := CanonAll(ReduceAll(xs)), CanonAll(ReduceAll(ys));
    forall i, j | 0 <= i < |xs| && 0 <= j < |ys| && ShapesOf(xs)[i] == ShapesOf(ys)[j] ensures x[i] == y[j] {
      ShapeDeterminesClass(xs[i], ys[j]);
    }
    MultisetMap(ShapesOf(xs), x, ShapesOf(ys), y);
  }

  lemma KeyIgnoresOrder(a: seq<Selector>, b: seq<Selector>)
    requires multiset(ShapesOf(a)) == multiset(ShapesOf(b))
    ensures CacheKey(a) == CacheKey(b)
  {
    ShapeDeterminesClass(AndSelector(a), AndSelector(b));
    SameClassSameKey(a, b);
  }

  // A place in a selector tree.
  datatype Context =
    | Here
    | InAnd(before: seq<Selector>, at: Context, after: seq<Selector>)
    | InOr(before: seq<Selector>, at: Context, after: seq<Selector>)
    | InNot(at: Context)

  function Plug(c: Context, s: Selector): Selector {
    match c
    case Here => s
    case InAnd(before, at, after) => AndSelector(before + [Plug(at, s)] + after)
    case InOr(before, at, after) => OrSelector(before + [Plug(at, s)] + after)
    case InNot(at) => NotSelector(Plug(at, s))
  }

  lemma {:induction false} SameInside(c: Context, x: Selector, y: Selector)
    requires Reduce(x) == Reduce(y)
    ensures Reduce(Plug(c, x)) == Reduce(Plug(c, y))
    decreases c
  {
    match c
    case Here =>
    case InAnd(before, at, after) =>
      SameInside(at, x, y);
      SameAround(before, Plug(at, x), Plug(at, y), after);
    case InOr(before, at, after) =>
      SameInside(at, x, y);
      SameAround(before, Plug(at, x), Plug(at, y), after);
    case InNot(at) => SameInside(at, x, y);
  }

  lemma SameAround(before: seq<Selector>, x: Selector, y: Selector, after: seq<Selector>)
    requires Reduce(x) == Reduce(y)
    ensures Reduce(AndSelector(before + [x] + after)) == Reduce(AndSelector(before + [y] + after))
    ensures Reduce(OrSelector(before + [x] + after)) == Reduce(OrSelector(before + [y] + after))
  {
    ReduceSingle(x);
    ReduceSingle(y);
    ReduceConcat(before, [x]);
    ReduceConcat(before, [y]);
    ReduceConcat(before + [x], after);
    ReduceConcat(before + [y], after);
    GroupsReduce(before + [x] + after);
    GroupsReduce(before + [y] + after);
  }

  lemma DropConjunct(a: seq<Selector>, s: Selector, b: seq<Selector>)
    requires ClassKey(s) == ""
    ensures Reduce(AndSelector(a + [s] + b)) == Reduce(AndSelector(a + b))
  {
    KeyIsPrinted(s);
    PrintTop(Reduce(s));
    ReduceSingle(s);
    ReduceConcat(a, [s]);
    ReduceConcat(a + [s], b);
    ReduceConcat(a, b);
    DropTop(ReduceAll(a), ReduceAll(b));
    GroupsReduce(a + [s] + b);
    GroupsReduce(a + b);
  }

  // A conjunct that constrains no label never changes the key, however deep the
  // conjunction it stands in, and wherever in it.
  lemma UnlabelledConjunct(c: Context, a: seq<Selector>, s: Selector, b: seq<Selector>)
    requires !Constrains(s)
    ensures ClassKey(Plug(c, AndSelector(a + [s] + b))) == ClassKey(Plug(c, AndSelector(a + b)))
    ensures CacheKey(a + [s] + b) == CacheKey(a + b)
  {
    var with, without := AndSelector(a + [s] + b), AndSelector(a + b);
    KeyExactlyWhen(s);
    DropConjunct(a, s, b);
    SameInside(c, with, without);
    KeyIsPrinted(Plug(c, with));
    KeyIsPrinted(Plug(c, without));
    KeyIsPrinted(with);
    KeyIsPrinted(without);
  }

  lemma ReduceSingle(s: Selector)
    ensures ReduceAll([s]) == [Reduce(s)]
  {}

  lemma ReduceConcat(a: seq<Selector>, b: seq<Selector>)
    ensures ReduceAll(a + b) == ReduceAll(a) + ReduceAll(b)
  {
    var x, y := ReduceAll(a + b), ReduceAll(a) + ReduceAll(b);
    forall i | 0 <= i < |x| ensures x[i] == y[i] {
      assert x[i] == Reduce((a + b)[i]);
    }
  }

  lemma {:induction false} DropTop(x: seq<Tree>, y: seq<Tree>)
    ensures NonTop(x + [Top] + y) == NonTop(x + y)
  {
    if x == [] {
      assert x + [Top] + y == [Top] + y && ([Top] + y)[1..] == y && x + y == y;
    } else {
      DropTop(x[1..], y);
      assert (x + [Top] + y)[1..] == x[1..] + [Top] + y && (x + y)[1..] == x[1..] + y;
    }
  }
}
