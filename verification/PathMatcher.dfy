/**
 Matching REST paths against registered templates (pkg/utils/path.go): a trie
 grown in place, against a definition on the list of templates.
 */
module PathMatcher {
  import opened Common
  import opened RestPath

  type Path = seq<string>

  datatype Matching = NoMatch | Matched(template: string, captures: seq<string>)

  // ---- matching, defined on the registered templates ----

  ghost predicate Begins(path: Path, whole: Path) {
    path <= whole
  }

  // Some template starts with these segments.
  ghost predicate Known(templates: seq<string>, path: Path) {
    path == [] || exists i :: 0 <= i < |templates| && Begins(path, Segments(templates[i]))
  }

  // The last template registered with exactly these segments; empty if there is none.
  ghost function LastWith(templates: seq<string>, path: Path): string {
    if templates == [] then ""
    else
      var last := templates[|templates| - 1];
      if Segments(last) == path then last else LastWith(templates[..|templates| - 1], path)
  }

  datatype Walk = Stuck | At(path: Path, captures: seq<string>)

  ghost function Advance(templates: seq<string>, w: Walk, seg: string): Walk {
    if w.Stuck? then Stuck
    else if seg != WILDCARD && Known(templates, w.path + [seg]) then At(w.path + [seg], w.captures)
    else if Known(templates, w.path + [WILDCARD]) then At(w.path + [WILDCARD], w.captures + [seg])
    else Stuck
  }

  // Literal where some template allows it, wildcard otherwise, never looking back.
  ghost function Greedy(templates: seq<string>, segs: Path): Walk {
    if segs == [] then At([], [])
    else Advance(templates, Greedy(templates, segs[..|segs| - 1]), segs[|segs| - 1])
  }

  ghost function Matches(templates: seq<string>, fullPath: string): Matching {
    var w := Greedy(templates, Segments(fullPath));
    if w.Stuck? || LastWith(templates, w.path) == "" then NoMatch
    else Matched(LastWith(templates, w.path), w.captures)
  }

  // ---- the trie ----

  datatype PathNode = PathNode(children: map<string, nat>, wildcard: Option<nat>, template: string)

  const EMPTY_NODE := PathNode(map[], None, "")

  function Child(node: PathNode, seg: string): Option<nat> {
    if seg == WILDCARD then node.wildcard
    else if seg in node.children then Some(node.children[seg])
    else None
  }

  function WithChild(node: PathNode, seg: string, child: nat): PathNode {
    if seg == WILDCARD then node.(wildcard := Some(child)) else node.(children := node.children[seg := child])
  }

  type Index = map<Path, nat>

  // Each known path has a node of its own, reached by its segments and by no others.
  ghost predicate Fits(nodes: seq<PathNode>, index: Index) {
    && [] in index && index[[]] == 0
    && (forall p | p in index :: index[p] < |nodes|)
    && (forall p, q | p in index && q in index && p != q :: index[p] != index[q])
    && (forall p: Path, seg {:trigger p + [seg]} | p + [seg] in index :: p in index)
    && (forall p | p in index :: NodeFits(nodes, index, p))
  }

  ghost predicate NodeFits(nodes: seq<PathNode>, index: Index, p: Path)
    requires p in index && index[p] < |nodes|
  {
    && WILDCARD !in nodes[index[p]].children
    && forall seg {:trigger Child(nodes[index[p]], seg)} ::
         Child(nodes[index[p]], seg) == if p + [seg] in index then Some(index[p + [seg]]) else None
  }

  lemma Snoc(p: Path, seg: string, q: Path, other: string)
    ensures p + [seg] == q + [other] <==> p == q && seg == other
  {
    if p + [seg] == q + [other] {
      assert (p + [seg])[..|p|] == p && (q + [other])[..|q|] == q;
      assert (p + [seg])[|p|] == seg && (q + [other])[|q|] == other;
    }
  }

  ghost function Grown(nodes: seq<PathNode>, i: nat, seg: string): seq<PathNode>
    requires i < |nodes|
  {
    nodes[i := WithChild(nodes[i], seg, |nodes|)] + [EMPTY_NODE]
  }

  lemma GrowFits(nodes: seq<PathNode>, index: Index, p: Path, seg: string)
    requires Fits(nodes, index) && p in index && p + [seg] !in index
    ensures Fits(Grown(nodes, index[p], seg), index[p + [seg] := |nodes|])
  {
    var nodes' := Grown(nodes, index[p], seg);
    var index' := index[p + [seg] := |nodes|];
    forall q: Path, s | q + [s] in index' ensures q in index' {
      Snoc(p, seg, q, s);
    }
    forall q | q in index' ensures NodeFits(nodes', index', q) {
      if q in index {
        GrowKeeps(nodes, index, p, seg, q);
      } else {
        GrowAdds(nodes, index, p, seg);
      }
    }
  }

  lemma GrowKeeps(nodes: seq<PathNode>, index: Index, p: Path, seg: string, q: Path)
    requires Fits(nodes, index) && p in index && p + [seg] !in index && q in index
    ensures NodeFits(Grown(nodes, index[p], seg), index[p + [seg] := |nodes|], q)
  {
    var nodes' := Grown(nodes, index[p], seg);
    var index' := index[p + [seg] := |nodes|];
    var node, node' := nodes[index[q]], nodes'[index[q]];
    assert NodeFits(nodes, index, q);
    assert node' == if q == p then WithChild(node, seg, |nodes|) else node;
    assert index'[q] == index[q];
    forall s ensures Child(node', s) == if q + [s] in index' then Some(index'[q + [s]]) else None {
      Snoc(p, seg, q, s);
      ChildOf(node, seg, |nodes|, s);
      assert Child(node, s) == if q + [s] in index then Some(index[q + [s]]) else None;
    }
  }

  lemma ChildOf(node: PathNode, seg: string, child: nat, s: string)
    ensures Child(WithChild(node, seg, child), s) == if s == seg then Some(child) else Child(node, s)
  {
  }

  lemma GrowAdds(nodes: seq<PathNode>, index: Index, p: Path, seg: string)
    requires Fits(nodes, index) && p in index && p + [seg] !in index
    ensures NodeFits(Grown(nodes, index[p], seg), index[p + [seg] := |nodes|], p + [seg])
  {
    var q := p + [seg];
    var nodes' := Grown(nodes, index[p], seg);
    var index' := index[q := |nodes|];
    assert nodes'[index'[q]] == EMPTY_NODE;
    forall s ensures Child(EMPTY_NODE, s) == if q + [s] in index' then Some(index'[q + [s]]) else None {
      assert q + [s] !in index;
      assert |q + [s]| > |q|;
    }
  }

  lemma EmptyFits()
    ensures Fits([EMPTY_NODE], map[[] := 0])
  {
    var index: Index := map[[] := 0];
    forall p: Path, seg ensures p + [seg] !in index {
      assert |p + [seg]| > 0;
    }
  }

  // ---- the trie as a value ----

  // The template at each path that has a node; empty where no template ends.
  type Shape = map<Path, string>

  ghost function Extend(shape: Shape, segs: Path): Shape {
    if segs == [] then shape
    else
      var e := Extend(shape, segs[..|segs| - 1]);
      if segs in e then e else e[segs := ""]
  }

  ghost function Insert(shape: Shape, template: string): Shape {
    Extend(shape, Segments(template))[Segments(template) := template]
  }

  ghost function TrieOf(templates: seq<string>): Shape {
    if templates == [] then map[[] := ""]
    else Insert(TrieOf(templates[..|templates| - 1]), templates[|templates| - 1])
  }

  ghost function AdvanceOn(shape: Shape, w: Walk, seg: string): Walk {
    if w.Stuck? then Stuck
    else if seg != WILDCARD && w.path + [seg] in shape then At(w.path + [seg], w.captures)
    else if w.path + [WILDCARD] in shape then At(w.path + [WILDCARD], w.captures + [seg])
    else Stuck
  }

  ghost function GreedyOn(shape: Shape, segs: Path): Walk {
    if segs == [] then At([], [])
    else AdvanceOn(shape, GreedyOn(shape, segs[..|segs| - 1]), segs[|segs| - 1])
  }

  ghost function MatchOn(shape: Shape, segs: Path): Matching {
    var w := GreedyOn(shape, segs);
    if w.Stuck? || w.path !in shape || shape[w.path] == "" then NoMatch else Matched(shape[w.path], w.captures)
  }

  ghost predicate Represents(nodes: seq<PathNode>, index: Index, shape: Shape) {
    && Fits(nodes, index)
    && (forall p :: p in index <==> p in shape)
    && forall p | p in index :: nodes[index[p]].template == shape[p]
  }

  class PathMatcher {
    var nodes: seq<PathNode>

    ghost var templates: seq<string>
    ghost var index: Index
    ghost var shape: Shape

    ghost predicate Valid()
      reads this
    {
      && Represents(nodes, index, shape)
      && shape == TrieOf(templates)
    }

    constructor ()
      ensures Valid() && templates == []
    {
      nodes := [EMPTY_NODE];
      templates := [];
      index := map[[] := 0];
      shape := map[[] := ""];
      EmptyFits();
    }

    // Moves to the child for a segment, making it first if there is none.
    method Descend(current: nat, seg: string, ghost p: Path) returns (child: nat)
      requires Represents(nodes, index, shape) && p in index && index[p] == current
      modifies this`nodes, this`index, this`shape
      ensures Represents(nodes, index, shape) && p + [seg] in index && child == index[p + [seg]]
      ensures shape == if p + [seg] in old(shape) then old(shape) else old(shape)[p + [seg] := ""]
    {
      assert NodeFits(nodes, index, p);
      assert Child(nodes[index[p]], seg) == if p + [seg] in index then Some(index[p + [seg]]) else None;
      var found := Child(nodes[current], seg);
      if found.Some? {
        child := found.value;
      } else {
        child := |nodes|;
        GrowFits(nodes, index, p, seg);
        nodes := nodes[current := WithChild(nodes[current], seg, child)] + [EMPTY_NODE];
        index := index[p + [seg] := child];
        shape := shape[p + [seg] := ""];
      }
    }

    // Makes sure that every beginning of a path has a node.
    method MakePath(segs: Path) returns (current: nat)
      requires Represents(nodes, index, shape)
      modifies this`nodes, this`index, this`shape
      ensures Represents(nodes, index, shape) && segs in index && current == index[segs]
      ensures shape == Extend(old(shape), segs)
    {
      current := 0;
      assert segs[..0] == [];
      for i := 0 to |segs|
        invariant Represents(nodes, index, shape) && segs[..i] in index && current == index[segs[..i]]
        invariant shape == Extend(old(shape), segs[..i])
      {
        assert segs[..i + 1] == segs[..i] + [segs[i]] && segs[..i + 1][..i] == segs[..i];
        current := Descend(current, segs[i], segs[..i]);
      }
      assert segs[..|segs|] == segs;
    }

    method Add(template: string)
      requires Valid()
      modifies this`nodes, this`index, this`shape, this`templates
      ensures Valid() && templates == old(templates) + [template]
    {
      Register(template);
      TrieSnoc(templates, template);
      templates := templates + [template];
    }

    method Register(template: string)
      requires Represents(nodes, index, shape)
      modifies this`nodes, this`index, this`shape
      ensures Represents(nodes, index, shape) && shape == Insert(old(shape), template)
    {
      var segs := SplitTemplate(template);
      var current := MakePath(segs);
      Relabelled(nodes, index, shape, segs, template);
      nodes := nodes[current := nodes[current].(template := template)];
      shape := shape[segs := template];
    }

    method Match(fullPath: string) returns (r: Matching)
      requires Valid()
      ensures r == Matches(templates, fullPath)
    {
      var segs := SplitTemplate(fullPath);
      r := WalkTrie(segs);
      MatchOnMeans(templates, fullPath);
    }

    // One step down the trie.
    method Step(current: nat, seg: string, captures: seq<string>, ghost path: Path)
      returns (found: bool, next: nat, captured: seq<string>, ghost to: Path)
      requires Represents(nodes, index, shape) && path in index && current == index[path]
      ensures found ==> to in index && next == index[to]
      ensures found ==> AdvanceOn(shape, At(path, captures), seg) == At(to, captured)
      ensures !found ==> AdvanceOn(shape, At(path, captures), seg).Stuck?
    {
      assert NodeFits(nodes, index, path);
      assert Child(nodes[index[path]], seg) == if path + [seg] in index then Some(index[path + [seg]]) else None;
      assert Child(nodes[index[path]], WILDCARD) ==
             if path + [WILDCARD] in index then Some(index[path + [WILDCARD]]) else None;
      if seg in nodes[current].children {
        found, next, captured, to := true, nodes[current].children[seg], captures, path + [seg];
      } else if nodes[current].wildcard.Some? {
        found, next, captured, to := true, nodes[current].wildcard.value, captures + [seg], path + [WILDCARD];
      } else {
        found, next, captured, to := false, 0, [], path;
      }
    }

    method WalkTrie(segs: Path) returns (r: Matching)
      requires Represents(nodes, index, shape)
      ensures r == MatchOn(shape, segs)
    {
      var current := 0;
      var captures := [];
      ghost var path := [];
      assert segs[..0] == [];
      for i := 0 to |segs|
        invariant GreedyOn(shape, segs[..i]) == At(path, captures)
        invariant path in index && current == index[path]
      {
        assert segs[..i + 1][..i] == segs[..i];
        var found, next, captured, to := Step(current, segs[i], captures, path);
        if !found {
          StuckForGood(shape, segs, i + 1);
          return NoMatch;
        }
        current, captures, path := next, captured, to;
      }
      assert segs[..|segs|] == segs;
      r := if nodes[current].template == "" then NoMatch else Matched(nodes[current].template, captures);
    }
  }

  method NewPathMatcher(registered: seq<string>) returns (m: PathMatcher)
    ensures fresh(m) && m.Valid() && m.templates == registered
  {
    m := new PathMatcher();
    for i := 0 to |registered|
      invariant fresh(m) && m.Valid()
      invariant m.templates == registered[..i]
    {
      TakeNext(registered, i);
      m.Add(registered[i]);
    }
  }

  lemma TakeNext(list: seq<string>, i: nat)
    requires i < |list|
    ensures list[..i] + [list[i]] == list[..i + 1]
    ensures i + 1 == |list| ==> list[..i + 1] == list
  {
  }

  // ---- the trie means its templates ----

  ghost predicate IsTrieOf(shape: Shape, templates: seq<string>) {
    && (forall p :: p in shape <==> Known(templates, p))
    && (forall p | p in shape :: shape[p] == LastWith(templates, p))
  }

  lemma {:induction false} ExtendIs(shape: Shape, segs: Path)
    requires [] in shape
    ensures forall p :: p in Extend(shape, segs) <==> p in shape || Begins(p, segs)
    ensures forall p | p in Extend(shape, segs) :: Extend(shape, segs)[p] == if p in shape then shape[p] else ""
    decreases |segs|
  {
    if segs != [] {
      var init := segs[..|segs| - 1];
      ExtendIs(shape, init);
      assert segs == init + [segs[|segs| - 1]];
      BeginsSnoc(init, segs[|segs| - 1]);
    }
  }

  lemma {:induction false} TrieMeans(templates: seq<string>)
    ensures IsTrieOf(TrieOf(templates), templates)
    decreases |templates|
  {
    if templates != [] {
      var init, last := templates[..|templates| - 1], templates[|templates| - 1];
      TrieMeans(init);
      assert templates == init + [last];
      InsertMeans(TrieOf(init), init, last);
    }
  }

  lemma InsertMeans(shape: Shape, templates: seq<string>, template: string)
    requires IsTrieOf(shape, templates)
    ensures IsTrieOf(Insert(shape, template), templates + [template])
  {
    var segs := Segments(template);
    assert Known(templates, []);
    ExtendIs(shape, segs);
    Registered(templates, template);
    var e := Extend(shape, segs);
    assert Begins(segs, segs);
    forall p | p in e && p !in shape ensures LastWith(templates, p) == "" {
      Unregistered(templates, p);
    }
  }

  lemma {:induction false} GreedyAgrees(shape: Shape, templates: seq<string>, segs: Path)
    requires IsTrieOf(shape, templates)
    ensures GreedyOn(shape, segs) == Greedy(templates, segs)
    ensures GreedyOn(shape, segs).At? ==> GreedyOn(shape, segs).path in shape
    decreases |segs|
  {
    if segs == [] {
      assert Known(templates, []);
    } else {
      GreedyAgrees(shape, templates, segs[..|segs| - 1]);
    }
  }

  lemma MatchOnMeans(templates: seq<string>, fullPath: string)
    ensures MatchOn(TrieOf(templates), Segments(fullPath)) == Matches(templates, fullPath)
  {
    TrieMeans(templates);
    GreedyAgrees(TrieOf(templates), templates, Segments(fullPath));
  }

  lemma BeginsSnoc(p: Path, seg: string)
    ensures forall q :: Begins(q, p + [seg]) <==> Begins(q, p) || q == p + [seg]
  {
    forall q ensures Begins(q, p + [seg]) <==> Begins(q, p) || q == p + [seg] {
      if q <= p + [seg] && |q| <= |p| {
        assert q == (p + [seg])[..|q|] == p[..|q|];
      }
      if q <= p {
        assert q == p[..|q|] == (p + [seg])[..|q|];
      }
    }
  }

  // No template is registered at a path that none of them starts with.
  lemma {:induction false} Unregistered(templates: seq<string>, path: Path)
    ensures LastWith(templates, path) != "" ==> Known(templates, path)
    decreases |templates|
  {
    if templates != [] {
      var init, last := templates[..|templates| - 1], templates[|templates| - 1];
      Unregistered(init, path);
      assert templates == init + [last];
      Registered(init, last);
    }
  }

  lemma Registered(templates: seq<string>, template: string)
    ensures forall p :: Known(templates + [template], p) <==> Known(templates, p) || Begins(p, Segments(template))
    ensures forall p ::
              LastWith(templates + [template], p) ==
              if Segments(template) == p then template else LastWith(templates, p)
  {
    var all := templates + [template];
    assert all[..|all| - 1] == templates;
    forall p ensures Known(all, p) <==> Known(templates, p) || Begins(p, Segments(template)) {
      if Known(templates, p) && p != [] {
        var i :| 0 <= i < |templates| && Begins(p, Segments(templates[i]));
        assert all[i] == templates[i];
      }
      if Begins(p, Segments(template)) {
        assert all[|templates|] == template;
      }
    }
  }

  lemma Relabelled(nodes: seq<PathNode>, index: Index, shape: Shape, path: Path, template: string)
    requires Represents(nodes, index, shape) && path in index
    ensures Represents(nodes[index[path] := nodes[index[path]].(template := template)], index, shape[path := template])
  {
    var nodes' := nodes[index[path] := nodes[index[path]].(template := template)];
    forall p | p in index ensures NodeFits(nodes', index, p) {
      assert NodeFits(nodes, index, p);
      assert forall seg :: Child(nodes'[index[p]], seg) == Child(nodes[index[p]], seg);
    }
  }

  lemma TrieSnoc(templates: seq<string>, template: string)
    ensures TrieOf(templates + [template]) == Insert(TrieOf(templates), template)
  {
    assert (templates + [template])[..|templates|] == templates;
  }

  lemma {:induction false} StuckForGood(shape: Shape, segs: Path, n: nat)
    requires n <= |segs| && GreedyOn(shape, segs[..n]).Stuck?
    ensures GreedyOn(shape, segs).Stuck?
    decreases |segs|
  {
    if n < |segs| {
      assert segs[..|segs| - 1][..n] == segs[..n];
      StuckForGood(shape, segs[..|segs| - 1], n);
    } else {
      assert segs[..n] == segs;
    }
  }
}
