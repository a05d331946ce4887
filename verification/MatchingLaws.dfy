/**
 What matching a REST path promises: the match fills the template, rebuilding
 undoes it, and registration order does not matter.
 */
module MatchingLaws {
  import opened RestPath
  import opened PathMatcher

  // ---- a match fills the template ----

  ghost predicate Fills(w: Walk, segs: Path) {
    w.At? ==> Stars(w.path) == |w.captures| && Fill(w.path, w.captures) == segs
  }

  lemma AdvanceFills(templates: seq<string>, w: Walk, segs: Path, seg: string)
    requires Fills(w, segs)
    ensures Fills(Advance(templates, w, seg), segs + [seg])
  {
    if w.At? {
      FillMore(w.path, w.captures, [seg]);
      AppendPart(w.path, WILDCARD);
      FillAppend(w.path, WILDCARD, w.captures + [seg]);
      if seg != WILDCARD {
        AppendPart(w.path, seg);
        FillAppend(w.path, seg, w.captures);
      }
    }
  }

  lemma {:induction false} GreedyFills(templates: seq<string>, segs: Path)
    ensures Fills(Greedy(templates, segs), segs)
    decreases |segs|
  {
    if segs != [] {
      var init, seg := segs[..|segs| - 1], segs[|segs| - 1];
      GreedyFills(templates, init);
      AdvanceFills(templates, Greedy(templates, init), init, seg);
      assert segs == init + [seg];
    }
  }

  lemma {:induction false} LastWithIsRegistered(templates: seq<string>, path: Path)
    ensures LastWith(templates, path) != "" ==>
              LastWith(templates, path) in templates && Segments(LastWith(templates, path)) == path
    decreases |templates|
  {
    if templates != [] {
      LastWithIsRegistered(templates[..|templates| - 1], path);
    }
  }

  // A match is a registered template whose wildcards, filled with the captures,
  // give the segments of the path; among templates with equal segments it is the last.
  lemma MatchFills(templates: seq<string>, fullPath: string)
    ensures var r := Matches(templates, fullPath);
            r.Matched? ==>
              && r.template in templates
              && r.template == LastWith(templates, Segments(r.template))
              && Stars(Segments(r.template)) == |r.captures|
              && Fill(Segments(r.template), r.captures) == Segments(fullPath)
  {
    var w := Greedy(templates, Segments(fullPath));
    GreedyFills(templates, Segments(fullPath));
    if w.At? {
      LastWithIsRegistered(templates, w.path);
    }
  }

  // ---- rebuilding undoes matching ----

  lemma {:induction false} NonEmptyPlain(parts: seq<string>)
    requires Slashless(parts)
    ensures AllNonEmpty(NonEmpty(parts)) && Slashless(NonEmpty(parts))
    decreases |parts|
  {
    if parts != [] {
      NonEmptyPlain(parts[..|parts| - 1]);
    }
  }

  lemma TailPlain(s: string, c: string)
    requires Segments(s) != [] && c in Segments(s)[1..]
    ensures c != "" && '/' !in c
  {
    var (verb, rest) := Cut(s);
    var parts := NonEmpty(Split(TrimSlash(rest)));
    SplitSlashless(TrimSlash(rest));
    NonEmptyPlain(Split(TrimSlash(rest)));
    if verb != "" {
      assert Segments(s)[1..] == parts;
    } else {
      assert Segments(s) == parts;
    }
    assert c in parts;
  }

  lemma SegmentsNonEmpty(s: string, c: string)
    requires c in Segments(s)
    ensures c != ""
    ensures Cut(s).0 == "" ==> '/' !in c
  {
    var (verb, rest) := Cut(s);
    SplitSlashless(TrimSlash(rest));
    NonEmptyPlain(Split(TrimSlash(rest)));
    assert c == verb || c in NonEmpty(Split(TrimSlash(rest)));
  }

  // What a match with this verb and these captures can be rebuilt from: with a
  // literal verb anything, with none captures without a slash, with a wildcard
  // only wildcards.
  predicate Rebuildable(verb: string, captures: seq<string>) {
    if verb == "" then forall i | 0 <= i < |captures| :: '/' !in captures[i]
    else if verb == WILDCARD then forall i | 0 <= i < |captures| :: captures[i] == WILDCARD
    else true
  }

  // A template filled with captures gives a request's segments.
  ghost predicate Explains(template: string, captures: seq<string>, fullPath: string) {
    && Stars(Segments(template)) == |captures|
    && Fill(Segments(template), captures) == Segments(fullPath)
  }

  lemma LiteralVerbRebuilds(template: string, captures: seq<string>, fullPath: string)
    requires Explains(template, captures, fullPath) && Cut(template).0 !in {"", WILDCARD}
    ensures Stars(Split(Cut(template).1)) <= |captures|
    ensures Segments(RebuiltPath(template, captures)) == Segments(fullPath)
  {
    var (verb, rest) := Cut(template);
    var parts := NonEmpty(Split(rest));
    TemplateSegments(template);
    FillCons(verb, parts, captures);
    forall i | 0 <= i < |captures| ensures captures[i] != "" && '/' !in captures[i] {
      ParamsInFill(parts, captures, i);
      assert Segments(fullPath)[1..] == Fill(parts, captures);
      TailPlain(fullPath, captures[i]);
    }
    RebuiltSegments(template, captures);
  }

  lemma NoVerbRebuilds(template: string, captures: seq<string>, fullPath: string)
    requires Explains(template, captures, fullPath) && Cut(template).0 == ""
    ensures Stars(Split(Cut(template).1)) <= |captures|
    ensures Segments(RebuiltPath(template, captures)) == Segments(fullPath) <==> Rebuildable("", captures)
  {
    var parts := NonEmpty(Split(Cut(template).1));
    TemplateSegments(template);
    assert Segments(template) == parts;
    forall i | 0 <= i < |captures| ensures captures[i] in Segments(fullPath) && captures[i] != "" {
      ParamsInFill(parts, captures, i);
      SegmentsNonEmpty(fullPath, captures[i]);
    }
    if Rebuildable("", captures) {
      RebuiltSegments(template, captures);
    } else {
      var i :| 0 <= i < |captures| && '/' in captures[i];
      var text := RebuiltPath(template, captures);
      CutGlued("", Join(Fill(Split(Cut(template).1), captures)));
      if captures[i] in Segments(text) {
        SegmentsNonEmpty(text, captures[i]);
      }
    }
  }

  lemma WildcardFits(template: string, captures: seq<string>, segs: seq<string>)
    requires Cut(template).0 == WILDCARD
    requires Stars(Segments(template)) == |captures| && Fill(Segments(template), captures) == segs
    ensures var parts := NonEmpty(Split(Cut(template).1));
            && Stars(Split(Cut(template).1)) == Stars(parts) == |captures| - 1
            && segs == [captures[0]] + Fill(parts, captures[1..])
  {
    var parts := NonEmpty(Split(Cut(template).1));
    TemplateSegments(template);
    StarsOfWildcard(parts);
    FillStarCons(parts, captures);
  }

  // The rebuilt path begins with the wildcard whatever was captured for it.
  lemma WildcardKept(template: string, captures: seq<string>)
    requires Cut(template).0 == WILDCARD && Stars(Split(Cut(template).1)) <= |captures|
    ensures var segs := Segments(RebuiltPath(template, captures)); segs != [] && segs[0] == WILDCARD
  {
    CutGlued(WILDCARD, Join(Fill(Split(Cut(template).1), captures)));
  }

  lemma WildcardVerbRebuilds(template: string, captures: seq<string>, fullPath: string)
    requires Explains(template, captures, fullPath) && Cut(template).0 == WILDCARD
    ensures Stars(Split(Cut(template).1)) <= |captures|
    ensures Segments(RebuiltPath(template, captures)) == Segments(fullPath) <==> Rebuildable(WILDCARD, captures)
  {
    var segs := Segments(fullPath);
    var parts := NonEmpty(Split(Cut(template).1));
    WildcardFits(template, captures, segs);
    WildcardKept(template, captures);
    var rebuilt := Segments(RebuiltPath(template, captures));
    if captures[0] == WILDCARD {
      TailsPlain(fullPath);
      WildcardCaptured(parts, captures, segs);
      RebuiltSegments(template, captures);
      WildcardCompare(parts, captures, segs, rebuilt);
    } else {
      assert segs[0] != rebuilt[0];
    }
  }

  lemma StarsOfWildcard(parts: seq<string>)
    ensures Stars([WILDCARD] + parts) == Stars(parts) + 1
  {
    FillStarCons(parts, seq(Stars(parts) + 1, _ => ""));
  }

  ghost predicate TailIsPlain(segs: seq<string>) {
    forall i | 1 <= i < |segs| :: segs[i] != "" && '/' !in segs[i]
  }

  lemma TailsPlain(s: string)
    ensures TailIsPlain(Segments(s))
  {
    var segs := Segments(s);
    forall i | 1 <= i < |segs| ensures segs[i] != "" && '/' !in segs[i] {
      assert segs[1..][i - 1] == segs[i];
      TailPlain(s, segs[i]);
    }
  }

  lemma WildcardCaptured(parts: seq<string>, captures: seq<string>, segs: seq<string>)
    requires captures != [] && captures[0] == WILDCARD && Stars(parts) == |captures| - 1
    requires segs == [WILDCARD] + Fill(parts, captures[1..]) && TailIsPlain(segs)
    ensures AllNonEmpty(captures) && Slashless(captures)
  {
    var tail := captures[1..];
    forall i | 0 < i < |captures| ensures captures[i] != "" && '/' !in captures[i] {
      ParamsInFill(parts, tail, i - 1);
      var k :| 0 <= k < |Fill(parts, tail)| && Fill(parts, tail)[k] == tail[i - 1];
      assert segs[k + 1] == captures[i];
    }
  }

  lemma WildcardCompare(parts: seq<string>, captures: seq<string>, segs: seq<string>, rebuilt: seq<string>)
    requires captures != [] && captures[0] == WILDCARD && Stars(parts) == |captures| - 1
    requires segs == [WILDCARD] + Fill(parts, captures[1..]) && rebuilt == [WILDCARD] + Fill(parts, captures)
    ensures rebuilt == segs <==> Rebuildable(WILDCARD, captures)
  {
    var tail := captures[1..];
    SameFill(parts, captures, tail);
    Shifted(captures, Stars(parts));
    assert rebuilt[1..] == Fill(parts, captures) && segs[1..] == Fill(parts, tail);
  }

  // A list equal to itself shifted by one is constant.
  lemma {:induction false} Shifted(captures: seq<string>, n: nat)
    requires |captures| == n + 1
    ensures captures[..n] == captures[1..][..n] <==> forall i | 0 <= i < |captures| :: captures[i] == captures[0]
  {
    if captures[..n] == captures[1..][..n] {
      forall i | 0 <= i < n ensures captures[i] == captures[i + 1] {
        assert captures[i] == captures[..n][i] == captures[1..][..n][i];
      }
      Constant(captures, n);
    }
  }

  lemma {:induction false} Constant(captures: seq<string>, n: nat)
    requires n < |captures| && forall i | 0 <= i < n :: captures[i] == captures[i + 1]
    ensures forall i | 0 <= i <= n :: captures[i] == captures[0]
  {
    if n > 0 {
      Constant(captures, n - 1);
      assert captures[n - 1] == captures[n - 1 + 1];
    }
  }

  // Rebuilding from a match never lacks parameters, and gives back the segments of
  // the request exactly if the verb of the template is literal, or there is none
  // and no capture holds a slash, or it is a wildcard and so is every capture.
  lemma RebuildUndoesMatch(templates: seq<string>, fullPath: string)
    ensures var r := Matches(templates, fullPath);
            r.Matched? ==>
              && Stars(Split(Cut(r.template).1)) <= |r.captures|
              && (Segments(RebuiltPath(r.template, r.captures)) == Segments(fullPath) <==>
                  Rebuildable(Cut(r.template).0, r.captures))
  {
    var r := Matches(templates, fullPath);
    if r.Matched? {
      MatchFills(templates, fullPath);
      var verb := Cut(r.template).0;
      if verb == "" {
        NoVerbRebuilds(r.template, r.captures, fullPath);
      } else if verb == WILDCARD {
        WildcardVerbRebuilds(r.template, r.captures, fullPath);
      } else {
        LiteralVerbRebuilds(r.template, r.captures, fullPath);
      }
    }
  }

  // The two methods one after the other.
  method MatchThenBuild(m: PathMatcher, fullPath: string) returns (r: Matching, rebuilt: Rebuilt)
    requires m.Valid()
    ensures r == Matches(m.templates, fullPath)
    ensures r.Matched? ==>
              && rebuilt.Rebuilt? && rebuilt.verb == Cut(r.template).0
              && (Segments(rebuilt.verb + "#" + rebuilt.path) == Segments(fullPath) <==>
                    Rebuildable(rebuilt.verb, r.captures))
  {
    r := m.Match(fullPath);
    if r.NoMatch? {
      return r, TooFewParams;
    }
    rebuilt := BuildRestURL(r.template, r.captures);
    RebuildUndoesMatch(m.templates, fullPath);
  }

  lemma Walked(templates: seq<string>, segs: Path, seg: string)
    ensures Greedy(templates, segs + [seg]) == Advance(templates, Greedy(templates, segs), seg)
  {
    assert (segs + [seg])[..|segs|] == segs;
  }

  // A name that can be a verb and a segment, and is not a wildcard.
  predicate Plain(s: string) {
    s != "" && s != WILDCARD && '#' !in s && '/' !in s
  }

  function Text(verb: string, parts: seq<string>): string {
    verb + "#" + Join(parts)
  }

  lemma {:induction false} KeepsNonEmpty(parts: seq<string>)
    requires AllNonEmpty(parts)
    ensures NonEmpty(parts) == parts
    decreases |parts|
  {
    if parts != [] {
      KeepsNonEmpty(parts[..|parts| - 1]);
      assert parts == parts[..|parts| - 1] + [parts[|parts| - 1]];
    }
  }

  lemma TextSegments(verb: string, parts: seq<string>)
    requires '#' !in verb && verb != "" && parts != [] && AllNonEmpty(parts) && Slashless(parts)
    ensures Segments(Text(verb, parts)) == [verb] + parts
  {
    CutGlued(verb, Join(parts));
    TrimIsHarmless(Join(parts));
    SplitJoin(parts);
    KeepsNonEmpty(parts);
  }

  lemma OneTemplate(t: string)
    ensures forall p :: Known([t], p) <==> p == [] || Begins(p, Segments(t))
    ensures forall p :: LastWith([t], p) == if Segments(t) == p then t else ""
  {
    assert [] + [t] == [t];
    Registered([], t);
  }

  lemma CapturesFirst(t: string, first: string)
    requires Begins([WILDCARD], Segments(t)) && first != WILDCARD
    ensures Greedy([t], [first]) == At([WILDCARD], [first])
  {
    OneTemplate(t);
    Walked([t], [], first);
    assert [] + [first] == [first] && [] + [WILDCARD] == [WILDCARD];
    assert Segments(t)[0] == WILDCARD && [first][0] == first;
    assert !Begins([first], Segments(t));
  }

  lemma CapturesThenMatches(t: string, first: string, seg: string)
    requires Segments(t) == [WILDCARD] + [seg] && first != WILDCARD && seg != WILDCARD
    ensures Greedy([t], [first] + [seg]) == At([WILDCARD] + [seg], [first])
  {
    OneTemplate(t);
    assert Begins([WILDCARD], Segments(t)) && Begins([WILDCARD] + [seg], Segments(t));
    CapturesFirst(t, first);
    Walked([t], [first], seg);
  }

  // A template with a wildcard for a verb matches, but the verb of the request is
  // lost when the path is rebuilt.
  lemma WildcardVerbIsLost(verb: string, seg: string)
    requires Plain(verb) && Plain(seg)
    ensures var t, path := Text(WILDCARD, [seg]), Text(verb, [seg]);
            && Matches([t], path) == Matched(t, [verb])
            && Stars(Split(Cut(t).1)) <= 1
            && Segments(RebuiltPath(t, [verb])) != Segments(path)
  {
    var t, path := Text(WILDCARD, [seg]), Text(verb, [seg]);
    CutGlued(WILDCARD, seg);
    TextSegments(WILDCARD, [seg]);
    TextSegments(verb, [seg]);
    OneTemplate(t);
    CapturesThenMatches(t, verb, seg);
    RebuildUndoesMatch([t], path);
    assert [verb][0] == verb && !Rebuildable(WILDCARD, [verb]);
  }

  lemma VerbOnly(verb: string)
    requires '#' !in verb && verb != ""
    ensures Segments(verb + "#") == [verb]
  {
    assert verb + "#" == verb + "#" + "";
    CutGlued(verb, "");
    assert NonEmpty([""]) == [] by {
      assert [""][..0] == [];
    }
  }

  lemma WildcardOnly()
    ensures Cut(Text("", [WILDCARD])) == ("", WILDCARD) && Segments(Text("", [WILDCARD])) == [WILDCARD]
  {
    CutGlued("", WILDCARD);
    TemplateSegments(Text("", [WILDCARD]));
    SplitJoin([WILDCARD]);
    KeepsNonEmpty([WILDCARD]);
  }

  // A template without a verb that captures a verb with a slash is rebuilt into
  // one segment more.
  lemma SlashInVerbIsSplit(verb: string)
    requires '#' !in verb && '/' in verb
    ensures var t, path := Text("", [WILDCARD]), verb + "#";
            && Matches([t], path) == Matched(t, [verb])
            && Stars(Split(Cut(t).1)) <= 1
            && Segments(RebuiltPath(t, [verb])) != Segments(path)
  {
    var t := Text("", [WILDCARD]);
    VerbOnly(verb);
    WildcardOnly();
    OneTemplate(t);
    assert '/' !in WILDCARD;
    CapturesFirst(t, verb);
    RebuildUndoesMatch([t], verb + "#");
    assert [verb][0] == verb && !Rebuildable("", [verb]);
  }

  // ---- templates without wildcards ----

  // Each step of a path without wildcards stays on the literal children.
  lemma LiteralStep(templates: seq<string>, i: nat, segs: Path, whole: Path)
    requires i < |templates| && Segments(templates[i]) == whole && Stars(whole) == 0
    requires segs != [] && Begins(segs, whole)
    ensures Begins(segs[..|segs| - 1], whole)
    ensures Advance(templates, At(segs[..|segs| - 1], []), segs[|segs| - 1]) == At(segs, [])
  {
    var init, seg := segs[..|segs| - 1], segs[|segs| - 1];
    assert segs == init + [seg] && segs == whole[..|segs|];
    StarsPrefix(whole, |segs|);
    AppendPart(init, seg);
    assert Known(templates, segs);
  }

  lemma {:induction false} LiteralWalk(templates: seq<string>, i: nat, segs: Path, whole: Path)
    requires i < |templates| && Segments(templates[i]) == whole && Stars(whole) == 0
    requires Begins(segs, whole)
    ensures Greedy(templates, segs) == At(segs, [])
    decreases |segs|
  {
    if segs != [] {
      LiteralStep(templates, i, segs, whole);
      LiteralWalk(templates, i, segs[..|segs| - 1], whole);
    }
  }

  // A registered path without wildcards matches itself, unless a later template
  // has the same segments.
  lemma LiteralsMatchThemselves(templates: seq<string>, i: nat)
    requires i < |templates| && templates[i] != "" && Stars(Segments(templates[i])) == 0
    ensures Matches(templates, templates[i]) == Matched(templates[i], []) <==>
              LastWith(templates, Segments(templates[i])) == templates[i]
  {
    var segs := Segments(templates[i]);
    assert Begins(segs, segs);
    LiteralWalk(templates, i, segs, segs);
  }

  // Walking never goes back: a path that fits one template is not matched when
  // another begins with more of its literal segments.
  lemma NoGoingBack(verb: string, seg: string, more: string)
    requires Plain(verb) && Plain(seg) && Plain(more)
    ensures var any, longer, path := Text(verb, [WILDCARD]), Text(verb, [seg, more]), Text(verb, [seg]);
            && Stars(Segments(any)) == 1
            && Fill(Segments(any), [seg]) == Segments(path)
            && Matches([any, longer], path) == NoMatch
            && Matches([any], path) == Matched(any, [seg])
  {
    var any, longer, path := Text(verb, [WILDCARD]), Text(verb, [seg, more]), Text(verb, [seg]);
    TextSegments(verb, [WILDCARD]);
    TextSegments(verb, [seg, more]);
    TextSegments(verb, [seg]);
    OneWildcard(verb, seg);
    WalksOn(verb, seg, more, any, longer);
    WalksAny(verb, seg, any);
  }

  lemma OneWildcard(verb: string, seg: string)
    requires Plain(verb)
    ensures Stars([verb] + [WILDCARD]) == 1 && Fill([verb] + [WILDCARD], [seg]) == [verb] + [seg]
  {
    FillAppend([], WILDCARD, [seg]);
    AppendPart([], WILDCARD);
    assert [] + [WILDCARD] == [WILDCARD];
    FillCons(verb, [WILDCARD], [seg]);
  }

  lemma WalksOn(verb: string, seg: string, more: string, any: string, longer: string)
    requires Plain(verb) && Plain(seg)
    requires Segments(any) == [verb] + [WILDCARD] && Segments(longer) == [verb] + [seg, more]
    ensures Greedy([any, longer], [verb] + [seg]) == At([verb] + [seg], [])
    ensures LastWith([any, longer], [verb] + [seg]) == ""
  {
    var ts, path := [any, longer], [verb] + [seg];
    Walked(ts, [], verb);
    Walked(ts, [verb], seg);
    assert [] + [verb] == [verb];
    assert Begins([verb], Segments(ts[0])) && Begins(path, Segments(ts[1]));
    assert path[1] == seg && Segments(any)[1] == WILDCARD && |Segments(longer)| == 3;
    Registered([], any);
    Registered([any], longer);
    assert [] + [any] == [any] && [any] + [longer] == ts;
  }

  lemma WalksAny(verb: string, seg: string, any: string)
    requires Plain(verb) && Plain(seg) && Segments(any) == [verb] + [WILDCARD]
    ensures Greedy([any], [verb] + [seg]) == At([verb] + [WILDCARD], [seg])
    ensures LastWith([any], [verb] + [WILDCARD]) == any
  {
    var ts := [any];
    Walked(ts, [], verb);
    Walked(ts, [verb], seg);
    assert [] + [verb] == [verb];
    assert Begins([verb], Segments(ts[0])) && Begins([verb] + [WILDCARD], Segments(ts[0]));
    assert ([verb] + [seg])[1] == seg && ([verb] + [WILDCARD])[1] == WILDCARD;
    assert !Begins([verb] + [seg], Segments(ts[0]));
  }

  // ---- registration order ----

  // No two different templates have the same segments.
  ghost predicate Unambiguous(templates: seq<string>) {
    forall i, j | 0 <= i < |templates| && 0 <= j < |templates| && Segments(templates[i]) == Segments(templates[j]) ::
      templates[i] == templates[j]
  }

  ghost predicate SameTemplates(a: seq<string>, b: seq<string>) {
    forall t :: t in a <==> t in b
  }

  lemma KnownWithin(a: seq<string>, b: seq<string>, path: Path)
    requires SameTemplates(a, b) && Known(a, path)
    ensures Known(b, path)
  {
    if path != [] {
      var i :| 0 <= i < |a| && Begins(path, Segments(a[i]));
      assert a[i] in b;
      var j :| 0 <= j < |b| && b[j] == a[i];
      assert Begins(path, Segments(b[j]));
    }
  }

  lemma {:induction false} LastWithFinds(templates: seq<string>, path: Path, t: string)
    requires t in templates && Segments(t) == path && t != ""
    requires forall i | 0 <= i < |templates| && Segments(templates[i]) == path :: templates[i] == t
    ensures LastWith(templates, path) == t
    decreases |templates|
  {
    var init, last := templates[..|templates| - 1], templates[|templates| - 1];
    if Segments(last) != path {
      var i :| 0 <= i < |templates| && templates[i] == t;
      assert init[i] == t;
      LastWithFinds(init, path, t);
    }
  }

  lemma LastWithAgrees(a: seq<string>, b: seq<string>, path: Path)
    requires SameTemplates(a, b) && Unambiguous(a) && LastWith(a, path) != ""
    ensures LastWith(b, path) == LastWith(a, path)
  {
    LastWithIsRegistered(a, path);
    var t := LastWith(a, path);
    var k :| 0 <= k < |a| && a[k] == t;
    forall i | 0 <= i < |b| && Segments(b[i]) == path ensures b[i] == t {
      assert b[i] in b && b[i] in a;
      var j :| 0 <= j < |a| && a[j] == b[i];
      assert Segments(a[j]) == Segments(a[k]);
    }
    assert t in b;
    LastWithFinds(b, path, t);
  }

  lemma UnambiguousToo(a: seq<string>, b: seq<string>)
    requires SameTemplates(a, b) && Unambiguous(a)
    ensures Unambiguous(b)
  {
    forall i, j | 0 <= i < |b| && 0 <= j < |b| && Segments(b[i]) == Segments(b[j]) ensures b[i] == b[j] {
      assert b[i] in a && b[j] in a;
      var k :| 0 <= k < |a| && a[k] == b[i];
      var l :| 0 <= l < |a| && a[l] == b[j];
      assert Segments(a[k]) == Segments(a[l]);
    }
  }

  lemma {:induction false} WalkAgrees(a: seq<string>, b: seq<string>, segs: Path)
    requires SameTemplates(a, b)
    ensures Greedy(a, segs) == Greedy(b, segs)
    decreases |segs|
  {
    if segs != [] {
      WalkAgrees(a, b, segs[..|segs| - 1]);
      forall p ensures Known(a, p) <==> Known(b, p) {
        if Known(a, p) {
          KnownWithin(a, b, p);
        }
        if Known(b, p) {
          KnownWithin(b, a, p);
        }
      }
    }
  }

  // The order of registration, and registering twice, make no difference.
  lemma OrderIsIrrelevant(a: seq<string>, b: seq<string>, fullPath: string)
    requires SameTemplates(a, b) && Unambiguous(a)
    ensures Matches(a, fullPath) == Matches(b, fullPath)
  {
    var segs := Segments(fullPath);
    WalkAgrees(a, b, segs);
    var w := Greedy(a, segs);
    if w.At? {
      UnambiguousToo(a, b);
      if LastWith(a, w.path) != "" {
        LastWithAgrees(a, b, w.path);
      } else if LastWith(b, w.path) != "" {
        LastWithAgrees(b, a, w.path);
      }
    }
  }
}
