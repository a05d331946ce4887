/**
 REST templates and paths as text (pkg/utils/path.go): cutting off the verb,
 splitting into segments and filling wildcards.
 */
module RestPath {

  const WILDCARD := "*"

  // strings.Cut at the first '#'.
  function Cut(s: string): (r: (string, string))
    ensures '#' !in r.0
    ensures '#' in s ==> s == r.0 + "#" + r.1
    ensures '#' !in s ==> r == (s, "")
  {
    if s == "" then ("", "")
    else if s[0] == '#' then ("", s[1..])
    else
      var r := Cut(s[1..]);
      assert s == [s[0]] + s[1..];
      ([s[0]] + r.0, r.1)
  }

  lemma {:induction false} CutGlued(verb: string, rest: string)
    requires '#' !in verb
    ensures Cut(verb + "#" + rest) == (verb, rest)
  {
    var s := verb + "#" + rest;
    if verb == "" {
      assert s[0] == '#' && s[1..] == rest;
    } else {
      assert verb[0] in verb && s[0] == verb[0] && s[1..] == verb[1..] + "#" + rest;
      CutGlued(verb[1..], rest);
      assert verb == [verb[0]] + verb[1..];
    }
  }

  // strings.Split at every '/'.
  function Split(s: string): (parts: seq<string>)
    ensures parts != []
  {
    if s == "" then [""]
    else
      var rest := Split(s[1..]);
      if s[0] == '/' then [""] + rest else [[s[0]] + rest[0]] + rest[1..]
  }

  // strings.Join with '/'.
  function Join(parts: seq<string>): string {
    if parts == [] then ""
    else if |parts| == 1 then parts[0]
    else parts[0] + "/" + Join(parts[1..])
  }

  ghost predicate Slashless(parts: seq<string>) {
    forall i | 0 <= i < |parts| :: '/' !in parts[i]
  }

  lemma {:induction false} SplitSlashless(s: string)
    ensures Slashless(Split(s))
  {
    if s != "" {
      SplitSlashless(s[1..]);
    }
  }

  lemma {:induction false} SplitPrefix(part: string, s: string)
    requires '/' !in part
    ensures Split(part + s) == [part + Split(s)[0]] + Split(s)[1..]
  {
    if part == "" {
      assert part + s == s && part + Split(s)[0] == Split(s)[0];
      assert Split(s) == [Split(s)[0]] + Split(s)[1..];
    } else {
      assert part[0] in part && (part + s)[0] == part[0] && (part + s)[1..] == part[1..] + s;
      SplitPrefix(part[1..], s);
      assert part == [part[0]] + part[1..];
      assert [part[0]] + (part[1..] + Split(s)[0]) == part + Split(s)[0];
    }
  }

  lemma {:induction false} SplitJoin(parts: seq<string>)
    requires parts != [] && Slashless(parts)
    ensures Split(Join(parts)) == parts
  {
    if |parts| == 1 {
      SplitPrefix(parts[0], "");
      assert parts[0] + "" == parts[0];
    } else {
      var rest := "/" + Join(parts[1..]);
      assert rest[0] == '/' && rest[1..] == Join(parts[1..]);
      SplitJoin(parts[1..]);
      assert Split(rest) == [""] + parts[1..];
      SplitPrefix(parts[0], rest);
      assert parts[0] + rest == Join(parts) && parts[0] + "" == parts[0];
      assert parts == [parts[0]] + parts[1..];
    }
  }

  // ---- segments ----

  function NonEmpty(parts: seq<string>): seq<string> {
    if parts == [] then []
    else
      var last := parts[|parts| - 1];
      NonEmpty(parts[..|parts| - 1]) + if last == "" then [] else [last]
  }

  function TrimSlash(s: string): string {
    if s != "" && s[0] == '/' then s[1..] else s
  }

  function Segments(s: string): seq<string> {
    var (verb, rest) := Cut(s);
    (if verb != "" then [verb] else []) + NonEmpty(Split(TrimSlash(rest)))
  }

  method SplitTemplate(s: string) returns (out: seq<string>)
    ensures out == Segments(s)
  {
    var (verb, rest) := Cut(s);
    var parts := Split(TrimSlash(rest));
    out := [];
    if verb != "" {
      out := [verb];
    }
    ghost var first := out;
    for i := 0 to |parts|
      invariant out == first + NonEmpty(parts[..i])
    {
      assert parts[..i + 1][..i] == parts[..i];
      if parts[i] != "" {
        out := out + [parts[i]];
      }
    }
    assert parts[..|parts|] == parts;
  }

  lemma {:induction false} NonEmptyCons(parts: seq<string>)
    ensures NonEmpty([""] + parts) == NonEmpty(parts)
  {
    if parts == [] {
      assert [""] + parts == [""];
      assert [""][..0] == [];
    } else {
      assert ([""] + parts)[..|parts|] == [""] + parts[..|parts| - 1];
      NonEmptyCons(parts[..|parts| - 1]);
    }
  }

  // Dropping one leading slash does not matter, since empty segments are dropped.
  lemma TrimIsHarmless(s: string)
    ensures NonEmpty(Split(TrimSlash(s))) == NonEmpty(Split(s))
  {
    if s != "" && s[0] == '/' {
      NonEmptyCons(Split(s[1..]));
    }
  }

  // ---- wildcards ----

  function Stars(parts: seq<string>): (n: nat)
    ensures n <= |parts|
  {
    if parts == [] then 0
    else Stars(parts[..|parts| - 1]) + if parts[|parts| - 1] == WILDCARD then 1 else 0
  }

  // The wildcards replaced by the parameters in order.
  function Fill(parts: seq<string>, params: seq<string>): (filled: seq<string>)
    requires Stars(parts) <= |params|
    ensures |filled| == |parts|
  {
    if parts == [] then []
    else
      var init, last := parts[..|parts| - 1], parts[|parts| - 1];
      Fill(init, params) + [if last == WILDCARD then params[Stars(init)] else last]
  }

  lemma AppendPart(parts: seq<string>, last: string)
    ensures NonEmpty(parts + [last]) == NonEmpty(parts) + if last == "" then [] else [last]
    ensures Stars(parts + [last]) == Stars(parts) + if last == WILDCARD then 1 else 0
  {
    assert (parts + [last])[..|parts|] == parts;
  }

  lemma FillAppend(parts: seq<string>, last: string, params: seq<string>)
    requires Stars(parts) <= |params| && (last == WILDCARD ==> Stars(parts) < |params|)
    ensures Stars(parts + [last]) <= |params|
    ensures Fill(parts + [last], params) ==
            Fill(parts, params) + [if last == WILDCARD then params[Stars(parts)] else last]
  {
    assert (parts + [last])[..|parts|] == parts;
  }

  lemma {:induction false} StarsPrefix(parts: seq<string>, n: nat)
    requires n <= |parts|
    ensures Stars(parts[..n]) <= Stars(parts)
    decreases |parts|
  {
    if n < |parts| {
      assert parts[..|parts| - 1][..n] == parts[..n];
      StarsPrefix(parts[..|parts| - 1], n);
    } else {
      assert parts[..n] == parts;
    }
  }

  lemma {:induction false} FillMore(parts: seq<string>, params: seq<string>, more: seq<string>)
    requires Stars(parts) <= |params|
    ensures Fill(parts, params + more) == Fill(parts, params)
    decreases |parts|
  {
    if parts != [] {
      FillMore(parts[..|parts| - 1], params, more);
    }
  }

  lemma {:induction false} FillCons(first: string, parts: seq<string>, params: seq<string>)
    requires first != WILDCARD
    ensures Stars([first] + parts) == Stars(parts)
    ensures Stars(parts) <= |params| ==> Fill([first] + parts, params) == [first] + Fill(parts, params)
    decreases |parts|
  {
    var all := [first] + parts;
    if parts == [] {
      assert all == [first] && [first][..0] == [];
    } else {
      assert all[..|all| - 1] == [first] + parts[..|parts| - 1];
      FillCons(first, parts[..|parts| - 1], params);
    }
  }

  ghost predicate AllNonEmpty(params: seq<string>) {
    forall i | 0 <= i < |params| :: params[i] != ""
  }

  lemma {:induction false} StarsNonEmpty(parts: seq<string>)
    ensures Stars(NonEmpty(parts)) == Stars(parts)
    decreases |parts|
  {
    if parts != [] {
      var init, last := parts[..|parts| - 1], parts[|parts| - 1];
      StarsNonEmpty(init);
      if last == "" {
        assert NonEmpty(init) + [] == NonEmpty(init);
      } else {
        AppendPart(NonEmpty(init), last);
      }
    }
  }

  // Filling and dropping empty segments commute when no parameter is empty.
  lemma {:induction false} FillNonEmpty(parts: seq<string>, params: seq<string>)
    requires Stars(parts) <= |params| && Stars(NonEmpty(parts)) <= |params| && AllNonEmpty(params)
    ensures NonEmpty(Fill(parts, params)) == Fill(NonEmpty(parts), params)
    decreases |parts|
  {
    if parts != [] {
      var init, last := parts[..|parts| - 1], parts[|parts| - 1];
      StarsNonEmpty(init);
      StarsNonEmpty(parts);
      FillNonEmpty(init, params);
      var put := if last == WILDCARD then params[Stars(init)] else last;
      AppendPart(Fill(init, params), put);
      if last == "" {
        assert NonEmpty(init) + [] == NonEmpty(init);
      } else {
        FillAppend(NonEmpty(init), last, params);
      }
    }
  }

  lemma {:induction false} FillSlashless(parts: seq<string>, params: seq<string>)
    requires Stars(parts) <= |params| && Slashless(parts) && Slashless(params)
    ensures Slashless(Fill(parts, params))
    decreases |parts|
  {
    if parts != [] {
      FillSlashless(parts[..|parts| - 1], params);
    }
  }

  // ---- rebuilding ----

  datatype Rebuilt = Rebuilt(verb: string, path: string) | TooFewParams

  // The first i segments are filled, the others are as they were.
  ghost predicate FilledTo(parts: seq<string>, params: seq<string>, i: nat, segments: seq<string>) {
    && i <= |parts| == |segments|
    && Stars(parts[..i]) <= |params|
    && segments == Fill(parts[..i], params) + parts[i..]
  }

  lemma FillStep(parts: seq<string>, params: seq<string>, i: nat, segments: seq<string>)
    requires i < |parts| && FilledTo(parts, params, i, segments)
    ensures segments[i] == parts[i]
    ensures Stars(parts[..i + 1]) == Stars(parts[..i]) + if parts[i] == WILDCARD then 1 else 0
    ensures parts[i] != WILDCARD ==> FilledTo(parts, params, i + 1, segments)
    ensures parts[i] == WILDCARD && Stars(parts[..i]) < |params| ==>
              FilledTo(parts, params, i + 1, segments[i := params[Stars(parts[..i])]])
  {
    var init := parts[..i];
    assert parts[..i + 1] == init + [parts[i]] && parts[i..] == [parts[i]] + parts[i + 1..];
    AppendPart(init, parts[i]);
    if parts[i] != WILDCARD || Stars(init) < |params| {
      FillAppend(init, parts[i], params);
    }
  }

  method FillInPlace(parts: seq<string>, params: seq<string>) returns (ok: bool, segments: seq<string>)
    ensures ok <==> Stars(parts) <= |params|
    ensures ok ==> segments == Fill(parts, params)
  {
    segments := parts;
    var next := 0;
    for i := 0 to |parts|
      invariant next == Stars(parts[..i]) && FilledTo(parts, params, i, segments)
    {
      FillStep(parts, params, i, segments);
      if segments[i] == WILDCARD {
        if next >= |params| {
          StarsPrefix(parts, i + 1);
          return false, [];
        }
        segments := segments[i := params[next]];
        next := next + 1;
      }
    }
    assert parts[..|parts|] == parts && parts[|parts|..] == [];
    ok := true;
  }

  method BuildRestURL(template: string, params: seq<string>) returns (r: Rebuilt)
    ensures var (verb, rest) := Cut(template);
            r == if Stars(Split(rest)) > |params| then TooFewParams
                 else Rebuilt(verb, Join(Fill(Split(rest), params)))
  {
    var (verb, rest) := Cut(template);
    if '*' !in rest {
      NoStars(rest, params);
      return Rebuilt(verb, rest);
    }
    var ok, segments := FillInPlace(Split(rest), params);
    r := if ok then Rebuilt(verb, Join(segments)) else TooFewParams;
  }

  lemma {:induction false} SplitNoStar(s: string)
    requires '*' !in s
    ensures forall i | 0 <= i < |Split(s)| :: '*' !in Split(s)[i]
    ensures Join(Split(s)) == s
  {
    if s != "" {
      SplitNoStar(s[1..]);
      var rest := Split(s[1..]);
      if s[0] == '/' {
        assert ([""] + rest)[1..] == rest;
      } else if |rest| > 1 {
        assert ([[s[0]] + rest[0]] + rest[1..])[1..] == rest[1..];
        assert [s[0]] + (rest[0] + "/" + Join(rest[1..])) == [s[0]] + rest[0] + "/" + Join(rest[1..]);
      }
      assert s == [s[0]] + s[1..];
    }
  }

  lemma {:induction false} NothingToFill(parts: seq<string>, params: seq<string>)
    requires forall i | 0 <= i < |parts| :: '*' !in parts[i]
    ensures Stars(parts) == 0 && Fill(parts, params) == parts
    decreases |parts|
  {
    if parts != [] {
      NothingToFill(parts[..|parts| - 1], params);
      assert '*' in WILDCARD && parts == parts[..|parts| - 1] + [parts[|parts| - 1]];
    }
  }

  lemma NoStars(rest: string, params: seq<string>)
    requires '*' !in rest
    ensures Stars(Split(rest)) == 0 && Join(Fill(Split(rest), params)) == rest
  {
    SplitNoStar(rest);
    NothingToFill(Split(rest), params);
  }

  // What `BuildRestURL` builds, as one path.
  function RebuiltPath(template: string, params: seq<string>): string
    requires Stars(Split(Cut(template).1)) <= |params|
  {
    var (verb, rest) := Cut(template);
    verb + "#" + Join(Fill(Split(rest), params))
  }

  function VerbPart(verb: string): seq<string> {
    if verb != "" then [verb] else []
  }

  lemma TemplateSegments(template: string)
    ensures var (verb, rest) := Cut(template);
            && Segments(template) == VerbPart(verb) + NonEmpty(Split(rest))
            && Stars(NonEmpty(Split(rest))) == Stars(Split(rest))
  {
    TrimIsHarmless(Cut(template).1);
    StarsNonEmpty(Split(Cut(template).1));
  }

  // The path rebuilt from a template keeps the verb and has the other segments
  // with the parameters in place of the wildcards.
  lemma RebuiltSegments(template: string, params: seq<string>)
    requires Stars(Split(Cut(template).1)) <= |params| && AllNonEmpty(params) && Slashless(params)
    ensures var (verb, rest) := Cut(template);
            && Stars(NonEmpty(Split(rest))) <= |params|
            && Segments(RebuiltPath(template, params)) == VerbPart(verb) + Fill(NonEmpty(Split(rest)), params)
  {
    var (verb, rest) := Cut(template);
    var parts := Split(rest);
    StarsNonEmpty(parts);
    var filled := Fill(parts, params);
    SplitSlashless(rest);
    FillSlashless(parts, params);
    SplitJoin(filled);
    CutGlued(verb, Join(filled));
    TrimIsHarmless(Join(filled));
    FillNonEmpty(parts, params);
  }

  // ---- parameters and what they fill ----

  lemma {:induction false} ParamsInFill(parts: seq<string>, params: seq<string>, i: nat)
    requires Stars(parts) <= |params| && i < Stars(parts)
    ensures params[i] in Fill(parts, params)
    decreases |parts|
  {
    var init := parts[..|parts| - 1];
    if i < Stars(init) {
      ParamsInFill(init, params, i);
    } else {
      assert Fill(parts, params)[|parts| - 1] == params[i];
    }
  }

  lemma {:induction false} FillStarCons(parts: seq<string>, params: seq<string>)
    requires params != [] && Stars(parts) <= |params| - 1
    ensures Stars([WILDCARD] + parts) == Stars(parts) + 1
    ensures Fill([WILDCARD] + parts, params) == [params[0]] + Fill(parts, params[1..])
    decreases |parts|
  {
    var all := [WILDCARD] + parts;
    if parts == [] {
      assert all == [WILDCARD] && [WILDCARD][..0] == [];
    } else {
      assert all[..|all| - 1] == [WILDCARD] + parts[..|parts| - 1];
      FillStarCons(parts[..|parts| - 1], params);
    }
  }

  // Two fillings are equal exactly if the parameters they use are.
  lemma {:induction false} SameFill(parts: seq<string>, a: seq<string>, b: seq<string>)
    requires Stars(parts) <= |a| && Stars(parts) <= |b|
    ensures Fill(parts, a) == Fill(parts, b) <==> a[..Stars(parts)] == b[..Stars(parts)]
    decreases |parts|
  {
    if parts != [] {
      var init, last := parts[..|parts| - 1], parts[|parts| - 1];
      SameFill(init, a, b);
      if last == WILDCARD {
        var n := Stars(init);
        SameSnoc(Fill(init, a), a[n], Fill(init, b), b[n]);
        SameSnoc(a[..n], a[n], b[..n], b[n]);
        assert a[..n + 1] == a[..n] + [a[n]] && b[..n + 1] == b[..n] + [b[n]];
      } else {
        SameSnoc(Fill(init, a), last, Fill(init, b), last);
      }
    }
  }

  lemma SameSnoc(s: seq<string>, x: string, t: seq<string>, y: string)
    ensures s + [x] == t + [y] <==> s == t && x == y
  {
    if s + [x] == t + [y] {
      assert s == (s + [x])[..|s + [x]| - 1] && t == (t + [y])[..|t + [y]| - 1];
      assert x == (s + [x])[|s|] && y == (t + [y])[|t|];
    }
  }
}
