/**
 The byte counter that finds where a JSON value ends without parsing it
 (internal/protocol/json_rpc_stream.go), against the grammar of JsonGrammar.
 */
module ResultCounter {
  import opened JsonGrammar

  datatype Kind = ObjectKind | ArrayKind | StringKind | ScalarKind | NoKind

  datatype StepResult = Continue | FinishHere | StopBefore

  datatype Counter = Counter(kind: Kind, depth: int, inStr: bool, escape: bool)

  // The counter `resultValueStart` primes from the first byte of a value.
  function Prime(first: char): Counter {
    var kind :=
      if first == '{' then ObjectKind
      else if first == '[' then ArrayKind
      else if first == '"' then StringKind
      else ScalarKind;
    Counter(kind, 0, false, false)
  }

  predicate IsDelimiter(b: char) {
    b == ',' || b == '}' || b == ']' || IsSpace(b)
  }

  // ---- one byte ----

  function Next(c: Counter, b: char): (Counter, StepResult) {
    match c.kind
    case ObjectKind => NextBracket(c, b, '{', '}')
    case ArrayKind => NextBracket(c, b, '[', ']')
    case StringKind => NextString(c, b)
    case ScalarKind => (c, if IsDelimiter(b) then StopBefore else Continue)
    case NoKind => (c, FinishHere)
  }

  function NextBracket(c: Counter, b: char, open: char, close: char): (Counter, StepResult) {
    if c.inStr then
      if c.escape then (c.(escape := false), Continue)
      else if b == '\\' then (c.(escape := true), Continue)
      else if b == '"' then (c.(inStr := false), Continue)
      else (c, Continue)
    else if b == '"' then (c.(inStr := true), Continue)
    else if b == open then (c.(depth := c.depth + 1), Continue)
    else if b == close && c.depth > 0 then
      (c.(depth := c.depth - 1), if c.depth == 1 then FinishHere else Continue)
    else (c, Continue)
  }

  function NextString(c: Counter, b: char): (Counter, StepResult) {
    if c.escape then (c.(escape := false), Continue)
    else if b == '\\' then (c.(escape := true), Continue)
    else if b == '"' then
      if c.inStr then (c, FinishHere) else (c.(inStr := true), Continue)
    else (c, Continue)
  }

  class ResultCounter {
    var kind: Kind
    var depth: int
    var inStr: bool
    var escape: bool

    function State(): Counter
      reads this
    {
      Counter(kind, depth, inStr, escape)
    }

    constructor (c: Counter)
      ensures State() == c
    {
      kind, depth, inStr, escape := c.kind, c.depth, c.inStr, c.escape;
    }

    method Step(b: char) returns (r: StepResult)
      modifies this
      ensures (State(), r) == Next(old(State()), b)
    {
      match kind {
        case ObjectKind => r := StepBracket(b, '{', '}');
        case ArrayKind => r := StepBracket(b, '[', ']');
        case StringKind => r := StepString(b);
        case ScalarKind => r := if IsDelimiter(b) then StopBefore else Continue;
        case NoKind => r := FinishHere;
      }
    }

    method StepBracket(b: char, open: char, close: char) returns (r: StepResult)
      modifies this
      ensures (State(), r) == NextBracket(old(State()), b, open, close)
    {
      if inStr {
        if escape {
          escape := false;
          return Continue;
        }
        if b == '\\' {
          escape := true;
        } else if b == '"' {
          inStr := false;
        }
        return Continue;
      }
      if b == '"' {
        inStr := true;
      } else if b == open {
        depth := depth + 1;
      } else if b == close {
        if depth > 0 {
          depth := depth - 1;
          if depth == 0 {
            return FinishHere;
          }
        }
      }
      return Continue;
    }

    method StepString(b: char) returns (r: StepResult)
      modifies this
      ensures (State(), r) == NextString(old(State()), b)
    {
      if escape {
        escape := false;
        return Continue;
      }
      if b == '\\' {
        escape := true;
        return Continue;
      }
      if b == '"' {
        if !inStr {
          inStr := true;
          return Continue;
        }
        return FinishHere;
      }
      return Continue;
    }
  }

  // ---- a run of bytes ----

  // `Ended(at)`: the value ends after the first `at` bytes.
  datatype Scanned = Running(c: Counter) | Ended(at: nat)

  function Scan(c: Counter, s: string): (r: Scanned)
    ensures r.Ended? ==> r.at <= |s|
    decreases s
  {
    if s == "" then Running(c)
    else
      var (c', step) := Next(c, s[0]);
      match step
      case FinishHere => Ended(1)
      case StopBefore => Ended(0)
      case Continue =>
        match Scan(c', s[1..])
        case Running(d) => Running(d)
        case Ended(at) => Ended(at + 1)
  }

  lemma {:induction false} ScanConcat(c: Counter, s: string, t: string)
    ensures Scan(c, s).Ended? ==> Scan(c, s + t) == Scan(c, s)
    ensures Scan(c, s).Running? ==>
              var rest := Scan(Scan(c, s).c, t);
              Scan(c, s + t) == if rest.Ended? then Ended(|s| + rest.at) else rest
    decreases s
  {
    if s == "" {
      assert s + t == t;
    } else {
      assert (s + t)[1..] == s[1..] + t;
      ScanConcat(Next(c, s[0]).0, s[1..], t);
    }
  }

  // One more byte of a buffer that has not ended before it.
  lemma ScanStep(c: Counter, buf: string, i: nat)
    requires i < |buf| && Scan(c, buf[..i]).Running?
    ensures var d := Scan(c, buf[..i]).c;
            match Next(d, buf[i]).1
            case Continue => Scan(c, buf[..i + 1]) == Running(Next(d, buf[i]).0)
            case FinishHere => Scan(c, buf) == Ended(i + 1)
            case StopBefore => Scan(c, buf) == Ended(i)
  {
    ScanOne(Scan(c, buf[..i]).c, buf[i]);
    ScanConcat(c, buf[..i], [buf[i]]);
    assert buf[..i] + [buf[i]] == buf[..i + 1];
    ScanConcat(c, buf[..i + 1], buf[i + 1..]);
    assert buf[..i + 1] + buf[i + 1..] == buf;
  }

  // `skipResultValueBytes`: the offset just past the value, or the buffer's end.
  method SkipResultValueBytes(buf: string, start: nat, c: Counter) returns (end: nat, done: bool)
    requires start <= |buf|
    ensures done <==> Scan(c, buf[start..]).Ended?
    ensures end == if done then start + Scan(c, buf[start..]).at else |buf|
  {
    var counter := new ResultCounter(c);
    var i := start;
    ghost var rest := buf[start..];
    while i < |buf|
      invariant start <= i <= |buf|
      invariant Scan(c, rest[..i - start]) == Running(counter.State())
    {
      var r := counter.Step(buf[i]);
      ScanStep(c, rest, i - start);
      match r {
        case Continue =>
        case FinishHere => return i + 1, true;
        case StopBefore => return i, true;
      }
      i := i + 1;
    }
    assert rest[..i - start] == rest;
    return |buf|, false;
  }

  // ---- the counter on the grammar ----

  predicate Bracket(c: Counter) {
    c.kind.ObjectKind? || c.kind.ArrayKind?
  }

  // Between the tokens of an open object or array.
  predicate Inside(c: Counter) {
    Bracket(c) && c.depth > 0 && !c.inStr && !c.escape
  }

  // A byte a bracket counter passes over.
  predicate Quiet(b: char) {
    b != '"' && b != '{' && b != '}' && b != '[' && b != ']'
  }

  lemma {:induction false} ScanQuiet(c: Counter, s: string)
    requires Bracket(c) && !c.inStr
    requires forall i | 0 <= i < |s| :: Quiet(s[i])
    ensures Scan(c, s) == Running(c)
  {
    if s != "" {
      ScanQuiet(c, s[1..]);
    }
  }

  lemma ScanPiece(c: Counter, p: Piece)
    requires Bracket(c) || c.kind.StringKind?
    requires c.inStr && !c.escape && p.Valid()
    ensures Scan(c, p.Text()) == Running(c)
  {
    match p
    case Plain(b) => assert [b][1..] == "";
    case Escape(b) =>
      ScanOne(c, '\\');
      ScanOne(c.(escape := true), b);
      ScanConcat(c, "\\", [b]);
      assert ['\\', b] == "\\" + [b];
    case Unicode(h0, h1, h2, h3) =>
      ScanUnicode(c, [h0, h1, h2, h3]);
      assert p.Text() == "\\" + "u" + [h0, h1, h2, h3];
  }

  lemma ScanUnicode(c: Counter, hex: string)
    requires Bracket(c) || c.kind.StringKind?
    requires c.inStr && !c.escape && forall i | 0 <= i < |hex| :: IsHex(hex[i])
    ensures Scan(c, "\\" + "u" + hex) == Running(c)
  {
    ScanHex(c, hex);
    ScanOne(c, '\\');
    ScanOne(c.(escape := true), 'u');
    ScanConcat(c, "\\", "u");
    ScanConcat(c, "\\" + "u", hex);
  }

  lemma {:induction false} ScanHex(c: Counter, s: string)
    requires Bracket(c) || c.kind.StringKind?
    requires c.inStr && !c.escape && forall i | 0 <= i < |s| :: IsHex(s[i])
    ensures Scan(c, s) == Running(c)
  {
    if s != "" {
      ScanHex(c, s[1..]);
    }
  }

  lemma {:induction false} ScanBody(c: Counter, ps: seq<Piece>)
    requires Bracket(c) || c.kind.StringKind?
    requires c.inStr && !c.escape && ValidPieces(ps)
    ensures Scan(c, Body(ps)) == Running(c)
  {
    if ps != [] {
      ScanPiece(c, ps[0]);
      ScanBody(c, ps[1..]);
      ScanConcat(c, ps[0].Text(), Body(ps[1..]));
    }
  }

  lemma ScanOne(c: Counter, b: char)
    ensures Scan(c, [b]) ==
            match Next(c, b).1
            case Continue => Running(Next(c, b).0)
            case FinishHere => Ended(1)
            case StopBefore => Ended(0)
  {
    assert [b][1..] == "";
  }

  lemma ScanQuoted(c: Counter, ps: seq<Piece>)
    requires Bracket(c) && !c.inStr && !c.escape && ValidPieces(ps)
    ensures Scan(c, Quote(ps)) == Running(c)
  {
    var inside := c.(inStr := true);
    ScanOne(c, '"');
    ScanBody(inside, ps);
    ScanConcat(c, "\"", Body(ps));
    ScanOne(inside, '"');
    ScanConcat(c, "\"" + Body(ps), "\"");
  }

  predicate NumberByte(b: char) {
    IsDigit(b) || b == '.' || b == 'e' || b == 'E' || b == '+' || b == '-'
  }

  lemma NumberBytes(a: Scalar)
    requires a.Number? && a.Valid()
    ensures |a.Text()| > 0 && forall i | 0 <= i < |a.Text()| :: NumberByte(a.Text()[i])
  {
    var f, e := FracText(a.frac), ExpText(a.mark, a.sign, a.exp);
    assert forall i | 0 <= i < |f| :: NumberByte(f[i]);
    assert forall i | 0 <= i < |e| :: NumberByte(e[i]);
    var w := a.whole + (f + e);
    assert forall i | 0 <= i < |w| :: NumberByte(w[i]);
  }

  lemma QuietScalar(a: Scalar)
    requires a.Valid()
    ensures |a.Text()| > 0
    ensures forall i | 0 <= i < |a.Text()| :: Quiet(a.Text()[i]) && !IsDelimiter(a.Text()[i])
  {
    if a.Number? {
      NumberBytes(a);
    }
  }

  // A nested value leaves a bracket counter where it was.
  lemma {:induction false} ScanNested(c: Counter, v: Value)
    requires Inside(c) && Valid(v)
    ensures Scan(c, Print(v)) == Running(c)
    decreases v, 3
  {
    match v
    case Atom(scalar) => QuietScalar(scalar); ScanQuiet(c, scalar.Text());
    case Str(body) => ScanQuoted(c, body);
    case Arr(pad, items) =>
      ScanOne(c, '[');
      ScanItems(Next(c, '[').0, pad, items);
      ScanConcat(c, "[", PrintItems(pad, items));
    case Obj(pad, members) =>
      ScanOne(c, '{');
      ScanMembers(Next(c, '{').0, pad, members);
      ScanConcat(c, "{", PrintMembers(pad, members));
  }

  // Closing one level: where the counter stands after the bracket that matches.
  function Close(c: Counter, n: nat, close: char): Scanned {
    match Next(c, close).1
    case FinishHere => Ended(n)
    case StopBefore => Running(c)
    case Continue => Running(Next(c, close).0)
  }

  // Text that leaves the counter alone, in front of text that closes the level.
  lemma ScanPast(c: Counter, s: string, t: string, close: char)
    requires Bracket(c) && Scan(c, s) == Running(c)
    requires Scan(c, t) == Close(c, |t|, close)
    ensures Scan(c, s + t) == Close(c, |s + t|, close)
  {
    ScanConcat(c, s, t);
  }

  lemma {:induction false} ScanItems(c: Counter, pad: string, items: Items)
    requires Inside(c) && Blank(pad) && ValidItems(items)
    ensures Scan(c, PrintItems(pad, items)) == Close(c, |PrintItems(pad, items)|, ']')
    decreases items, 1
  {
    match items
    case NoItems => ScanQuiet(c, pad); ScanOne(c, ']'); ScanPast(c, pad, "]", ']');
    case Item(before, value, after, more) =>
      ScanItemsTail(c, after, more);
      ScanNested(c, value);
      ScanPast(c, Print(value), ItemsTail(after, more), ']');
      ScanQuiet(c, before);
      ScanPast(c, before, Print(value) + ItemsTail(after, more), ']');
  }

  lemma {:induction false} ScanItemsTail(c: Counter, after: string, more: Items)
    requires Inside(c) && Blank(after) && ValidItems(more)
    ensures Scan(c, ItemsTail(after, more)) == Close(c, |ItemsTail(after, more)|, ']')
    decreases more, 2
  {
    ScanQuiet(c, after);
    if more.NoItems? {
      ScanOne(c, ']');
      ScanPast(c, after, "]", ']');
    } else {
      ScanItems(c, "", more);
      ScanOne(c, ',');
      ScanPast(c, ",", PrintItems("", more), ']');
      ScanPast(c, after, "," + PrintItems("", more), ']');
    }
  }

  lemma {:induction false} ScanMembers(c: Counter, pad: string, members: Members)
    requires Inside(c) && Blank(pad) && ValidMembers(members)
    ensures Scan(c, PrintMembers(pad, members)) == Close(c, |PrintMembers(pad, members)|, '}')
    decreases members, 1
  {
    match members
    case NoMembers => ScanQuiet(c, pad); ScanOne(c, '}'); ScanPast(c, pad, "}", '}');
    case Member(before, key, gap, lead, value, after, more) =>
      ScanMembersTail(c, after, more);
      ScanNested(c, value);
      var t := MembersTail(after, more);
      ScanPast(c, Print(value), t, '}');
      ScanLabel(c, before, key, gap, lead, Print(value) + t);
  }

  // A member's name and colon, with the whitespace around them.
  lemma ScanLabel(c: Counter, before: string, key: seq<Piece>, gap: string, lead: string, t: string)
    requires Inside(c) && Blank(before) && ValidPieces(key) && Blank(gap) && Blank(lead)
    requires Scan(c, t) == Close(c, |t|, '}')
    ensures var s := before + (Quote(key) + (gap + (":" + (lead + t)))); Scan(c, s) == Close(c, |s|, '}')
  {
    ScanQuiet(c, lead);
    ScanPast(c, lead, t, '}');
    ScanOne(c, ':');
    ScanPast(c, ":", lead + t, '}');
    ScanQuiet(c, gap);
    ScanPast(c, gap, ":" + (lead + t), '}');
    ScanQuoted(c, key);
    ScanPast(c, Quote(key), gap + (":" + (lead + t)), '}');
    ScanQuiet(c, before);
    ScanPast(c, before, Quote(key) + (gap + (":" + (lead + t))), '}');
  }

  lemma {:induction false} ScanMembersTail(c: Counter, after: string, more: Members)
    requires Inside(c) && Blank(after) && ValidMembers(more)
    ensures Scan(c, MembersTail(after, more)) == Close(c, |MembersTail(after, more)|, '}')
    decreases more, 2
  {
    ScanQuiet(c, after);
    if more.NoMembers? {
      ScanOne(c, '}');
      ScanPast(c, after, "}", '}');
    } else {
      ScanMembers(c, "", more);
      ScanOne(c, ',');
      ScanPast(c, ",", PrintMembers("", more), '}');
      ScanPast(c, after, "," + PrintMembers("", more), '}');
    }
  }

  lemma {:induction false} ScanScalar(c: Counter, s: string)
    requires c.kind.ScalarKind?
    requires forall i | 0 <= i < |s| :: !IsDelimiter(s[i])
    ensures Scan(c, s) == Running(c)
  {
    if s != "" {
      ScanScalar(c, s[1..]);
    }
  }

  // How many bytes after its first byte a value needs in sight before the
  // counter reports its end: a scalar shows its end only by the byte after it.
  predicate EndInSight(v: Value, room: int) {
    if v.Atom? then |Print(v)| < room else |Print(v)| <= room
  }

  predicate Follows(tail: string) {
    tail == "" || IsDelimiter(tail[0])
  }

  lemma StringEnds(c: Counter, body: seq<Piece>)
    requires c == Prime('"') && ValidPieces(body)
    ensures Scan(c, Quote(body)) == Ended(|Quote(body)|)
  {
    var inside := c.(inStr := true);
    ScanOne(c, '"');
    ScanBody(inside, body);
    ScanConcat(c, "\"", Body(body));
    ScanOne(inside, '"');
    ScanConcat(c, "\"" + Body(body), "\"");
  }

  lemma BracketEnds(c: Counter, open: char, text: string)
    requires (open == '[' && c == Prime('[')) || (open == '{' && c == Prime('{'))
    requires var inside := Next(c, open).0;
             Scan(inside, text) == Close(inside, |text|, if open == '[' then ']' else '}')
    ensures Scan(c, [open] + text) == Ended(|[open] + text|)
  {
    ScanOne(c, open);
    ScanConcat(c, [open], text);
  }

  // The counter primed from a value's first byte stops exactly at its end.
  lemma ValueEnds(v: Value, tail: string)
    requires Valid(v) && Follows(tail)
    ensures |Print(v)| > 0
    ensures Scan(Prime(Print(v)[0]), Print(v) + tail) ==
            if EndInSight(v, |Print(v) + tail|) then Ended(|Print(v)|) else Running(Prime(Print(v)[0]))
  {
    match v
    case Atom(scalar) =>
      QuietScalar(scalar);
      var c := Prime(Print(v)[0]);
      ScanScalar(c, scalar.Text());
      ScanConcat(c, scalar.Text(), tail);
    case Str(body) =>
      StringEnds(Prime('"'), body);
      ScanConcat(Prime('"'), Print(v), tail);
    case Arr(pad, items) =>
      var c := Prime('[');
      ScanItems(Next(c, '[').0, pad, items);
      BracketEnds(c, '[', PrintItems(pad, items));
      ScanConcat(c, Print(v), tail);
    case Obj(pad, members) =>
      var c := Prime('{');
      ScanMembers(Next(c, '{').0, pad, members);
      BracketEnds(c, '{', PrintMembers(pad, members));
      ScanConcat(c, Print(v), tail);
  }

  // ... and never inside it.
  lemma NeverStopsInside(v: Value, k: nat)
    requires Valid(v) && k < |Print(v)|
    ensures Scan(Prime(Print(v)[0]), Print(v)[..k]).Running?
  {
    ValueEnds(v, "");
    ScanConcat(Prime(Print(v)[0]), Print(v)[..k], Print(v)[k..]);
    assert Print(v)[..k] + Print(v)[k..] == Print(v) + "";
  }
}
