/**
 What `AnalyzeChunk` reports for the first bytes of a JSON-RPC response object
 (section 5 of the JSON-RPC 2.0 Specification), cut anywhere.
 */
module Envelope {
  import Common
  import opened JsonGrammar
  import opened ResultCounter
  import opened JsonDecoder
  import opened ChunkAnalysis

  // A response object, the whitespace before it and whatever bytes come after it.
  datatype Response = Response(lead: string, pad: string, members: Members, trail: string) {
    ghost predicate Valid() {
      Blank(lead) && Blank(pad) && ValidMembers(members)
    }

    function Text(): string {
      lead + ("{" + (PrintMembers(pad, members) + trail))
    }

    // Where the first member starts.
    function Base(): nat {
      |lead| + 1
    }
  }

  // ---- where the members are, counted from the start of the first one ----

  function Count(ms: Members): nat {
    if ms.NoMembers? then 0 else 1 + Count(ms.more)
  }

  function Nth(ms: Members, i: nat): (m: Members)
    requires i < Count(ms)
    ensures m.Member?
  {
    if i == 0 then ms else Nth(ms.more, i - 1)
  }

  function Offset(ms: Members, i: nat): nat
    requires i < Count(ms)
  {
    if i == 0 then 0
    else
      |ms.before| + |Quote(ms.key)| + |ms.gap| + 1 + |ms.lead| + |Print(ms.value)| + |ms.after| + 1
      + Offset(ms.more, i - 1)
  }

  function KeyEnd(ms: Members, i: nat): nat
    requires i < Count(ms)
  {
    Offset(ms, i) + |Nth(ms, i).before| + |Quote(Nth(ms, i).key)|
  }

  function ValueStart(ms: Members, i: nat): nat
    requires i < Count(ms)
  {
    KeyEnd(ms, i) + |Nth(ms, i).gap| + 1 + |Nth(ms, i).lead|
  }

  function KeyOf(ms: Members, i: nat): seq<int>
    requires i < Count(ms)
  {
    Units(Nth(ms, i).key)
  }

  function ValueOf(ms: Members, i: nat): Value
    requires i < Count(ms)
  {
    Nth(ms, i).value
  }

  // ---- the walk over members, as the grammar sees it ----

  // `room` is how many bytes of the chunk are left where the members start.
  ghost function Expected(fits: string -> bool, size: int, ms: Members, room: int, found: Analysis): Analysis {
    match ms
    case NoMembers => Finish(found)
    case Member(before, key, gap, lead, value, after, more) =>
      var keyRoom := room - |before| - |Quote(key)|;
      var valueRoom := keyRoom - |gap| - 1 - |lead|;
      var next := valueRoom - |Print(value)| - |after| - 1;
      if keyRoom < 0 then Finish(found)
      else if Units(key) == ERROR then NOT_FOUND
      else if Units(key) == RESULT then
        if valueRoom <= 0 || Print(value) == "" then NOT_FOUND
        else
          var located := Analysis(false, size - valueRoom, Prime(Print(value)[0]));
          if !EndInSight(value, valueRoom) then located.(streamable := true)
          else if Decodes(fits, value) then Expected(fits, size, more, next, located)
          else Finish(located)
      else if valueRoom >= |Print(value)| && Decodes(fits, value) then Expected(fits, size, more, next, found)
      else Finish(found)
  }

  // The same from the first member's value on.
  ghost function PastValue(fits: string -> bool, size: int, ms: Members, room: int, found: Analysis): Analysis
    requires ms.Member?
  {
    if room >= |Print(ms.value)| && Decodes(fits, ms.value) then
      Expected(fits, size, ms.more, room - |Print(ms.value)| - |ms.after| - 1, found)
    else Finish(found)
  }

  // Reading a value whose text the chunk cuts off never leads to another key.
  lemma SkipCut(fits: string -> bool, v: Value, t: string, k: nat, d: Decoder)
    requires Valid(v) && Follows(t) && k < |Print(v)|
    requires d.rest == (Print(v) + t)[..k] && ValueAllowed(d.state)
    ensures SkipNext(fits, d).Skipped? ==> SkipNext(fits, d).next.rest == ""
  {
    var r := SkipNext(fits, d);
    if r.Skipped? && r.next.rest != "" {
      var more := (Print(v) + t)[k..];
      SkipNextExtend(fits, d, more);
      assert d.rest + more == Print(v) + t;
      SkipValue(fits, v, t, d.state, d.stack);
    }
  }

  lemma NoKeyAhead(fits: string -> bool, size: nat, d: Decoder, found: Analysis)
    requires SkipSpace(d.rest) == "" || SkipSpace(d.rest)[0] == '}'
    ensures Walk(fits, size, d, found) == Finish(found)
  {}

  // A key the chunk cuts off is never reported.
  lemma KeyCut(fits: string -> bool, before: string, key: seq<Piece>, x: string, k: nat, d: Decoder)
    requires Blank(before) && ValidPieces(key) && k < |before| + |Quote(key)|
    requires d.rest == (before + (Quote(key) + x))[..k] && (d.state.ObjectStart? || d.state.ObjectKey?)
    ensures Token(fits, d).TokenError?
  {
    var text := before + (Quote(key) + x);
    var r := Token(fits, d);
    if r.Tok? {
      TokenExtend(fits, d, text[k..]);
      assert d.rest + text[k..] == text;
      TokenBlank(fits, before, Quote(key) + x, d.state, d.stack);
      TokenKey(fits, key, x, d.state, d.stack);
    }
  }

  lemma CutFollows(t: string, k: nat)
    requires Follows(t) && k <= |t|
    ensures Follows(t[..k])
  {}

  lemma KeyWhole(fits: string -> bool, before: string, key: seq<Piece>, x: string, k: nat, d: Decoder)
    requires Blank(before) && ValidPieces(key) && |before| + |Quote(key)| <= k <= |before + (Quote(key) + x)|
    requires d.rest == (before + (Quote(key) + x))[..k] && (d.state.ObjectStart? || d.state.ObjectKey?)
    ensures More(d)
    ensures Token(fits, d) == Tok(Text(Units(key)), Decoder(x[..k - |before| - |Quote(key)|], ObjectColon, d.stack))
  {
    var rest := x[..k - |before| - |Quote(key)|];
    assert d.rest == before + (Quote(key) + rest);
    TokenBlank(fits, before, Quote(key) + rest, d.state, d.stack);
    TokenKey(fits, key, rest, d.state, d.stack);
  }

  // What the walk sees after a key: the byte count over the value's input and the skip.
  lemma ScanCut(v: Value, t: string, room: nat)
    requires Valid(v) && Follows(t) && 0 < room <= |Print(v) + t|
    ensures |Print(v)| > 0 && (Print(v) + t)[..room][0] == Print(v)[0]
    ensures Scan(Prime(Print(v)[0]), (Print(v) + t)[..room]).Ended? == EndInSight(v, room)
  {
    ValueEnds(v, "");
    if room >= |Print(v)| {
      CutFollows(t, room - |Print(v)|);
      assert (Print(v) + t)[..room] == Print(v) + t[..room - |Print(v)|];
      ValueEnds(v, t[..room - |Print(v)|]);
    } else {
      assert (Print(v) + t)[..room] == Print(v)[..room];
      NeverStopsInside(v, room);
    }
  }

  lemma SkipAfterKey(fits: string -> bool, gap: string, lead: string, v: Value, t: string, k: nat, d: Decoder)
    requires Blank(gap) && Blank(lead) && Valid(v) && Follows(t)
    requires |gap| + 1 + |lead| < k <= |gap| + 1 + |lead| + |Print(v)| + |t|
    requires d == Decoder((gap + (":" + (lead + (Print(v) + t))))[..k], ObjectColon, [TopValue])
    ensures var room := k - |gap| - 1 - |lead|;
            if room >= |Print(v)| then
              SkipNext(fits, d) == SkippedIf(Decodes(fits, v), t[..room - |Print(v)|], ObjectValue, [TopValue])
            else SkipNext(fits, d).SkipError? || SkipNext(fits, d).next.rest == ""
  {
    var room := k - |gap| - 1 - |lead|;
    var cut := (Print(v) + t)[..room];
    assert d.rest == gap + (":" + (lead + cut));
    TokenColon(fits, gap, lead, cut, d.stack);
    SkipSame(fits, d, Decoder(cut, ObjectValue, d.stack));
    if room >= |Print(v)| {
      var rest := t[..room - |Print(v)|];
      CutFollows(t, room - |Print(v)|);
      assert cut == Print(v) + rest;
      SkipValue(fits, v, rest, ObjectValue, d.stack);
    } else {
      SkipCut(fits, v, t, room, Decoder(cut, ObjectValue, d.stack));
    }
  }

  lemma ValueFirst(v: Value, t: string)
    requires Valid(v) && |Print(v)| > 0
    ensures !IsSpace((Print(v) + t)[0])
  {
    if v.Atom? {
      QuietScalar(v.scalar);
    }
  }

  lemma CutInput(gap: string, lead: string, value: string, k: nat)
    requires Blank(gap) && Blank(lead) && k <= |gap + (":" + (lead + value))|
    requires value != "" && !IsSpace(value[0])
    ensures ValueInput((gap + (":" + (lead + value)))[..k]) ==
            if k - |gap| - 1 - |lead| <= 0 then "" else value[..k - |gap| - 1 - |lead|]
  {
    var s := (gap + (":" + (lead + value)))[..k];
    if k <= |gap| {
      assert s == gap[..k];
      SkipBlank(gap[..k], "");
      assert gap[..k] + "" == gap[..k];
    } else {
      var x := (lead + value)[..k - |gap| - 1];
      assert s == gap + (":" + x);
      SkipBlank(gap, ":" + x);
      assert (":" + x)[1..] == x;
      if |x| <= |lead| {
        assert x == lead[..|x|];
        SkipBlank(lead[..|x|], "");
        assert lead[..|x|] + "" == x;
      } else {
        assert x == lead + value[..|x| - |lead|];
        SkipBlank(lead, value[..|x| - |lead|]);
      }
    }
  }

  lemma ColonCut(fits: string -> bool, gap: string, lead: string, value: string, k: nat, d: Decoder)
    requires Blank(gap) && Blank(lead) && k <= |gap| + 1 + |lead|
    requires d == Decoder((gap + (":" + (lead + value)))[..k], ObjectColon, [TopValue])
    ensures SkipNext(fits, d).SkipError?
  {
    if k <= |gap| {
      assert d.rest == gap[..k] + "";
      SkipBlank(gap[..k], "");
    } else {
      var x := lead[..k - |gap| - 1];
      assert d.rest == gap + (":" + (x + ""));
      TokenColon(fits, gap, x, "", d.stack);
      SkipSame(fits, d, Decoder("", ObjectValue, d.stack));
    }
  }

  lemma CloseAhead(ws: string, trail: string, k: nat)
    requires Blank(ws) && k <= |ws + "}" + trail|
    ensures var s := SkipSpace((ws + "}" + trail)[..k]); s == "" || s[0] == '}'
  {
    if k <= |ws| {
      assert (ws + "}" + trail)[..k] == ws[..k] + "";
      SkipBlank(ws[..k], "");
    } else {
      var x := "}" + trail[..k - |ws| - 1];
      assert (ws + "}" + trail)[..k] == ws + x;
      SkipBlank(ws, x);
    }
  }

  function FromKey(ms: Members, trail: string): string
    requires ms.Member?
  {
    ms.gap + (":" + (ms.lead + (Print(ms.value) + (MembersTail(ms.after, ms.more) + trail))))
  }

  lemma MembersText(pad: string, ms: Members, trail: string)
    requires ms.Member?
    ensures PrintMembers(pad, ms) + trail == ms.before + (Quote(ms.key) + FromKey(ms, trail))
  {
    MemberText(pad, ms, trail);
  }

  // Everything from the i-th value on; the value's text stands where `ValueStart` says.
  function FromValue(ms: Members, i: nat, trail: string): string
    requires i < Count(ms)
  {
    Print(ValueOf(ms, i)) + (MembersTail(Nth(ms, i).after, Nth(ms, i).more) + trail)
  }

  lemma FirstValueText(pad: string, ms: Members, trail: string)
    requires ms.Member?
    ensures Suffix(PrintMembers(pad, ms) + trail, ValueStart(ms, 0), FromValue(ms, 0, trail))
  {
    var v := FromValue(ms, 0, trail);
    MembersText(pad, ms, trail);
    DropPast(ms.lead, v, 0);
    DropPast(":", ms.lead + v, |ms.lead|);
    DropPast(ms.gap, ":" + (ms.lead + v), 1 + |ms.lead|);
    DropPast(Quote(ms.key), FromKey(ms, trail), |ms.gap| + (1 + |ms.lead|));
    DropPast(ms.before, Quote(ms.key) + FromKey(ms, trail), |Quote(ms.key)| + (|ms.gap| + (1 + |ms.lead|)));
  }

  ghost predicate Suffix(s: string, i: int, t: string) {
    0 <= i <= |s| && s[i..] == t
  }

  lemma SuffixSuffix(s: string, i: int, t: string, j: int, u: string)
    requires Suffix(s, i, t) && Suffix(t, j, u)
    ensures Suffix(s, i + j, u)
  {}

  lemma NextText(ms: Members, trail: string)
    requires ms.Member? && ms.more.Member? && Blank(ms.after)
    ensures Suffix(FromValue(ms, 0, trail), |Print(ms.value)| + |ms.after| + 1, PrintMembers("", ms.more) + trail)
  {
    var rest := PrintMembers("", ms.more) + trail;
    TailOfMembers(ms.after, ms.more, trail);
    DropPast(",", rest, 0);
    DropPast(ms.after, "," + rest, 1);
    DropPast(Print(ms.value), ms.after + ("," + rest), |ms.after| + 1);
  }

  lemma {:induction false} ValueText(pad: string, ms: Members, i: nat, trail: string)
    requires ValidMembers(ms) && i < Count(ms)
    ensures Valid(ValueOf(ms, i)) && Follows(MembersTail(Nth(ms, i).after, Nth(ms, i).more) + trail)
    ensures Suffix(PrintMembers(pad, ms) + trail, ValueStart(ms, i), FromValue(ms, i, trail))
    decreases ms
  {
    FirstValueText(pad, ms, trail);
    if i == 0 {
      TailOfMembers(ms.after, ms.more, trail);
    } else {
      ValueText("", ms.more, i - 1, trail);
      NthNext(ms, i - 1, trail);
      LaterValueText(PrintMembers(pad, ms) + trail, ms, i - 1, trail);
    }
  }

  lemma LaterValueText(text: string, ms: Members, i: nat, trail: string)
    requires ms.Member? && i < Count(ms.more) && Blank(ms.after)
    requires Suffix(text, ValueStart(ms, 0), FromValue(ms, 0, trail))
    requires Suffix(PrintMembers("", ms.more) + trail, ValueStart(ms.more, i), FromValue(ms.more, i, trail))
    ensures Suffix(text, ValueStart(ms, 0) + (|Print(ms.value)| + |ms.after| + 1) + ValueStart(ms.more, i),
                   FromValue(ms.more, i, trail))
  {
    NextText(ms, trail);
    var rest, gap := PrintMembers("", ms.more) + trail, |Print(ms.value)| + |ms.after| + 1;
    SuffixSuffix(text, ValueStart(ms, 0), FromValue(ms, 0, trail), gap, rest);
    SuffixSuffix(text, ValueStart(ms, 0) + gap, rest, ValueStart(ms.more, i), FromValue(ms.more, i, trail));
  }

  lemma NthNext(ms: Members, i: nat, trail: string)
    requires ms.Member? && i < Count(ms.more)
    ensures Nth(ms, i + 1) == Nth(ms.more, i)
    ensures FromValue(ms, i + 1, trail) == FromValue(ms.more, i, trail)
    ensures ValueStart(ms, i + 1) == ValueStart(ms, 0) + (|Print(ms.value)| + |ms.after| + 1) + ValueStart(ms.more, i)
  {}

  // The walk over a cut list of members is the one `Expected` describes.
  lemma {:induction false} WalkMembers(fits: string -> bool, size: nat, pad: string, ms: Members, trail: string, k: nat,
                                       d: Decoder, found: Analysis)
    requires Blank(pad) && ValidMembers(ms) && k <= |PrintMembers(pad, ms) + trail|
    requires d.state.ObjectStart? || (d.state.ObjectKey? && ms.Member?)
    requires d.rest == (PrintMembers(pad, ms) + trail)[..k] && d.stack == [TopValue]
    ensures Walk(fits, size, d, found) == Expected(fits, size, ms, k, found)
    decreases ms, 1
  {
    if ms.NoMembers? {
      CloseAhead(pad, trail, k);
      NoKeyAhead(fits, size, d, found);
    } else {
      MembersText(pad, ms, trail);
      WalkMember(fits, size, ms, trail, k, d, found);
    }
  }

  lemma {:induction false} WalkMember(fits: string -> bool, size: nat, ms: Members, trail: string, k: nat, d: Decoder,
                                      found: Analysis)
    requires ms.Member? && ValidMembers(ms) && (d.state.ObjectStart? || d.state.ObjectKey?) && d.stack == [TopValue]
    requires k <= |ms.before + (Quote(ms.key) + FromKey(ms, trail))|
    requires d.rest == (ms.before + (Quote(ms.key) + FromKey(ms, trail)))[..k]
    ensures Walk(fits, size, d, found) == Expected(fits, size, ms, k, found)
    decreases ms, 1, 0
  {
    var room := k - |ms.before| - |Quote(ms.key)|;
    KeyStep(fits, size, ms.before, ms.key, FromKey(ms, trail), k, d, found);
    if room < 0 {
      ExpectedCut(fits, size, ms, k, found);
    } else {
      WalkValue(fits, size, ms, trail, room, Decoder(FromKey(ms, trail)[..room], ObjectColon, [TopValue]), found);
    }
  }

  // The walk reads a key, or stops where the chunk cuts it off.
  lemma KeyStep(fits: string -> bool, size: nat, before: string, key: seq<Piece>, x: string, k: nat, d: Decoder,
                found: Analysis)
    requires Blank(before) && ValidPieces(key) && k <= |before + (Quote(key) + x)|
    requires d.rest == (before + (Quote(key) + x))[..k] && (d.state.ObjectStart? || d.state.ObjectKey?)
    ensures var room := k - |before| - |Quote(key)|;
            Walk(fits, size, d, found) ==
            if room < 0 then Finish(found)
            else WalkKey(fits, size, Units(key), Decoder(x[..room], ObjectColon, d.stack), found)
  {
    if k < |before| + |Quote(key)| {
      KeyCut(fits, before, key, x, k, d);
    } else {
      KeyWhole(fits, before, key, x, k, d);
      WalkText(fits, size, d, found);
    }
  }

  lemma ExpectedCut(fits: string -> bool, size: nat, ms: Members, k: nat, found: Analysis)
    requires ms.Member? && k < |ms.before| + |Quote(ms.key)|
    ensures Expected(fits, size, ms, k, found) == Finish(found)
  {}

  lemma WalkText(fits: string -> bool, size: nat, d: Decoder, found: Analysis)
    requires More(d) && Token(fits, d).Tok? && Token(fits, d).token.Text?
    ensures Walk(fits, size, d, found) == WalkKey(fits, size, Token(fits, d).token.units, Token(fits, d).next, found)
  {}

  // The same, from the end of the first member's key.
  lemma {:induction false} WalkValue(fits: string -> bool, size: nat, ms: Members, trail: string, k: nat, d: Decoder,
                                     found: Analysis)
    requires ms.Member? && ValidMembers(ms) && k <= |FromKey(ms, trail)|
    requires d == Decoder(FromKey(ms, trail)[..k], ObjectColon, [TopValue])
    ensures WalkKey(fits, size, Units(ms.key), d, found) ==
            Expected(fits, size, ms, k + |ms.before| + |Quote(ms.key)|, found)
    decreases ms, 0
  {
    var room := k - |ms.gap| - 1 - |ms.lead|;
    InputAfterKey(ms, trail, k);
    if room <= 0 {
      ColonCut(fits, ms.gap, ms.lead, Print(ms.value) + (MembersTail(ms.after, ms.more) + trail), k, d);
      NoValueYet(fits, size, ms, k, d, found);
    } else if Units(ms.key) == RESULT {
      WalkSkip(fits, size, ms, trail, k, d, Analysis(false, size - room, Prime(Print(ms.value)[0])));
      AtResult(fits, size, ms, k, d, found);
    } else {
      WalkSkip(fits, size, ms, trail, k, d, found);
      AtOther(fits, size, ms, k, d, found);
    }
  }

  // One step of the walk and of `Expected`, from what is known of the input behind the key.
  lemma AtResult(fits: string -> bool, size: nat, ms: Members, k: nat, d: Decoder, found: Analysis)
    requires ms.Member? && Units(ms.key) == RESULT && |Print(ms.value)| > 0
    requires var room := k - |ms.gap| - 1 - |ms.lead|;
             var input, located := ValueInput(d.rest), Analysis(false, size - room, Prime(Print(ms.value)[0]));
             && |input| == room > 0 && input[0] == Print(ms.value)[0]
             && Scan(Prime(input[0]), input).Ended? == EndInSight(ms.value, room)
             && WalkPast(fits, size, d, located) == PastValue(fits, size, ms, room, located)
    ensures WalkKey(fits, size, RESULT, d, found) == Expected(fits, size, ms, k + |ms.before| + |Quote(ms.key)|, found)
  {
    assert RESULT != ERROR;
  }

  lemma AtOther(fits: string -> bool, size: nat, ms: Members, k: nat, d: Decoder, found: Analysis)
    requires ms.Member? && Units(ms.key) != RESULT
    requires WalkPast(fits, size, d, found) == PastValue(fits, size, ms, k - |ms.gap| - 1 - |ms.lead|, found)
    ensures WalkKey(fits, size, Units(ms.key), d, found) ==
            Expected(fits, size, ms, k + |ms.before| + |Quote(ms.key)|, found)
  {
  }

  lemma NoValueYet(fits: string -> bool, size: nat, ms: Members, k: nat, d: Decoder, found: Analysis)
    requires ms.Member? && k - |ms.gap| - 1 - |ms.lead| <= 0 < |Print(ms.value)|
    requires ValueInput(d.rest) == "" && WalkPast(fits, size, d, found) == Finish(found)
    ensures WalkKey(fits, size, Units(ms.key), d, found) ==
            Expected(fits, size, ms, k + |ms.before| + |Quote(ms.key)|, found)
  {
  }

  // The value's input as `resultValueStart` finds it, and the byte count over it.
  lemma InputAfterKey(ms: Members, trail: string, k: nat)
    requires ms.Member? && ValidMembers(ms) && k <= |FromKey(ms, trail)|
    ensures |Print(ms.value)| > 0
    ensures var room := k - |ms.gap| - 1 - |ms.lead|;
            var input := ValueInput(FromKey(ms, trail)[..k]);
            if room <= 0 then input == ""
            else
              && |input| == room
              && input[0] == Print(ms.value)[0]
              && Scan(Prime(input[0]), input).Ended? == EndInSight(ms.value, room)
  {
    var t := MembersTail(ms.after, ms.more) + trail;
    var room := k - |ms.gap| - 1 - |ms.lead|;
    TailOfMembers(ms.after, ms.more, trail);
    ValueEnds(ms.value, "");
    ValueFirst(ms.value, t);
    CutInput(ms.gap, ms.lead, Print(ms.value) + t, k);
    if room > 0 {
      ScanCut(ms.value, t, room);
    }
  }

  lemma {:induction false} WalkSkip(fits: string -> bool, size: nat, ms: Members, trail: string, k: nat, d: Decoder,
                                    found: Analysis)
    requires ms.Member? && ValidMembers(ms) && |ms.gap| + 1 + |ms.lead| < k <= |FromKey(ms, trail)|
    requires d == Decoder(FromKey(ms, trail)[..k], ObjectColon, [TopValue])
    ensures WalkPast(fits, size, d, found) == PastValue(fits, size, ms, k - |ms.gap| - 1 - |ms.lead|, found)
    decreases ms, 0, 0
  {
    var t := MembersTail(ms.after, ms.more) + trail;
    var left := k - |ms.gap| - 1 - |ms.lead| - |Print(ms.value)|;
    TailOfMembers(ms.after, ms.more, trail);
    PastIs(fits, size, ms.gap, ms.lead, ms.value, t, k, d, found);
    if left >= 0 {
      WalkTail(fits, size, ms.after, ms.more, trail, left, Decoder(t[..left], ObjectComma, [TopValue]), found);
    }
  }

  lemma PastIs(fits: string -> bool, size: nat, gap: string, lead: string, v: Value, t: string, k: nat, d: Decoder,
               found: Analysis)
    requires Blank(gap) && Blank(lead) && Valid(v) && Follows(t)
    requires |gap| + 1 + |lead| < k <= |gap| + 1 + |lead| + |Print(v)| + |t|
    requires d == Decoder((gap + (":" + (lead + (Print(v) + t))))[..k], ObjectColon, [TopValue])
    ensures var left := k - |gap| - 1 - |lead| - |Print(v)|;
            WalkPast(fits, size, d, found) ==
            if left >= 0 && Decodes(fits, v) then Walk(fits, size, Decoder(t[..left], ObjectComma, [TopValue]), found)
            else Finish(found)
  {
    SkipAfterKey(fits, gap, lead, v, t, k, d);
    if SkipNext(fits, d).Skipped? && SkipNext(fits, d).next.rest == "" {
      NoKeyAhead(fits, size, SkipNext(fits, d).next, found);
    }
  }

  lemma {:induction false} WalkTail(fits: string -> bool, size: nat, after: string, more: Members, trail: string,
                                    k: nat, d: Decoder, found: Analysis)
    requires Blank(after) && ValidMembers(more) && k <= |MembersTail(after, more) + trail|
    requires d == Decoder((MembersTail(after, more) + trail)[..k], ObjectComma, [TopValue])
    ensures Walk(fits, size, d, found) == Expected(fits, size, more, k - |after| - 1, found)
    decreases more, 2
  {
    var text := MembersTail(after, more) + trail;
    TailOfMembers(after, more, trail);
    if more.NoMembers? {
      assert text == after + "}" + trail;
      CloseAhead(after, trail, k);
      NoKeyAhead(fits, size, d, found);
    } else if k <= |after| {
      assert text[..k] == after[..k] + "";
      SkipBlank(after[..k], "");
      NoKeyAhead(fits, size, d, found);
    } else {
      var x := (PrintMembers("", more) + trail)[..k - |after| - 1];
      CommaCut(after, PrintMembers("", more), trail, k);
      var e := Decoder(x, ObjectKey, [TopValue]);
      TokenComma(fits, after, x, ObjectComma, [TopValue]);
      WalkMembers(fits, size, "", more, trail, k - |after| - 1, e, found);
      FirstQuote(more, trail, k - |after| - 1);
      WalkSame(fits, size, d, e, found);
    }
  }

  lemma CommaCut(after: string, more: string, trail: string, k: nat)
    requires |after| < k <= |after + ("," + more) + trail|
    ensures (after + ("," + more) + trail)[..k] == after + ("," + (more + trail)[..k - |after| - 1])
  {
    Common.Assoc(after, "," + more, trail);
    Common.Assoc(",", more, trail);
  }

  lemma WalkSame(fits: string -> bool, size: nat, d: Decoder, e: Decoder, found: Analysis)
    requires More(d) && Token(fits, d) == Token(fits, e)
    requires SkipSpace(e.rest) == "" || More(e)
    ensures Walk(fits, size, d, found) == Walk(fits, size, e, found)
  {}

  lemma FirstQuote(ms: Members, trail: string, k: nat)
    requires ms.Member? && ValidMembers(ms) && k <= |PrintMembers("", ms) + trail|
    ensures var s := SkipSpace((PrintMembers("", ms) + trail)[..k]); s == "" || s[0] == '"'
  {
    var text := PrintMembers("", ms) + trail;
    var x := Quote(ms.key) + (ms.gap + (":" + (ms.lead + (Print(ms.value) + MembersTail(ms.after, ms.more))))) + trail;
    assert text == ms.before + x;
    if k <= |ms.before| {
      assert text[..k] == ms.before[..k] + "";
      SkipBlank(ms.before[..k], "");
    } else {
      assert text[..k] == ms.before + x[..k - |ms.before|];
      SkipBlank(ms.before, x[..k - |ms.before|]);
    }
  }

  lemma AnalyzeEnvelope(fits: string -> bool, e: Response, n: nat)
    requires e.Valid() && n <= |e.Text()|
    ensures Analyze(fits, e.Text()[..n]) ==
            if n < e.Base() then NOT_FOUND else Expected(fits, n, e.members, n - e.Base(), NOT_FOUND)
  {
    var buf := e.Text()[..n];
    var d := Decoder(buf, TopValue, []);
    if n <= |e.lead| {
      assert buf == e.lead[..n] + "";
      SkipBlank(e.lead[..n], "");
    } else {
      var x := (PrintMembers(e.pad, e.members) + e.trail)[..n - e.Base()];
      assert buf == e.lead + ("{" + x);
      TokenBlank(fits, e.lead, "{" + x, TopValue, []);
      TokenOpen(fits, '{', x, TopValue, []);
      assert [] + [TopValue] == [TopValue];
      WalkMembers(fits, n, e.pad, e.members, e.trail, n - e.Base(), Decoder(x, ObjectStart, [TopValue]), NOT_FOUND);
    }
  }

  // ---- what the analysis means ----

  // The walk reaches the i-th key: the whole key is in the first `room` bytes of
  // the members and no number before it is too large for the decoder.
  ghost predicate Reads(fits: string -> bool, ms: Members, room: int, i: nat) {
    && i < Count(ms)
    && KeyEnd(ms, i) <= room
    && forall j | 0 <= j < i :: Decodes(fits, ValueOf(ms, j))
  }

  // An "error" key, or a "result" key whose value has not started.
  ghost predicate Blocks(fits: string -> bool, ms: Members, room: int, i: nat) {
    && Reads(fits, ms, room, i)
    && (KeyOf(ms, i) == ERROR || (KeyOf(ms, i) == RESULT && room <= ValueStart(ms, i)))
  }

  ghost predicate ReadsResult(fits: string -> bool, ms: Members, room: int, i: nat) {
    Reads(fits, ms, room, i) && KeyOf(ms, i) == RESULT
  }

  ghost predicate LastResult(fits: string -> bool, ms: Members, room: int, i: nat) {
    && ReadsResult(fits, ms, room, i)
    && forall j | i < j < Count(ms) :: !ReadsResult(fits, ms, room, j)
  }

  ghost function Located(size: int, ms: Members, room: int, i: nat): Analysis
    requires i < Count(ms) && Print(ValueOf(ms, i)) != ""
  {
    Analysis(true, size - (room - ValueStart(ms, i)), Prime(Print(ValueOf(ms, i))[0]))
  }

  // How much of `room` the first member and its comma take.
  function Taken(ms: Members): nat
    requires ms.Member?
  {
    |ms.before| + |Quote(ms.key)| + |ms.gap| + 1 + |ms.lead| + |Print(ms.value)| + |ms.after| + 1
  }

  lemma ReadsNext(fits: string -> bool, ms: Members, room: int, i: nat)
    requires ms.Member?
    ensures Reads(fits, ms, room, i + 1) <==> Decodes(fits, ms.value) && Reads(fits, ms.more, room - Taken(ms), i)
    ensures i < Count(ms.more) ==>
              && KeyOf(ms, i + 1) == KeyOf(ms.more, i)
              && ValueOf(ms, i + 1) == ValueOf(ms.more, i)
              && ValueStart(ms, i + 1) == Taken(ms) + ValueStart(ms.more, i)
  {
    if i < Count(ms.more) {
      assert Nth(ms, i + 1) == Nth(ms.more, i);
      assert KeyEnd(ms, i + 1) == Taken(ms) + KeyEnd(ms.more, i);
      if Reads(fits, ms, room, i + 1) {
        assert Decodes(fits, ValueOf(ms, 0));
        forall j | 0 <= j < i ensures Decodes(fits, ValueOf(ms.more, j)) {
          assert ValueOf(ms, j + 1) == ValueOf(ms.more, j);
        }
      }
      if Decodes(fits, ms.value) && Reads(fits, ms.more, room - Taken(ms), i) {
        forall j | 0 <= j < i + 1 ensures Decodes(fits, ValueOf(ms, j)) {
          if j > 0 {
            assert ValueOf(ms, j) == ValueOf(ms.more, j - 1);
          }
        }
      }
    }
  }

  ghost predicate AnyBlocks(fits: string -> bool, ms: Members, room: int) {
    exists i :: Blocks(fits, ms, room, i)
  }

  ghost predicate AnyResult(fits: string -> bool, ms: Members, room: int) {
    exists i :: ReadsResult(fits, ms, room, i)
  }

  lemma ResultNext(fits: string -> bool, ms: Members, room: int, i: nat)
    requires ms.Member?
    ensures ReadsResult(fits, ms, room, i + 1) <==>
            Decodes(fits, ms.value) && ReadsResult(fits, ms.more, room - Taken(ms), i)
  {
    ReadsNext(fits, ms, room, i);
  }

  lemma BlocksNext(fits: string -> bool, ms: Members, room: int, i: nat)
    requires ms.Member?
    ensures Blocks(fits, ms, room, i + 1) <==> Decodes(fits, ms.value) && Blocks(fits, ms.more, room - Taken(ms), i)
  {
    ReadsNext(fits, ms, room, i);
  }

  // The first member's part of the two questions above, and the rest's.
  lemma AnyBlocksStep(fits: string -> bool, ms: Members, room: int)
    requires ms.Member?
    ensures AnyBlocks(fits, ms, room) <==>
            Blocks(fits, ms, room, 0) || (Decodes(fits, ms.value) && AnyBlocks(fits, ms.more, room - Taken(ms)))
  {
    if Decodes(fits, ms.value) && AnyBlocks(fits, ms.more, room - Taken(ms)) {
      var i: nat :| Blocks(fits, ms.more, room - Taken(ms), i);
      BlocksNext(fits, ms, room, i);
    }
    if AnyBlocks(fits, ms, room) && !Blocks(fits, ms, room, 0) {
      var i: nat :| Blocks(fits, ms, room, i);
      BlocksNext(fits, ms, room, i - 1);
    }
  }

  lemma AnyResultStep(fits: string -> bool, ms: Members, room: int)
    requires ms.Member?
    ensures AnyResult(fits, ms, room) <==>
            ReadsResult(fits, ms, room, 0) || (Decodes(fits, ms.value) && AnyResult(fits, ms.more, room - Taken(ms)))
  {
    if Decodes(fits, ms.value) && AnyResult(fits, ms.more, room - Taken(ms)) {
      var i: nat :| ReadsResult(fits, ms.more, room - Taken(ms), i);
      ResultNext(fits, ms, room, i);
    }
    if AnyResult(fits, ms, room) && !ReadsResult(fits, ms, room, 0) {
      var i: nat :| ReadsResult(fits, ms, room, i);
      ResultNext(fits, ms, room, i - 1);
    }
  }

  lemma AnyStep(fits: string -> bool, ms: Members, room: int)
    requires ms.Member?
    ensures AnyBlocks(fits, ms, room) <==>
            Blocks(fits, ms, room, 0) || (Decodes(fits, ms.value) && AnyBlocks(fits, ms.more, room - Taken(ms)))
    ensures AnyResult(fits, ms, room) <==>
            ReadsResult(fits, ms, room, 0) || (Decodes(fits, ms.value) && AnyResult(fits, ms.more, room - Taken(ms)))
  {
    AnyBlocksStep(fits, ms, room);
    AnyResultStep(fits, ms, room);
  }

  lemma NothingFarther(fits: string -> bool, ms: Members, room: int)
    requires room < 0
    ensures !AnyBlocks(fits, ms, room) && !AnyResult(fits, ms, room)
  {}

  lemma NoneLater(fits: string -> bool, ms: Members, room: int, i: nat, j: nat)
    requires ms.Member? && LastResult(fits, ms.more, room - Taken(ms), i) && i < j < Count(ms.more)
    ensures !ReadsResult(fits, ms, room, j + 1)
  {
    assert !ReadsResult(fits, ms.more, room - Taken(ms), j);
    ResultNext(fits, ms, room, j);
  }

  lemma LastStep(fits: string -> bool, ms: Members, room: int, i: nat)
    requires ms.Member? && Decodes(fits, ms.value) && LastResult(fits, ms.more, room - Taken(ms), i)
    ensures LastResult(fits, ms, room, i + 1)
  {
    ResultNext(fits, ms, room, i);
    forall j | i + 1 < j < Count(ms) ensures !ReadsResult(fits, ms, room, j) {
      NoneLater(fits, ms, room, i, j - 1);
    }
  }

  lemma FirstIsLast(fits: string -> bool, ms: Members, room: int)
    requires ms.Member? && ReadsResult(fits, ms, room, 0)
    requires !(Decodes(fits, ms.value) && AnyResult(fits, ms.more, room - Taken(ms)))
    ensures LastResult(fits, ms, room, 0)
  {
    forall j | 0 < j < Count(ms) ensures !ReadsResult(fits, ms, room, j) {
      ResultNext(fits, ms, room, j - 1);
    }
  }

  // `Expected` without its recursion.
  ghost predicate Meaning(fits: string -> bool, size: int, ms: Members, room: int, found: Analysis, res: Analysis) {
    && (AnyBlocks(fits, ms, room) ==> res == NOT_FOUND)
    && (!AnyBlocks(fits, ms, room) && !AnyResult(fits, ms, room) ==> res == Finish(found))
    && (!AnyBlocks(fits, ms, room) && AnyResult(fits, ms, room) ==>
          exists i :: LastResult(fits, ms, room, i) && Print(ValueOf(ms, i)) != "" && res == Located(size, ms, room, i))
  }

  lemma MeaningNext(fits: string -> bool, size: int, ms: Members, room: int, found: Analysis, res: Analysis)
    requires ms.Member? && Decodes(fits, ms.value) && !Blocks(fits, ms, room, 0) && !ReadsResult(fits, ms, room, 0)
    requires Meaning(fits, size, ms.more, room - Taken(ms), found, res)
    ensures Meaning(fits, size, ms, room, found, res)
  {
    AnyStep(fits, ms, room);
    if !AnyBlocks(fits, ms, room) && AnyResult(fits, ms, room) {
      MeaningShift(fits, size, ms, room, found, res);
    }
  }

  lemma MeaningShift(fits: string -> bool, size: int, ms: Members, room: int, found: Analysis, res: Analysis)
    requires ms.Member? && Decodes(fits, ms.value)
    requires Meaning(fits, size, ms.more, room - Taken(ms), found, res)
    requires !AnyBlocks(fits, ms.more, room - Taken(ms)) && AnyResult(fits, ms.more, room - Taken(ms))
    ensures exists i ::
              LastResult(fits, ms, room, i) && Print(ValueOf(ms, i)) != "" && res == Located(size, ms, room, i)
  {
    var i: nat :| LastResult(fits, ms.more, room - Taken(ms), i) && Print(ValueOf(ms.more, i)) != "" &&
             res == Located(size, ms.more, room - Taken(ms), i);
    LastStep(fits, ms, room, i);
    ReadsNext(fits, ms, room, i);
    assert res == Located(size, ms, room, i + 1);
  }

  lemma MeaningStop(fits: string -> bool, size: int, ms: Members, room: int, found: Analysis)
    requires ms.Member? && !Blocks(fits, ms, room, 0) && !ReadsResult(fits, ms, room, 0)
    requires !Decodes(fits, ms.value) || room < Taken(ms)
    ensures Meaning(fits, size, ms, room, found, Finish(found))
  {
    AnyStep(fits, ms, room);
    if room < Taken(ms) {
      NothingFarther(fits, ms.more, room - Taken(ms));
    }
  }

  // The first member is the "result" and its value has started.
  lemma MeaningResult(fits: string -> bool, size: int, ms: Members, room: int, found: Analysis, res: Analysis)
    requires ms.Member? && ReadsResult(fits, ms, room, 0) && !Blocks(fits, ms, room, 0) && Print(ms.value) != ""
    requires room < Taken(ms) || !Decodes(fits, ms.value) ==> res == Located(size, ms, room, 0)
    requires room >= Taken(ms) && Decodes(fits, ms.value) ==>
               exists at: Analysis :: Finish(at) == Located(size, ms, room, 0)
                   && Meaning(fits, size, ms.more, room - Taken(ms), at, res)
    ensures Meaning(fits, size, ms, room, found, res)
  {
    AnyStep(fits, ms, room);
    if room < Taken(ms) || !Decodes(fits, ms.value) {
      if room < Taken(ms) {
        NothingFarther(fits, ms.more, room - Taken(ms));
      }
      FirstIsLast(fits, ms, room);
      assert LastResult(fits, ms, room, 0);
    } else {
      var at: Analysis :| Finish(at) == Located(size, ms, room, 0)
          && Meaning(fits, size, ms.more, room - Taken(ms), at, res);
      if !AnyBlocks(fits, ms, room) {
        if AnyResult(fits, ms.more, room - Taken(ms)) {
          MeaningShift(fits, size, ms, room, at, res);
        } else {
          FirstIsLast(fits, ms, room);
          assert LastResult(fits, ms, room, 0);
        }
      }
    }
  }

  // A started "result" value: what the members behind it mean is what it means.
  lemma MeansAtResult(fits: string -> bool, size: nat, ms: Members, room: int, found: Analysis, located: Analysis)
    requires ms.Member? && ValidMembers(ms) && KeyEnd(ms, 0) <= room <= size
    requires !Blocks(fits, ms, room, 0) && Units(ms.key) == RESULT && Print(ms.value) != ""
    requires located == Analysis(false, size - (room - ValueStart(ms, 0)), Prime(Print(ms.value)[0]))
    requires Meaning(fits, size, ms.more, room - Taken(ms), located,
                     Expected(fits, size, ms.more, room - Taken(ms), located))
    ensures Meaning(fits, size, ms, room, found, Expected(fits, size, ms, room, found))
  {
    assert Finish(located) == Located(size, ms, room, 0);
    ExpectedEarly(fits, size, ms.more, room - Taken(ms), located);
    MeaningResult(fits, size, ms, room, found, Expected(fits, size, ms, room, found));
  }

  lemma HasText(v: Value)
    requires Valid(v)
    ensures Print(v) != ""
  {
    ValueEnds(v, "");
  }

  lemma MeansBlocked(fits: string -> bool, size: nat, ms: Members, room: int, found: Analysis)
    requires ms.Member? && ValidMembers(ms) && Blocks(fits, ms, room, 0)
    ensures Meaning(fits, size, ms, room, found, Expected(fits, size, ms, room, found))
  {
    assert AnyBlocks(fits, ms, room);
  }

  // A member with another key.
  lemma MeansAtOther(fits: string -> bool, size: nat, ms: Members, room: int, found: Analysis)
    requires ms.Member? && ValidMembers(ms) && KeyEnd(ms, 0) <= room <= size
    requires !Blocks(fits, ms, room, 0) && Units(ms.key) != RESULT
    requires Meaning(fits, size, ms.more, room - Taken(ms), found,
                     Expected(fits, size, ms.more, room - Taken(ms), found))
    ensures Meaning(fits, size, ms, room, found, Expected(fits, size, ms, room, found))
  {
    ExpectedEarly(fits, size, ms.more, room - Taken(ms), found);
    if room >= Taken(ms) && Decodes(fits, ms.value) {
      MeaningNext(fits, size, ms, room, found, Expected(fits, size, ms, room, found));
    } else {
      MeaningStop(fits, size, ms, room, found);
    }
  }

  // A member whose key is cut off.
  lemma MeansCut(fits: string -> bool, size: nat, ms: Members, room: int, found: Analysis)
    requires ms.Member? && ValidMembers(ms) && room < KeyEnd(ms, 0)
    ensures Meaning(fits, size, ms, room, found, Expected(fits, size, ms, room, found))
  {
    AnyStep(fits, ms, room);
    NothingFarther(fits, ms.more, room - Taken(ms));
  }

  lemma {:induction false} ExpectedMeans(fits: string -> bool, size: nat, ms: Members, room: int, found: Analysis)
    requires ValidMembers(ms) && room <= size
    ensures Meaning(fits, size, ms, room, found, Expected(fits, size, ms, room, found))
    decreases ms
  {
    if ms.Member? {
      HasText(ms.value);
      if room < KeyEnd(ms, 0) {
        MeansCut(fits, size, ms, room, found);
      } else if Blocks(fits, ms, room, 0) {
        MeansBlocked(fits, size, ms, room, found);
      } else if Units(ms.key) == RESULT {
        var located := Analysis(false, size - (room - ValueStart(ms, 0)), Prime(Print(ms.value)[0]));
        ExpectedMeans(fits, size, ms.more, room - Taken(ms), located);
        MeansAtResult(fits, size, ms, room, found, located);
      } else {
        ExpectedMeans(fits, size, ms.more, room - Taken(ms), found);
        MeansAtOther(fits, size, ms, room, found);
      }
    }
  }

  lemma ExpectedEarly(fits: string -> bool, size: int, ms: Members, room: int, found: Analysis)
    ensures room < 0 ==> Expected(fits, size, ms, room, found) == Finish(found)
  {}

  // The response is streamed exactly when the walk reads a "result" key, no
  // "error" key, and every "result" key it reads is followed by its value; the
  // offset is then where the last such value starts, and the counter is primed for it.
  lemma AnalysisMeans(fits: string -> bool, e: Response, n: nat)
    requires e.Valid() && n <= |e.Text()|
    ensures var a := Analyze(fits, e.Text()[..n]);
            var room := n - e.Base();
            && (a.streamable <==> AnyResult(fits, e.members, room) && !AnyBlocks(fits, e.members, room))
            && (!a.streamable ==> a == NOT_FOUND)
            && (a.streamable ==> exists i :: Locates(fits, e, n, a, i))
  {
    var room := n - e.Base();
    AnalyzeEnvelope(fits, e, n);
    if n < e.Base() {
      NothingFarther(fits, e.members, room);
    } else {
      ExpectedMeans(fits, n, e.members, room, NOT_FOUND);
      if AnyResult(fits, e.members, room) && !AnyBlocks(fits, e.members, room) {
        var a := Analyze(fits, e.Text()[..n]);
        var i: nat :| LastResult(fits, e.members, room, i) && Print(ValueOf(e.members, i)) != ""
            && a == Located(n, e.members, room, i);
        StartsInside(fits, e.members, room, i);
        assert Locates(fits, e, n, a, i);
      }
    }
  }

  // The analysis of the first n bytes points at the value of the i-th member.
  ghost predicate Locates(fits: string -> bool, e: Response, n: nat, a: Analysis, i: nat) {
    && LastResult(fits, e.members, n - e.Base(), i) && Print(ValueOf(e.members, i)) != ""
    && e.Base() + ValueStart(e.members, i) < n
    && a == Analysis(true, e.Base() + ValueStart(e.members, i), Prime(Print(ValueOf(e.members, i))[0]))
  }

  // Nothing blocks the walk, so the value of a "result" it reads has started.
  lemma StartsInside(fits: string -> bool, ms: Members, room: int, i: nat)
    requires LastResult(fits, ms, room, i) && !AnyBlocks(fits, ms, room)
    ensures ValueStart(ms, i) < room
  {
    assert !Blocks(fits, ms, room, i);
  }

  lemma LastUnique(fits: string -> bool, ms: Members, room: int, i: nat, j: nat)
    requires LastResult(fits, ms, room, i) && LastResult(fits, ms, room, j)
    ensures i == j
  {
  }

  // A located value is that of the last "result" the walk reads.
  lemma LastIsLocated(fits: string -> bool, e: Response, n: nat, a: Analysis, i: nat)
    requires LastResult(fits, e.members, n - e.Base(), i) && exists j :: Locates(fits, e, n, a, j)
    ensures a.resultStart == e.Base() + ValueStart(e.members, i)
  {
    var j: nat :| Locates(fits, e, n, a, j);
    LastUnique(fits, e.members, n - e.Base(), i, j);
  }

  // "No complete envelope-level error key lies in the prefix": true unless a
  // number before that key is one the decoder cannot hold.
  lemma StreamedErrorIsHidden(fits: string -> bool, e: Response, n: nat, j: nat)
    requires e.Valid() && n <= |e.Text()| && j < Count(e.members)
    requires KeyOf(e.members, j) == ERROR && e.Base() + KeyEnd(e.members, j) <= n
    requires Analyze(fits, e.Text()[..n]).streamable
    ensures exists i :: 0 <= i < j && !Decodes(fits, ValueOf(e.members, i))
  {
    AnalysisMeans(fits, e, n);
    assert !Blocks(fits, e.members, n - e.Base(), j);
  }

  // Such a number does hide every "error" key after it: the first value k that the
  // decoder cannot hold ends the walk, and the response is streamed if a "result"
  // up to there has started, whatever follows.
  lemma HugeNumberHides(fits: string -> bool, e: Response, n: nat, r: nat, k: nat)
    requires e.Valid() && n <= |e.Text()| && r <= k < Count(e.members)
    requires !Decodes(fits, ValueOf(e.members, k)) && forall j | 0 <= j < k :: Decodes(fits, ValueOf(e.members, j))
    requires KeyOf(e.members, r) == RESULT && e.Base() + KeyEnd(e.members, r) <= n
    requires forall j | 0 <= j <= k && e.Base() + KeyEnd(e.members, j) <= n ::
               && KeyOf(e.members, j) != ERROR
               && (KeyOf(e.members, j) == RESULT ==> e.Base() + ValueStart(e.members, j) < n)
    ensures Analyze(fits, e.Text()[..n]).streamable
  {
    var ms, room := e.members, n - e.Base();
    assert ReadsResult(fits, ms, room, r);
    assert forall i: nat | Reads(fits, ms, room, i) :: i <= k;
    assert forall i: nat :: !Blocks(fits, ms, room, i);
    AnalysisMeans(fits, e, n);
  }

  // ---- plain keys ----

  function Letters(s: string): seq<Piece> {
    seq(|s|, i requires 0 <= i < |s| => Plain(s[i]))
  }

  lemma {:induction false} LettersUnits(s: string)
    ensures Units(Letters(s)) == Ascii(s)
    ensures |Quote(Letters(s))| == |s| + 2
  {
    if s != "" {
      LettersUnits(s[1..]);
      assert Letters(s)[1..] == Letters(s[1..]);
      assert Ascii(s)[1..] == Ascii(s[1..]);
      assert Ascii(s) == [s[0] as int] + Ascii(s)[1..];
    }
  }

  // The byte count and the decoder agree on where a value that both get through ends.
  lemma SkipsAgree(fits: string -> bool, v: Value, tail: string, d: Decoder)
    requires Valid(v) && Follows(tail) && ValueAllowed(d.state) && d.rest == Print(v) + tail
    ensures |d.rest| > 0
    ensures var bytes, tokens := Scan(Prime(d.rest[0]), d.rest), SkipNext(fits, d);
            && (bytes.Ended? && tokens.Skipped? ==> tokens.next.rest == d.rest[bytes.at..])
            && (bytes.Ended? <==> EndInSight(v, |d.rest|))
            && (tokens.Skipped? <==> Decodes(fits, v))
  {
    ValueEnds(v, tail);
    SkipValue(fits, v, tail, d.state, d.stack);
    assert d.rest[|Print(v)|..] == tail;
  }
}
