/**
 The token decoder accepts nothing but JSON: wherever `skipNextValue` succeeds it
 has read one value of RFC 8259, with numbers that a float64 can hold.
 */
module DecoderSoundness {
  import Common
  import opened JsonGrammar
  import opened JsonDecoder

  lemma {:induction false} SpaceFound(s: string) returns (ws: string)
    ensures Blank(ws) && s == ws + SkipSpace(s)
  {
    ws := "";
    if s != "" && IsSpace(s[0]) {
      var more := SpaceFound(s[1..]);
      ws := [s[0]] + more;
    }
  }

  // ---- strings ----

  lemma {:induction false} StringFound(s: string) returns (ps: seq<Piece>)
    requires LexString(s).Lexed?
    ensures ValidPieces(ps) && Units(ps) == LexString(s).units
    ensures s == Body(ps) + ("\"" + LexString(s).rest)
  {
    if s[0] == '"' {
      return [];
    }
    var p := if s[0] != '\\' then Plain(s[0])
             else if IsEscape(s[1]) then Escape(s[1])
             else Piece.Unicode(s[2], s[3], s[4], s[5]);
    var n := |p.Text()|;
    assert s == p.Text() + s[n..];
    var more := StringFound(s[n..]);
    ps := [p] + more;
    assert ps[1..] == more;
    Common.Assoc(p.Text(), Body(more), "\"" + LexString(s).rest);
  }

  lemma QuotedFound(s: string) returns (ps: seq<Piece>)
    requires s != "" && s[0] == '"' && LexString(s[1..]).Lexed?
    ensures ValidPieces(ps) && Units(ps) == LexString(s[1..]).units && s == Quote(ps) + LexString(s[1..]).rest
  {
    ps := StringFound(s[1..]);
    KeyText(ps, LexString(s[1..]).rest);
    assert s == "\"" + s[1..];
  }

  // ---- numbers ----

  lemma {:induction false} DigitsFound(st: NumberState, s: string) returns (ds: string, t: string)
    requires st.Int? || st.Frac? || st.Exp?
    ensures s == ds + t && Digits(ds) && (t == "" || !IsDigit(t[0])) && LexNumber(st, s) == LexNumber(st, t)
  {
    if s == "" || !IsDigit(s[0]) {
      return "", s;
    }
    var more;
    more, t := DigitsFound(st, s[1..]);
    ds := [s[0]] + more;
  }

  lemma ExponentDigits(st: NumberState, s: string) returns (exp: string)
    requires (st.E? || st.ESign?) && s != "" && IsDigit(s[0]) && LexNumber(st, s).Rest?
    ensures exp != "" && Digits(exp) && s == exp + LexNumber(st, s).rest
  {
    var ds, t := DigitsFound(Exp, s[1..]);
    exp := [s[0]] + ds;
  }

  lemma ExponentFound(s: string) returns (sign: string, exp: string)
    requires LexNumber(E, s).Rest?
    ensures (sign == "" || sign == "+" || sign == "-") && exp != "" && Digits(exp)
    ensures s == sign + (exp + LexNumber(E, s).rest)
  {
    if s[0] == '+' || s[0] == '-' {
      sign := [s[0]];
      exp := ExponentDigits(ESign, s[1..]);
    } else {
      sign := "";
      exp := ExponentDigits(E, s);
    }
  }

  // What follows the digits before and after the point.
  lemma EndFound(st: NumberState, s: string) returns (mark: char, sign: string, exp: string)
    requires (st.Zero? || st.Int? || st.Frac?) && LexNumber(st, s).Rest?
    requires s == "" || ((st.Zero? || !IsDigit(s[0])) && (st.Frac? || s[0] != '.'))
    ensures (mark == 'e' || mark == 'E') && (sign == "" || sign == "+" || sign == "-") && Digits(exp)
    ensures s == ExpText(mark, sign, exp) + LexNumber(st, s).rest
  {
    if s != "" && (s[0] == 'e' || s[0] == 'E') {
      mark := s[0];
      sign, exp := ExponentFound(s[1..]);
      ExpParts(mark, sign, exp, LexNumber(st, s).rest);
      assert s == [mark] + s[1..];
    } else {
      mark, sign, exp := 'e', "", "";
    }
  }

  lemma FractionFound(st: NumberState, s: string) returns (frac: string, mark: char, sign: string, exp: string)
    requires (st.Zero? || st.Int?) && LexNumber(st, s).Rest? && (st.Zero? || s == "" || !IsDigit(s[0]))
    ensures (mark == 'e' || mark == 'E') && (sign == "" || sign == "+" || sign == "-") && Digits(frac) && Digits(exp)
    ensures s == FracText(frac) + (ExpText(mark, sign, exp) + LexNumber(st, s).rest)
  {
    if s != "" && s[0] == '.' {
      var t;
      frac, t := PointFound(st, s);
      mark, sign, exp := EndFound(Frac, t);
    } else {
      frac := "";
      mark, sign, exp := EndFound(st, s);
    }
  }

  lemma PointFound(st: NumberState, s: string) returns (frac: string, t: string)
    requires (st.Zero? || st.Int?) && LexNumber(st, s).Rest? && s != "" && s[0] == '.'
    ensures frac != "" && Digits(frac) && s == FracText(frac) + t && (t == "" || !IsDigit(t[0]))
    ensures LexNumber(Frac, t) == LexNumber(st, s)
  {
    var u := s[1..];
    assert LexNumber(st, s) == LexNumber(Dot, u);
    assert u != "" && IsDigit(u[0]) && LexNumber(Dot, u) == LexNumber(Frac, u[1..]);
    var ds;
    ds, t := DigitsFound(Frac, u[1..]);
    frac := [u[0]] + ds;
    assert u == [u[0]] + u[1..] && s == "." + u;
  }

  lemma WholeFound(st: NumberState, s: string) returns (a: Scalar)
    requires (st.Start? || st.Neg?) && s != "" && IsDigit(s[0]) && LexNumber(st, s).Rest?
    ensures a.Number? && !a.neg && a.Valid() && s == Unsigned(a, LexNumber(st, s).rest)
  {
    var ds, t := "", s[1..];
    if s[0] != '0' {
      ds, t := DigitsFound(Int, s[1..]);
    }
    assert s == [s[0]] + ds + t;
    var frac, mark, sign, exp := FractionFound(if s[0] == '0' then Zero else Int, t);
    a := Number(false, [s[0]] + ds, frac, mark, sign, exp);
  }

  lemma NumberFound(s: string) returns (a: Scalar)
    requires LexNumber(Start, s).Rest?
    ensures a.Number? && a.Valid() && s == a.Text() + LexNumber(Start, s).rest
  {
    var rest := LexNumber(Start, s).rest;
    if s[0] == '-' {
      var b := WholeFound(Neg, s[1..]);
      a := b.(neg := true);
      assert s == "-" + s[1..];
    } else {
      a := WholeFound(Start, s);
    }
    NumberParts(a, rest);
  }

  lemma ScalarFound(fits: string -> bool, s: string) returns (a: Scalar)
    requires LexScalar(fits, s).Rest?
    ensures a.Valid() && ScalarDecodes(fits, a) && s == a.Text() + LexScalar(fits, s).rest
  {
    if s[0] == 't' || s[0] == 'f' || s[0] == 'n' {
      a := Literal(if s[0] == 't' then "true" else if s[0] == 'f' then "false" else "null");
    } else {
      a := NumberFound(s);
      assert s[..|s| - |LexScalar(fits, s).rest|] == a.Text();
    }
  }

  // ---- values ----

  // The decoder has read exactly the value: what was read, what is left, and the state.
  ghost predicate Read(fits: string -> bool, d: Decoder, ws: string, v: Value, n: Decoder) {
    && Blank(ws) && Valid(v) && Decodes(fits, v)
    && d.rest == ws + (Print(v) + n.rest) && n == Decoder(n.rest, ValueEnd(d.state), d.stack)
  }

  lemma {:induction false} ValueFound(fits: string -> bool, d: Decoder) returns (ws: string, v: Value)
    requires ValueAllowed(d.state) && More(d) && SkipNext(fits, d).Skipped?
    ensures Read(fits, d, ws, v, SkipNext(fits, d).next)
    decreases |d.rest|, 0
  {
    var s := SkipSpace(d.rest);
    if s[0] == '[' {
      ws := SpaceFound(d.rest);
      var pad, items := ArrayFound(fits, Decoder(s[1..], ArrayStart, d.stack + [d.state]), d.state, d.stack);
      v := Arr(pad, items);
      Opened('[', s, PrintItems(pad, items), SkipNext(fits, d).next.rest);
    } else if s[0] == '{' {
      ws := SpaceFound(d.rest);
      var pad, members := ObjectFound(fits, Decoder(s[1..], ObjectStart, d.stack + [d.state]), d.state, d.stack);
      v := Obj(pad, members);
      Opened('{', s, PrintMembers(pad, members), SkipNext(fits, d).next.rest);
    } else if s[0] == '"' {
      ws, v := TextFound(fits, d, s, Token(fits, d));
    } else {
      ws, v := AtomFound(fits, d, s, Token(fits, d));
    }
  }

  lemma Opened(open: char, s: string, text: string, rest: string)
    requires s != "" && s[0] == open && s[1..] == text + rest
    ensures s == [open] + text + rest
  {
    assert s == [open] + s[1..];
  }

  lemma TextFound(fits: string -> bool, d: Decoder, s: string, r: TokenResult) returns (ws: string, v: Value)
    requires ValueAllowed(d.state) && s == SkipSpace(d.rest) && s != "" && s[0] == '"'
    requires r == TextToken(d, s[1..]) && r.Tok?
    ensures Read(fits, d, ws, v, r.next)
  {
    ws := SpaceFound(d.rest);
    var ps := QuotedFound(s);
    v := Str(ps);
  }

  lemma AtomFound(fits: string -> bool, d: Decoder, s: string, r: TokenResult) returns (ws: string, v: Value)
    requires ValueAllowed(d.state) && s == SkipSpace(d.rest) && r == ScalarToken(fits, d, s) && r.Tok?
    ensures Read(fits, d, ws, v, r.next)
  {
    ws := SpaceFound(d.rest);
    var a := ScalarFound(fits, s);
    v := Atom(a);
  }

  lemma CloseFound(fits: string -> bool, d: Decoder, close: char, st: TokenState, stack: seq<TokenState>)
    returns (ws: string)
    requires d.stack == stack + [st] && !More(d) && Token(fits, d).Tok?
    requires if close == ']' then d.state.ArrayStart? || d.state.ArrayComma?
             else close == '}' && (d.state.ObjectStart? || d.state.ObjectComma?)
    ensures var n := Token(fits, d).next; Blank(ws) && d.rest == ws + ([close] + n.rest)
                                          && n == Decoder(n.rest, ValueEnd(st), stack)
  {
    ws := SpaceFound(d.rest);
    var s := SkipSpace(d.rest);
    assert s == [close] + s[1..];
    assert d.stack[..|d.stack| - 1] == stack;
  }

  // ---- arrays ----

  lemma {:induction false} ArrayFound(fits: string -> bool, d: Decoder, st: TokenState, stack: seq<TokenState>)
    returns (pad: string, items: Items)
    requires d.state.ArrayStart? && d.stack == stack + [st] && SkipItems(fits, d).Skipped?
    ensures var n := SkipItems(fits, d).next;
            && Blank(pad) && ValidItems(items) && ItemsDecode(fits, items)
            && d.rest == PrintItems(pad, items) + n.rest && n == Decoder(n.rest, ValueEnd(st), stack)
    decreases |d.rest|, 2
  {
    if More(d) {
      pad := "";
      items := ItemFound(fits, d, st, stack);
    } else {
      items := NoItems;
      pad := CloseFound(fits, d, ']', st, stack);
    }
  }

  // An item and everything behind it.
  lemma {:induction false} ItemFound(fits: string -> bool, d: Decoder, st: TokenState, stack: seq<TokenState>)
    returns (items: Items)
    requires (d.state.ArrayStart? || d.state.ArrayValue?) && d.stack == stack + [st] && More(d)
    requires SkipNext(fits, d).Skipped? && SkipItems(fits, SkipNext(fits, d).next).Skipped?
    ensures var n := SkipItems(fits, SkipNext(fits, d).next).next;
            && items.Item? && ValidItems(items) && ItemsDecode(fits, items)
            && d.rest == PrintItems("", items) + n.rest && n == Decoder(n.rest, ValueEnd(st), stack)
    decreases |d.rest|, 1
  {
    var before, v := ValueFound(fits, d);
    var next := SkipNext(fits, d).next;
    var after, more := ItemsTailFound(fits, next, st, stack);
    items := Item(before, v, after, more);
    var rest := SkipItems(fits, next).next.rest;
    Common.Assoc(Print(v), ItemsTail(after, more), rest);
    Common.Assoc(before, Print(v) + ItemsTail(after, more), rest);
  }

  lemma {:induction false} ItemsTailFound(fits: string -> bool, d: Decoder, st: TokenState, stack: seq<TokenState>)
    returns (after: string, more: Items)
    requires d.state.ArrayComma? && d.stack == stack + [st] && SkipItems(fits, d).Skipped?
    ensures var n := SkipItems(fits, d).next;
            && Blank(after) && ValidItems(more) && ItemsDecode(fits, more)
            && d.rest == ItemsTail(after, more) + n.rest && n == Decoder(n.rest, ValueEnd(st), stack)
    decreases |d.rest|, 2
  {
    var rest := SkipItems(fits, d).next.rest;
    if More(d) {
      var e;
      after, e := MarkFound(fits, d);
      SkipSame(fits, d, e);
      more := ItemFound(fits, e, st, stack);
    } else {
      more := NoItems;
      after := CloseFound(fits, d, ']', st, stack);
    }
    TailOfItems(after, more, rest);
  }

  // ---- objects ----

  lemma {:induction false} ObjectFound(fits: string -> bool, d: Decoder, st: TokenState, stack: seq<TokenState>)
    returns (pad: string, members: Members)
    requires d.state.ObjectStart? && d.stack == stack + [st] && SkipMembers(fits, d).Skipped?
    ensures var n := SkipMembers(fits, d).next;
            && Blank(pad) && ValidMembers(members) && MembersDecode(fits, members)
            && d.rest == PrintMembers(pad, members) + n.rest && n == Decoder(n.rest, ValueEnd(st), stack)
    decreases |d.rest|, 3
  {
    if More(d) {
      pad := "";
      members := MemberFound(fits, d, st, stack);
    } else {
      members := NoMembers;
      pad := CloseFound(fits, d, '}', st, stack);
    }
  }

  // The token where a key is expected.
  lemma KeyFound(fits: string -> bool, d: Decoder) returns (before: string, key: seq<Piece>)
    requires (d.state.ObjectStart? || d.state.ObjectKey?) && More(d) && Token(fits, d).Tok?
    ensures var r := Token(fits, d);
            && Blank(before) && ValidPieces(key) && r.token == Text(Units(key))
            && d.rest == before + (Quote(key) + r.next.rest) && r.next == Decoder(r.next.rest, ObjectColon, d.stack)
  {
    before := SpaceFound(d.rest);
    key := QuotedFound(SkipSpace(d.rest));
  }

  // Behind a key only a colon is accepted, behind a member or an item only a comma, and
  // neither just before a closing bracket.
  lemma MarkFound(fits: string -> bool, d: Decoder) returns (ws: string, e: Decoder)
    requires d.state.ObjectColon? || ((d.state.ArrayComma? || d.state.ObjectComma?) && More(d))
    requires Token(fits, d).Tok?
    ensures Blank(ws) && d.rest == ws + ((if d.state.ObjectColon? then ":" else ",") + e.rest)
    ensures |e.rest| < |d.rest| && More(e) && Token(fits, d) == Token(fits, e)
    ensures e == Decoder(e.rest, AfterMark(d.state), d.stack)
  {
    ws := SpaceFound(d.rest);
    MarkFirst(fits, d);
    var s := SkipSpace(d.rest);
    assert s == [s[0]] + s[1..];
    e := Decoder(s[1..], AfterMark(d.state), d.stack);
  }

  function AfterMark(st: TokenState): TokenState {
    if st.ObjectColon? then ObjectValue else if st.ArrayComma? then ArrayValue else ObjectKey
  }

  lemma MarkFirst(fits: string -> bool, d: Decoder)
    requires d.state.ObjectColon? || ((d.state.ArrayComma? || d.state.ObjectComma?) && More(d))
    requires Token(fits, d).Tok?
    ensures var s := SkipSpace(d.rest);
            && s != "" && s[0] == (if d.state.ObjectColon? then ':' else ',')
            && Token(fits, d) == Token(fits, Decoder(s[1..], AfterMark(d.state), d.stack))
            && More(Decoder(s[1..], AfterMark(d.state), d.stack))
  {
    var s := SkipSpace(d.rest);
    if s[0] == ':' || s[0] == ',' {
      NotClosed(fits, Decoder(s[1..], AfterMark(d.state), d.stack));
    }
  }

  lemma NotClosed(fits: string -> bool, e: Decoder)
    requires e.state.ObjectValue? || e.state.ArrayValue? || e.state.ObjectKey?
    ensures Token(fits, e).Tok? ==> More(e)
  {
  }

  lemma {:induction false} ColonFound(fits: string -> bool, d: Decoder) returns (gap: string, lead: string, v: Value)
    requires d.state.ObjectColon? && SkipNext(fits, d).Skipped?
    ensures var n := SkipNext(fits, d).next;
            && Blank(gap) && Blank(lead) && Valid(v) && Decodes(fits, v)
            && d.rest == gap + (":" + (lead + (Print(v) + n.rest))) && n == Decoder(n.rest, ObjectComma, d.stack)
    decreases |d.rest|, 1
  {
    var e;
    gap, e := MarkFound(fits, d);
    SkipSame(fits, d, e);
    lead, v := ValueFound(fits, e);
  }

  // A member and everything behind it.
  lemma {:induction false} MemberFound(fits: string -> bool, d: Decoder, st: TokenState, stack: seq<TokenState>)
    returns (members: Members)
    requires (d.state.ObjectStart? || d.state.ObjectKey?) && d.stack == stack + [st] && More(d)
    requires Token(fits, d).Tok? && SkipNext(fits, Token(fits, d).next).Skipped?
    requires SkipMembers(fits, SkipNext(fits, Token(fits, d).next).next).Skipped?
    ensures var n := SkipMembers(fits, SkipNext(fits, Token(fits, d).next).next).next;
            && members.Member? && ValidMembers(members) && MembersDecode(fits, members)
            && d.rest == PrintMembers("", members) + n.rest && n == Decoder(n.rest, ValueEnd(st), stack)
    decreases |d.rest|, 2
  {
    var before, key := KeyFound(fits, d);
    var colon := Token(fits, d).next;
    var gap, lead, v := ColonFound(fits, colon);
    var next := SkipNext(fits, colon).next;
    var after, more := MembersTailFound(fits, next, st, stack);
    members := Member(before, key, gap, lead, v, after, more);
    MemberText("", members, SkipMembers(fits, next).next.rest);
  }

  lemma {:induction false} MembersTailFound(fits: string -> bool, d: Decoder, st: TokenState, stack: seq<TokenState>)
    returns (after: string, more: Members)
    requires d.state.ObjectComma? && d.stack == stack + [st] && SkipMembers(fits, d).Skipped?
    ensures var n := SkipMembers(fits, d).next;
            && Blank(after) && ValidMembers(more) && MembersDecode(fits, more)
            && d.rest == MembersTail(after, more) + n.rest && n == Decoder(n.rest, ValueEnd(st), stack)
    decreases |d.rest|, 3
  {
    var rest := SkipMembers(fits, d).next.rest;
    if More(d) {
      var e;
      after, e := MarkFound(fits, d);
      more := MemberFound(fits, e, st, stack);
    } else {
      more := NoMembers;
      after := CloseFound(fits, d, '}', st, stack);
    }
    TailOfMembers(after, more, rest);
  }
}
