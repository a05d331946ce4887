/**
 The part of Go's `encoding/json` Decoder that the first-chunk analysis drives:
 `Token`, `More` and the input offset, over whatever bytes the chunk holds, and
 `skipNextValue` on top of them. `rest` is the unread input. `fits` says which
 number texts a float64 can hold: the decoder rejects the others.
 */
module JsonDecoder {
  import Common
  import opened JsonGrammar
  import opened ResultCounter

  datatype Lexeme = Delim(c: char) | Text(units: seq<int>) | Other

  datatype TokenState =
    | TopValue
    | ArrayStart | ArrayValue | ArrayComma
    | ObjectStart | ObjectKey | ObjectColon | ObjectValue | ObjectComma

  datatype Decoder = Decoder(rest: string, state: TokenState, stack: seq<TokenState>)

  datatype TokenResult = TokenError | Tok(token: Lexeme, next: Decoder)

  function SkipSpace(s: string): (r: string)
    ensures |r| <= |s|
    ensures r != "" ==> !IsSpace(r[0])
  {
    if s != "" && IsSpace(s[0]) then SkipSpace(s[1..]) else s
  }

  // ---- strings, numbers and literals ----

  datatype Lexed = NoString | Lexed(units: seq<int>, rest: string)

  // The string whose opening quote has just been read.
  function LexString(s: string): (r: Lexed)
    ensures r.Lexed? ==> |r.rest| < |s|
  {
    if s == "" then NoString
    else if s[0] == '"' then Lexed([], s[1..])
    else if s[0] == '\\' then
      if |s| > 1 && IsEscape(s[1]) then Unit(EscapeUnit(s[1]), LexString(s[2..]))
      else if |s| > 5 && s[1] == 'u' && IsHex(s[2]) && IsHex(s[3]) && IsHex(s[4]) && IsHex(s[5]) then
        Unit(Piece.Unicode(s[2], s[3], s[4], s[5]).Unit(), LexString(s[6..]))
      else NoString
    else if s[0] < ' ' then NoString
    else Unit(s[0] as int, LexString(s[1..]))
  }

  function Unit(u: int, r: Lexed): Lexed {
    if r.NoString? then r else r.(units := [u] + r.units)
  }

  datatype NumberState = Start | Neg | Zero | Int | Dot | Frac | E | ESign | Exp

  datatype NumberStep = Go(st: NumberState) | End | Bad

  function StepNumber(st: NumberState, c: char): NumberStep {
    match st
    case Start => if c == '-' then Go(Neg) else if c == '0' then Go(Zero) else if IsDigit(c) then Go(Int) else Bad
    case Neg => if c == '0' then Go(Zero) else if IsDigit(c) then Go(Int) else Bad
    case Zero => if c == '.' then Go(Dot) else if c == 'e' || c == 'E' then Go(E) else End
    case Int =>
      if IsDigit(c) then Go(Int) else if c == '.' then Go(Dot) else if c == 'e' || c == 'E' then Go(E) else End
    case Dot => if IsDigit(c) then Go(Frac) else Bad
    case Frac => if IsDigit(c) then Go(Frac) else if c == 'e' || c == 'E' then Go(E) else End
    case E => if c == '+' || c == '-' then Go(ESign) else if IsDigit(c) then Go(Exp) else Bad
    case ESign => if IsDigit(c) then Go(Exp) else Bad
    case Exp => if IsDigit(c) then Go(Exp) else End
  }

  datatype Remaining = NoRest | Rest(rest: string)

  // What is left after the number; the end of the input ends a complete one.
  function LexNumber(st: NumberState, s: string): (r: Remaining)
    ensures r.Rest? ==> |r.rest| <= |s| && (st.Start? ==> |r.rest| < |s|)
    decreases s
  {
    if s == "" then
      if StepNumber(st, ' ').End? then Rest("") else NoRest
    else
      match StepNumber(st, s[0])
      case Go(next) => LexNumber(next, s[1..])
      case End => Rest(s)
      case Bad => NoRest
  }

  function LexWord(word: string, s: string): Remaining {
    if word <= s then Rest(s[|word|..]) else NoRest
  }

  function LexScalar(fits: string -> bool, s: string): (r: Remaining)
    ensures r.Rest? ==> |r.rest| < |s|
  {
    if s == "" then NoRest
    else if s[0] == 't' then LexWord("true", s)
    else if s[0] == 'f' then LexWord("false", s)
    else if s[0] == 'n' then LexWord("null", s)
    else
      var r := LexNumber(Start, s);
      if r.Rest? && fits(s[..|s| - |r.rest|]) then r else NoRest
  }

  // ---- tokens ----

  predicate ValueAllowed(st: TokenState) {
    st.TopValue? || st.ArrayStart? || st.ArrayValue? || st.ObjectValue?
  }

  function ValueEnd(st: TokenState): TokenState {
    if st.ArrayStart? || st.ArrayValue? then ArrayComma
    else if st.ObjectValue? then ObjectComma
    else st
  }

  function Push(d: Decoder, c: char, rest: string, inner: TokenState): TokenResult {
    if ValueAllowed(d.state) then Tok(Delim(c), Decoder(rest, inner, d.stack + [d.state])) else TokenError
  }

  function Pop(d: Decoder, c: char, rest: string): TokenResult {
    if d.stack == [] then TokenError
    else Tok(Delim(c), Decoder(rest, ValueEnd(d.stack[|d.stack| - 1]), d.stack[..|d.stack| - 1]))
  }

  function ScalarToken(fits: string -> bool, d: Decoder, s: string): TokenResult {
    if !ValueAllowed(d.state) then TokenError
    else
      match LexScalar(fits, s)
      case NoRest => TokenError
      case Rest(rest) => Tok(Other, Decoder(rest, ValueEnd(d.state), d.stack))
  }

  function TextToken(d: Decoder, s: string): TokenResult {
    match LexString(s)
    case NoString => TokenError
    case Lexed(units, rest) =>
      if d.state.ObjectStart? || d.state.ObjectKey? then Tok(Text(units), Decoder(rest, ObjectColon, d.stack))
      else if ValueAllowed(d.state) then Tok(Text(units), Decoder(rest, ValueEnd(d.state), d.stack))
      else TokenError
  }

  function Token(fits: string -> bool, d: Decoder): (r: TokenResult)
    ensures r.Tok? ==> |r.next.rest| < |d.rest|
    decreases |d.rest|
  {
    var s := SkipSpace(d.rest);
    if s == "" then TokenError
    else if s[0] == '[' then Push(d, '[', s[1..], ArrayStart)
    else if s[0] == ']' then
      if d.state.ArrayStart? || d.state.ArrayComma? then Pop(d, ']', s[1..]) else TokenError
    else if s[0] == '{' then Push(d, '{', s[1..], ObjectStart)
    else if s[0] == '}' then
      if d.state.ObjectStart? || d.state.ObjectComma? then Pop(d, '}', s[1..]) else TokenError
    else if s[0] == ':' then
      if d.state.ObjectColon? then Token(fits, Decoder(s[1..], ObjectValue, d.stack)) else TokenError
    else if s[0] == ',' then
      if d.state.ArrayComma? then Token(fits, Decoder(s[1..], ArrayValue, d.stack))
      else if d.state.ObjectComma? then Token(fits, Decoder(s[1..], ObjectKey, d.stack))
      else TokenError
    else if s[0] == '"' then TextToken(d, s[1..])
    else ScalarToken(fits, d, s)
  }

  predicate More(d: Decoder) {
    var s := SkipSpace(d.rest);
    s != "" && s[0] != ']' && s[0] != '}'
  }

  // ---- skipNextValue ----

  datatype Skip = SkipError | Skipped(next: Decoder)

  function SkipNext(fits: string -> bool, d: Decoder): (r: Skip)
    ensures r.Skipped? ==> |r.next.rest| < |d.rest|
    decreases |d.rest|, 0
  {
    match Token(fits, d)
    case TokenError => SkipError
    case Tok(token, next) =>
      if token == Delim('{') then SkipMembers(fits, next)
      else if token == Delim('[') then SkipItems(fits, next)
      else Skipped(next)
  }

  function SkipMembers(fits: string -> bool, d: Decoder): (r: Skip)
    ensures r.Skipped? ==> |r.next.rest| < |d.rest|
    decreases |d.rest|, 1
  {
    match Token(fits, d)
    case TokenError => SkipError
    case Tok(_, next) =>
      if !More(d) then Skipped(next)
      else
        match SkipNext(fits, next)
        case SkipError => SkipError
        case Skipped(after) => SkipMembers(fits, after)
  }

  function SkipItems(fits: string -> bool, d: Decoder): (r: Skip)
    ensures r.Skipped? ==> |r.next.rest| < |d.rest|
    decreases |d.rest|, 1
  {
    if !More(d) then
      match Token(fits, d)
      case TokenError => SkipError
      case Tok(_, next) => Skipped(next)
    else
      match SkipNext(fits, d)
      case SkipError => SkipError
      case Skipped(after) => SkipItems(fits, after)
  }

  // `skipNextValue` as the source runs it, on a decoder that it advances.
  method SkipNextValue(fits: string -> bool, d: Decoder) returns (r: Skip)
    ensures r == SkipNext(fits, d)
    decreases |d.rest|
  {
    var t := Token(fits, d);
    if t.TokenError? {
      return SkipError;
    }
    var dec := t.next;
    if t.token == Delim('{') {
      while More(dec)
        invariant |dec.rest| < |d.rest|
        invariant SkipMembers(fits, dec) == SkipNext(fits, d)
        decreases |dec.rest|
      {
        var key := Token(fits, dec);
        if key.TokenError? {
          return SkipError;
        }
        var value := SkipNextValue(fits, key.next);
        if value.SkipError? {
          return SkipError;
        }
        dec := value.next;
      }
      var close := Token(fits, dec);
      return if close.TokenError? then SkipError else Skipped(close.next);
    }
    if t.token == Delim('[') {
      while More(dec)
        invariant |dec.rest| < |d.rest|
        invariant SkipItems(fits, dec) == SkipNext(fits, d)
        decreases |dec.rest|
      {
        var value := SkipNextValue(fits, dec);
        if value.SkipError? {
          return SkipError;
        }
        dec := value.next;
      }
      var close := Token(fits, dec);
      return if close.TokenError? then SkipError else Skipped(close.next);
    }
    return Skipped(dec);
  }

  // ---- what the decoder does with more input behind the same bytes ----

  function Extend(d: Decoder, t: string): Decoder {
    d.(rest := d.rest + t)
  }

  lemma {:induction false} SkipSpaceExtend(s: string, t: string)
    requires SkipSpace(s) != ""
    ensures SkipSpace(s + t) == SkipSpace(s) + t
  {
    if IsSpace(s[0]) {
      SkipSpaceExtend(s[1..], t);
      assert (s + t)[1..] == s[1..] + t;
    }
  }

  lemma {:induction false} LexStringExtend(s: string, t: string)
    requires LexString(s).Lexed?
    ensures LexString(s + t) == LexString(s).(rest := LexString(s).rest + t)
  {
    var n := if s[0] != '\\' then 1 else if IsEscape(s[1]) then 2 else 6;
    assert (s + t)[n..] == s[n..] + t;
    if s[0] != '"' {
      LexStringExtend(s[n..], t);
    }
  }

  lemma {:induction false} LexNumberExtend(st: NumberState, s: string, t: string)
    requires LexNumber(st, s).Rest? && LexNumber(st, s).rest != ""
    ensures LexNumber(st, s + t) == Rest(LexNumber(st, s).rest + t)
    decreases s
  {
    assert (s + t)[1..] == s[1..] + t;
    match StepNumber(st, s[0])
    case Go(next) => LexNumberExtend(next, s[1..], t);
    case End =>
  }

  lemma LexScalarExtend(fits: string -> bool, s: string, t: string)
    requires LexScalar(fits, s).Rest? && LexScalar(fits, s).rest != ""
    ensures LexScalar(fits, s + t) == Rest(LexScalar(fits, s).rest + t)
  {
    var r := LexScalar(fits, s).rest;
    if s[0] != 't' && s[0] != 'f' && s[0] != 'n' {
      LexNumberExtend(Start, s, t);
      assert (s + t)[..|s| - |r|] == s[..|s| - |r|];
    }
  }

  lemma {:induction false} TokenExtend(fits: string -> bool, d: Decoder, t: string)
    requires Token(fits, d).Tok?
    requires Token(fits, d).next.rest != "" || Token(fits, d).token != Other
    ensures Token(fits, Extend(d, t)) == Tok(Token(fits, d).token, Extend(Token(fits, d).next, t))
    decreases |d.rest|
  {
    SkipSpaceExtend(d.rest, t);
    var s := SkipSpace(d.rest);
    assert (s + t)[1..] == s[1..] + t;
    if s[0] == '"' {
      LexStringExtend(s[1..], t);
    } else if s[0] == ':' {
      TokenExtend(fits, Decoder(s[1..], ObjectValue, d.stack), t);
    } else if s[0] == ',' {
      TokenExtend(fits, Decoder(s[1..], if d.state.ArrayComma? then ArrayValue else ObjectKey, d.stack), t);
    } else if s[0] != '[' && s[0] != ']' && s[0] != '{' && s[0] != '}' {
      LexScalarExtend(fits, s, t);
    }
  }

  lemma MoreExtend(d: Decoder, t: string)
    requires SkipSpace(d.rest) != ""
    ensures More(Extend(d, t)) == More(d)
  {
    SkipSpaceExtend(d.rest, t);
  }

  lemma {:induction false} SkipNextExtend(fits: string -> bool, d: Decoder, t: string)
    requires SkipNext(fits, d).Skipped? && SkipNext(fits, d).next.rest != ""
    ensures SkipNext(fits, Extend(d, t)) == Skipped(Extend(SkipNext(fits, d).next, t))
    decreases |d.rest|, 0
  {
    TokenExtend(fits, d, t);
    var r := Token(fits, d);
    if r.token == Delim('{') {
      SkipMembersExtend(fits, r.next, t);
    } else if r.token == Delim('[') {
      SkipItemsExtend(fits, r.next, t);
    }
  }

  lemma {:induction false} SkipMembersExtend(fits: string -> bool, d: Decoder, t: string)
    requires SkipMembers(fits, d).Skipped? && SkipMembers(fits, d).next.rest != ""
    ensures SkipMembers(fits, Extend(d, t)) == Skipped(Extend(SkipMembers(fits, d).next, t))
    decreases |d.rest|, 1
  {
    TokenExtend(fits, d, t);
    MoreExtend(d, t);
    if More(d) {
      var r := SkipNext(fits, Token(fits, d).next);
      SkipNextExtend(fits, Token(fits, d).next, t);
      SkipMembersExtend(fits, r.next, t);
    }
  }

  lemma {:induction false} SkipItemsExtend(fits: string -> bool, d: Decoder, t: string)
    requires SkipItems(fits, d).Skipped? && SkipItems(fits, d).next.rest != ""
    ensures SkipItems(fits, Extend(d, t)) == Skipped(Extend(SkipItems(fits, d).next, t))
    decreases |d.rest|, 1
  {
    MoreExtend(d, t);
    if More(d) {
      SkipNextExtend(fits, d, t);
      SkipItemsExtend(fits, SkipNext(fits, d).next, t);
    } else {
      TokenExtend(fits, d, t);
    }
  }

  // ---- the decoder on the grammar ----

  lemma {:induction false} SkipBlank(ws: string, x: string)
    requires Blank(ws)
    ensures SkipSpace(ws + x) == SkipSpace(x)
  {
    if ws == "" {
      assert ws + x == x;
    } else {
      assert (ws + x)[1..] == ws[1..] + x;
      SkipBlank(ws[1..], x);
    }
  }

  lemma LexPiece(p: Piece, rest: string)
    requires p.Valid()
    ensures LexString(p.Text() + rest) == Unit(p.Unit(), LexString(rest))
  {
    var s := p.Text() + rest;
    assert s[|p.Text()|..] == rest;
    match p
    case Plain(c) =>
    case Escape(c) =>
    case Unicode(h0, h1, h2, h3) => assert s[2] == h0 && s[3] == h1 && s[4] == h2 && s[5] == h3;
  }

  lemma {:induction false} LexBody(ps: seq<Piece>, t: string)
    requires ValidPieces(ps)
    ensures LexString(Body(ps) + ("\"" + t)) == Lexed(Units(ps), t)
  {
    if ps == [] {
      assert Body(ps) + ("\"" + t) == "\"" + t;
    } else {
      var rest := Body(ps[1..]) + ("\"" + t);
      LexBody(ps[1..], t);
      LexPiece(ps[0], rest);
      Common.Assoc(ps[0].Text(), Body(ps[1..]), "\"" + t);
    }
  }

  lemma {:induction false} LexDigits(st: NumberState, ds: string, t: string)
    requires st.Int? || st.Frac? || st.Exp?
    requires Digits(ds)
    ensures LexNumber(st, ds + t) == LexNumber(st, t)
    decreases ds
  {
    if ds == "" {
      assert ds + t == t;
    } else {
      assert (ds + t)[1..] == ds[1..] + t;
      LexDigits(st, ds[1..], t);
    }
  }

  lemma LexStep(st: NumberState, c: char, t: string)
    requires StepNumber(st, c).Go?
    ensures LexNumber(st, [c] + t) == LexNumber(StepNumber(st, c).st, t)
  {
    assert ([c] + t)[1..] == t;
  }

  // A run of digits with the state its first digit leads to.
  lemma LexRun(st: NumberState, next: NumberState, ds: string, t: string)
    requires next.Int? || next.Frac? || next.Exp?
    requires ds != "" && Digits(ds) && StepNumber(st, ds[0]) == Go(next)
    ensures LexNumber(st, ds + t) == LexNumber(next, t)
  {
    LexStep(st, ds[0], ds[1..] + t);
    assert [ds[0]] + (ds[1..] + t) == ds + t;
    LexDigits(next, ds[1..], t);
  }

  lemma LexEnd(st: NumberState, tail: string)
    requires st.Zero? || st.Int? || st.Frac? || st.Exp?
    requires Follows(tail)
    ensures LexNumber(st, tail) == Rest(tail)
  {}

  lemma LexSigned(sign: string, exp: string, tail: string)
    requires (sign == "" || sign == "+" || sign == "-") && exp != "" && Digits(exp) && Follows(tail)
    ensures LexNumber(E, sign + (exp + tail)) == Rest(tail)
  {
    LexEnd(Exp, tail);
    if sign == "" {
      assert sign + (exp + tail) == exp + tail;
      LexRun(E, Exp, exp, tail);
    } else {
      assert sign + (exp + tail) == [sign[0]] + (exp + tail);
      LexStep(E, sign[0], exp + tail);
      LexRun(ESign, Exp, exp, tail);
    }
  }

  lemma ExpParts(mark: char, sign: string, exp: string, tail: string)
    requires exp != ""
    ensures ExpText(mark, sign, exp) + tail == [mark] + (sign + (exp + tail))
  {
  }

  lemma LexExponent(st: NumberState, mark: char, sign: string, exp: string, tail: string)
    requires st.Zero? || st.Int? || st.Frac?
    requires (mark == 'e' || mark == 'E') && (sign == "" || sign == "+" || sign == "-") && Digits(exp) && Follows(tail)
    ensures LexNumber(st, ExpText(mark, sign, exp) + tail) == Rest(tail)
  {
    if exp == "" {
      assert ExpText(mark, sign, exp) + tail == tail;
      LexEnd(st, tail);
    } else {
      ExpParts(mark, sign, exp, tail);
      LexStep(st, mark, sign + (exp + tail));
      LexSigned(sign, exp, tail);
    }
  }

  lemma LexFraction(st: NumberState, frac: string, e: string, tail: string)
    requires st.Zero? || st.Int?
    requires Digits(frac) && LexNumber(st, e) == LexNumber(Frac, e) == Rest(tail)
    ensures LexNumber(st, FracText(frac) + e) == Rest(tail)
  {
    if frac == "" {
      assert FracText(frac) + e == e;
    } else {
      assert FracText(frac) + e == "." + (frac + e);
      LexStep(st, '.', frac + e);
      LexRun(Dot, Frac, frac, e);
    }
  }

  lemma LexWhole(st: NumberState, a: Scalar, tail: string)
    requires st.Start? || st.Neg?
    requires a.Number? && a.Valid() && Follows(tail)
    ensures LexNumber(st, Unsigned(a, tail)) == Rest(tail)
  {
    var e := ExpText(a.mark, a.sign, a.exp) + tail;
    var next := if a.whole[0] == '0' then Zero else Int;
    LexExponent(next, a.mark, a.sign, a.exp, tail);
    LexExponent(Frac, a.mark, a.sign, a.exp, tail);
    LexFraction(next, a.frac, e, tail);
    if a.whole[0] == '0' {
      assert a.whole == "0";
      LexStep(st, '0', FracText(a.frac) + e);
    } else {
      LexRun(st, Int, a.whole, FracText(a.frac) + e);
    }
  }

  function Unsigned(a: Scalar, tail: string): string
    requires a.Number?
  {
    a.whole + (FracText(a.frac) + (ExpText(a.mark, a.sign, a.exp) + tail))
  }

  lemma NumberParts(a: Scalar, tail: string)
    requires a.Number?
    ensures a.Text() + tail == if a.neg then "-" + Unsigned(a, tail) else Unsigned(a, tail)
  {
    var f, e := FracText(a.frac), ExpText(a.mark, a.sign, a.exp);
    assert a.whole + (f + e) + tail == a.whole + (f + (e + tail));
  }

  lemma LexNumberText(a: Scalar, tail: string)
    requires a.Number? && a.Valid() && Follows(tail)
    ensures LexNumber(Start, a.Text() + tail) == Rest(tail)
  {
    NumberParts(a, tail);
    if a.neg {
      LexStep(Start, '-', Unsigned(a, tail));
      LexWhole(Neg, a, tail);
    } else {
      LexWhole(Start, a, tail);
    }
  }

  predicate ScalarDecodes(fits: string -> bool, a: Scalar) {
    a.Literal? || fits(a.Text())
  }

  lemma LexLiteralText(fits: string -> bool, word: string, tail: string)
    requires Literal(word).Valid()
    ensures LexScalar(fits, word + tail) == Rest(tail)
  {
    assert (word + tail)[|word|..] == tail;
  }

  lemma LexNumberScalar(fits: string -> bool, a: Scalar, tail: string)
    requires a.Number? && a.Valid() && Follows(tail)
    ensures LexScalar(fits, a.Text() + tail) == if fits(a.Text()) then Rest(tail) else NoRest
  {
    var s := a.Text() + tail;
    LexNumberText(a, tail);
    ScalarFirst(a);
    assert s[0] == a.Text()[0];
    assert s[..|s| - |tail|] == a.Text();
  }

  lemma LexScalarText(fits: string -> bool, a: Scalar, tail: string)
    requires a.Valid() && Follows(tail)
    ensures LexScalar(fits, a.Text() + tail) == if ScalarDecodes(fits, a) then Rest(tail) else NoRest
  {
    match a
    case Literal(word) => LexLiteralText(fits, word, tail);
    case Number(_, _, _, _, _, _) => LexNumberScalar(fits, a, tail);
  }

  lemma ScalarFirst(a: Scalar)
    requires a.Valid()
    ensures |a.Text()| > 0 && a.Text()[0] != ':' && a.Text()[0] != ','
    ensures a.Number? ==> a.Text()[0] == '-' || IsDigit(a.Text()[0])
  {
    match a
    case Literal(word) =>
    case Number(neg, whole, frac, mark, sign, exp) =>
      assert !neg ==> a.Text()[0] == whole[0];
  }

  // Every number inside the value is one a float64 can hold.
  ghost predicate Decodes(fits: string -> bool, v: Value) {
    match v
    case Atom(scalar) => ScalarDecodes(fits, scalar)
    case Str(_) => true
    case Arr(_, items) => ItemsDecode(fits, items)
    case Obj(_, members) => MembersDecode(fits, members)
  }

  ghost predicate ItemsDecode(fits: string -> bool, items: Items) {
    items.Item? ==> Decodes(fits, items.value) && ItemsDecode(fits, items.more)
  }

  ghost predicate MembersDecode(fits: string -> bool, members: Members) {
    members.Member? ==> Decodes(fits, members.value) && MembersDecode(fits, members.more)
  }

  ghost function SkippedIf(ok: bool, tail: string, st: TokenState, stack: seq<TokenState>): Skip {
    if ok then Skipped(Decoder(tail, ValueEnd(st), stack)) else SkipError
  }

  lemma TokenBlank(fits: string -> bool, ws: string, x: string, st: TokenState, stack: seq<TokenState>)
    requires Blank(ws)
    ensures Token(fits, Decoder(ws + x, st, stack)) == Token(fits, Decoder(x, st, stack))
    ensures More(Decoder(ws + x, st, stack)) == More(Decoder(x, st, stack))
  {
    SkipBlank(ws, x);
  }

  lemma TokenText(fits: string -> bool, x: string, st: TokenState, stack: seq<TokenState>)
    ensures var d := Decoder("\"" + x, st, stack); More(d) && Token(fits, d) == TextToken(d, x)
  {
    assert ("\"" + x)[1..] == x;
  }

  lemma TokenKey(fits: string -> bool, key: seq<Piece>, x: string, st: TokenState, stack: seq<TokenState>)
    requires ValidPieces(key) && (st.ObjectStart? || st.ObjectKey?)
    ensures Token(fits, Decoder(Quote(key) + x, st, stack)) == Tok(Text(Units(key)), Decoder(x, ObjectColon, stack))
    ensures More(Decoder(Quote(key) + x, st, stack))
  {
    KeyText(key, x);
    TextRead(key, x, st, stack);
    TokenText(fits, Body(key) + ("\"" + x), st, stack);
  }

  lemma KeyText(key: seq<Piece>, x: string)
    ensures Quote(key) + x == "\"" + (Body(key) + ("\"" + x))
  {
    Common.Assoc("\"", Body(key), "\"");
    Common.Assoc("\"", Body(key) + "\"", x);
    Common.Assoc(Body(key), "\"", x);
  }

  lemma TextRead(key: seq<Piece>, x: string, st: TokenState, stack: seq<TokenState>)
    requires ValidPieces(key) && (st.ObjectStart? || st.ObjectKey?)
    ensures var rest := Body(key) + ("\"" + x);
            TextToken(Decoder("\"" + rest, st, stack), rest) == Tok(Text(Units(key)), Decoder(x, ObjectColon, stack))
  {
    LexBody(key, x);
  }

  lemma TokenColon(fits: string -> bool, gap: string, lead: string, x: string, stack: seq<TokenState>)
    requires Blank(gap) && Blank(lead)
    ensures Token(fits, Decoder(gap + (":" + (lead + x)), ObjectColon, stack)) ==
            Token(fits, Decoder(x, ObjectValue, stack))
  {
    TokenBlank(fits, gap, ":" + (lead + x), ObjectColon, stack);
    assert (":" + (lead + x))[1..] == lead + x;
    TokenBlank(fits, lead, x, ObjectValue, stack);
  }

  lemma TokenComma(fits: string -> bool, after: string, x: string, st: TokenState, stack: seq<TokenState>)
    requires Blank(after) && (st.ArrayComma? || st.ObjectComma?)
    ensures var d := Decoder(after + ("," + x), st, stack);
            && More(d)
            && Token(fits, d) == Token(fits, Decoder(x, if st.ArrayComma? then ArrayValue else ObjectKey, stack))
  {
    TokenBlank(fits, after, "," + x, st, stack);
    assert ("," + x)[1..] == x;
  }

  lemma TokenClose(fits: string -> bool, ws: string, close: char, x: string, st: TokenState, stack: seq<TokenState>)
    requires Blank(ws) && stack != []
    requires (close == ']' && (st.ArrayStart? || st.ArrayComma?))
            || (close == '}' && (st.ObjectStart? || st.ObjectComma?))
    ensures var d := Decoder(ws + ([close] + x), st, stack);
            && !More(d)
            && Token(fits, d) == Pop(d, close, x)
  {
    TokenBlank(fits, ws, [close] + x, st, stack);
    assert ([close] + x)[1..] == x;
  }

  lemma SkipSame(fits: string -> bool, d: Decoder, e: Decoder)
    requires Token(fits, d) == Token(fits, e)
    ensures SkipNext(fits, d) == SkipNext(fits, e)
  {}

  lemma SkipAtom(fits: string -> bool, a: Scalar, tail: string, st: TokenState, stack: seq<TokenState>)
    requires a.Valid() && Follows(tail) && ValueAllowed(st)
    ensures SkipNext(fits, Decoder(a.Text() + tail, st, stack)) == SkippedIf(ScalarDecodes(fits, a), tail, st, stack)
  {
    QuietScalar(a);
    ScalarFirst(a);
    LexScalarText(fits, a, tail);
    assert (a.Text() + tail)[0] == a.Text()[0];
    assert SkipSpace(a.Text() + tail) == a.Text() + tail;
  }

  lemma SkipString(fits: string -> bool, body: seq<Piece>, tail: string, st: TokenState, stack: seq<TokenState>)
    requires ValidPieces(body) && ValueAllowed(st)
    ensures SkipNext(fits, Decoder(Quote(body) + tail, st, stack)) == SkippedIf(true, tail, st, stack)
  {
    KeyText(body, tail);
    LexBody(body, tail);
    TokenText(fits, Body(body) + ("\"" + tail), st, stack);
  }

  // `skipNextValue` reads exactly one value, whatever follows it.
  lemma {:induction false} SkipValue(fits: string -> bool, v: Value, tail: string, st: TokenState,
                                     stack: seq<TokenState>)
    requires Valid(v) && Follows(tail) && ValueAllowed(st)
    ensures SkipNext(fits, Decoder(Print(v) + tail, st, stack)) == SkippedIf(Decodes(fits, v), tail, st, stack)
    decreases v, 3
  {
    match v
    case Atom(scalar) => SkipAtom(fits, scalar, tail, st, stack);
    case Str(body) => SkipString(fits, body, tail, st, stack);
    case Arr(pad, items) =>
      assert Print(v) + tail == "[" + (PrintItems(pad, items) + tail);
      TokenOpen(fits, '[', PrintItems(pad, items) + tail, st, stack);
      SkipArray(fits, pad, items, tail, st, stack, ArrayStart);
    case Obj(pad, members) =>
      assert Print(v) + tail == "{" + (PrintMembers(pad, members) + tail);
      TokenOpen(fits, '{', PrintMembers(pad, members) + tail, st, stack);
      SkipObject(fits, pad, members, tail, st, stack, ObjectStart);
  }

  lemma TokenOpen(fits: string -> bool, open: char, x: string, st: TokenState, stack: seq<TokenState>)
    requires (open == '[' || open == '{') && ValueAllowed(st)
    ensures Token(fits, Decoder([open] + x, st, stack)) ==
            Tok(Delim(open), Decoder(x, if open == '[' then ArrayStart else ObjectStart, stack + [st]))
  {
    assert ([open] + x)[1..] == x;
  }

  lemma {:induction false} SkipArray(fits: string -> bool, pad: string, items: Items, tail: string, st: TokenState,
                                     stack: seq<TokenState>, at: TokenState)
    requires Blank(pad) && ValidItems(items)
    requires at.ArrayStart? || (at.ArrayValue? && items.Item?)
    ensures items.NoItems? ==>
              SkipItems(fits, Decoder(PrintItems(pad, items) + tail, at, stack + [st])) ==
                  SkippedIf(true, tail, st, stack)
    ensures items.Item? ==>
              var d := Decoder(PrintItems(pad, items) + tail, at, stack + [st]);
              var r := SkippedIf(ItemsDecode(fits, items), tail, st, stack);
              && (at.ArrayStart? ==> SkipItems(fits, d) == r)
              && (match SkipNext(fits, d) case SkipError => r == SkipError case Skipped(e) => SkipItems(fits, e) == r)
    decreases items, 1
  {
    var full := stack + [st];
    var text := PrintItems(pad, items) + tail;
    match items
    case NoItems =>
      assert text == pad + ("]" + tail);
      TokenClose(fits, pad, ']', tail, at, full);
    case Item(before, value, after, more) =>
      var t := ItemsTail(after, more) + tail;
      assert text == before + (Print(value) + t);
      TailOfItems(after, more, tail);
      SkipValue(fits, value, t, at, full);
      TokenBlank(fits, before, Print(value) + t, at, full);
      SkipSame(fits, Decoder(text, at, full), Decoder(Print(value) + t, at, full));
      SkipArrayTail(fits, after, more, tail, st, stack);
      QuietScalarStart(value, t, at, full);
  }

  lemma QuietScalarStart(v: Value, t: string, st: TokenState, stack: seq<TokenState>)
    requires Valid(v)
    ensures More(Decoder(Print(v) + t, st, stack))
  {
    if v.Atom? {
      QuietScalar(v.scalar);
      assert (Print(v) + t)[0] == Print(v)[0];
    }
  }

  lemma TailOfItems(after: string, more: Items, tail: string)
    requires Blank(after)
    ensures Follows(ItemsTail(after, more) + tail)
    ensures ItemsTail(after, more) + tail ==
            after + (if more.NoItems? then "]" + tail else "," + (PrintItems("", more) + tail))
  {
    if !more.NoItems? {
      assert ItemsTail(after, more) + tail == after + ("," + (PrintItems("", more) + tail));
    }
  }

  lemma {:induction false} SkipArrayTail(fits: string -> bool, after: string, more: Items, tail: string, st: TokenState,
                                         stack: seq<TokenState>)
    requires Blank(after) && ValidItems(more)
    ensures SkipItems(fits, Decoder(ItemsTail(after, more) + tail, ArrayComma, stack + [st])) ==
            SkippedIf(ItemsDecode(fits, more), tail, st, stack)
    decreases more, 2
  {
    var full := stack + [st];
    TailOfItems(after, more, tail);
    if more.NoItems? {
      TokenClose(fits, after, ']', tail, ArrayComma, full);
    } else {
      var x := PrintItems("", more) + tail;
      TokenComma(fits, after, x, ArrayComma, full);
      SkipSame(fits, Decoder(after + ("," + x), ArrayComma, full), Decoder(x, ArrayValue, full));
      SkipArray(fits, "", more, tail, st, stack, ArrayValue);
    }
  }

  lemma {:induction false} SkipObject(fits: string -> bool, pad: string, members: Members, tail: string, st: TokenState,
                                      stack: seq<TokenState>, at: TokenState)
    requires Blank(pad) && ValidMembers(members)
    requires at.ObjectStart? || (at.ObjectKey? && members.Member?)
    ensures var d := Decoder(PrintMembers(pad, members) + tail, at, stack + [st]);
            var r := SkippedIf(MembersDecode(fits, members), tail, st, stack);
            && (at.ObjectStart? ==> SkipMembers(fits, d) == r)
            && (members.Member? ==>
                  && Token(fits, d).Tok?
                  && match SkipNext(fits, Token(fits, d).next)
                     case SkipError => r == SkipError
                     case Skipped(e) => SkipMembers(fits, e) == r)
    decreases members, 1
  {
    var full := stack + [st];
    var text := PrintMembers(pad, members) + tail;
    if members.NoMembers? {
      assert text == pad + ("}" + tail);
      TokenClose(fits, pad, '}', tail, at, full);
    } else {
      var t := MembersTail(members.after, members.more) + tail;
      MemberText(pad, members, tail);
      TokenMember(fits, members.before, members.key, members.gap, members.lead, Print(members.value) + t, at, full);
      TailOfMembers(members.after, members.more, tail);
      SkipValue(fits, members.value, t, ObjectValue, full);
      SkipObjectTail(fits, members.after, members.more, tail, st, stack);
    }
  }

  lemma MemberText(pad: string, m: Members, tail: string)
    requires m.Member?
    ensures PrintMembers(pad, m) + tail ==
            m.before +
            (Quote(m.key) + (m.gap + (":" + (m.lead + (Print(m.value) + (MembersTail(m.after, m.more) + tail))))))
  {
    var t := MembersTail(m.after, m.more);
    Common.Assoc(Print(m.value), t, tail);
    Common.Assoc(m.lead, Print(m.value) + t, tail);
    Common.Assoc(":", m.lead + (Print(m.value) + t), tail);
    Common.Assoc(m.gap, ":" + (m.lead + (Print(m.value) + t)), tail);
    Common.Assoc(Quote(m.key), m.gap + (":" + (m.lead + (Print(m.value) + t))), tail);
    Common.Assoc(m.before, Quote(m.key) + (m.gap + (":" + (m.lead + (Print(m.value) + t)))), tail);
  }

  // A member's name, and then its value.
  lemma TokenMember(fits: string -> bool, before: string, key: seq<Piece>, gap: string, lead: string, x: string,
                    at: TokenState, stack: seq<TokenState>)
    requires Blank(before) && ValidPieces(key) && Blank(gap) && Blank(lead) && (at.ObjectStart? || at.ObjectKey?)
    ensures var d := Decoder(before + (Quote(key) + (gap + (":" + (lead + x)))), at, stack);
            && More(d)
            && Token(fits, d).Tok?
            && SkipNext(fits, Token(fits, d).next) == SkipNext(fits, Decoder(x, ObjectValue, stack))
  {
    var v := gap + (":" + (lead + x));
    TokenBlank(fits, before, Quote(key) + v, at, stack);
    TokenKey(fits, key, v, at, stack);
    TokenColon(fits, gap, lead, x, stack);
    SkipSame(fits, Decoder(v, ObjectColon, stack), Decoder(x, ObjectValue, stack));
  }

  lemma TailOfMembers(after: string, more: Members, tail: string)
    requires Blank(after)
    ensures Follows(MembersTail(after, more) + tail)
    ensures MembersTail(after, more) + tail ==
            after + (if more.NoMembers? then "}" + tail else "," + (PrintMembers("", more) + tail))
  {
    if !more.NoMembers? {
      assert MembersTail(after, more) + tail == after + ("," + (PrintMembers("", more) + tail));
    }
  }

  lemma {:induction false} SkipObjectTail(fits: string -> bool, after: string, more: Members, tail: string,
                                          st: TokenState, stack: seq<TokenState>)
    requires Blank(after) && ValidMembers(more)
    ensures SkipMembers(fits, Decoder(MembersTail(after, more) + tail, ObjectComma, stack + [st])) ==
            SkippedIf(MembersDecode(fits, more), tail, st, stack)
    decreases more, 2
  {
    var full := stack + [st];
    TailOfMembers(after, more, tail);
    if more.NoMembers? {
      TokenClose(fits, after, '}', tail, ObjectComma, full);
    } else {
      var x := PrintMembers("", more) + tail;
      TokenComma(fits, after, x, ObjectComma, full);
      SkipObject(fits, "", more, tail, st, stack, ObjectKey);
    }
  }
}
