/**
 JSON text as sections 2 and 4 to 7 of RFC 8259 write it. A `Value` keeps the
 insignificant whitespace around every token, so `Print` ranges over every
 spelling of a document. Bytes are Dafny characters: nothing below depends on
 how large a character can be.
 */
module JsonGrammar {

  predicate IsSpace(c: char) {
    c == ' ' || c == '\t' || c == '\n' || c == '\r'
  }

  predicate Blank(s: string) {
    forall i | 0 <= i < |s| :: IsSpace(s[i])
  }

  predicate IsDigit(c: char) {
    '0' <= c <= '9'
  }

  predicate Digits(s: string) {
    forall i | 0 <= i < |s| :: IsDigit(s[i])
  }

  // ---- strings (section 7) ----

  predicate IsHex(c: char) {
    IsDigit(c) || 'a' <= c <= 'f' || 'A' <= c <= 'F'
  }

  predicate IsEscape(c: char) {
    c == '"' || c == '\\' || c == '/' || c == 'b' || c == 'f' || c == 'n' || c == 'r' || c == 't'
  }

  datatype Piece =
    | Plain(c: char)
    | Escape(c: char)
    | Unicode(h0: char, h1: char, h2: char, h3: char)
  {
    predicate Valid() {
      match this
      case Plain(c) => ' ' <= c && c != '"' && c != '\\'
      case Escape(c) => IsEscape(c)
      case Unicode(h0, h1, h2, h3) => IsHex(h0) && IsHex(h1) && IsHex(h2) && IsHex(h3)
    }

    function Text(): (s: string)
      ensures |s| > 0
    {
      match this
      case Plain(c) => [c]
      case Escape(c) => ['\\', c]
      case Unicode(h0, h1, h2, h3) => ['\\', 'u', h0, h1, h2, h3]
    }

    // The code unit the piece stands for.
    function Unit(): int {
      match this
      case Plain(c) => c as int
      case Escape(c) => EscapeUnit(c)
      case Unicode(h0, h1, h2, h3) => 4096 * HexValue(h0) + 256 * HexValue(h1) + 16 * HexValue(h2) + HexValue(h3)
    }
  }

  function EscapeUnit(c: char): int {
    if c == 'b' then 8 else if c == 'f' then 12 else if c == 'n' then 10
    else if c == 'r' then 13 else if c == 't' then 9 else c as int
  }

  function HexValue(c: char): int {
    if IsDigit(c) then c as int - '0' as int
    else if 'a' <= c <= 'f' then c as int - 'a' as int + 10
    else c as int - 'A' as int + 10
  }

  predicate ValidPieces(ps: seq<Piece>) {
    forall i | 0 <= i < |ps| :: ps[i].Valid()
  }

  function Body(ps: seq<Piece>): string {
    if ps == [] then "" else ps[0].Text() + Body(ps[1..])
  }

  function Units(ps: seq<Piece>): seq<int> {
    if ps == [] then [] else [ps[0].Unit()] + Units(ps[1..])
  }

  function Quote(ps: seq<Piece>): string {
    "\"" + Body(ps) + "\""
  }

  // ---- literals and numbers (sections 3 and 6) ----

  datatype Scalar =
    | Literal(word: string)
    // An empty `frac` or `exp` is an absent fraction or exponent.
    | Number(neg: bool, whole: string, frac: string, mark: char, sign: string, exp: string)
  {
    predicate Valid() {
      match this
      case Literal(word) => word == "true" || word == "false" || word == "null"
      case Number(neg, whole, frac, mark, sign, exp) =>
        && |whole| > 0 && Digits(whole) && (whole[0] == '0' ==> |whole| == 1)
        && Digits(frac)
        && (mark == 'e' || mark == 'E')
        && (sign == "" || sign == "+" || sign == "-")
        && Digits(exp)
    }

    function Text(): string {
      match this
      case Literal(word) => word
      case Number(neg, whole, frac, mark, sign, exp) =>
        (if neg then "-" else "") + (whole + (FracText(frac) + ExpText(mark, sign, exp)))
    }
  }

  function FracText(frac: string): string {
    if frac == "" then "" else "." + frac
  }

  function ExpText(mark: char, sign: string, exp: string): string {
    if exp == "" then "" else [mark] + (sign + exp)
  }

  // ---- values, arrays and objects (sections 3 to 5) ----

  datatype Value =
    | Atom(scalar: Scalar)
    | Str(body: seq<Piece>)
    | Arr(pad: string, items: Items)
    | Obj(pad: string, members: Members)

  // `pad` of an array or object is the whitespace between the brackets when it is empty.
  datatype Items =
    | NoItems
    | Item(before: string, value: Value, after: string, more: Items)

  datatype Members =
    | NoMembers
    | Member(before: string, key: seq<Piece>, gap: string, lead: string, value: Value, after: string, more: Members)

  ghost predicate Valid(v: Value) {
    match v
    case Atom(scalar) => scalar.Valid()
    case Str(body) => ValidPieces(body)
    case Arr(pad, items) => Blank(pad) && ValidItems(items)
    case Obj(pad, members) => Blank(pad) && ValidMembers(members)
  }

  ghost predicate ValidItems(items: Items) {
    match items
    case NoItems => true
    case Item(before, value, after, more) => Blank(before) && Valid(value) && Blank(after) && ValidItems(more)
  }

  ghost predicate ValidMembers(members: Members) {
    match members
    case NoMembers => true
    case Member(before, key, gap, lead, value, after, more) =>
      Blank(before) && ValidPieces(key) && Blank(gap) && Blank(lead) && Valid(value) && Blank(after)
          && ValidMembers(more)
  }

  function Print(v: Value): string {
    match v
    case Atom(scalar) => scalar.Text()
    case Str(body) => Quote(body)
    case Arr(pad, items) => "[" + PrintItems(pad, items)
    case Obj(pad, members) => "{" + PrintMembers(pad, members)
  }

  // The rest of an array after its bracket or one of its commas; `pad` is the
  // whitespace before the closing bracket of an empty array.
  function PrintItems(pad: string, items: Items): string
    decreases items, 1
  {
    match items
    case NoItems => pad + "]"
    case Item(before, value, after, more) => before + (Print(value) + ItemsTail(after, more))
  }

  function ItemsTail(after: string, more: Items): string
    decreases more, 2
  {
    after + (if more.NoItems? then "]" else "," + PrintItems("", more))
  }

  function PrintMembers(pad: string, members: Members): string
    decreases members, 1
  {
    match members
    case NoMembers => pad + "}"
    case Member(before, key, gap, lead, value, after, more) =>
      before + (Quote(key) + (gap + (":" + (lead + (Print(value) + MembersTail(after, more))))))
  }

  function MembersTail(after: string, more: Members): string
    decreases more, 2
  {
    after + (if more.NoMembers? then "}" else "," + PrintMembers("", more))
  }

  lemma DropPast(a: string, b: string, i: nat)
    requires i <= |b|
    ensures (a + b)[|a| + i..] == b[i..]
  {
    assert b[i..] == (a + b)[|a| + i..];
  }
}
