/**
 * The grammar of RFC 8259 by its derivation trees: each has a text, and each that has a meaning has a value. The
 * text of a tree is given together with the text that follows it. Terminals are the byte numbers of the standard;
 * nothing here depends on the constants of the parser or the printer.
 */
module Grammar {
  import opened CText
  import opened Doubles
  import opened Strings
  import opened Json

  /** `ws` of section 2. */
  predicate Ws(s: bytes) {
    forall i :: 0 <= i < |s| ==> s[i] == 0x20 || s[i] == 0x09 || s[i] == 0x0A || s[i] == 0x0D
  }

  // ----- strings (section 7) -----

  type quad = d: bytes | |d| == 4 witness [48, 48, 48, 48]

  datatype Char = Unescaped(b: bytes) | Escaped(e: uchar) | UEscaped(d: quad)

  predicate CharOk(ch: Char) {
    match ch
    case Unescaped(b) => Utf8Char(b) && b[0] >= 0x20 && b[0] != 0x22 && b[0] != 0x5C
    case Escaped(e) => EscapedByte(e) != 0
    case UEscaped(d) => forall i :: 0 <= i < 4 ==> HexDigit(d[i])
  }

  /** HEXDIG of section 2.3 of RFC 5234, lower case included. */
  predicate HexDigit(c: uchar) {
    0x30 <= c <= 0x39 || 0x41 <= c <= 0x46 || 0x61 <= c <= 0x66
  }

  function DigitNumber(c: uchar): (n: int)
    requires HexDigit(c)
    ensures 0 <= n < 16
  {
    if c <= 0x39 then c - 0x30 else if c <= 0x46 then c - 0x41 + 10 else c - 0x61 + 10
  }

  /** The number the four digits stand for; it is not looked at when one of them is none. */
  function HexNumber(d: quad): (n: nat)
    ensures n < 0x1_0000
  {
    if HexDigit(d[0]) && HexDigit(d[1]) && HexDigit(d[2]) && HexDigit(d[3]) then
      0x1000 * DigitNumber(d[0]) + 0x100 * DigitNumber(d[1]) + 0x10 * DigitNumber(d[2]) + DigitNumber(d[3])
    else 0
  }

  /** What the character after a backslash stands for, 0 if it must not stand there. */
  function EscapedByte(e: uchar): uchar {
    if e == 0x22 || e == 0x5C || e == 0x2F then e
    else if e == 0x62 then 0x08
    else if e == 0x66 then 0x0C
    else if e == 0x6E then 0x0A
    else if e == 0x72 then 0x0D
    else if e == 0x74 then 0x09
    else 0
  }

  function CharText(ch: Char): bytes {
    match ch
    case Unescaped(b) => b
    case Escaped(e) => [0x5C, e]
    case UEscaped(d) => [0x5C, 0x75] + d
  }

  predicate CharsOk(chars: seq<Char>) {
    forall i :: 0 <= i < |chars| ==> CharOk(chars[i])
  }

  function CharsText(chars: seq<Char>, rest: bytes): bytes {
    if chars == [] then rest else CharText(chars[0]) + CharsText(chars[1..], rest)
  }

  predicate High(ch: Char) {
    ch.UEscaped? && 0xD800 <= HexNumber(ch.d) <= 0xDBFF
  }

  predicate Low(ch: Char) {
    ch.UEscaped? && 0xDC00 <= HexNumber(ch.d) <= 0xDFFF
  }

  /** Surrogates are escaped in pairs, a high one and then a low one; the grammar itself does not ask for that. */
  predicate Paired(chars: seq<Char>) {
    if chars == [] then true
    else if High(chars[0]) then |chars| >= 2 && Low(chars[1]) && Paired(chars[2..])
    else !Low(chars[0]) && Paired(chars[1..])
  }

  /** The string in UTF-8. */
  function Meaning(chars: seq<Char>): bytes
    requires Paired(chars)
  {
    if chars == [] then []
    else match chars[0]
      case Unescaped(b) => b + Meaning(chars[1..])
      case Escaped(e) => [EscapedByte(e)] + Meaning(chars[1..])
      case UEscaped(d) =>
        if High(chars[0]) then
          Utf8(0x1_0000 + (HexNumber(d) - 0xD800) * 0x400 + (HexNumber(chars[1].d) - 0xDC00)) + Meaning(chars[2..])
        else Utf8(HexNumber(d)) + Meaning(chars[1..])
  }

  // ----- numbers (section 6) -----

  datatype Exp = NoExp | Exp(e: uchar, sign: bytes, digits: bytes)

  /** `frac` holds the digits behind the point, and is empty if there is no point. */
  datatype Numeral = Numeral(minus: bool, whole: bytes, frac: bytes, exp: Exp)

  predicate Digits(s: bytes) {
    forall i :: 0 <= i < |s| ==> 0x30 <= s[i] <= 0x39
  }

  predicate NumeralOk(n: Numeral) {
    && Digits(n.whole) && n.whole != [] && (n.whole[0] == 0x30 ==> |n.whole| == 1)
    && Digits(n.frac)
    && (n.exp.Exp? ==>
          && (n.exp.e == 0x65 || n.exp.e == 0x45) && (n.exp.sign == [] || n.exp.sign == [0x2D] || n.exp.sign == [0x2B])
          && Digits(n.exp.digits) && n.exp.digits != [])
  }

  function NumeralText(n: Numeral): bytes {
    (if n.minus then [0x2D] else []) + n.whole + (if n.frac == [] then [] else [0x2E] + n.frac)
    + match n.exp case NoExp => [] case Exp(e, sign, digits) => [e] + sign + digits
  }

  /** `strtod` reads every number of the grammar that fits the buffer of `parse_number` to its end. */
  ghost predicate ReadsNumerals(c: Codec) {
    forall n :: NumeralOk(n) && |NumeralText(n)| <= 63 ==>
      c.strtod(NumeralText(n)).used == |NumeralText(n)|
  }

  // ----- values (sections 3 to 5) -----

  datatype Doc =
    | JNull
    | JFalse
    | JTrue
    | JNumber(n: Numeral)
    | JString(chars: seq<Char>)
    | JEmptyArray(gap: bytes)
    | JArray(gap: bytes, items: Items)
    | JEmptyObject(gap: bytes)
    | JObject(gap: bytes, members: Members)

  /** Elements with the blanks behind each, and the blanks behind the comma. */
  datatype Items = LastItem(value: Doc, after: bytes) | MoreItems(value: Doc, after: bytes, gap: bytes, next: Items)

  /** A name, the blanks in front of and behind its colon, and a value. */
  datatype Member = Member(name: seq<Char>, before: bytes, behind: bytes, value: Doc)

  datatype Members =
    | LastMember(m: Member, after: bytes)
    | MoreMembers(m: Member, after: bytes, gap: bytes, next: Members)

  predicate DocOk(doc: Doc) {
    match doc
    case JNumber(n) => NumeralOk(n)
    case JString(chars) => CharsOk(chars)
    case JEmptyArray(gap) => Ws(gap)
    case JArray(gap, items) => Ws(gap) && ItemsOk(items)
    case JEmptyObject(gap) => Ws(gap)
    case JObject(gap, members) => Ws(gap) && MembersOk(members)
    case _ => true
  }

  predicate ItemsOk(items: Items) {
    match items
    case LastItem(value, after) => DocOk(value) && Ws(after)
    case MoreItems(value, after, gap, next) => DocOk(value) && Ws(after) && Ws(gap) && ItemsOk(next)
  }

  predicate MemberOk(m: Member) {
    CharsOk(m.name) && Ws(m.before) && Ws(m.behind) && DocOk(m.value)
  }

  predicate MembersOk(members: Members) {
    match members
    case LastMember(m, after) => MemberOk(m) && Ws(after)
    case MoreMembers(m, after, gap, next) => MemberOk(m) && Ws(after) && Ws(gap) && MembersOk(next)
  }

  function StringText(chars: seq<Char>, rest: bytes): bytes {
    [0x22] + CharsText(chars, [0x22] + rest)
  }

  function DocText(doc: Doc, rest: bytes): bytes
    decreases doc
  {
    match doc
    case JNull => [0x6E, 0x75, 0x6C, 0x6C] + rest
    case JFalse => [0x66, 0x61, 0x6C, 0x73, 0x65] + rest
    case JTrue => [0x74, 0x72, 0x75, 0x65] + rest
    case JNumber(n) => NumeralText(n) + rest
    case JString(chars) => StringText(chars, rest)
    case JEmptyArray(gap) => [0x5B] + gap + ([0x5D] + rest)
    case JArray(gap, items) => [0x5B] + gap + ItemsText(items, rest)
    case JEmptyObject(gap) => [0x7B] + gap + ([0x7D] + rest)
    case JObject(gap, members) => [0x7B] + gap + MembersText(members, rest)
  }

  function ItemsText(items: Items, rest: bytes): bytes
    decreases items
  {
    match items
    case LastItem(value, after) => DocText(value, after + ([0x5D] + rest))
    case MoreItems(value, after, gap, next) => DocText(value, after + ([0x2C] + gap + ItemsText(next, rest)))
  }

  function MemberText(m: Member, rest: bytes): bytes
    decreases m
  {
    StringText(m.name, m.before + ([0x3A] + m.behind + DocText(m.value, rest)))
  }

  function MembersText(members: Members, rest: bytes): bytes
    decreases members
  {
    match members
    case LastMember(m, after) => MemberText(m, after + ([0x7D] + rest))
    case MoreMembers(m, after, gap, next) => MemberText(m, after + ([0x2C] + gap + MembersText(next, rest)))
  }

  // ----- which derivations cJSON takes, and what it makes of them -----

  /** Numbers fit the buffer, and surrogates are paired. */
  predicate Regular(doc: Doc) {
    match doc
    case JNumber(n) => |NumeralText(n)| <= 63
    case JString(chars) => Paired(chars)
    case JArray(_, items) => RegularItems(items)
    case JObject(_, members) => RegularMembers(members)
    case _ => true
  }

  predicate RegularItems(items: Items) {
    Regular(items.value) && (items.MoreItems? ==> RegularItems(items.next))
  }

  predicate RegularMembers(members: Members) {
    && Paired(members.m.name) && Regular(members.m.value)
    && (members.MoreMembers? ==> RegularMembers(members.next))
  }

  /** How deeply arrays and objects are nested. */
  function Levels(doc: Doc): nat {
    match doc
    case JEmptyArray(_) => 1
    case JArray(_, items) => 1 + LevelsOfItems(items)
    case JEmptyObject(_) => 1
    case JObject(_, members) => 1 + LevelsOfMembers(members)
    case _ => 0
  }

  function LevelsOfItems(items: Items): nat {
    match items
    case LastItem(value, _) => Levels(value)
    case MoreItems(value, _, _, next) => Max(Levels(value), LevelsOfItems(next))
  }

  function LevelsOfMembers(members: Members): nat {
    match members
    case LastMember(m, _) => Levels(m.value)
    case MoreMembers(m, _, _, next) => Max(Levels(m.value), LevelsOfMembers(next))
  }

  /** The item a derivation stands for; a string is a C string and ends at its first NUL. */
  function TreeOf(c: Codec, doc: Doc): Json
    requires Regular(doc)
  {
    match doc
    case JNull => Null
    case JFalse => False
    case JTrue => True
    case JNumber(n) => Number(c.strtod(NumeralText(n)).value)
    case JString(chars) => String(Chars(UpToNul(Meaning(chars))))
    case JEmptyArray(_) => Array(End)
    case JArray(_, items) => Array(ItemsTree(c, items))
    case JEmptyObject(_) => Object(End)
    case JObject(_, members) => Object(MembersTree(c, members))
  }

  function ItemsTree(c: Codec, items: Items): Chain
    requires RegularItems(items)
  {
    Link(Missing, TreeOf(c, items.value), if items.MoreItems? then ItemsTree(c, items.next) else End)
  }

  function MembersTree(c: Codec, members: Members): Chain
    requires RegularMembers(members)
  {
    Link(Chars(UpToNul(Meaning(members.m.name))), TreeOf(c, members.m.value),
         if members.MoreMembers? then MembersTree(c, members.next) else End)
  }
}
