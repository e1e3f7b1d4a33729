/** cJSON items as values, and the text `print_value` puts out for them. */
module Json {
  import opened CText
  import opened Doubles
  import opened Strings

  const NESTING_LIMIT: nat := 1000

  /** An item by its type (`type & 0xFF`). Arrays and objects hold their children as a chain. */
  datatype Json =
    | Invalid
    | Null
    | False
    | True
    | Number(d: Double)
    | String(s: CStr)
    | Raw(raw: CStr)
    | Array(child: Chain)
    | Object(child: Chain)

  /** The list of children: each link is an item with its `string` (name) and the links after it. */
  datatype Chain = End | Link(key: CStr, value: Json, next: Chain)

  const NULL_TEXT: cstring := [110, 117, 108, 108]
  const TRUE_TEXT: cstring := [116, 114, 117, 101]
  const FALSE_TEXT: cstring := [102, 97, 108, 115, 101]

  /** `print_number`: NaN and the infinities print as null. */
  function NumberText(c: Codec, d: Double): cstring {
    if d.Finite? then c.Show(d.bits) else NULL_TEXT
  }

  function Tabs(n: nat): (r: cstring)
    ensures |r| == n && forall i :: 0 <= i < n ==> r[i] == TAB
  {
    seq(n, _ => TAB)
  }

  /** The items `print_value` can print, given enough room. */
  predicate Printable(c: Codec, t: Json) {
    match t
    case Invalid => false
    case Number(d) => |NumberText(c, d)| <= 25
    case Raw(raw) => raw.Chars?
    case Array(child) => PrintableChain(c, child)
    case Object(child) => PrintableChain(c, child)
    case _ => true
  }

  predicate PrintableChain(c: Codec, ch: Chain) {
    ch.End? || (Printable(c, ch.value) && PrintableChain(c, ch.next))
  }

  /** The text of an item at nesting depth `depth`, formatted or not. */
  function Render(c: Codec, t: Json, fmt: bool, depth: nat): cstring
    decreases t
  {
    match t
    case Invalid => []
    case Null => NULL_TEXT
    case False => FALSE_TEXT
    case True => TRUE_TEXT
    case Number(d) => NumberText(c, d)
    case String(s) => Quoted(s)
    case Raw(raw) => if raw.Chars? then raw.text else []
    case Array(child) => [LBRACKET] + RenderItems(c, child, fmt, depth + 1) + [RBRACKET]
    case Object(child) =>
      ObjectOpen(fmt) + RenderMembers(c, child, fmt, depth + 1) + ObjectClose(fmt, depth)
  }

  function ObjectOpen(fmt: bool): cstring {
    if fmt then [LBRACE, LF] else [LBRACE]
  }

  function ObjectClose(fmt: bool, depth: nat): cstring {
    if fmt then Tabs(depth) + [RBRACE] else [RBRACE]
  }

  function ItemSeparator(fmt: bool): cstring {
    if fmt then [COMMA, SPACE] else [COMMA]
  }

  function Indent(fmt: bool, depth: nat): cstring {
    if fmt then Tabs(depth) else []
  }

  function KeySeparator(fmt: bool): cstring {
    if fmt then [COLON, TAB] else [COLON]
  }

  function MemberEnd(fmt: bool, last: bool): cstring {
    if fmt then (if last then [LF] else [COMMA, LF]) else (if last then [] else [COMMA])
  }

  function MemberStart(fmt: bool, depth: nat, key: CStr): cstring {
    Indent(fmt, depth) + Quoted(key) + KeySeparator(fmt)
  }

  function RenderItems(c: Codec, ch: Chain, fmt: bool, depth: nat): cstring
    decreases ch
  {
    match ch
    case End => []
    case Link(_, value, next) =>
      Render(c, value, fmt, depth) + (if next.Link? then ItemSeparator(fmt) else []) + RenderItems(c, next, fmt, depth)
  }

  function RenderMembers(c: Codec, ch: Chain, fmt: bool, depth: nat): cstring
    decreases ch
  {
    match ch
    case End => []
    case Link(key, value, next) =>
      MemberStart(fmt, depth, key) + Render(c, value, fmt, depth)
      + MemberEnd(fmt, next.End?) + RenderMembers(c, next, fmt, depth)
  }

  lemma ObjectText(c: Codec, child: Chain, fmt: bool, d: nat)
    ensures Render(c, Object(child), fmt, d)
         == ObjectOpen(fmt) + RenderMembers(c, child, fmt, d + 1) + ObjectClose(fmt, d)
  {
    hide RenderMembers;
  }

  function Separator(fmt: bool, next: Chain): cstring {
    if next.Link? then ItemSeparator(fmt) else []
  }

  lemma ItemsText(c: Codec, ch: Chain, fmt: bool, d: nat, rest: bytes)
    requires ch.Link?
    ensures RenderItems(c, ch, fmt, d) + rest
         == Render(c, ch.value, fmt, d) + (Separator(fmt, ch.next) + (RenderItems(c, ch.next, fmt, d) + rest))
  {
    hide Render, ItemSeparator;
  }

  lemma MembersText(c: Codec, ch: Chain, fmt: bool, d: nat, rest: bytes)
    requires ch.Link?
    ensures RenderMembers(c, ch, fmt, d) + rest
         == Indent(fmt, d) + (Quoted(ch.key) + (KeySeparator(fmt) + (Render(c, ch.value, fmt, d)
            + (MemberEnd(fmt, ch.next.End?) + (RenderMembers(c, ch.next, fmt, d) + rest)))))
  {
    hide Render, Quoted, Indent, KeySeparator, MemberEnd;
  }

  /** The number of items, for termination. */
  function Size(t: Json): nat {
    match t
    case Array(child) => 1 + ChainSize(child)
    case Object(child) => 1 + ChainSize(child)
    case _ => 1
  }

  function ChainSize(ch: Chain): nat {
    if ch.End? then 0 else Size(ch.value) + ChainSize(ch.next)
  }

  // ----- what survives printing -----

  function Max(a: nat, b: nat): nat {
    if a > b then a else b
  }

  /** How deeply arrays and objects are nested. */
  function Nesting(t: Json): nat {
    match t
    case Array(child) => 1 + NestingChain(child)
    case Object(child) => 1 + NestingChain(child)
    case _ => 0
  }

  function NestingChain(ch: Chain): nat {
    if ch.End? then 0 else Max(Nesting(ch.value), NestingChain(ch.next))
  }

  predicate RawFree(t: Json) {
    match t
    case Raw(_) => false
    case Array(child) => RawFreeChain(child)
    case Object(child) => RawFreeChain(child)
    case _ => true
  }

  predicate RawFreeChain(ch: Chain) {
    ch.End? || (RawFree(ch.value) && RawFreeChain(ch.next))
  }

  /**
   * The item that the printed text stands for: NaN and the infinities have become null, NULL strings and
   * names have become empty ones, and the elements of an array have lost any name they had.
   */
  function Normal(t: Json): Json {
    match t
    case Number(d) => if d.Finite? then t else Null
    case String(s) => String(Chars(TextOf(s)))
    case Array(child) => Array(NormalChain(child, false))
    case Object(child) => Object(NormalChain(child, true))
    case _ => t
  }

  function NormalChain(ch: Chain, named: bool): Chain {
    match ch
    case End => End
    case Link(key, value, next) =>
      Link(if named then Chars(TextOf(key)) else Missing, Normal(value), NormalChain(next, named))
  }

  /** Items without anything printing changes. */
  predicate Faithful(t: Json) {
    match t
    case Number(d) => d.Finite?
    case String(s) => s.Chars?
    case Array(child) => FaithfulChain(child, false)
    case Object(child) => FaithfulChain(child, true)
    case _ => true
  }

  predicate FaithfulChain(ch: Chain, named: bool) {
    ch.End? || (ch.key.Chars? == named && Faithful(ch.value) && FaithfulChain(ch.next, named))
  }

  lemma {:induction false} FaithfulIsNormal(t: Json)
    ensures Normal(t) == t <==> Faithful(t)
  {
    match t
    case Array(child) => FaithfulChainIsNormal(child, false);
    case Object(child) => FaithfulChainIsNormal(child, true);
    case _ =>
  }

  lemma {:induction false} FaithfulChainIsNormal(ch: Chain, named: bool)
    ensures NormalChain(ch, named) == ch <==> FaithfulChain(ch, named)
  {
    if ch.Link? {
      FaithfulIsNormal(ch.value);
      FaithfulChainIsNormal(ch.next, named);
    }
  }
}
