/** `cJSON_Minify`: what it computes, where it stays inside the buffer, and what it does to printed text. */
module Minify {
  import opened CText
  import opened Doubles
  import opened Strings
  import opened StringProofs
  import opened Json

  const STAR: uchar := 42

  /** The four bytes dropped as whitespace; the parser also skips all other bytes up to 32. */
  predicate Dropped(b: uchar) {
    b == SPACE || b == TAB || b == CR || b == LF
  }

  /** After a `//` comment: at the line feed or the terminator. */
  function ToLineEnd(u: bytes): (r: bytes)
    ensures |r| <= |u| && r == u[|u| - |r|..]
    ensures u != [] && u[0] == SLASH ==> |r| < |u|
  {
    if u == [] || u[0] == 0 || u[0] == LF then u else ToLineEnd(u[1..])
  }

  /** After a comment that starts with `/` and `*`; nothing is left when it is not closed. */
  function AfterComment(u: bytes): (r: bytes)
    ensures |r| <= |u| && r == u[|u| - |r|..]
    ensures u != [] ==> |r| < |u|
  {
    if |u| < 2 || u[0] == 0 then []
    else if u[0] == STAR && u[1] == SLASH then u[2..]
    else AfterComment(u[1..])
  }

  predicate LineComment(u: bytes) {
    |u| >= 2 && u[0] == SLASH && u[1] == SLASH
  }

  predicate BlockComment(u: bytes) {
    |u| >= 2 && u[0] == SLASH && u[1] == STAR
  }

  /** The minified form of a text with its terminator. */
  function Min(u: bytes): (r: bytes)
    ensures |r| <= |u|
    decreases |u|
  {
    if u == [] then []
    else if u[0] == 0 then [0]
    else if Dropped(u[0]) then Min(u[1..])
    else if LineComment(u) then Min(ToLineEnd(u))
    else if BlockComment(u) then Min(AfterComment(u))
    else if u[0] == QUOTE then
      match ScanQuote(u[1..])
      case NotFound => []
      case At(n) => u[..n + 2] + Min(u[n + 2..])
    else [u[0]] + Min(u[1..])
  }

  /** Every comment and string is closed. */
  predicate Closed(u: bytes)
    decreases |u|
  {
    if u == [] then false
    else if u[0] == 0 then true
    else if Dropped(u[0]) then Closed(u[1..])
    else if LineComment(u) then Closed(ToLineEnd(u))
    else if BlockComment(u) then Closed(AfterComment(u))
    else if u[0] == QUOTE then
      match ScanQuote(u[1..])
      case NotFound => false
      case At(n) => Closed(u[n + 2..])
    else Closed(u[1..])
  }

  // ----- pieces of text that are kept or dropped whole -----

  /** Bytes that are copied one by one. */
  predicate KeptByte(b: uchar) {
    b != 0 && !Dropped(b) && b != SLASH && b != QUOTE
  }

  lemma MinStep(u: bytes)
    requires u != [] && KeptByte(u[0])
    ensures Min(u) == [u[0]] + Min(u[1..])
  {
  }

  /** A string literal is kept whole. */
  lemma LiteralMin(u: bytes)
    requires u != [] && u[0] == QUOTE && ScanQuote(u[1..]).At?
    ensures var n := ScanQuote(u[1..]).n; Min(u) == u[..n + 2] + Min(u[n + 2..])
  {
    hide ScanQuote;
  }

  lemma {:induction false} MinKept(s: bytes, rest: bytes)
    requires forall i :: 0 <= i < |s| ==> KeptByte(s[i])
    ensures Min(s + rest) == s + Min(rest)
    decreases |s|
  {
    hide Min, KeptByte;
    if s == [] {
      assert s + rest == rest;
    } else {
      assert (s + rest)[1..] == s[1..] + rest;
      MinStep(s + rest);
      MinKept(s[1..], rest);
      assert [s[0]] + (s[1..] + Min(rest)) == s + Min(rest);
    }
  }

  lemma {:induction false} MinDropped(s: bytes, rest: bytes)
    requires forall i :: 0 <= i < |s| ==> Dropped(s[i])
    ensures Min(s + rest) == Min(rest)
    decreases |s|
  {
    if s == [] {
      assert s + rest == rest;
    } else {
      assert (s + rest)[1..] == s[1..] + rest;
      MinDropped(s[1..], rest);
    }
  }

  lemma MinQuoted(s: CStr, rest: bytes)
    ensures Min(Quoted(s) + rest) == Quoted(s) + Min(rest)
  {
    hide ScanQuote, Escape;
    var text := TextOf(s);
    QuotedText(s);
    var u := Quoted(s) + rest;
    assert u[1..] == Escape(text) + [QUOTE] + rest;
    ScanEscaped(text, rest);
    assert u[..|Escape(text)| + 2] == Quoted(s) && u[|Escape(text)| + 2..] == rest;
  }

  // ----- minifying the formatted text gives the unformatted text -----

  lemma MinNumber(c: Codec, x: Double, rest: bytes)
    requires c.Valid()
    ensures Min(NumberText(c, x) + rest) == NumberText(c, x) + Min(rest)
  {
    hide Min;
    if x.Finite? { ShownReadsBack(c, x.bits); }
    MinKept(NumberText(c, x), rest);
  }

  lemma MinBrackets(items: bytes, items': bytes, rest: bytes)
    requires Min(items + ([RBRACKET] + rest)) == items' + Min([RBRACKET] + rest)
    ensures Min([LBRACKET] + items + [RBRACKET] + rest) == [LBRACKET] + items' + [RBRACKET] + Min(rest)
  {
    hide Min;
    MinKept([LBRACKET], items + ([RBRACKET] + rest));
    MinKept([RBRACKET], rest);
    assert [LBRACKET] + items + [RBRACKET] + rest == [LBRACKET] + (items + ([RBRACKET] + rest));
    assert [LBRACKET] + items' + [RBRACKET] + Min(rest) == [LBRACKET] + (items' + ([RBRACKET] + Min(rest)));
  }

  /** At any depth, and whatever follows. */
  lemma {:induction false} MinRender(c: Codec, t: Json, d: nat, d': nat, rest: bytes)
    requires c.Valid() && Printable(c, t) && RawFree(t)
    ensures Min(Render(c, t, true, d) + rest) == Render(c, t, false, d') + Min(rest)
    decreases t, 1
  {
    hide Min, Quoted, RenderItems, RenderMembers;
    match t
    case Null => MinKept(NULL_TEXT, rest);
    case False => MinKept(FALSE_TEXT, rest);
    case True => MinKept(TRUE_TEXT, rest);
    case Number(x) => MinNumber(c, x, rest);
    case String(s) => MinQuoted(s, rest);
    case Array(child) =>
      var tail := [RBRACKET] + rest;
      MinRenderItems(c, child, d + 1, d' + 1, tail);
      MinBrackets(RenderItems(c, child, true, d + 1), RenderItems(c, child, false, d' + 1), rest);
    case Object(child) =>
      MinRenderObject(c, child, d, d', rest);
  }

  lemma MinSeparator(next: Chain, more: bytes)
    ensures Min(Separator(true, next) + more) == Separator(false, next) + Min(more)
  {
    hide Min;
    if next.Link? {
      assert [COMMA, SPACE] + more == [COMMA] + ([SPACE] + more);
      MinKept([COMMA], [SPACE] + more);
      MinDropped([SPACE], more);
    } else {
      assert [] + more == more && [] + Min(more) == Min(more);
    }
  }

  lemma {:induction false} MinRenderItems(c: Codec, ch: Chain, d: nat, d': nat, rest: bytes)
    requires c.Valid() && PrintableChain(c, ch) && RawFreeChain(ch)
    ensures Min(RenderItems(c, ch, true, d) + rest) == RenderItems(c, ch, false, d') + Min(rest)
    decreases ch, 0
  {
    hide Min, Render, RenderItems, Separator;
    if ch.Link? {
      var more := RenderItems(c, ch.next, true, d) + rest;
      ItemsText(c, ch, true, d, rest);
      ItemsText(c, ch, false, d', Min(rest));
      MinRender(c, ch.value, d, d', Separator(true, ch.next) + more);
      MinSeparator(ch.next, more);
      MinRenderItems(c, ch.next, d, d', rest);
    } else {
      NoItems(c, d, rest);
      NoItems(c, d', Min(rest));
    }
  }

  lemma NoItems(c: Codec, d: nat, rest: bytes)
    ensures RenderItems(c, End, true, d) + rest == rest && RenderItems(c, End, false, d) + rest == rest
    ensures RenderMembers(c, End, true, d) + rest == rest && RenderMembers(c, End, false, d) + rest == rest
  {
  }

  lemma {:induction false} MinRenderObject(c: Codec, child: Chain, d: nat, d': nat, rest: bytes)
    requires c.Valid() && PrintableChain(c, child) && RawFreeChain(child)
    ensures Min(Render(c, Object(child), true, d) + rest) == Render(c, Object(child), false, d') + Min(rest)
    decreases child, 2
  {
    hide Min, Render, RenderMembers, Tabs;
    var members, tail := RenderMembers(c, child, true, d + 1), Tabs(d) + ([RBRACE] + rest);
    FormattedObject(c, child, d, rest);
    PlainObject(c, child, d', Min(rest));
    MinKept([LBRACE], [LF] + (members + tail));
    MinDropped([LF], members + tail);
    MinRenderMembers(c, child, d + 1, d' + 1, tail);
    MinClose(d, rest);
  }

  lemma FormattedObject(c: Codec, child: Chain, d: nat, rest: bytes)
    ensures Render(c, Object(child), true, d) + rest
         == [LBRACE] + ([LF] + (RenderMembers(c, child, true, d + 1) + (Tabs(d) + ([RBRACE] + rest))))
  {
    hide Render, RenderMembers, Tabs;
    ObjectText(c, child, true, d);
  }

  lemma PlainObject(c: Codec, child: Chain, d: nat, rest: bytes)
    ensures Render(c, Object(child), false, d) + rest
         == [LBRACE] + (RenderMembers(c, child, false, d + 1) + ([RBRACE] + rest))
  {
    hide Render, RenderMembers, Tabs;
    ObjectText(c, child, false, d);
  }

  lemma MinClose(d: nat, rest: bytes)
    ensures Min(Tabs(d) + ([RBRACE] + rest)) == [RBRACE] + Min(rest)
  {
    hide Min;
    MinDropped(Tabs(d), [RBRACE] + rest);
    MinKept([RBRACE], rest);
  }

  lemma MinNamePart(key: CStr, d: nat, rest: bytes)
    ensures Min(Indent(true, d) + (Quoted(key) + (KeySeparator(true) + rest)))
         == Quoted(key) + (KeySeparator(false) + Min(rest))
  {
    hide Min, Quoted;
    assert KeySeparator(true) + rest == [COLON] + ([TAB] + rest);
    MinDropped(Tabs(d), Quoted(key) + (KeySeparator(true) + rest));
    MinQuoted(key, KeySeparator(true) + rest);
    MinKept([COLON], [TAB] + rest);
    MinDropped([TAB], rest);
  }

  lemma {:induction false} MinRenderMembers(c: Codec, ch: Chain, d: nat, d': nat, rest: bytes)
    requires c.Valid() && PrintableChain(c, ch) && RawFreeChain(ch)
    ensures Min(RenderMembers(c, ch, true, d) + rest) == RenderMembers(c, ch, false, d') + Min(rest)
    decreases ch, 0
  {
    hide Min, Render, Quoted, RenderMembers, KeySeparator, MemberEnd;
    if ch.Link? {
      var more := RenderMembers(c, ch.next, true, d) + rest;
      var end := MemberEnd(true, ch.next.End?) + more;
      MembersText(c, ch, true, d, rest);
      MembersText(c, ch, false, d', Min(rest));
      MinNamePart(ch.key, d, Render(c, ch.value, true, d) + end);
      MinRender(c, ch.value, d, d', end);
      MinMemberEnd(ch.next.End?, more);
      MinRenderMembers(c, ch.next, d, d', rest);
    } else {
      NoItems(c, d, rest);
      NoItems(c, d', Min(rest));
    }
  }

  lemma MinMemberEnd(last: bool, more: bytes)
    ensures Min(MemberEnd(true, last) + more) == MemberEnd(false, last) + Min(more)
  {
    hide Min;
    MinDropped([LF], more);
    if !last {
      assert [COMMA, LF] + more == [COMMA] + ([LF] + more);
      MinKept([COMMA], [LF] + more);
    }
  }

  /** `cJSON_Minify` on the text of `cJSON_Print` leaves the text of `cJSON_PrintUnformatted`. */
  lemma MinifyFormatted(c: Codec, t: Json)
    requires c.Valid() && Printable(c, t) && RawFree(t)
    ensures Min(Render(c, t, true, 0) + [0]) == Render(c, t, false, 0) + [0]
  {
    hide Render;
    MinRender(c, t, 0, 0, [0]);
  }
}
