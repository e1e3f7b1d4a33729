/** Parsing undoes printing: `cJSON_ParseWithOpts` on the text of `cJSON_Print` and `cJSON_PrintUnformatted`. */
module RoundTrip {
  import opened CText
  import opened Doubles
  import opened Strings
  import opened StringProofs
  import opened Json
  import opened Parser

  predicate Blank(s: bytes) {
    forall i :: 0 <= i < |s| ==> s[i] <= 32
  }

  lemma {:induction false} SkipBlank(ws: bytes, w: bytes)
    requires Blank(ws) && |w| >= 1 && w[0] > 32
    ensures SkipWs(ws + w) == w
    decreases |ws|
  {
    if ws == [] {
      assert ws + w == w;
    } else {
      assert (ws + w)[1..] == ws[1..] + w;
      SkipBlank(ws[1..], w);
    }
  }

  /** Past one byte and blanks. */
  lemma TokenAfter(c: uchar, ws: bytes, w: bytes)
    requires c != 0 && Blank(ws) && Terminated([c] + ws + w) && |w| >= 1 && w[0] > 32
    ensures NextToken([c] + ws + w) == w
  {
    assert ([c] + ws + w)[1..] == ws + w;
    SkipBlank(ws, w);
  }

  /** What every printed value starts with: never a blank, a closing bracket or brace, or NUL. */
  predicate ValueStart(s: bytes) {
    s != [] && s[0] > 32 && s[0] != RBRACKET && s[0] != RBRACE
  }

  lemma RenderStart(c: Codec, t: Json, fmt: bool, d: nat)
    requires c.Valid() && Printable(c, t) && RawFree(t)
    ensures ValueStart(Render(c, t, fmt, d))
  {
    hide Quoted, RenderItems, RenderMembers;
    match t
    case Number(x) => if x.Finite? { ShownReadsBack(c, x.bits); }
    case _ =>
  }

  lemma NotLiteral(u: bytes)
    requires |u| >= 1 && u[0] != 110 && u[0] != 102 && u[0] != 116
    ensures ParseLiteral(u) == Err(u)
  {
    assert forall w: bytes :: StartsWith(u, w) && w != [] ==> u[..|w|][0] == w[0] == u[0];
  }

  lemma LiteralRead(w: cstring, rest: bytes)
    requires w == NULL_TEXT || w == TRUE_TEXT || w == FALSE_TEXT
    ensures ParseLiteral(w + rest)
         == Ok(if w == NULL_TEXT then Null else if w == TRUE_TEXT then True else False, rest)
  {
    var u := w + rest;
    assert u[..|w|] == w && u[|w|..] == rest;
    assert u[..1][0] == w[0] == u[0];
    if w != NULL_TEXT { assert u[..|NULL_TEXT|][0] == u[0]; }
    if w == TRUE_TEXT && |u| >= |FALSE_TEXT| { assert u[..|FALSE_TEXT|][0] == u[0]; }
  }

  lemma {:induction false} NumberRunWhole(s: bytes, rest: bytes, room: nat)
    requires forall i :: 0 <= i < |s| ==> NumberByte(s[i])
    requires |s| <= room && |rest| >= 1 && !NumberByte(rest[0])
    ensures NumberRun(s + rest, room) == |s|
    decreases |s|
  {
    if s == [] {
      assert s + rest == rest;
    } else {
      assert (s + rest)[1..] == s[1..] + rest;
      NumberRunWhole(s[1..], rest, room - 1);
    }
  }

  lemma NumberRead(c: Codec, p: pattern, rest: bytes)
    requires c.Valid() && |rest| >= 1 && !NumberByte(rest[0])
    ensures ParseNumber(c, c.Show(p) + rest) == Ok(Number(Finite(p)), rest)
  {
    var s := c.Show(p);
    ShownReadsBack(c, p);
    NumberRunWhole(s, rest, NUMBER_BUFFER);
    assert (s + rest)[..|s|] == s && (s + rest)[|s|..] == rest;
  }

  /** The outcome wanted: the value when the nesting fits under the limit, an error when it does not. */
  ghost predicate ReadsBack<T>(r: Parsed<T>, fits: bool, value: T, rest: bytes) {
    if fits then r == Ok(value, rest) else r.Err?
  }

  lemma ParseRenderNumber(c: Codec, x: Double, fmt: bool, d: nat, depth: nat, rest: bytes)
    requires c.Valid() && Terminated(rest) && !NumberByte(rest[0])
    ensures var t := Number(x);
            && Terminated(Render(c, t, fmt, d) + rest)
            && ParseValue(c, Render(c, t, fmt, d) + rest, depth) == Ok(Normal(t), rest)
  {
    hide ParseNumber, ParseText, ParseArray, ParseObject, ParseLiteral;
    TerminatedConcat(Render(c, Number(x), fmt, d), rest);
    if x.Finite? {
      ShownReadsBack(c, x.bits);
      NotLiteral(c.Show(x.bits) + rest);
      NumberRead(c, x.bits, rest);
    } else {
      LiteralRead(NULL_TEXT, rest);
    }
  }

  lemma ParseRenderString(c: Codec, s: CStr, fmt: bool, d: nat, depth: nat, rest: bytes)
    requires Terminated(rest)
    ensures var t := String(s);
            && Terminated(Render(c, t, fmt, d) + rest)
            && ParseValue(c, Render(c, t, fmt, d) + rest, depth) == Ok(Normal(t), rest)
  {
    hide ParseString, Quoted, ParseArray, ParseObject, ParseNumber, ParseLiteral;
    TerminatedConcat(Render(c, String(s), fmt, d), rest);
    NotLiteral(Quoted(s) + rest);
    ParseQuoted(s, rest);
  }

  /** Reading the text of a value, with anything but a number byte after it. */
  lemma {:induction false} ParseRender(c: Codec, t: Json, fmt: bool, d: nat, depth: nat, rest: bytes)
    requires c.Valid() && Printable(c, t) && RawFree(t) && depth <= NESTING_LIMIT
    requires Terminated(rest) && !NumberByte(rest[0])
    ensures Terminated(Render(c, t, fmt, d) + rest)
    ensures ReadsBack(ParseValue(c, Render(c, t, fmt, d) + rest, depth),
                      depth + Nesting(t) <= NESTING_LIMIT, Normal(t), rest)
    decreases t, 2
  {
    hide ParseString, ParseText, Quoted, ParseArray, ParseObject, RenderItems, RenderMembers, ParseNumber;
    var u := Render(c, t, fmt, d) + rest;
    TerminatedConcat(Render(c, t, fmt, d), rest);
    match t
    case Null => LiteralRead(NULL_TEXT, rest);
    case False => LiteralRead(FALSE_TEXT, rest);
    case True => LiteralRead(TRUE_TEXT, rest);
    case Number(x) => ParseRenderNumber(c, x, fmt, d, depth, rest);
    case String(s) => ParseRenderString(c, s, fmt, d, depth, rest);
    case Array(child) =>
      NotLiteral(u);
      ParseRenderArray(c, child, fmt, d, depth, rest);
    case Object(child) =>
      NotLiteral(u);
      ParseRenderObject(c, child, fmt, d, depth, rest);
  }

  lemma RenderedArray(c: Codec, child: Chain, fmt: bool, d: nat, rest: bytes)
    ensures Render(c, Array(child), fmt, d) + rest
         == [LBRACKET] + [] + (RenderItems(c, child, fmt, d + 1) + [RBRACKET] + rest)
  {
    hide RenderItems;
  }

  lemma ItemsStart(c: Codec, ch: Chain, fmt: bool, d: nat)
    requires c.Valid() && PrintableChain(c, ch) && RawFreeChain(ch) && ch.Link?
    ensures ValueStart(RenderItems(c, ch, fmt, d))
  {
    hide Render;
    RenderStart(c, ch.value, fmt, d);
  }

  lemma {:induction false} ParseRenderArray(c: Codec, child: Chain, fmt: bool, d: nat, depth: nat, rest: bytes)
    requires c.Valid() && PrintableChain(c, child) && RawFreeChain(child) && depth <= NESTING_LIMIT
    requires Terminated(rest)
    ensures Terminated(Render(c, Array(child), fmt, d) + rest)
    ensures (Render(c, Array(child), fmt, d) + rest)[0] == LBRACKET
    ensures ReadsBack(ParseArray(c, Render(c, Array(child), fmt, d) + rest, depth),
                    depth + 1 + NestingChain(child) <= NESTING_LIMIT, Array(NormalChain(child, false)), rest)
    decreases child, 1
  {
    hide Render, ParseItems, RenderItems, SkipWs, NextToken;
    var inner := RenderItems(c, child, fmt, d + 1) + [RBRACKET] + rest;
    TerminatedConcat(Render(c, Array(child), fmt, d), rest);
    RenderedArray(c, child, fmt, d, rest);
    if depth < NESTING_LIMIT {
      if child.End? {
        ItemsEnd(c, fmt, d + 1);
        assert inner == [RBRACKET] + rest;
        TokenAfter(LBRACKET, [], inner);
        assert inner[1..] == rest;
      } else {
        ItemsStart(c, child, fmt, d + 1);
        TokenAfter(LBRACKET, [], inner);
        ParseRenderItems(c, child, fmt, d + 1, depth + 1, rest);
      }
    }
  }

  lemma ItemsEnd(c: Codec, fmt: bool, d: nat)
    ensures RenderItems(c, End, fmt, d) == []
  {
  }

  /** The text after an element: the separator and the elements left, or the closing bracket. */
  function ItemsAfter(c: Codec, next: Chain, fmt: bool, d: nat, rest: bytes): bytes {
    if next.End? then [RBRACKET] + rest
    else [COMMA] + (if fmt then [SPACE] else []) + (RenderItems(c, next, fmt, d) + [RBRACKET] + rest)
  }

  lemma RenderedItems(c: Codec, ch: Chain, fmt: bool, d: nat, rest: bytes)
    requires ch.Link?
    ensures RenderItems(c, ch, fmt, d) + [RBRACKET] + rest
         == Render(c, ch.value, fmt, d) + ItemsAfter(c, ch.next, fmt, d, rest)
  {
    hide Render;
    if ch.next.End? {
      ItemsEnd(c, fmt, d);
    }
  }

  lemma AfterItem(c: Codec, next: Chain, fmt: bool, d: nat, rest: bytes)
    requires c.Valid() && PrintableChain(c, next) && RawFreeChain(next) && Terminated(rest)
    ensures var after := ItemsAfter(c, next, fmt, d, rest);
            && Terminated(after) && after[0] > 32 && !NumberByte(after[0])
            && (next.End? ==> after[0] == RBRACKET && after[1..] == rest)
            && (next.Link? ==>
                  after[0] == COMMA && NextToken(after) == RenderItems(c, next, fmt, d) + [RBRACKET] + rest)
  {
    hide RenderItems, NextToken;
    var after := ItemsAfter(c, next, fmt, d, rest);
    if next.End? {
      TerminatedConcat([RBRACKET], rest);
    } else {
      var more := RenderItems(c, next, fmt, d) + [RBRACKET] + rest;
      var gap: bytes := if fmt then [SPACE] else [];
      TerminatedConcat([COMMA] + gap + RenderItems(c, next, fmt, d) + [RBRACKET], rest);
      assert after == [COMMA] + gap + RenderItems(c, next, fmt, d) + [RBRACKET] + rest;
      ItemsStart(c, next, fmt, d);
      TokenAfter(COMMA, gap, more);
    }
  }

  /** One turn of the element loop. */
  lemma ItemsStep(c: Codec, v: bytes, depth: nat)
    requires Terminated(v)
    ensures var r := ParseValue(c, v, depth);
            && (r.Err? ==> ParseItems(c, v, depth).Err?)
            && (r.Ok? ==>
                  var w := SkipWs(r.rest);
                  && Terminated(w)
                  && (w[0] == RBRACKET ==> ParseItems(c, v, depth) == Ok(Link(Missing, r.value, End), w[1..]))
                  && (w[0] == COMMA ==>
                        var more := ParseItems(c, NextToken(w), depth);
                        if more.Ok? then ParseItems(c, v, depth) == Ok(Link(Missing, r.value, more.value), more.rest)
                        else ParseItems(c, v, depth).Err?)
                  && (w[0] != RBRACKET && w[0] != COMMA ==> ParseItems(c, v, depth).Err?))
  {
    hide ParseValue, SkipWs;
    var r := ParseValue(c, v, depth);
    if r.Ok? {
      SkipWsTerminated(r.rest);
    }
  }

  lemma {:induction false} ParseRenderItems(c: Codec, ch: Chain, fmt: bool, d: nat, depth: nat, rest: bytes)
    requires c.Valid() && PrintableChain(c, ch) && RawFreeChain(ch) && ch.Link? && depth <= NESTING_LIMIT
    requires Terminated(rest)
    ensures Terminated(RenderItems(c, ch, fmt, d) + [RBRACKET] + rest)
    ensures ReadsBack(ParseItems(c, RenderItems(c, ch, fmt, d) + [RBRACKET] + rest, depth),
                    depth + NestingChain(ch) <= NESTING_LIMIT, NormalChain(ch, false), rest)
    decreases ch, 0
  {
    hide Render, ParseValue, RenderItems, NextToken, ParseItems, ItemsAfter;
    var after := ItemsAfter(c, ch.next, fmt, d, rest);
    RenderedItems(c, ch, fmt, d, rest);
    AfterItem(c, ch.next, fmt, d, rest);
    ParseRender(c, ch.value, fmt, d, depth, after);
    ItemsStep(c, Render(c, ch.value, fmt, d) + after, depth);
    assert SkipWs(after) == after;
    if ch.next.Link? {
      ParseRenderItems(c, ch.next, fmt, d, depth, rest);
    }
  }

  // ----- objects -----

  /** The members without the indent of the first one. */
  function MembersBody(c: Codec, ch: Chain, fmt: bool, d: nat): cstring
    requires ch.Link?
  {
    Quoted(ch.key) + KeySeparator(fmt) + Render(c, ch.value, fmt, d) + MemberEnd(fmt, ch.next.End?)
    + RenderMembers(c, ch.next, fmt, d)
  }

  lemma MembersFromBody(c: Codec, ch: Chain, fmt: bool, d: nat)
    requires ch.Link?
    ensures RenderMembers(c, ch, fmt, d) == Indent(fmt, d) + MembersBody(c, ch, fmt, d)
  {
    hide Render, Quoted;
  }

  /** The text after a member value: the end of the line and the members left, or the closing brace. */
  function MembersAfter(c: Codec, next: Chain, fmt: bool, d: nat, close: bytes): bytes {
    MemberEnd(fmt, next.End?) + RenderMembers(c, next, fmt, d) + close
  }

  function CloseOf(blank: bytes, rest: bytes): bytes {
    blank + [RBRACE] + rest
  }

  lemma LastMemberText(c: Codec, fmt: bool, d: nat, blank: cstring, rest: bytes)
    ensures MembersAfter(c, End, fmt, d, CloseOf(blank, rest)) == MemberEnd(fmt, true) + blank + ([RBRACE] + rest)
  {
  }

  lemma BlankFront(ws: bytes, w: bytes)
    requires Blank(ws) && w != [] && !NumberByte(w[0])
    ensures !NumberByte((ws + w)[0])
  {
    assert (ws + w)[0] == if ws == [] then w[0] else ws[0];
  }

  lemma AfterLastMember(c: Codec, fmt: bool, d: nat, blank: cstring, rest: bytes)
    requires Terminated(rest) && Blank(blank)
    ensures var after := MembersAfter(c, End, fmt, d, CloseOf(blank, rest));
            Terminated(after) && !NumberByte(after[0]) && SkipWs(after) == [RBRACE] + rest
  {
    hide SkipWs, MembersAfter, CloseOf, Terminated, NumberByte;
    var ws: cstring := MemberEnd(fmt, true) + blank;
    var w := [RBRACE] + rest;
    LastMemberText(c, fmt, d, blank, rest);
    TerminatedConcat([RBRACE], rest);
    TerminatedConcat(ws, w);
    SkipBlank(ws, w);
    BraceIsNoNumber();
    BlankFront(ws, w);
  }

  lemma BraceIsNoNumber()
    ensures !NumberByte(RBRACE)
  {
  }

  lemma AfterMember(c: Codec, next: Chain, fmt: bool, d: nat, blank: cstring, rest: bytes)
    requires Terminated(rest) && Blank(blank) && next.Link?
    ensures var after := MembersAfter(c, next, fmt, d, CloseOf(blank, rest));
            && Terminated(after) && after[0] == COMMA
            && NextToken(after) == MembersBody(c, next, fmt, d) + CloseOf(blank, rest)
  {
    hide RenderMembers, NextToken, MembersBody;
    var body := MembersBody(c, next, fmt, d);
    var close := CloseOf(blank, rest);
    var gap: cstring := (if fmt then [LF] else []) + Indent(fmt, d);
    MembersFromBody(c, next, fmt, d);
    BodyStart(c, next, fmt, d);
    assert MembersAfter(c, next, fmt, d, close) == [COMMA] + gap + (body + close);
    TerminatedConcat([COMMA] + gap + body + blank + [RBRACE], rest);
    assert [COMMA] + gap + (body + close) == [COMMA] + gap + body + blank + [RBRACE] + rest;
    TokenAfter(COMMA, gap, body + close);
  }

  lemma MembersEnd(c: Codec, fmt: bool, d: nat)
    ensures RenderMembers(c, End, fmt, d) == []
  {
  }

  lemma BodyStart(c: Codec, ch: Chain, fmt: bool, d: nat)
    requires ch.Link?
    ensures MembersBody(c, ch, fmt, d) != [] && MembersBody(c, ch, fmt, d)[0] == QUOTE
  {
    hide Render, RenderMembers;
  }

  lemma NameRead(key: CStr, fmt: bool, w: bytes)
    requires Terminated(w) && w[0] > 32
    ensures Terminated(Quoted(key) + KeySeparator(fmt) + w)
    ensures ParseName(Quoted(key) + KeySeparator(fmt) + w) == Ok(TextOf(key), w)
  {
    hide ParseString, Quoted, NextToken;
    var colon := KeySeparator(fmt) + w;
    var gap: bytes := if fmt then [TAB] else [];
    assert Quoted(key) + KeySeparator(fmt) + w == Quoted(key) + colon;
    TerminatedConcat(Quoted(key) + KeySeparator(fmt), w);
    TerminatedConcat(KeySeparator(fmt), w);
    ParseQuoted(key, colon);
    assert colon == [COLON] + gap + w;
    TokenAfter(COLON, gap, w);
  }

  /** One turn of the member loop. */
  lemma MembersStep(c: Codec, v: bytes, depth: nat, key: cstring, x: bytes)
    requires Terminated(v) && ParseName(v) == Ok(key, x)
    ensures var r := ParseValue(c, x, depth);
            && (r.Err? ==> ParseMembers(c, v, depth).Err?)
            && (r.Ok? ==>
                  var w := SkipWs(r.rest);
                  && Terminated(w)
                  && (w[0] == RBRACE ==> ParseMembers(c, v, depth) == Ok(Link(Chars(key), r.value, End), w[1..]))
                  && (w[0] == COMMA ==>
                        var more := ParseMembers(c, NextToken(w), depth);
                        if more.Ok? then
                          ParseMembers(c, v, depth) == Ok(Link(Chars(key), r.value, more.value), more.rest)
                        else ParseMembers(c, v, depth).Err?)
                  && (w[0] != RBRACE && w[0] != COMMA ==> ParseMembers(c, v, depth).Err?))
  {
    hide ParseValue, ParseName, SkipWs;
    var r := ParseValue(c, x, depth);
    if r.Ok? {
      SkipWsTerminated(r.rest);
    }
  }

  lemma BodyText(c: Codec, ch: Chain, fmt: bool, d: nat, close: bytes)
    requires ch.Link?
    ensures MembersBody(c, ch, fmt, d) + close
         == Quoted(ch.key) + KeySeparator(fmt) + (Render(c, ch.value, fmt, d) + MembersAfter(c, ch.next, fmt, d, close))
  {
    hide Render, RenderMembers, Quoted;
  }

  lemma {:induction false} ParseRenderMembers(c: Codec, ch: Chain, fmt: bool, d: nat, depth: nat, blank: cstring,
                                              rest: bytes)
    requires c.Valid() && PrintableChain(c, ch) && RawFreeChain(ch) && ch.Link? && depth <= NESTING_LIMIT
    requires Terminated(rest) && Blank(blank)
    ensures Terminated(MembersBody(c, ch, fmt, d) + CloseOf(blank, rest))
    ensures ReadsBack(ParseMembers(c, MembersBody(c, ch, fmt, d) + CloseOf(blank, rest), depth),
                    depth + NestingChain(ch) <= NESTING_LIMIT, NormalChain(ch, true), rest)
    decreases ch, 0
  {
    hide Render, ParseValue, NextToken, ParseMembers, MembersAfter, MembersBody;
    hide ParseName, Quoted, KeySeparator, SkipWs;
    var close := CloseOf(blank, rest);
    var after := MembersAfter(c, ch.next, fmt, d, close);
    var value := Render(c, ch.value, fmt, d);
    if ch.next.End? {
      AfterLastMember(c, fmt, d, blank, rest);
    } else {
      AfterMember(c, ch.next, fmt, d, blank, rest);
      assert SkipWs(after) == after by { SkipBlank([], after); assert [] + after == after; }
    }
    ParseRender(c, ch.value, fmt, d, depth, after);
    RenderStart(c, ch.value, fmt, d);
    BodyText(c, ch, fmt, d, close);
    NameRead(ch.key, fmt, value + after);
    MembersStep(c, MembersBody(c, ch, fmt, d) + close, depth, TextOf(ch.key), value + after);
    if ch.next.Link? {
      ParseRenderMembers(c, ch.next, fmt, d, depth, blank, rest);
    } else {
      assert ([RBRACE] + rest)[1..] == rest;
    }
  }

  lemma RenderedEmptyObject(c: Codec, fmt: bool, d: nat, rest: bytes)
    ensures Render(c, Object(End), fmt, d) + rest
         == [LBRACE] + ((if fmt then [LF] else []) + Indent(fmt, d)) + ([RBRACE] + rest)
  {
    MembersEnd(c, fmt, d + 1);
  }

  lemma RenderedObject(c: Codec, child: Chain, fmt: bool, d: nat, rest: bytes)
    requires child.Link?
    ensures Render(c, Object(child), fmt, d) + rest
         == [LBRACE] + ((if fmt then [LF] else []) + Indent(fmt, d + 1))
            + (MembersBody(c, child, fmt, d + 1) + CloseOf(Indent(fmt, d), rest))
  {
    hide Render, RenderMembers, MembersBody, Tabs;
    ObjectText(c, child, fmt, d);
    MembersFromBody(c, child, fmt, d + 1);
    var gap: bytes := if fmt then [LF] else [];
    assert ObjectOpen(fmt) == [LBRACE] + gap && ObjectClose(fmt, d) == Indent(fmt, d) + [RBRACE];
    Splice([LBRACE], gap, Indent(fmt, d + 1), MembersBody(c, child, fmt, d + 1), Indent(fmt, d), [RBRACE], rest);
  }

  lemma Splice(open: bytes, gap: bytes, indent: bytes, body: bytes, blank: bytes, close: bytes, rest: bytes)
    ensures (open + gap) + (indent + body) + (blank + close) + rest
         == open + (gap + indent) + (body + (blank + close + rest))
  {
  }

  lemma ObjectUnfolds(c: Codec, u: bytes, depth: nat)
    requires Terminated(u) && u[0] == LBRACE
    ensures depth >= NESTING_LIMIT ==> ParseObject(c, u, depth).Err?
    ensures depth < NESTING_LIMIT ==>
              var v := NextToken(u);
              && (v[0] == RBRACE ==> ParseObject(c, u, depth) == Ok(Object(End), v[1..]))
              && (v[0] != RBRACE ==> ParseObject(c, u, depth) == match ParseMembers(c, v, depth + 1)
                                                                 case Ok(ch, rest) => Ok(Object(ch), rest)
                                                                 case Err(rest) => Err(rest))
  {
    hide NextToken, ParseMembers, Terminated;
  }

  lemma ParseRenderEmptyObject(c: Codec, fmt: bool, d: nat, depth: nat, rest: bytes)
    requires depth < NESTING_LIMIT && Terminated(rest)
    ensures var u := Render(c, Object(End), fmt, d) + rest;
            Terminated(u) && u[0] == LBRACE && ParseObject(c, u, depth) == Ok(Object(End), rest)
  {
    hide Render, ParseObject, ParseMembers, SkipWs, NextToken, Indent;
    TerminatedConcat(Render(c, Object(End), fmt, d), rest);
    RenderedEmptyObject(c, fmt, d, rest);
    TokenAfter(LBRACE, (if fmt then [LF] else []) + Indent(fmt, d), [RBRACE] + rest) by { IndentBlank(fmt, d); }
    assert ([RBRACE] + rest)[1..] == rest;
    ObjectUnfolds(c, Render(c, Object(End), fmt, d) + rest, depth);
  }

  lemma IndentBlank(fmt: bool, d: nat)
    ensures Blank(Indent(fmt, d)) && Blank((if fmt then [LF] else []) + Indent(fmt, d))
    ensures NulFree((if fmt then [LF] else []) + Indent(fmt, d))
  {
  }

  lemma {:induction false} ParseRenderFullObject(c: Codec, child: Chain, fmt: bool, d: nat, depth: nat, rest: bytes)
    requires c.Valid() && PrintableChain(c, child) && RawFreeChain(child) && depth < NESTING_LIMIT && child.Link?
    requires Terminated(rest)
    ensures var u := Render(c, Object(child), fmt, d) + rest;
            && Terminated(u) && u[0] == LBRACE
            && ReadsBack(ParseObject(c, u, depth), depth + 1 + NestingChain(child) <= NESTING_LIMIT,
                       Object(NormalChain(child, true)), rest)
    decreases child, 1
  {
    hide Render, ParseObject, ParseMembers, RenderMembers, SkipWs, NextToken, MembersBody, Indent, CloseOf;
    TerminatedConcat(Render(c, Object(child), fmt, d), rest);
    RenderedObject(c, child, fmt, d, rest);
    IndentBlank(fmt, d);
    IndentBlank(fmt, d + 1);
    BodyStart(c, child, fmt, d + 1);
    TokenAfter(LBRACE, (if fmt then [LF] else []) + Indent(fmt, d + 1),
               MembersBody(c, child, fmt, d + 1) + CloseOf(Indent(fmt, d), rest));
    ParseRenderMembers(c, child, fmt, d + 1, depth + 1, Indent(fmt, d), rest);
    ObjectUnfolds(c, Render(c, Object(child), fmt, d) + rest, depth);
  }

  lemma {:induction false} ParseRenderObject(c: Codec, child: Chain, fmt: bool, d: nat, depth: nat, rest: bytes)
    requires c.Valid() && PrintableChain(c, child) && RawFreeChain(child) && depth <= NESTING_LIMIT
    requires Terminated(rest)
    ensures Terminated(Render(c, Object(child), fmt, d) + rest)
    ensures (Render(c, Object(child), fmt, d) + rest)[0] == LBRACE
    ensures ReadsBack(ParseObject(c, Render(c, Object(child), fmt, d) + rest, depth),
                    depth + 1 + NestingChain(child) <= NESTING_LIMIT, Object(NormalChain(child, true)), rest)
    decreases child, 2
  {
    hide Render, ParseObject;
    if depth == NESTING_LIMIT {
      ObjectFront(c, child, fmt, d, rest);
      ObjectUnfolds(c, Render(c, Object(child), fmt, d) + rest, depth);
    } else if child.End? {
      ParseRenderEmptyObject(c, fmt, d, depth, rest);
    } else {
      ParseRenderFullObject(c, child, fmt, d, depth, rest);
    }
  }

  lemma ObjectFront(c: Codec, child: Chain, fmt: bool, d: nat, rest: bytes)
    requires Terminated(rest)
    ensures Terminated(Render(c, Object(child), fmt, d) + rest)
    ensures (Render(c, Object(child), fmt, d) + rest)[0] == LBRACE
  {
    hide RenderMembers;
    ObjectText(c, child, fmt, d);
    TerminatedConcat(Render(c, Object(child), fmt, d), rest);
  }

  // ----- the whole text -----

  /**
   * Printing, formatted or not, then parsing with `require_null_terminated`: within the nesting limit
   * everything is consumed and the result is the item printed, as Normal describes it; beyond the limit
   * the text is refused.
   */
  lemma ParsePrinted(c: Codec, t: Json, fmt: bool)
    requires c.Valid() && Printable(c, t) && RawFree(t)
    ensures Terminated(Render(c, t, fmt, 0) + [0])
    ensures ReadsBack(Parse(c, Render(c, t, fmt, 0) + [0], true), Nesting(t) <= 1000, Normal(t), [0])
  {
    hide Render, ParseValue, Parse, SkipBom, SkipWs, Normal, Nesting;
    var u := Render(c, t, fmt, 0) + [0];
    RenderStart(c, t, fmt, 0);
    ParseRender(c, t, fmt, 0, 0, [0]);
    FirstOfRender(c, t, fmt, u);
    NothingSkipped(u);
    ParseTight(c, u);
  }

  lemma NothingSkipped(u: bytes)
    requires |u| >= 1 && u[0] > 32
    ensures SkipWs(u) == u
  {
  }

  lemma ParseTight(c: Codec, u: bytes)
    requires Terminated(u) && SkipWs(u) == u && SkipBom(u) == u
    ensures var one := ParseValue(c, u, 0);
            && (one.Err? ==> Parse(c, u, true).Err?)
            && (one.Ok? && one.rest == [0] ==> Parse(c, u, true) == Ok(one.value, [0]))
  {
    hide ParseValue, SkipBom;
  }

  lemma FirstOfRender(c: Codec, t: Json, fmt: bool, u: bytes)
    requires c.Valid() && Printable(c, t) && RawFree(t) && u == Render(c, t, fmt, 0) + [0] && Terminated(u)
    ensures SkipBom(u) == u && u[0] > 32
  {
    hide Quoted, RenderItems, RenderMembers;
    RenderStart(c, t, fmt, 0);
    assert u[0] == Render(c, t, fmt, 0)[0];
    assert u[0] != 0xEF by {
      match t
      case Number(x) => if x.Finite? { ShownReadsBack(c, x.bits); }
      case _ =>
    }
    assert |u| > 4 ==> u[..3][0] == u[0];
  }

  /**
   * The round trip gives back exactly the item printed if and only if it is within the nesting limit and
   * holds no NaN, no infinity, no NULL string and no NULL or superfluous name.
   */
  lemma RoundTripExact(c: Codec, t: Json, fmt: bool)
    requires c.Valid() && Printable(c, t) && RawFree(t)
    ensures Terminated(Render(c, t, fmt, 0) + [0])
    ensures Parse(c, Render(c, t, fmt, 0) + [0], true) == Ok(t, [0]) <==> Nesting(t) <= 1000 && Faithful(t)
  {
    hide Render, Parse, Printable, RawFree;
    ParsePrinted(c, t, fmt);
    FaithfulIsNormal(t);
  }
}
