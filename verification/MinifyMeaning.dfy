/** Minifying an accepted text keeps its meaning, stays inside the buffer and has nothing left to do a second time. */
module MinifyMeaning {
  import opened CText
  import opened Doubles
  import opened Strings
  import opened StringProofs
  import opened Json
  import opened Parser
  import opened RoundTrip
  import opened Minify

  /** No slash outside string literals, and every literal closed: what the parser accepts is like that. */
  predicate SlashFree(u: bytes)
    decreases |u|
  {
    if u == [] then false
    else if u[0] == 0 then true
    else if u[0] == SLASH then false
    else if u[0] == QUOTE then
      match ScanQuote(u[1..])
      case NotFound => false
      case At(n) => SlashFree(u[n + 2..])
    else SlashFree(u[1..])
  }

  lemma {:induction false} SlashFreeIsClosed(u: bytes)
    requires SlashFree(u)
    ensures Closed(u)
    decreases |u|
  {
    hide ScanQuote;
    if u[0] == QUOTE {
      SlashFreeIsClosed(u[ScanQuote(u[1..]).n + 2..]);
    } else if u[0] != 0 {
      SlashFreeIsClosed(u[1..]);
    }
  }

  lemma LiteralNulFree(u: bytes, n: nat)
    requires Terminated(u) && n + 2 < |u|
    ensures NulFree(u[..n + 2])
  {
  }

  lemma LiteralAgain(lit: bytes, x: bytes, y: bytes, n: nat)
    requires |lit| == n + 2 && lit[0] == QUOTE && ScanQuote((lit + x)[1..]) == At(n)
    ensures ScanQuote((lit + y)[1..]) == At(n)
    ensures (lit + y)[..n + 2] == lit && (lit + y)[n + 2..] == y
  {
    hide ScanQuote;
    var v, w := (lit + x)[1..], (lit + y)[1..];
    assert v[..n + 1] == lit[1..] == w[..n + 1];
    ScanLocal(v, w, n);
  }

  /** Minifying plain text gives plain text with nothing left to drop. */
  lemma {:induction false} SlashFreeMin(u: bytes)
    requires SlashFree(u) && Terminated(u)
    ensures Terminated(Min(u)) && SlashFree(Min(u)) && Min(Min(u)) == Min(u)
    decreases |u|
  {
    hide ScanQuote;
    TerminatedHead(u);
    if u[0] == 0 {
    } else if u[0] == QUOTE {
      SlashFreeMinLiteral(u);
    } else {
      SlashFreeMin(u[1..]);
      if !Dropped(u[0]) {
        MinOneByte(u[0], Min(u[1..]));
      }
    }
  }

  lemma MinOneByte(b: uchar, m: bytes)
    requires KeptByte(b) && Terminated(m) && SlashFree(m) && Min(m) == m
    ensures Terminated([b] + m) && SlashFree([b] + m) && Min([b] + m) == [b] + m
  {
    assert ([b] + m)[1..] == m;
    TerminatedConcat([b], m);
  }

  lemma LiteralPlain(u: bytes)
    requires u != [] && u[0] == QUOTE
    ensures SlashFree(u) == (ScanQuote(u[1..]).At? && SlashFree(u[ScanQuote(u[1..]).n + 2..]))
  {
    hide ScanQuote;
  }

  lemma {:induction false} SlashFreeMinLiteral(u: bytes)
    requires SlashFree(u) && Terminated(u) && u[0] == QUOTE
    ensures Terminated(Min(u)) && SlashFree(Min(u)) && Min(Min(u)) == Min(u)
    decreases |u|, 0
  {
    hide ScanQuote, Min, SlashFree;
    LiteralPlain(u);
    LiteralMin(u);
    var n := ScanQuote(u[1..]).n;
    var lit, rest := u[..n + 2], u[n + 2..];
    assert u == lit + rest;
    SlashFreeNotEmpty(rest);
    TerminatedTail(u, n + 2);
    SlashFreeMin(rest);
    LiteralNulFree(u, n);
    TerminatedConcat(lit, Min(rest));
    LiteralAgain(lit, rest, Min(rest), n);
    LiteralMin(lit + Min(rest));
    LiteralPlain(lit + Min(rest));
  }

  lemma SlashFreeNotEmpty(u: bytes)
    requires SlashFree(u)
    ensures u != []
  {
  }

  // ----- going back over what the parser consumed -----

  lemma {:induction false} SlashFreeAfterBytes(s: bytes, rest: bytes)
    requires forall i :: 0 <= i < |s| ==> s[i] != 0 && s[i] != SLASH && s[i] != QUOTE
    requires SlashFree(rest)
    ensures SlashFree(s + rest)
    decreases |s|
  {
    if s == [] {
      assert s + rest == rest;
    } else {
      assert (s + rest)[1..] == s[1..] + rest;
      SlashFreeAfterBytes(s[1..], rest);
    }
  }

  lemma SlashFreeStep(u: bytes)
    requires u != [] && u[0] != 0 && u[0] != SLASH && u[0] != QUOTE
    ensures SlashFree(u) == SlashFree(u[1..])
  {
  }

  lemma SkipWsStep(u: bytes)
    requires |u| >= 1
    ensures SkipWs(u) == if |u| > 1 && u[0] <= 32 then SkipWs(u[1..]) else u
  {
  }

  lemma MinBlankStep(u: bytes)
    requires u != [] && 0 < u[0] <= 32
    ensures Min(u) == if Dropped(u[0]) then Min(u[1..]) else [u[0]] + Min(u[1..])
  {
  }

  lemma MinFirst(u: bytes)
    requires SlashFree(u) && u[0] > 32
    ensures |Min(u)| >= 1 && Min(u)[0] == u[0]
  {
    hide ScanQuote;
  }

  /** Whitespace before plain text, in the sense of the parser. */
  lemma {:induction false} SlashFreeBlank(u: bytes)
    requires Terminated(u) && SlashFree(SkipWs(u))
    ensures SlashFree(u)
    decreases |u|
  {
    hide SlashFree, SkipWs;
    SkipWsStep(u);
    if |u| > 1 && u[0] <= 32 {
      TerminatedHead(u);
      SlashFreeBlank(u[1..]);
      SlashFreeStep(u);
    }
  }

  lemma SlashFreeToken(u: bytes)
    requires Terminated(u) && u[0] != 0 && u[0] != SLASH && u[0] != QUOTE && SlashFree(NextToken(u))
    ensures SlashFree(u) && SlashFree(u[1..])
  {
    TerminatedHead(u);
    SlashFreeBlank(u[1..]);
  }

  /** Skipping whitespace commutes with minifying, unless a comment comes next. */
  lemma {:induction false} SkipWsMin(u: bytes)
    requires Terminated(u) && SlashFree(SkipWs(u))
    ensures |Min(u)| >= 1 && SkipWs(Min(u)) == Min(SkipWs(u))
    decreases |u|
  {
    hide SlashFree, SkipWs, Min, Dropped;
    TerminatedHead(u);
    SkipWsStep(u);
    if |u| > 1 && u[0] <= 32 {
      SkipWsMin(u[1..]);
      MinBlankStep(u);
      if !Dropped(u[0]) {
        assert ([u[0]] + Min(u[1..]))[1..] == Min(u[1..]);
        SkipWsStep(Min(u));
      }
    } else if |u| > 1 {
      MinFirst(u);
      SkipWsStep(Min(u));
    } else {
      MinOfNul();
      assert u == [0];
      SkipWsStep([0]);
    }
  }

  lemma MinFront(u: bytes)
    requires Terminated(u) && u[0] > 32 && KeptByte(u[0])
    ensures Min(u) == [u[0]] + Min(u[1..])
  {
  }

  /** The token after a punctuation byte, minified. */
  lemma TokenMin(u: bytes)
    requires Terminated(u) && u[0] > 32 && KeptByte(u[0]) && SlashFree(NextToken(u))
    ensures SlashFree(u) && Terminated(Min(u)) && Min(u)[0] == u[0] && NextToken(Min(u)) == Min(NextToken(u))
  {
    hide SlashFree, Min, SkipWs;
    TerminatedHead(u);
    SlashFreeToken(u);
    SlashFreeMin(u);
    MinFront(u);
    SkipWsMin(u[1..]);
    assert Min(u)[1..] == Min(u[1..]);
  }

  /** What may come after a value: whitespace, then a comma, a closing bracket or brace, or the terminator. */
  predicate Delimited(rest: bytes)
    requires |rest| >= 1
  {
    var b := SkipWs(rest)[0];
    b == COMMA || b == RBRACKET || b == RBRACE || b == 0
  }

  lemma DelimitedFront(u: bytes)
    requires |u| >= 1 && Delimited(u)
    ensures !NumberByte(u[0])
  {
    hide SkipWs;
    SkipWsStep(u);
  }

  lemma DelimitedMin(rest: bytes)
    requires Terminated(rest) && SlashFree(rest) && Delimited(rest)
    ensures Terminated(Min(rest)) && !NumberByte(rest[0]) && !NumberByte(Min(rest)[0])
  {
    hide Min, SlashFree, SkipWs, Terminated, NumberByte;
    SlashFreeMin(rest);
    SlashFreeSkip(rest);
    SkipWsMin(rest);
    DelimiterMin(SkipWs(rest));
    DelimitedFront(rest);
    DelimitedFront(Min(rest));
  }

  lemma DelimiterMin(w: bytes)
    requires w != [] && (w[0] == COMMA || w[0] == RBRACKET || w[0] == RBRACE || w[0] == 0)
    ensures Min(w) != [] && Min(w)[0] == w[0]
  {
  }

  lemma MinOfNul()
    ensures Min([0]) == [0]
  {
  }

  lemma {:induction false} SlashFreeSkip(u: bytes)
    requires Terminated(u) && SlashFree(u)
    ensures SlashFree(SkipWs(u))
    decreases |u|
  {
    hide SlashFree, SkipWs;
    SkipWsStep(u);
    if |u| > 1 && u[0] <= 32 {
      TerminatedHead(u);
      SlashFreeStep(u);
      SlashFreeSkip(u[1..]);
    }
  }

  // ----- values -----

  lemma MinLiteralValue(u: bytes, t: Json, rest: bytes)
    requires Terminated(u) && ParseLiteral(u) == Ok(t, rest) && SlashFree(rest)
    ensures SlashFree(u) && ParseLiteral(Min(u)) == Ok(t, Min(rest))
  {
    hide Min, SlashFree;
    var w := if t == Null then NULL_TEXT else if t == False then FALSE_TEXT else TRUE_TEXT;
    assert u == w + rest;
    MinKept(w, rest);
    SlashFreeAfterBytes(w, rest);
    LiteralRead(w, Min(rest));
  }

  lemma StringShape(u: bytes, s: cstring, rest: bytes)
    requires |u| >= 1 && ParseString(u) == Ok(s, rest)
    ensures u[0] == QUOTE && ScanQuote(u[1..]).At?
    ensures var n := ScanQuote(u[1..]).n; |u| - |rest| == n + 2 && rest == u[n + 2..]
  {
    hide ScanQuote, Decode, UpToNul;
  }

  lemma MinTextValue(u: bytes, s: cstring, rest: bytes)
    requires Terminated(u) && ParseString(u) == Ok(s, rest) && SlashFree(rest)
    ensures SlashFree(u) && Min(u) == u[..|u| - |rest|] + Min(rest) && ParseString(Min(u)) == Ok(s, Min(rest))
  {
    hide ScanQuote, ParseString, Min, SlashFree;
    StringShape(u, s, rest);
    LiteralMin(u);
    LiteralPlain(u);
    var lit := u[..|u| - |rest|];
    assert u == lit + rest;
    ParseStringLocal(lit, rest, Min(rest), s);
  }

  lemma NumberShape(c: Codec, u: bytes, t: Json, rest: bytes)
    requires ParseNumber(c, u) == Ok(t, rest) && |rest| >= 1 && !NumberByte(rest[0])
    ensures var s := u[..|u| - |rest|];
            && u == s + rest && 0 < |s| <= NUMBER_BUFFER
            && (forall i :: 0 <= i < |s| ==> NumberByte(s[i]))
            && t.Number? && c.strtod(s) == Scan(t.d, |s|)
  {
    hide NumberRun, NumberByte;
    var run := NumberRun(u, NUMBER_BUFFER);
    var used := c.strtod(u[..run]).used;
    assert u[used] == rest[0];
  }

  lemma MinNumberValue(c: Codec, u: bytes, t: Json, rest: bytes)
    requires Terminated(u) && ParseNumber(c, u) == Ok(t, rest) && SlashFree(rest) && Terminated(rest) && Delimited(rest)
    ensures SlashFree(u) && ParseNumber(c, Min(u)) == Ok(t, Min(rest))
  {
    hide Min, SlashFree, NumberRun, Delimited, ParseNumber;
    DelimitedMin(rest);
    NumberShape(c, u, t, rest);
    var s := u[..|u| - |rest|];
    MinKept(s, rest);
    SlashFreeAfterBytes(s, rest);
    NumberReadBack(c, s, Min(rest), t);
  }

  lemma NumberReadBack(c: Codec, s: bytes, rest: bytes, t: Json)
    requires 0 < |s| <= NUMBER_BUFFER && (forall i :: 0 <= i < |s| ==> NumberByte(s[i]))
    requires |rest| >= 1 && !NumberByte(rest[0]) && t.Number? && c.strtod(s) == Scan(t.d, |s|)
    ensures ParseNumber(c, s + rest) == Ok(t, rest)
  {
    hide NumberRun, NumberByte;
    NumberRunWhole(s, rest, NUMBER_BUFFER);
    assert (s + rest)[..|s|] == s && (s + rest)[|s|..] == rest;
  }

  /** Which branch of `parse_value` a text takes. */
  lemma ValueBranch(c: Codec, u: bytes, depth: nat)
    requires Terminated(u)
    ensures ParseLiteral(u).Ok? ==> ParseValue(c, u, depth) == ParseLiteral(u)
    ensures u[0] == QUOTE ==> ParseValue(c, u, depth) == ParseText(u)
    ensures u[0] == MINUS || Digit(u[0]) ==> ParseValue(c, u, depth) == ParseNumber(c, u)
    ensures u[0] == LBRACKET ==> ParseValue(c, u, depth) == ParseArray(c, u, depth)
    ensures u[0] == LBRACE ==> ParseValue(c, u, depth) == ParseObject(c, u, depth)
    ensures ParseValue(c, u, depth).Ok? ==>
              || ParseLiteral(u).Ok? || u[0] == QUOTE || u[0] == MINUS || Digit(u[0])
              || u[0] == LBRACKET || u[0] == LBRACE
  {
    hide ParseText, ParseNumber, ParseArray, ParseObject, ParseLiteral;
    if u[0] != 110 && u[0] != 102 && u[0] != 116 {
      NotLiteral(u);
    }
  }

  lemma {:induction false} MinParse(c: Codec, u: bytes, depth: nat, t: Json, rest: bytes)
    requires Terminated(u) && ParseValue(c, u, depth) == Ok(t, rest) && SlashFree(rest) && Delimited(rest)
    ensures SlashFree(u) && Terminated(Min(u)) && ParseValue(c, Min(u), depth) == Ok(t, Min(rest))
    decreases |u|, 1
  {
    hide SlashFree, Min, ParseValue, ParseNumber, ParseArray, ParseObject, ParseLiteral, ParseString, Delimited;
    ValueBranch(c, u, depth);
    if ParseLiteral(u).Ok? {
      MinLiteralValue(u, t, rest);
    } else if u[0] == QUOTE {
      MinTextValue(u, ParseString(u).value, rest);
      MinFirst(u);
    } else if u[0] == MINUS || Digit(u[0]) {
      MinNumberValue(c, u, t, rest);
      MinFirst(u);
    } else if u[0] == LBRACKET {
      MinParseArray(c, u, depth, t, rest);
      MinFirst(u);
    } else {
      MinParseObject(c, u, depth, t, rest);
      MinFirst(u);
    }
    SlashFreeMin(u);
    ValueBranch(c, Min(u), depth);
  }

  /** Past the closing bracket or brace. */
  lemma CloseMin(w: bytes)
    requires Terminated(w) && (w[0] == RBRACKET || w[0] == RBRACE) && SlashFree(w[1..])
    ensures SlashFree(w) && Terminated(Min(w)) && Min(w)[0] == w[0] && Min(w)[1..] == Min(w[1..])
  {
    hide SlashFree, Min;
    SlashFreeStep(w);
    SlashFreeMin(w);
    MinFront(w);
  }

  lemma {:induction false} MinParseArray(c: Codec, u: bytes, depth: nat, t: Json, rest: bytes)
    requires Terminated(u) && u[0] == LBRACKET && ParseArray(c, u, depth) == Ok(t, rest) && SlashFree(rest)
    ensures SlashFree(u) && Terminated(Min(u)) && Min(u)[0] == LBRACKET
    ensures ParseArray(c, Min(u), depth) == Ok(t, Min(rest))
    decreases |u|, 0
  {
    hide SlashFree, Min, ParseItems, NextToken;
    var v := NextToken(u);
    if v[0] == RBRACKET {
      CloseMin(v);
    } else {
      MinParseItems(c, v, depth + 1, ParseItems(c, v, depth + 1).value, rest);
      MinFirst(v);
    }
    TokenMin(u);
  }

  /** A value that is read starts above the blanks. */
  lemma ValueFirst(c: Codec, v: bytes, depth: nat)
    requires Terminated(v) && ParseValue(c, v, depth).Ok?
    ensures v[0] > 32
  {
    hide ParseValue;
    ValueBranch(c, v, depth);
    if v[0] <= 32 { NotLiteral(v); }
  }

  lemma {:induction false} MinParseItems(c: Codec, v: bytes, depth: nat, ch: Chain, rest: bytes)
    requires Terminated(v) && ParseItems(c, v, depth) == Ok(ch, rest) && SlashFree(rest)
    ensures v[0] > 32 && SlashFree(v) && Terminated(Min(v)) && ParseItems(c, Min(v), depth) == Ok(ch, Min(rest))
    decreases |v|, 2
  {
    hide SlashFree, Min, ParseItems, ParseValue, NextToken, SkipWs;
    ItemsStep(c, v, depth);
    ValueFirst(c, v, depth);
    var r := ParseValue(c, v, depth);
    var w := SkipWs(r.rest);
    if w[0] == RBRACKET {
      CloseMin(w);
    } else {
      var next := NextToken(w);
      MinParseItems(c, next, depth, ParseItems(c, next, depth).value, rest);
      TokenMin(w);
    }
    SlashFreeBlank(r.rest);
    SkipWsMin(r.rest);
    MinParse(c, v, depth, r.value, r.rest);
    ItemsStep(c, Min(v), depth);
  }

  lemma NameStep(v: bytes)
    requires Terminated(v)
    ensures var r := ParseString(v);
            && (r.Err? ==> ParseName(v).Err?)
            && (r.Ok? ==>
                  && Terminated(r.rest)
                  && var w := SkipWs(r.rest);
                  && Terminated(w)
                  && ParseName(v) == if w[0] == COLON then Ok(r.value, NextToken(w)) else Err(w))
  {
    hide ScanQuote, Decode, UpToNul, SkipWs;
    var r := ParseString(v);
    if r.Ok? {
      TerminatedTail(v, |v| - |r.rest|);
      SkipWsTerminated(r.rest);
    }
  }

  lemma MinName(v: bytes, key: cstring, x: bytes)
    requires Terminated(v) && ParseName(v) == Ok(key, x) && SlashFree(x)
    ensures v[0] == QUOTE && SlashFree(v) && Terminated(Min(v)) && ParseName(Min(v)) == Ok(key, Min(x))
  {
    hide SlashFree, Min, ParseString, ParseName, NextToken, SkipWs;
    NameStep(v);
    var after := ParseString(v).rest;
    StringShape(v, key, after);
    TokenMin(SkipWs(after));
    SlashFreeBlank(after);
    SkipWsMin(after);
    MinTextValue(v, key, after);
    SlashFreeMin(v);
    NameStep(Min(v));
  }

  lemma {:induction false} MinParseMembers(c: Codec, v: bytes, depth: nat, ch: Chain, rest: bytes)
    requires Terminated(v) && ParseMembers(c, v, depth) == Ok(ch, rest) && SlashFree(rest)
    ensures v[0] > 32 && SlashFree(v) && Terminated(Min(v)) && ParseMembers(c, Min(v), depth) == Ok(ch, Min(rest))
    decreases |v|, 2
  {
    hide SlashFree, Min, ParseMembers, ParseValue, ParseName, NextToken, SkipWs;
    NamedFirst(c, v, depth);
    var name := ParseName(v);
    var x := name.rest;
    MembersStep(c, v, depth, name.value, x);
    var r := ParseValue(c, x, depth);
    var w := SkipWs(r.rest);
    if w[0] == RBRACE {
      CloseMin(w);
    } else {
      var next := NextToken(w);
      MinParseMembers(c, next, depth, ParseMembers(c, next, depth).value, rest);
      TokenMin(w);
    }
    SlashFreeBlank(r.rest);
    SkipWsMin(r.rest);
    MinParse(c, x, depth, r.value, r.rest);
    MinName(v, name.value, x);
    MembersStep(c, Min(v), depth, name.value, Min(x));
  }

  lemma NamedFirst(c: Codec, v: bytes, depth: nat)
    requires Terminated(v) && ParseMembers(c, v, depth).Ok?
    ensures ParseName(v).Ok?
  {
    hide ParseValue, ParseName, SkipWs;
  }

  lemma {:induction false} MinParseObject(c: Codec, u: bytes, depth: nat, t: Json, rest: bytes)
    requires Terminated(u) && u[0] == LBRACE && ParseObject(c, u, depth) == Ok(t, rest) && SlashFree(rest)
    ensures SlashFree(u) && Terminated(Min(u)) && Min(u)[0] == LBRACE
    ensures ParseObject(c, Min(u), depth) == Ok(t, Min(rest))
    decreases |u|, 0
  {
    hide SlashFree, Min, ParseMembers, NextToken;
    var v := NextToken(u);
    if v[0] == RBRACE {
      CloseMin(v);
    } else {
      MinParseMembers(c, v, depth + 1, ParseMembers(c, v, depth + 1).value, rest);
      MinFirst(v);
    }
    TokenMin(u);
  }

  // ----- the whole text -----

  lemma MinBom(v: bytes)
    requires SlashFree(v)
    ensures SlashFree(BOM + v) && Min(BOM + v) == BOM + Min(v)
  {
    hide SlashFree, Min;
    SlashFreeAfterBytes(BOM, v);
    MinKept(BOM, v);
  }

  lemma BomCases(u: bytes)
    requires Terminated(u)
    ensures SkipBom(u) == u || (u == BOM + SkipBom(u) && |SkipBom(u)| > 1)
    ensures |u| > 4 && u[..3] == BOM ==> u[0] == 0xEF
  {
    if |u| > 4 && u[..3] == BOM {
      assert u == u[..3] + u[3..] && u[0] == u[..3][0];
    }
  }

  lemma NoBom(u: bytes)
    requires Terminated(u) && u[0] != 0xEF
    ensures SkipBom(u) == u
  {
    BomCases(u);
  }

  lemma WithBom(m: bytes)
    requires Terminated(BOM + m) && |m| > 1
    ensures SkipBom(BOM + m) == m
  {
    assert (BOM + m)[..3] == BOM && (BOM + m)[3..] == m;
  }

  /** The first byte of the minified text is whitespace or the first that is none. */
  lemma MinStart(v: bytes)
    requires Terminated(v) && SlashFree(v) && |SkipWs(v)| > 1 && SkipWs(v)[0] != 0xEF
    ensures Terminated(Min(v)) && Min(v)[0] != 0xEF && |Min(v)| > 1
  {
    hide SlashFree, Min, SkipWs;
    SlashFreeMin(v);
    SlashFreeSkip(v);
    SkipWsMin(v);
    SkipWsStep(Min(v));
    MinFirst(SkipWs(v));
    TerminatedHead(Min(v));
  }

  /** A byte order mark is skipped in the minified text exactly when it is in the text. */
  lemma BomMin(u: bytes)
    requires Terminated(u) && SlashFree(SkipBom(u)) && |SkipWs(SkipBom(u))| > 1 && SkipWs(SkipBom(u))[0] != 0xEF
    ensures SlashFree(u) && Terminated(Min(u)) && SkipBom(Min(u)) == Min(SkipBom(u))
  {
    hide SlashFree, Min, SkipWs, SkipBom, Terminated;
    var v := SkipBom(u);
    BomCases(u);
    MinStart(v);
    if v == u {
      NoBom(Min(v));
    } else {
      MinBom(v);
      SlashFreeMin(u);
      WithBom(Min(v));
    }
  }

  /**
   * A text accepted with `require_null_terminated` is accepted again when minified, with the same tree;
   * `cJSON_Minify` stays inside its buffer, and minifying again changes nothing.
   */
  lemma MinifyKeepsMeaning(c: Codec, u: bytes, t: Json, end: bytes)
    requires Terminated(u) && Parse(c, u, true) == Ok(t, end)
    ensures end == [0] && Closed(u) && Terminated(Min(u))
    ensures Parse(c, Min(u), true) == Ok(t, end)
    ensures Min(Min(u)) == Min(u)
  {
    hide SlashFree, Min, SkipWs, ParseValue, SkipBom, Closed;
    var v := SkipBom(u);
    var x := SkipWs(v);
    SkipWsTerminated(v);
    var r := ParseValue(c, x, 0);
    SkipWsTerminated(r.rest);
    TerminatedHead(SkipWs(r.rest));
    assert end == [0];
    SlashFreeNul();
    SlashFreeBlank(r.rest);
    MinParse(c, x, 0, t, r.rest);
    ValueFirst(c, x, 0);
    NotBom(c, x);
    SlashFreeBlank(v);
    BomMin(u);
    SkipWsMin(v);
    SkipWsMin(r.rest);
    MinOfNul();
    SlashFreeMin(u);
    SlashFreeIsClosed(u);
  }

  lemma SlashFreeNul()
    ensures SlashFree([0])
  {
  }

  lemma NotBom(c: Codec, x: bytes)
    requires Terminated(x) && ParseValue(c, x, 0).Ok?
    ensures |x| > 1 && x[0] != 0xEF
  {
    hide ParseValue;
    ValueBranch(c, x, 0);
    ValueFirst(c, x, 0);
    if x[0] == 0xEF { NotLiteral(x); }
  }
}
