/** Every text of the grammar of RFC 8259, and exactly which of them `cJSON_ParseWithOpts` accepts, with which tree. */
module Acceptance {
  import opened CText
  import opened Doubles
  import opened Strings
  import opened StringProofs
  import opened Json
  import opened Parser
  import opened RoundTrip
  import G = Grammar

  // ----- strings -----

  lemma CharStart(ch: G.Char)
    requires G.CharOk(ch)
    ensures G.CharText(ch) != [] && G.CharText(ch)[0] != QUOTE && NulFree(G.CharText(ch))
    ensures G.CharText(ch)[0] == BACKSLASH <==> !ch.Unescaped?
    ensures ch.Escaped? ==> ch.e != LOWER_U && SimpleEscape(ch.e) == G.EscapedByte(ch.e) != 0
    ensures ch.Unescaped? ==> forall i :: 0 <= i < |ch.b| ==> ch.b[i] != QUOTE && ch.b[i] != BACKSLASH
    ensures ch.UEscaped? ==> forall i :: 0 <= i < |ch.d| ==> ch.d[i] != QUOTE && ch.d[i] != BACKSLASH
  {
  }

  /** `parse_hex4` reads hex digits as the grammar does. */
  lemma HexSame(d: G.quad)
    ensures Hex4(d) == G.HexNumber(d)
  {
    assert forall i :: 0 <= i < 4 ==> (G.HexDigit(d[i]) <==> HexValue(d[i]) >= 0);
    assert forall i :: 0 <= i < 4 && G.HexDigit(d[i]) ==> G.DigitNumber(d[i]) == HexValue(d[i]);
  }

  lemma ScanChar(ch: G.Char, v: bytes)
    requires G.CharOk(ch)
    ensures ScanQuote(G.CharText(ch) + v)
         == match ScanQuote(v) case NotFound => NotFound case At(n) => At(n + |G.CharText(ch)|)
  {
    hide ScanQuote, G.CharOk;
    CharStart(ch);
    match ch
    case Unescaped(b) => ScanBytes(b, v);
    case Escaped(e) => ScanSkips([BACKSLASH, e], v);
    case UEscaped(d) =>
      ScanSkips([BACKSLASH, LOWER_U], d + v);
      ScanBytes(d, v);
      assert [BACKSLASH, LOWER_U] + d + v == [BACKSLASH, LOWER_U] + (d + v);
  }

  /** How many bytes the characters take. */
  function Length(chars: seq<G.Char>): nat {
    if chars == [] then 0 else |G.CharText(chars[0])| + Length(chars[1..])
  }

  lemma {:induction false} CharsEnd(chars: seq<G.Char>, rest: bytes)
    ensures |G.CharsText(chars, rest)| == Length(chars) + |rest| && G.CharsText(chars, rest)[Length(chars)..] == rest
    decreases |chars|
  {
    hide G.CharText;
    if chars != [] {
      CharsEnd(chars[1..], rest);
      Tails(G.CharsText(chars, rest), |G.CharText(chars[0])|, Length(chars[1..]));
    }
  }

  lemma {:induction false} ScanChars(chars: seq<G.Char>, rest: bytes)
    requires G.CharsOk(chars)
    ensures ScanQuote(G.CharsText(chars, [QUOTE] + rest)) == At(Length(chars))
    decreases |chars|
  {
    hide ScanQuote, G.CharText, G.CharOk;
    if chars == [] {
      ScanAtQuote([QUOTE] + rest);
    } else {
      ScanChars(chars[1..], rest);
      ScanChar(chars[0], G.CharsText(chars[1..], [QUOTE] + rest));
    }
  }

  lemma {:induction false} CharsTerminated(chars: seq<G.Char>, rest: bytes)
    requires G.CharsOk(chars) && Terminated(rest)
    ensures Terminated(G.CharsText(chars, rest))
    decreases |chars|
  {
    hide G.CharText, G.CharOk, Terminated;
    if chars != [] {
      CharStart(chars[0]);
      CharsTerminated(chars[1..], rest);
      TerminatedConcat(G.CharText(chars[0]), G.CharsText(chars[1..], rest));
    }
  }

  /** Bytes without a backslash are copied. */
  lemma {:induction false} DecodeRaw(b: bytes, v: bytes, n: nat)
    requires n < |v| && v[n] == QUOTE && forall i :: 0 <= i < |b| ==> b[i] != BACKSLASH
    ensures (b + v)[|b| + n] == QUOTE && Decode(b + v, |b| + n) == Behind(b, Decode(v, n))
    decreases |b|
  {
    hide Decode;
    if b == [] {
      assert b + v == v;
    } else {
      DecodeRaw(b[1..], v, n);
      DecodePlain(b[0], b[1..] + v, |b| - 1 + n);
      assert b + v == [b[0]] + (b[1..] + v);
      assert [b[0]] + (b[1..] + Decode(v, n).out) == b + Decode(v, n).out;
    }
  }

  /** What follows a high surrogate as the decoder looks at it: whether it is a low one. */
  lemma NextIsLow(chars: seq<G.Char>, rest: bytes)
    requires G.CharsOk(chars)
    ensures var v := G.CharsText(chars, [QUOTE] + rest);
            chars != [] && G.Low(chars[0]) <==>
            Length(chars) >= 6 && v[0] == BACKSLASH && v[1] == LOWER_U && 0xDC00 <= Hex4(v[2..6]) <= 0xDFFF
  {
    hide Hex4, G.HexNumber, G.CharOk;
    var v := G.CharsText(chars, [QUOTE] + rest);
    CharsEnd(chars, [QUOTE] + rest);
    if chars != [] {
      CharStart(chars[0]);
      if chars[0].UEscaped? {
        assert v[2..6] == chars[0].d;
        HexSame(chars[0].d);
      }
    }
  }

  /** The front of a text that starts with a \u escape. */
  lemma EscapeFrontOf(d: G.quad, v: bytes, n: nat)
    requires n < |v|
    ensures var u := [BACKSLASH, LOWER_U] + d + v;
            && u[0] == BACKSLASH && u[1] == LOWER_U && u[2..6] == d && u[6] == v[0]
            && (n >= 6 ==> u[7] == v[1] && u[8..12] == v[2..6])
            && EscapeStep(u, 6 + n) == Utf16(u, 6 + n)
  {
    hide Utf16;
    var u := [BACKSLASH, LOWER_U] + d + v;
    assert u == [BACKSLASH, LOWER_U] + (d + v);
  }

  /** A \u escape in front of `v`, in which the string goes on for `n` bytes. */
  lemma EscapeRead(d: G.quad, v: bytes, n: nat)
    requires n < |v|
    ensures var u := [BACKSLASH, LOWER_U] + d + v;
            var h := Hex4(d);
            EscapeStep(u, 6 + n) ==
              if 0xDC00 <= h <= 0xDFFF then Literal(0, [])
              else if 0xD800 <= h <= 0xDBFF then
                if n >= 6 && v[0] == BACKSLASH && v[1] == LOWER_U && 0xDC00 <= Hex4(v[2..6]) <= 0xDFFF then
                  Literal(12, Utf8(0x1_0000 + (h - 0xD800) * 0x400 + (Hex4(v[2..6]) - 0xDC00)))
                else Literal(0, [])
              else Literal(6, Utf8(h))
  {
    hide Hex4, Utf8, EscapeStep;
    EscapeFrontOf(d, v, n);
    var h := Hex4(d);
    if 0xD800 <= h <= 0xDBFF {
      assert h % 0x400 == h - 0xD800;
      if n >= 6 && 0xDC00 <= Hex4(v[2..6]) <= 0xDFFF {
        assert Hex4(v[2..6]) % 0x400 == Hex4(v[2..6]) - 0xDC00;
      }
    }
  }

  /** What decoding has to give: the meaning if surrogates are paired, failure if they are not. */
  ghost predicate DecodedAs(d: Decoding, chars: seq<G.Char>, rest: bytes) {
    if G.Paired(chars) then d == Decoding(G.Meaning(chars), rest, true) else !d.ok
  }

  lemma {:induction false} DecodeChars(chars: seq<G.Char>, rest: bytes)
    requires G.CharsOk(chars)
    ensures var v := G.CharsText(chars, [QUOTE] + rest);
            && Length(chars) < |v| && v[Length(chars)] == QUOTE
            && DecodedAs(Decode(v, Length(chars)), chars, [QUOTE] + rest)
    decreases |chars|
  {
    hide Decode, G.CharOk, G.CharText, EscapeStep, G.Paired, G.Meaning;
    var tail := [QUOTE] + rest;
    var v := G.CharsText(chars, tail);
    CharsEnd(chars, tail);
    assert v[Length(chars)] == v[Length(chars)..][0];
    if chars == [] {
      DecodeEnd(tail);
      NoChars();
    } else if chars[0].UEscaped? {
      DecodeUnicode(chars, rest);
    } else {
      DecodeChars(chars[1..], rest);
      DecodeOneChar(chars, rest);
    }
  }

  lemma NoChars()
    ensures G.Paired([]) && G.Meaning([]) == []
  {
  }

  /** One step of decoding, in step with the characters. */
  lemma StepDecoded(w: bytes, d: Decoding, rest: seq<G.Char>, chars: seq<G.Char>, tail: bytes)
    requires DecodedAs(d, rest, tail) && (G.Paired(chars) <==> G.Paired(rest))
    requires G.Paired(chars) ==> G.Meaning(chars) == w + G.Meaning(rest)
    ensures DecodedAs(Behind(w, d), chars, tail)
  {
    hide G.Paired, G.Meaning;
  }

  lemma OneChar(chars: seq<G.Char>)
    requires chars != [] && !chars[0].UEscaped?
    ensures G.Paired(chars) <==> G.Paired(chars[1..])
    ensures G.Paired(chars) ==>
              G.Meaning(chars) ==
                (match chars[0] case Unescaped(b) => b case Escaped(e) => [G.EscapedByte(e)] case _ => [])
                                  + G.Meaning(chars[1..])
  {
  }

  lemma DecodeOneChar(chars: seq<G.Char>, rest: bytes)
    requires G.CharsOk(chars) && chars != [] && !chars[0].UEscaped?
    requires var v := G.CharsText(chars[1..], [QUOTE] + rest);
             && Length(chars[1..]) < |v| && v[Length(chars[1..])] == QUOTE
             && DecodedAs(Decode(v, Length(chars[1..])), chars[1..], [QUOTE] + rest)
    requires var v := G.CharsText(chars, [QUOTE] + rest); Length(chars) < |v| && v[Length(chars)] == QUOTE
    ensures DecodedAs(Decode(G.CharsText(chars, [QUOTE] + rest), Length(chars)), chars, [QUOTE] + rest)
  {
    hide Decode, EscapeStep, G.CharOk, SimpleEscape, G.EscapedByte, G.Paired, G.Meaning, DecodedAs, Behind;
    hide G.CharsText, Length;
    var v, n := G.CharsText(chars[1..], [QUOTE] + rest), Length(chars[1..]);
    CharStart(chars[0]);
    OneChar(chars);
    FrontText(chars, [QUOTE] + rest);
    match chars[0]
    case Unescaped(b) =>
      DecodeRaw(b, v, n);
      StepDecoded(b, Decode(v, n), chars[1..], chars, [QUOTE] + rest);
    case Escaped(e) =>
      DecodeSimple(e, v, n);
      StepDecoded([G.EscapedByte(e)], Decode(v, n), chars[1..], chars, [QUOTE] + rest);
  }

  lemma FrontText(chars: seq<G.Char>, tail: bytes)
    requires chars != []
    ensures G.CharsText(chars, tail) == G.CharText(chars[0]) + G.CharsText(chars[1..], tail)
    ensures Length(chars) == |G.CharText(chars[0])| + Length(chars[1..])
  {
    hide G.CharText;
  }

  lemma UnicodeChar(chars: seq<G.Char>)
    requires chars != [] && chars[0].UEscaped?
    ensures G.High(chars[0]) ==> (G.Paired(chars) <==> |chars| >= 2 && G.Low(chars[1]) && G.Paired(chars[2..]))
    ensures !G.High(chars[0]) ==> (G.Paired(chars) <==> !G.Low(chars[0]) && G.Paired(chars[1..]))
    ensures G.Paired(chars) ==>
              G.Meaning(chars) ==
                if G.High(chars[0]) then
                  Utf8(0x1_0000 + (G.HexNumber(chars[0].d) - 0xD800) * 0x400 + (G.HexNumber(chars[1].d) - 0xDC00))
                  + G.Meaning(chars[2..])
                else Utf8(G.HexNumber(chars[0].d)) + G.Meaning(chars[1..])
  {
    hide G.HexNumber, Utf8;
  }

  lemma {:induction false} DecodeUnicode(chars: seq<G.Char>, rest: bytes)
    requires G.CharsOk(chars) && chars != [] && chars[0].UEscaped?
    requires var v := G.CharsText(chars, [QUOTE] + rest); Length(chars) < |v| && v[Length(chars)] == QUOTE
    ensures DecodedAs(Decode(G.CharsText(chars, [QUOTE] + rest), Length(chars)), chars, [QUOTE] + rest)
    decreases |chars|, 0
  {
    hide Decode, EscapeStep, G.CharOk, Hex4, G.HexNumber, Utf8, Behind;
    hide G.Paired, G.Meaning, DecodedAs, G.CharsText, Length;
    var d, tail := chars[0].d, [QUOTE] + rest;
    HexSame(d);
    var v, n := G.CharsText(chars[1..], tail), Length(chars[1..]);
    var u := G.CharsText(chars, tail);
    UnicodeText(chars, tail);
    UnicodeChar(chars);
    EscapeRead(d, v, n);
    NextIsLow(chars[1..], rest);
    DecodeUnfolds(u, 6 + n);
    if G.High(chars[0]) && |chars| > 1 && G.Low(chars[1]) {
      DecodePair(chars, rest);
    } else if !G.High(chars[0]) && !G.Low(chars[0]) {
      DecodeChars(chars[1..], rest);
      assert u[6..] == v;
      StepDecoded(Utf8(Hex4(d)), Decode(v, n), chars[1..], chars, tail);
    } else {
      NotDecoded(u, chars, tail);
    }
  }

  lemma UnicodeText(chars: seq<G.Char>, tail: bytes)
    requires chars != [] && chars[0].UEscaped? && tail != []
    ensures G.CharsText(chars, tail) == [BACKSLASH, LOWER_U] + chars[0].d + G.CharsText(chars[1..], tail)
    ensures Length(chars) == 6 + Length(chars[1..]) && Length(chars[1..]) < |G.CharsText(chars[1..], tail)|
  {
    CharsEnd(chars[1..], tail);
  }

  lemma NotDecoded(u: bytes, chars: seq<G.Char>, tail: bytes)
    requires !G.Paired(chars)
    ensures DecodedAs(Decoding([], u, false), chars, tail)
  {
    hide G.Paired;
  }

  lemma {:induction false} DecodePair(chars: seq<G.Char>, rest: bytes)
    requires G.CharsOk(chars) && |chars| > 1 && G.High(chars[0]) && G.Low(chars[1])
    requires var v := G.CharsText(chars, [QUOTE] + rest); Length(chars) < |v| && v[Length(chars)] == QUOTE
    ensures DecodedAs(Decode(G.CharsText(chars, [QUOTE] + rest), Length(chars)), chars, [QUOTE] + rest)
    decreases |chars| - 1, 1
  {
    hide Decode, EscapeStep, G.CharOk, Hex4, G.HexNumber, Utf8, Behind;
    hide G.Paired, G.Meaning, DecodedAs, G.CharsText, Length;
    HexSame(chars[0].d);
    HexSame(chars[1].d);
    var d, g, tail := chars[0].d, chars[1].d, [QUOTE] + rest;
    var v, n := G.CharsText(chars[1..], tail), Length(chars[1..]);
    var w, m := G.CharsText(chars[2..], tail), Length(chars[2..]);
    assert chars[1..][1..] == chars[2..];
    UnicodeText(chars, tail);
    UnicodeText(chars[1..], tail);
    UnicodeChar(chars);
    EscapeRead(d, v, n);
    EscapeFrontOf(g, w, m);
    DecodeUnfolds(G.CharsText(chars, tail), 6 + n);
    DecodeChars(chars[2..], rest);
    SkipPair(d, g, w);
    var cp := 0x1_0000 + (Hex4(d) - 0xD800) * 0x400 + (Hex4(g) - 0xDC00);
    StepDecoded(Utf8(cp), Decode(w, m), chars[2..], chars, tail);
  }

  lemma SkipPair(d: G.quad, g: G.quad, w: bytes)
    ensures ([BACKSLASH, LOWER_U] + d + ([BACKSLASH, LOWER_U] + g + w))[12..] == w
  {
    assert [BACKSLASH, LOWER_U] + d + ([BACKSLASH, LOWER_U] + g + w)
        == ([BACKSLASH, LOWER_U] + d + [BACKSLASH, LOWER_U] + g) + w;
  }

  /** A string of the grammar is read to its end exactly if its surrogates are paired. */
  lemma StringRead(chars: seq<G.Char>, rest: bytes)
    requires G.CharsOk(chars)
    ensures var r := ParseString(G.StringText(chars, rest));
            if G.Paired(chars) then r == Ok(UpToNul(G.Meaning(chars)), rest) else r.Err?
  {
    hide ScanQuote, Decode, G.CharOk, G.CharText, G.Paired, G.Meaning, UpToNul;
    var v := G.CharsText(chars, [QUOTE] + rest);
    assert G.StringText(chars, rest)[1..] == v;
    ScanChars(chars, rest);
    DecodeChars(chars, rest);
    CharsEnd(chars, [QUOTE] + rest);
    Tails(v, Length(chars), 1);
    assert G.StringText(chars, rest)[Length(chars) + 2..] == v[Length(chars) + 1..] == rest;
  }

  /** No escape with four zeros. */
  ghost predicate ZeroFree(chars: seq<G.Char>) {
    forall i :: 0 <= i < |chars| ==> chars[i] != G.UEscaped([48, 48, 48, 48])
  }

  /** The string read is the whole meaning exactly if no escape with four zeros is in it. */
  lemma {:induction false} MeaningWhole(chars: seq<G.Char>)
    requires G.CharsOk(chars) && G.Paired(chars)
    ensures UpToNul(G.Meaning(chars)) == G.Meaning(chars) <==> ZeroFree(chars)
  {
    hide UpToNul, G.Meaning, G.CharOk, G.Paired, ZeroFree;
    MeaningNul(chars);
    if NulFree(G.Meaning(chars)) { UpToNulWhole(G.Meaning(chars)); }
  }

  lemma ZeroFreeTail(chars: seq<G.Char>, k: nat)
    requires k <= |chars|
    ensures ZeroFree(chars) <==> ZeroFree(chars[..k]) && ZeroFree(chars[k..])
  {
    if ZeroFree(chars[..k]) && ZeroFree(chars[k..]) {
      forall i | 0 <= i < |chars| ensures chars[i] != G.UEscaped([48, 48, 48, 48]) {
        assert chars[i] == if i < k then chars[..k][i] else chars[k..][i - k];
      }
    }
  }

  lemma CharMeaning(ch: G.Char)
    requires G.CharOk(ch)
    ensures ch.Unescaped? ==> NulFree(ch.b)
    ensures ch.Escaped? ==> G.EscapedByte(ch.e) != 0
    ensures ch.UEscaped? ==> (G.HexNumber(ch.d) == 0 <==> ch == G.UEscaped([48, 48, 48, 48]))
  {
    hide Hex4;
    if ch.UEscaped? {
      HexSame(ch.d);
      Hex4Zero(ch.d);
    }
  }

  lemma FrontZeroFree(chars: seq<G.Char>, k: nat)
    requires k <= |chars| && k <= 2
    ensures ZeroFree(chars[..k]) <==> (k > 0 ==> chars[0] != G.UEscaped([48, 48, 48, 48]))
                                      && (k > 1 ==> chars[1] != G.UEscaped([48, 48, 48, 48]))
  {
    if k > 0 { assert chars[..k][0] == chars[0]; }
    if k > 1 { assert chars[..k][1] == chars[1]; }
  }

  lemma {:induction false} MeaningNul(chars: seq<G.Char>)
    requires G.CharsOk(chars) && G.Paired(chars)
    ensures NulFree(G.Meaning(chars)) <==> ZeroFree(chars)
    decreases |chars|
  {
    hide G.CharOk, Utf8, G.HexNumber, NulFree, ZeroFree, G.EscapedByte;
    if chars == [] {
      NothingNul();
      assert ZeroFree([]) by { ZeroFreeNothing(); }
    } else if G.High(chars[0]) {
      PairNul(chars);
      MeaningNul(chars[2..]);
      ZeroFreeTail(chars, 2);
      FrontZeroFree(chars, 2);
    } else {
      SingleNul(chars);
      MeaningNul(chars[1..]);
      ZeroFreeTail(chars, 1);
      FrontZeroFree(chars, 1);
    }
  }

  lemma ZeroFreeNothing()
    ensures ZeroFree([])
  {
  }

  lemma PairNul(chars: seq<G.Char>)
    requires G.CharsOk(chars) && G.Paired(chars) && chars != [] && G.High(chars[0])
    ensures |chars| >= 2 && G.Paired(chars[2..]) && (NulFree(G.Meaning(chars)) <==> NulFree(G.Meaning(chars[2..])))
    ensures chars[0] != G.UEscaped([48, 48, 48, 48]) && chars[1] != G.UEscaped([48, 48, 48, 48])
  {
    hide Utf8, NulFree, G.HexNumber, G.CharOk;
    var cp := 0x1_0000 + (G.HexNumber(chars[0].d) - 0xD800) * 0x400 + (G.HexNumber(chars[1].d) - 0xDC00);
    Utf8NulFree(cp);
    NulFreeConcat(Utf8(cp), G.Meaning(chars[2..]));
    CharMeaning(chars[0]);
    CharMeaning(chars[1]);
  }

  lemma SingleNul(chars: seq<G.Char>)
    requires G.CharsOk(chars) && G.Paired(chars) && chars != [] && !G.High(chars[0])
    ensures G.Paired(chars[1..])
    ensures NulFree(G.Meaning(chars)) <==> chars[0] != G.UEscaped([48, 48, 48, 48]) && NulFree(G.Meaning(chars[1..]))
  {
    hide G.CharOk, Utf8, G.HexNumber, G.EscapedByte;
    CharMeaning(chars[0]);
    var tail := G.Meaning(chars[1..]);
    match chars[0]
    case Unescaped(b) => NulFreeConcat(b, tail);
    case Escaped(e) => NulFreeConcat([G.EscapedByte(e)], tail);
    case UEscaped(d) =>
      Utf8NulFree(G.HexNumber(d));
      NulFreeConcat(Utf8(G.HexNumber(d)), tail);
      var zero: bytes := [0];
      assert zero[0] == 0 && !NulFree(zero);
  }

  // ----- numbers -----

  lemma NumeralStart(n: G.Numeral)
    requires G.NumeralOk(n)
    ensures var s := G.NumeralText(n);
            s != [] && (s[0] == MINUS || Digit(s[0])) && forall i :: 0 <= i < |s| ==> NumberByte(s[i])
  {
  }

  /** The bytes `parse_number` copies are exactly those that occur in numbers of the grammar. */
  lemma NumberBytes(b: uchar)
    ensures NumberByte(b) <==> exists n :: G.NumeralOk(n) && b in G.NumeralText(n)
  {
    if NumberByte(b) {
      var digits: bytes := if Digit(b) then [0x31, b] else [0x31];
      var e: uchar := if b == 0x45 then b else 0x65;
      var sign: bytes := if b == 0x2B then [b] else [];
      var n := G.Numeral(b == 0x2D, digits, [0x30], G.Exp(e, sign, [0x30]));
      assert G.NumeralOk(n);
      NumeralParts(n);
    }
    forall n | G.NumeralOk(n) && b in G.NumeralText(n) ensures NumberByte(b) {
      NumeralStart(n);
    }
  }

  lemma NumeralParts(n: G.Numeral)
    requires n.frac != [] && n.exp.Exp?
    ensures forall b :: b in G.NumeralText(n) <==>
              || (n.minus && b == 0x2D) || b in n.whole || b == 0x2E || b in n.frac
              || b == n.exp.e || b in n.exp.sign || b in n.exp.digits
  {
  }

  /** The run is cut at the size of the buffer. */
  lemma {:induction false} NumberRunCut(s: bytes, rest: bytes, room: nat)
    requires (forall i :: 0 <= i < |s| ==> NumberByte(s[i])) && room <= |s|
    ensures NumberRun(s + rest, room) == room
    decreases room
  {
    if room > 0 {
      assert (s + rest)[1..] == s[1..] + rest;
      NumberRunCut(s[1..], rest, room - 1);
    }
  }

  /** A number that does not fit is refused, or read in part, so that a byte of it comes next. */
  lemma NumeralRead(c: Codec, n: G.Numeral, rest: bytes)
    requires G.ReadsNumerals(c) && G.NumeralOk(n) && |rest| >= 1 && !NumberByte(rest[0])
    ensures var s := G.NumeralText(n);
            var r := ParseNumber(c, s + rest);
            if |s| <= NUMBER_BUFFER then r == Ok(Number(c.strtod(s).value), rest)
            else r.Err? || (r.rest != [] && NumberByte(r.rest[0]))
  {
    hide G.NumeralText, NumberRun, NumberByte;
    var s := G.NumeralText(n);
    NumeralStart(n);
    if |s| <= NUMBER_BUFFER {
      NumberRunWhole(s, rest, NUMBER_BUFFER);
      assert (s + rest)[..|s|] == s && (s + rest)[|s|..] == rest;
    } else {
      NumberRunCut(s, rest, NUMBER_BUFFER);
      var r := ParseNumber(c, s + rest);
      if r.Ok? {
        var used := c.strtod((s + rest)[..NUMBER_BUFFER]).used;
        assert r.rest[0] == (s + rest)[used] == s[used];
      }
    }
  }

  // ----- the contract is not empty -----

  ghost predicate IsNumeral(s: bytes) {
    exists n :: G.NumeralOk(n) && G.NumeralText(n) == s
  }

  /** Prints bit patterns in decimal, and reads every number of the grammar to its end. */
  ghost const READER: Codec := Codec(
    (p: pattern) => Decimal(p),
    (p: pattern) => Decimal(p),
    (s: bytes) =>
      if IsNumeral(s) then Scan(FromDecimal(DecimalValue(s[..DigitRun(s)])), |s|) else Scan(Infinite(false), 0))

  lemma {:induction false} DecimalLeads(n: nat)
    ensures Decimal(n)[0] == 48 ==> n == 0
    decreases n
  {
    if n >= 10 { DecimalLeads(n / 10); }
  }

  lemma DecimalIsNumeral(n: nat)
    ensures IsNumeral(Decimal(n))
  {
    DecimalLeads(n);
    var numeral := G.Numeral(false, Decimal(n), [], G.NoExp);
    assert G.NumeralText(numeral) == Decimal(n);
    assert G.NumeralOk(numeral);
  }

  lemma ReaderIsValid()
    ensures READER.Valid() && G.ReadsNumerals(READER)
  {
    hide Decimal, DecimalValue, DigitRun, Lexeme, G.NumeralOk, G.NumeralText;
    forall p: pattern
      ensures Lexeme(READER.g17(p)) && READER.g15(p) == READER.g17(p)
      ensures READER.strtod(READER.g17(p)) == Scan(Finite(p), |READER.g17(p)|)
    {
      DecimalIsLexeme(p);
      DecimalScansBack(p);
      DecimalIsNumeral(p);
    }
  }

  // ----- values -----

  /** The outcome of reading a value: if it is not taken, what is left may start with the rest of a number. */
  ghost predicate Taken(c: Codec, r: Parsed<Json>, doc: G.Doc, depth: nat, rest: bytes) {
    if G.Regular(doc) && depth + G.Levels(doc) <= NESTING_LIMIT then r == Ok(G.TreeOf(c, doc), rest)
    else r.Err? || (r.rest != [] && NumberByte(r.rest[0]))
  }

  ghost predicate ItemsTaken(c: Codec, r: Parsed<Chain>, items: G.Items, depth: nat, rest: bytes) {
    if G.RegularItems(items) && depth + G.LevelsOfItems(items) <= NESTING_LIMIT then
      r == Ok(G.ItemsTree(c, items), rest)
    else r.Err?
  }

  ghost predicate MembersTaken(c: Codec, r: Parsed<Chain>, members: G.Members, depth: nat, rest: bytes) {
    if G.RegularMembers(members) && depth + G.LevelsOfMembers(members) <= NESTING_LIMIT then
      r == Ok(G.MembersTree(c, members), rest)
    else r.Err?
  }

  lemma StringTerminated(chars: seq<G.Char>, rest: bytes)
    requires G.CharsOk(chars) && Terminated(rest)
    ensures Terminated(G.StringText(chars, rest)) && G.StringText(chars, rest)[0] == QUOTE
  {
    hide G.CharsText, G.CharOk;
    TerminatedConcat([QUOTE], rest);
    CharsTerminated(chars, [QUOTE] + rest);
    TerminatedConcat([QUOTE], G.CharsText(chars, [QUOTE] + rest));
  }

  lemma Bracketed(open: uchar, gap: bytes, v: bytes)
    requires open != 0 && G.Ws(gap) && Terminated(v)
    ensures Terminated([open] + gap + v) && ([open] + gap + v)[0] == open
    ensures v[0] > 32 ==> NextToken([open] + gap + v) == v
  {
    hide NextToken;
    TerminatedConcat([open] + gap, v);
    if v[0] > 32 { TokenAfter(open, gap, v); }
  }

  /** Blanks in front of a structural character. */
  lemma BlanksBefore(gap: bytes, v: bytes)
    requires G.Ws(gap) && Terminated(v) && v[0] > 32 && !NumberByte(v[0])
    ensures Terminated(gap + v) && !NumberByte((gap + v)[0]) && SkipWs(gap + v) == v
  {
    hide SkipWs;
    TerminatedConcat(gap, v);
    SkipBlank(gap, v);
    assert (gap + v)[0] == if gap == [] then v[0] else gap[0];
  }

  lemma {:induction false} DocFront(doc: G.Doc, rest: bytes)
    requires G.DocOk(doc) && Terminated(rest)
    ensures var u := G.DocText(doc, rest);
            Terminated(u) && u[0] > 32 && u[0] != RBRACKET && u[0] != RBRACE && u[0] != 0xEF
    decreases doc
  {
    hide G.ItemsText, G.MembersText, G.StringText, G.NumeralText, G.CharOk, G.NumeralOk;
    match doc
    case JNull => TerminatedConcat(NULL_TEXT, rest);
    case JFalse => TerminatedConcat(FALSE_TEXT, rest);
    case JTrue => TerminatedConcat(TRUE_TEXT, rest);
    case JNumber(n) =>
      NumeralStart(n);
      TerminatedConcat(G.NumeralText(n), rest);
    case JString(chars) => StringTerminated(chars, rest);
    case JEmptyArray(gap) =>
      TerminatedConcat([RBRACKET], rest);
      Bracketed(LBRACKET, gap, [RBRACKET] + rest);
    case JArray(gap, items) =>
      ItemsFront(items, rest);
      Bracketed(LBRACKET, gap, G.ItemsText(items, rest));
    case JEmptyObject(gap) =>
      TerminatedConcat([RBRACE], rest);
      Bracketed(LBRACE, gap, [RBRACE] + rest);
    case JObject(gap, members) =>
      MembersFront(members, rest);
      Bracketed(LBRACE, gap, G.MembersText(members, rest));
  }

  /** The text behind the value of an element. */
  function BehindItem(items: G.Items, rest: bytes): bytes {
    match items
    case LastItem(_, after) => after + ([RBRACKET] + rest)
    case MoreItems(_, after, gap, next) => after + ([COMMA] + gap + G.ItemsText(next, rest))
  }

  lemma {:induction false} ItemsFront(items: G.Items, rest: bytes)
    requires G.ItemsOk(items) && Terminated(rest)
    ensures Terminated(BehindItem(items, rest)) && !NumberByte(BehindItem(items, rest)[0])
    ensures SkipWs(BehindItem(items, rest))
         == if items.LastItem? then [RBRACKET] + rest else [COMMA] + items.gap + G.ItemsText(items.next, rest)
    ensures var u := G.ItemsText(items, rest); Terminated(u) && u[0] > 32 && u[0] != RBRACKET
    decreases items
  {
    hide G.DocText, SkipWs, G.DocOk;
    match items
    case LastItem(value, after) =>
      TerminatedConcat([RBRACKET], rest);
      BlanksBefore(after, [RBRACKET] + rest);
      DocFront(value, after + ([RBRACKET] + rest));
    case MoreItems(value, after, gap, next) =>
      ItemsFront(next, rest);
      Bracketed(COMMA, gap, G.ItemsText(next, rest));
      BlanksBefore(after, [COMMA] + gap + G.ItemsText(next, rest));
      DocFront(value, BehindItem(items, rest));
  }

  /** The text behind the value of a member. */
  function BehindMember(members: G.Members, rest: bytes): bytes {
    match members
    case LastMember(_, after) => after + ([RBRACE] + rest)
    case MoreMembers(_, after, gap, next) => after + ([COMMA] + gap + G.MembersText(next, rest))
  }

  lemma {:induction false} MemberFront(m: G.Member, rest: bytes)
    requires G.MemberOk(m) && Terminated(rest)
    ensures Terminated(G.MemberText(m, rest)) && G.MemberText(m, rest)[0] == QUOTE
    ensures Terminated(G.DocText(m.value, rest)) && G.DocText(m.value, rest)[0] > 32
    ensures var v := m.before + ([COLON] + m.behind + G.DocText(m.value, rest));
            Terminated(v) && SkipWs(v) == [COLON] + m.behind + G.DocText(m.value, rest)
    decreases m
  {
    hide G.DocText, SkipWs, G.DocOk, G.StringText;
    DocFront(m.value, rest);
    Bracketed(COLON, m.behind, G.DocText(m.value, rest));
    BlanksBefore(m.before, [COLON] + m.behind + G.DocText(m.value, rest));
    StringTerminated(m.name, m.before + ([COLON] + m.behind + G.DocText(m.value, rest)));
  }

  lemma {:induction false} MembersFront(members: G.Members, rest: bytes)
    requires G.MembersOk(members) && Terminated(rest)
    ensures Terminated(BehindMember(members, rest)) && !NumberByte(BehindMember(members, rest)[0])
    ensures SkipWs(BehindMember(members, rest))
         == if members.LastMember? then [RBRACE] + rest else [COMMA] + members.gap + G.MembersText(members.next, rest)
    ensures var u := G.MembersText(members, rest); Terminated(u) && u[0] == QUOTE
    decreases members
  {
    hide G.MemberText, SkipWs, G.MemberOk;
    match members
    case LastMember(m, after) =>
      TerminatedConcat([RBRACE], rest);
      BlanksBefore(after, [RBRACE] + rest);
      MemberFront(m, after + ([RBRACE] + rest));
    case MoreMembers(m, after, gap, next) =>
      MembersFront(next, rest);
      Bracketed(COMMA, gap, G.MembersText(next, rest));
      BlanksBefore(after, [COMMA] + gap + G.MembersText(next, rest));
      MemberFront(m, BehindMember(members, rest));
  }

  // ----- reading them -----

  lemma {:induction false} DocTaken(c: Codec, doc: G.Doc, depth: nat, rest: bytes)
    requires G.ReadsNumerals(c) && G.DocOk(doc) && depth <= NESTING_LIMIT && Terminated(rest) && !NumberByte(rest[0])
    ensures Terminated(G.DocText(doc, rest))
    ensures Taken(c, ParseValue(c, G.DocText(doc, rest), depth), doc, depth, rest)
    decreases doc, 1
  {
    hide ParseNumber, ParseText, ParseArray, ParseObject, ParseLiteral, G.StringText, G.ItemsText, G.MembersText;
    hide G.NumeralText, G.CharOk, G.NumeralOk, G.Paired, G.Meaning, NumberByte;
    var u := G.DocText(doc, rest);
    DocFront(doc, rest);
    match doc
    case JNull => LiteralRead(NULL_TEXT, rest);
    case JFalse => LiteralRead(FALSE_TEXT, rest);
    case JTrue => LiteralRead(TRUE_TEXT, rest);
    case JNumber(n) => NumberTaken(c, n, depth, rest);
    case JString(chars) =>
      TextTaken(c, chars, rest);
      NotLiteral(u);
    case _ =>
      hide Taken;
      ListTaken(c, doc, depth, rest);
  }

  lemma {:induction false} ListTaken(c: Codec, doc: G.Doc, depth: nat, rest: bytes)
    requires G.ReadsNumerals(c) && G.DocOk(doc)
    requires (doc.JEmptyArray? || doc.JArray? || doc.JEmptyObject? || doc.JObject?)
    requires depth <= NESTING_LIMIT && Terminated(rest)
    ensures Terminated(G.DocText(doc, rest))
    ensures Taken(c, ParseValue(c, G.DocText(doc, rest), depth), doc, depth, rest)
    decreases doc, 0
  {
    hide ParseArray, ParseObject, ParseNumber, ParseText, ParseLiteral, G.ItemsText, G.MembersText, Taken;
    match doc
    case JEmptyArray(gap) =>
      EmptyArrayTaken(c, gap, depth, rest);
      NotLiteral(G.DocText(doc, rest));
    case JArray(gap, items) =>
      FullArrayTaken(c, gap, items, depth, rest);
      NotLiteral(G.DocText(doc, rest));
    case JEmptyObject(gap) =>
      EmptyObjectTaken(c, gap, depth, rest);
      NotLiteral(G.DocText(doc, rest));
    case JObject(gap, members) =>
      FullObjectTaken(c, gap, members, depth, rest);
      NotLiteral(G.DocText(doc, rest));
  }

  lemma NumberTaken(c: Codec, n: G.Numeral, depth: nat, rest: bytes)
    requires G.ReadsNumerals(c) && G.NumeralOk(n) && Terminated(rest) && !NumberByte(rest[0]) && depth <= NESTING_LIMIT
    ensures Terminated(G.NumeralText(n) + rest)
    ensures Taken(c, ParseValue(c, G.NumeralText(n) + rest, depth), G.JNumber(n), depth, rest)
  {
    hide ParseNumber, ParseText, ParseArray, ParseObject, ParseLiteral, G.NumeralText, G.NumeralOk, NumberByte;
    NumeralStart(n);
    var s := G.NumeralText(n);
    ByteIsNoNul(s);
    TerminatedConcat(s, rest);
    assert (s + rest)[0] == s[0];
    NotLiteral(s + rest);
    NumeralRead(c, n, rest);
  }

  lemma ByteIsNoNul(s: bytes)
    requires forall i :: 0 <= i < |s| ==> NumberByte(s[i])
    ensures NulFree(s)
  {
  }

  lemma TextTaken(c: Codec, chars: seq<G.Char>, rest: bytes)
    requires G.CharsOk(chars) && Terminated(rest)
    ensures Terminated(G.StringText(chars, rest)) && G.StringText(chars, rest)[0] == QUOTE
    ensures var r := ParseText(G.StringText(chars, rest));
            if G.Paired(chars) then r == Ok(String(Chars(UpToNul(G.Meaning(chars)))), rest) else r.Err?
  {
    hide ParseString, G.StringText, G.CharOk, G.Paired, G.Meaning, UpToNul;
    StringTerminated(chars, rest);
    StringRead(chars, rest);
  }

  lemma ArrayOpens(c: Codec, u: bytes, depth: nat)
    requires Terminated(u) && u[0] == LBRACKET
    ensures depth >= NESTING_LIMIT ==> ParseArray(c, u, depth).Err?
    ensures depth < NESTING_LIMIT ==>
              var v := NextToken(u);
              && (v[0] == RBRACKET ==> ParseArray(c, u, depth) == Ok(Array(End), v[1..]))
              && (v[0] != RBRACKET ==> ParseArray(c, u, depth) == match ParseItems(c, v, depth + 1)
                                                                  case Ok(ch, rest) => Ok(Array(ch), rest)
                                                                  case Err(rest) => Err(rest))
  {
    hide NextToken, ParseItems, Terminated;
  }

  lemma EmptyArrayTaken(c: Codec, gap: bytes, depth: nat, rest: bytes)
    requires G.Ws(gap) && depth <= NESTING_LIMIT && Terminated(rest)
    ensures Terminated([LBRACKET] + gap + ([RBRACKET] + rest))
    ensures ([LBRACKET] + gap + ([RBRACKET] + rest))[0] == LBRACKET
    ensures Taken(c, ParseArray(c, [LBRACKET] + gap + ([RBRACKET] + rest), depth), G.JEmptyArray(gap), depth, rest)
  {
    hide ParseArray, ParseItems, NextToken, Taken;
    TerminatedConcat([RBRACKET], rest);
    Bracketed(LBRACKET, gap, [RBRACKET] + rest);
    var u := [LBRACKET] + gap + ([RBRACKET] + rest);
    ArrayOpens(c, u, depth);
    assert ([RBRACKET] + rest)[1..] == rest;
    EmptyTaken(c, ParseArray(c, u, depth), G.JEmptyArray(gap), depth, rest);
  }

  lemma FullArrayFront(gap: bytes, items: G.Items, rest: bytes)
    requires G.Ws(gap) && G.ItemsOk(items) && Terminated(rest)
    ensures var v := G.ItemsText(items, rest);
            var u := [LBRACKET] + gap + v;
            Terminated(u) && u[0] == LBRACKET && NextToken(u) == v && v != [] && v[0] != RBRACKET
  {
    hide NextToken, G.ItemsText, G.ItemsOk, SkipWs, BehindItem;
    ItemsFront(items, rest);
    Bracketed(LBRACKET, gap, G.ItemsText(items, rest));
  }

  lemma {:induction false} FullArrayTaken(c: Codec, gap: bytes, items: G.Items, depth: nat, rest: bytes)
    requires G.ReadsNumerals(c) && G.Ws(gap) && G.ItemsOk(items) && depth <= NESTING_LIMIT && Terminated(rest)
    ensures var u := [LBRACKET] + gap + G.ItemsText(items, rest);
            && Terminated(u) && u[0] == LBRACKET && Taken(c, ParseArray(c, u, depth), G.JArray(gap, items), depth, rest)
    decreases items, 3
  {
    hide ParseArray, ParseItems, NextToken, G.ItemsText, G.ItemsOk, G.Ws, Taken;
    hide ItemsTaken, Terminated, G.ReadsNumerals;
    var v := G.ItemsText(items, rest);
    var u := [LBRACKET] + gap + v;
    FullArrayFront(gap, items, rest);
    ArrayOpens(c, u, depth);
    if depth < NESTING_LIMIT {
      ItemListTaken(c, items, depth + 1, rest);
      ArrayFromItems(c, ParseItems(c, v, depth + 1), ParseArray(c, u, depth), G.JArray(gap, items), depth, rest);
    } else {
      TooDeep(c, ParseArray(c, u, depth), G.JArray(gap, items), depth, rest);
    }
  }

  lemma EmptyTaken(c: Codec, r: Parsed<Json>, doc: G.Doc, depth: nat, rest: bytes)
    requires doc.JEmptyArray? || doc.JEmptyObject?
    requires if depth >= NESTING_LIMIT then r.Err?
             else r == Ok(if doc.JEmptyArray? then Array(End) else Object(End), rest)
    ensures Taken(c, r, doc, depth, rest)
  {
  }

  lemma TooDeep(c: Codec, r: Parsed<Json>, doc: G.Doc, depth: nat, rest: bytes)
    requires (doc.JArray? || doc.JObject?) && depth >= NESTING_LIMIT && r.Err?
    ensures Taken(c, r, doc, depth, rest)
  {
    hide G.LevelsOfItems, G.LevelsOfMembers, G.Regular, G.TreeOf;
  }

  lemma ArrayFromItems(c: Codec, list: Parsed<Chain>, r: Parsed<Json>, doc: G.Doc, depth: nat, rest: bytes)
    requires doc.JArray? && ItemsTaken(c, list, doc.items, depth + 1, rest)
    requires r == match list case Ok(ch, rest) => Ok(Array(ch), rest) case Err(rest) => Err(rest)
    ensures Taken(c, r, doc, depth, rest)
  {
    hide G.ItemsTree, G.LevelsOfItems, G.RegularItems;
  }

  lemma ObjectFromMembers(c: Codec, list: Parsed<Chain>, r: Parsed<Json>, doc: G.Doc, depth: nat, rest: bytes)
    requires doc.JObject? && MembersTaken(c, list, doc.members, depth + 1, rest)
    requires r == match list case Ok(ch, rest) => Ok(Object(ch), rest) case Err(rest) => Err(rest)
    ensures Taken(c, r, doc, depth, rest)
  {
    hide G.MembersTree, G.LevelsOfMembers, G.RegularMembers;
  }

  /** One element read, and the elements behind it. */
  lemma ItemsGrow(c: Codec, one: Parsed<Json>, more: Parsed<Chain>, r: Parsed<Chain>, items: G.Items, depth: nat,
                      after: bytes, rest: bytes)
    requires Taken(c, one, items.value, depth, after) && after != [] && !NumberByte(after[0])
    requires one.Err? || (one.rest != [] && NumberByte(one.rest[0])) ==> r.Err?
    requires items.LastItem? && one.Ok? && one.rest == after ==> r == Ok(Link(Missing, one.value, End), rest)
    requires items.MoreItems? ==> ItemsTaken(c, more, items.next, depth, rest)
    requires items.MoreItems? && one.Ok? && one.rest == after ==>
               if more.Ok? then r == Ok(Link(Missing, one.value, more.value), more.rest) else r.Err?
    ensures ItemsTaken(c, r, items, depth, rest)
  {
    hide G.Regular, G.TreeOf, G.Levels, NumberByte;
  }

  lemma {:induction false} ItemListTaken(c: Codec, items: G.Items, depth: nat, rest: bytes)
    requires G.ReadsNumerals(c) && G.ItemsOk(items) && depth <= NESTING_LIMIT && Terminated(rest)
    ensures Terminated(G.ItemsText(items, rest))
    ensures ItemsTaken(c, ParseItems(c, G.ItemsText(items, rest), depth), items, depth, rest)
    decreases items, 2
  {
    hide ParseValue, ParseItems, NextToken, SkipWs, G.DocText, G.DocOk, NumberByte, Taken, ItemsTaken;
    var u, after := G.ItemsText(items, rest), BehindItem(items, rest);
    ItemsFront(items, rest);
    DocTaken(c, items.value, depth, after);
    assert u == G.DocText(items.value, after);
    ItemsStep(c, u, depth);
    var one := ParseValue(c, u, depth);
    NoNumberAfter(one.rest);
    if items.LastItem? {
      assert ([RBRACKET] + rest)[1..] == rest;
      ItemsGrow(c, one, Err([]), ParseItems(c, u, depth), items, depth, after, rest);
    } else {
      ItemsFront(items.next, rest);
      Bracketed(COMMA, items.gap, G.ItemsText(items.next, rest));
      ItemListTaken(c, items.next, depth, rest);
      var more := ParseItems(c, G.ItemsText(items.next, rest), depth);
      ItemsGrow(c, one, more, ParseItems(c, u, depth), items, depth, after, rest);
    }
  }

  /** Where a number byte comes next there is no comma and no closing bracket or brace. */
  lemma NoNumberAfter(v: bytes)
    ensures v != [] && NumberByte(v[0]) ==>
              var w := SkipWs(v); w == v && w[0] != COMMA && w[0] != RBRACKET && w[0] != RBRACE && w[0] != 0
  {
  }

  lemma EmptyObjectTaken(c: Codec, gap: bytes, depth: nat, rest: bytes)
    requires G.Ws(gap) && depth <= NESTING_LIMIT && Terminated(rest)
    ensures Terminated([LBRACE] + gap + ([RBRACE] + rest)) && ([LBRACE] + gap + ([RBRACE] + rest))[0] == LBRACE
    ensures Taken(c, ParseObject(c, [LBRACE] + gap + ([RBRACE] + rest), depth), G.JEmptyObject(gap), depth, rest)
  {
    hide ParseObject, ParseMembers, NextToken, Taken;
    TerminatedConcat([RBRACE], rest);
    Bracketed(LBRACE, gap, [RBRACE] + rest);
    var u := [LBRACE] + gap + ([RBRACE] + rest);
    ObjectUnfolds(c, u, depth);
    assert ([RBRACE] + rest)[1..] == rest;
    EmptyTaken(c, ParseObject(c, u, depth), G.JEmptyObject(gap), depth, rest);
  }

  lemma FullObjectFront(gap: bytes, members: G.Members, rest: bytes)
    requires G.Ws(gap) && G.MembersOk(members) && Terminated(rest)
    ensures var v := G.MembersText(members, rest);
            var u := [LBRACE] + gap + v;
            Terminated(u) && u[0] == LBRACE && NextToken(u) == v && v != [] && v[0] != RBRACE
  {
    hide NextToken, G.MembersText, G.MembersOk, SkipWs, BehindMember;
    MembersFront(members, rest);
    Bracketed(LBRACE, gap, G.MembersText(members, rest));
  }

  lemma {:induction false} FullObjectTaken(c: Codec, gap: bytes, members: G.Members, depth: nat, rest: bytes)
    requires G.ReadsNumerals(c) && G.Ws(gap) && G.MembersOk(members) && depth <= NESTING_LIMIT && Terminated(rest)
    ensures var u := [LBRACE] + gap + G.MembersText(members, rest);
            && Terminated(u) && u[0] == LBRACE
            && Taken(c, ParseObject(c, u, depth), G.JObject(gap, members), depth, rest)
    decreases members, 3
  {
    hide ParseObject, ParseMembers, NextToken, G.MembersText, G.MembersOk, G.Ws, Taken;
    hide MembersTaken, Terminated, G.ReadsNumerals;
    var v := G.MembersText(members, rest);
    var u := [LBRACE] + gap + v;
    FullObjectFront(gap, members, rest);
    ObjectUnfolds(c, u, depth);
    if depth < NESTING_LIMIT {
      MemberListTaken(c, members, depth + 1, rest);
      ObjectFromMembers(c, ParseMembers(c, v, depth + 1), ParseObject(c, u, depth), G.JObject(gap, members),
                        depth, rest);
    } else {
      TooDeep(c, ParseObject(c, u, depth), G.JObject(gap, members), depth, rest);
    }
  }

  /** One member read, and the members behind it. */
  lemma MembersGrow(c: Codec, key: cstring, one: Parsed<Json>, more: Parsed<Chain>, r: Parsed<Chain>,
                          members: G.Members, depth: nat, after: bytes, rest: bytes)
    requires Taken(c, one, members.m.value, depth, after) && after != [] && !NumberByte(after[0])
    requires G.Paired(members.m.name) && key == UpToNul(G.Meaning(members.m.name))
    requires one.Err? || (one.rest != [] && NumberByte(one.rest[0])) ==> r.Err?
    requires members.LastMember? && one.Ok? && one.rest == after ==> r == Ok(Link(Chars(key), one.value, End), rest)
    requires members.MoreMembers? ==> MembersTaken(c, more, members.next, depth, rest)
    requires members.MoreMembers? && one.Ok? && one.rest == after ==>
               if more.Ok? then r == Ok(Link(Chars(key), one.value, more.value), more.rest) else r.Err?
    ensures MembersTaken(c, r, members, depth, rest)
  {
    hide G.Regular, G.TreeOf, G.Levels, NumberByte, G.Paired, G.Meaning, UpToNul;
  }

  lemma NameTaken(m: G.Member, rest: bytes)
    requires G.MemberOk(m) && Terminated(rest)
    ensures Terminated(G.MemberText(m, rest))
    ensures var r := ParseName(G.MemberText(m, rest));
            if G.Paired(m.name) then r == Ok(UpToNul(G.Meaning(m.name)), G.DocText(m.value, rest)) else r.Err?
  {
    hide ParseString, G.StringText, G.DocText, G.DocOk, G.CharOk, SkipWs, NextToken, UpToNul, G.Paired, G.Meaning;
    var text := G.DocText(m.value, rest);
    MemberFront(m, rest);
    StringRead(m.name, m.before + ([COLON] + m.behind + text));
    Bracketed(COLON, m.behind, text);
  }

  lemma {:induction false} MemberListTaken(c: Codec, members: G.Members, depth: nat, rest: bytes)
    requires G.ReadsNumerals(c) && G.MembersOk(members) && depth <= NESTING_LIMIT && Terminated(rest)
    ensures Terminated(G.MembersText(members, rest))
    ensures MembersTaken(c, ParseMembers(c, G.MembersText(members, rest), depth), members, depth, rest)
    decreases members, 2
  {
    hide ParseValue, ParseMembers, ParseName, NextToken, SkipWs, G.DocText, G.DocOk, NumberByte;
    hide Taken, MembersTaken, G.Paired, G.Meaning, UpToNul, G.MemberText;
    var u, after := G.MembersText(members, rest), BehindMember(members, rest);
    MembersFront(members, rest);
    assert u == G.MemberText(members.m, after);
    NameTaken(members.m, after);
    var r := ParseMembers(c, u, depth);
    if !G.Paired(members.m.name) {
      UnnamedFails(c, u, depth);
      Unpaired(c, r, members, depth, rest);
      return;
    }
    DocTaken(c, members.m.value, depth, after);
    var key := UpToNul(G.Meaning(members.m.name));
    MembersStep(c, u, depth, key, G.DocText(members.m.value, after));
    var one := ParseValue(c, G.DocText(members.m.value, after), depth);
    NoNumberAfter(one.rest);
    if members.LastMember? {
      assert ([RBRACE] + rest)[1..] == rest;
      MembersGrow(c, key, one, Err([]), r, members, depth, after, rest);
    } else {
      MembersFront(members.next, rest);
      Bracketed(COMMA, members.gap, G.MembersText(members.next, rest));
      MemberListTaken(c, members.next, depth, rest);
      var more := ParseMembers(c, G.MembersText(members.next, rest), depth);
      MembersGrow(c, key, one, more, r, members, depth, after, rest);
    }
  }

  lemma Unpaired(c: Codec, r: Parsed<Chain>, members: G.Members, depth: nat, rest: bytes)
    requires !G.Paired(members.m.name) && r.Err?
    ensures MembersTaken(c, r, members, depth, rest)
  {
    hide G.Paired;
  }

  lemma UnnamedFails(c: Codec, v: bytes, depth: nat)
    requires Terminated(v) && ParseName(v).Err?
    ensures ParseMembers(c, v, depth).Err?
  {
    hide ParseName;
  }

  // ----- whole texts -----

  /** A byte order mark or nothing. */
  predicate Mark(m: bytes) {
    m == [] || m == [0xEF, 0xBB, 0xBF]
  }

  /**
   * A text of the grammar, with blanks on both sides and possibly a byte order mark in front, is accepted with
   * `require_null_terminated` if and only if its numbers fit the number buffer, its escaped surrogates are paired and
   * its nesting is within the limit; all of it is consumed, and the tree is the one the derivation stands for.
   */
  lemma GrammarAccepted(c: Codec, mark: bytes, before: bytes, doc: G.Doc, after: bytes)
    requires G.ReadsNumerals(c) && Mark(mark) && G.Ws(before) && G.DocOk(doc) && G.Ws(after)
    ensures var u := mark + (before + G.DocText(doc, after + [0]));
            && Terminated(u)
            && var r := Parse(c, u, true);
               if G.Regular(doc) && G.Levels(doc) <= 1000 then r == Ok(G.TreeOf(c, doc), [0]) else r.Err?
  {
    hide ParseValue, Parse, SkipWs, SkipBom, G.DocText, G.DocOk, G.TreeOf, G.Regular, G.Levels;
    var rest := after + [0];
    TerminatedConcat(after, [0]);
    assert !NumberByte(rest[0]) by { assert rest[0] == if after == [] then 0 else after[0]; }
    var text := G.DocText(doc, rest);
    DocTaken(c, doc, 0, rest);
    BlanksTaken(mark, before, doc, rest);
    EndReached(after);
    NoNumberAfter(ParseValue(c, text, 0).rest);
    ParseFinal(c, mark + (before + text), text);
  }

  /**
   * Without `require_null_terminated` anything may follow that cannot go on with a number. It is left over if and only
   * if the text of the grammar is accepted; otherwise parsing fails, or stops inside a number that is too long.
   */
  lemma GrammarPrefixAccepted(c: Codec, mark: bytes, before: bytes, doc: G.Doc, rest: bytes)
    requires G.ReadsNumerals(c) && Mark(mark) && G.Ws(before) && G.DocOk(doc) && Terminated(rest)
    requires !NumberByte(rest[0])
    ensures var u := mark + (before + G.DocText(doc, rest));
            && Terminated(u)
            && var r := Parse(c, u, false);
               if G.Regular(doc) && G.Levels(doc) <= 1000 then r == Ok(G.TreeOf(c, doc), rest)
               else r.Err? || (r.rest != [] && NumberByte(r.rest[0]))
  {
    hide ParseValue, Parse, SkipWs, SkipBom, G.DocText, G.DocOk, G.TreeOf, G.Regular, G.Levels;
    var text := G.DocText(doc, rest);
    DocTaken(c, doc, 0, rest);
    BlanksTaken(mark, before, doc, rest);
    ParseOnly(c, mark + (before + text), text);
  }

  /** Up to the first byte of the value. */
  lemma BlanksTaken(mark: bytes, before: bytes, doc: G.Doc, rest: bytes)
    requires Mark(mark) && G.Ws(before) && G.DocOk(doc) && Terminated(rest)
    ensures var u := mark + (before + G.DocText(doc, rest));
            Terminated(u) && Terminated(G.DocText(doc, rest)) && SkipWs(SkipBom(u)) == G.DocText(doc, rest)
  {
    hide SkipWs, SkipBom, G.DocText, G.DocOk, Terminated;
    var text := G.DocText(doc, rest);
    DocFront(doc, rest);
    TerminatedHead(text);
    TerminatedConcat(before, text);
    SkipBlank(before, text);
    NoMark(before, text);
    MarkSkipped(mark, before + text);
  }

  lemma MarkSkipped(mark: bytes, v: bytes)
    requires Mark(mark) && Terminated(v) && |v| > 1 && SkipBom(v) == v
    ensures Terminated(mark + v) && SkipBom(mark + v) == v
  {
    TerminatedConcat(mark, v);
    if mark == [] {
      assert mark + v == v;
    } else {
      assert (mark + v)[..3] == mark && (mark + v)[3..] == v;
    }
  }

  lemma NoMark(before: bytes, text: bytes)
    requires G.Ws(before) && text != [] && text[0] != 0xEF && Terminated(before + text)
    ensures SkipBom(before + text) == before + text
  {
    var u := before + text;
    assert u[0] == if before == [] then text[0] else before[0];
    assert |u| > 4 ==> u[..3][0] == u[0];
  }

  lemma {:induction false} EndReached(after: bytes)
    requires G.Ws(after)
    ensures SkipWs(after + [0]) == [0]
    decreases |after|
  {
    if after == [] {
      assert after + [0] == [0];
    } else {
      assert (after + [0])[1..] == after[1..] + [0];
      EndReached(after[1..]);
    }
  }

  lemma ParseFinal(c: Codec, u: bytes, v: bytes)
    requires Terminated(u) && SkipWs(SkipBom(u)) == v && Terminated(v)
    ensures var one := ParseValue(c, v, 0);
            && (one.Err? ==> Parse(c, u, true).Err?)
            && (one.Ok? ==>
                  var w := SkipWs(one.rest);
                  Parse(c, u, true) == if w[0] == 0 then Ok(one.value, w) else Err(w))
  {
    hide ParseValue, SkipBom, SkipWs;
  }

  lemma ParseOnly(c: Codec, u: bytes, v: bytes)
    requires Terminated(u) && SkipWs(SkipBom(u)) == v && Terminated(v)
    ensures var one := ParseValue(c, v, 0); if one.Err? then Parse(c, u, false).Err? else Parse(c, u, false) == one
  {
    hide ParseValue, SkipBom, SkipWs;
  }
}
