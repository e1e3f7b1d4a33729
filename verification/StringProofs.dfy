/** Escape and unescape are inverse, decoding fits its allocation, and a literal is read from its own bytes only. */
module StringProofs {
  import opened CText
  import opened Strings

  // ----- unescaping undoes escaping -----

  lemma ScanSkips(e: bytes, v: bytes)
    requires e != [] && e[0] != QUOTE
    requires (e[0] != BACKSLASH && |e| == 1) || (e[0] == BACKSLASH && |e| == 2)
    ensures ScanQuote(e + v) == match ScanQuote(v) case NotFound => NotFound case At(n) => At(n + |e|)
  {
    assert (e + v)[|e|..] == v;
  }

  lemma ScanOneByte(c: uchar, v: bytes)
    requires c != 0
    ensures ScanQuote(EscapeByte(c) + v)
         == match ScanQuote(v) case NotFound => NotFound case At(n) => At(n + |EscapeByte(c)|)
  {
    hide ScanQuote;
    var e := EscapeByte(c);
    if |e| == 6 {
      var d, g := HexDigit(c / 16), HexDigit(c % 16);
      ScanSkips([g], v);
      ScanSkips([d], [g] + v);
      ScanSkips([48], [d] + ([g] + v));
      ScanSkips([48], [48] + ([d] + ([g] + v)));
      ScanSkips([BACKSLASH, LOWER_U], [48] + ([48] + ([d] + ([g] + v))));
      assert e + v == [BACKSLASH, LOWER_U] + ([48] + ([48] + ([d] + ([g] + v))));
    } else {
      ScanSkips(e, v);
    }
  }

  lemma {:induction false} ScanEscaped(s: cstring, w: bytes)
    ensures ScanQuote(Escape(s) + [QUOTE] + w) == At(|Escape(s)|)
    decreases |s|
  {
    hide EscapeByte;
    if s == [] {
      assert Escape(s) + [QUOTE] + w == [QUOTE] + w;
    } else {
      var tail: cstring := s[1..];
      ScanEscaped(tail, w);
      ScanOneByte(s[0], Escape(tail) + [QUOTE] + w);
      assert Escape(s) + [QUOTE] + w == EscapeByte(s[0]) + (Escape(tail) + [QUOTE] + w);
    }
  }

  lemma HexRoundTrip(c: uchar)
    requires c < 32
    ensures Hex4([48, 48, HexDigit(c / 16), HexDigit(c % 16)]) == c
  {
  }

  lemma Utf16OfControl(c: uchar, v: bytes, n: nat)
    requires c < 32 && n < |v|
    ensures var u := [BACKSLASH, LOWER_U, 48, 48, HexDigit(c / 16), HexDigit(c % 16)] + v;
            Utf16(u, 6 + n) == Literal(6, [c])
  {
    hide Hex4;
    var u := [BACKSLASH, LOWER_U, 48, 48, HexDigit(c / 16), HexDigit(c % 16)] + v;
    HexRoundTrip(c);
    assert u[2..6] == [48, 48, HexDigit(c / 16), HexDigit(c % 16)];
  }

  lemma DecodeUnfolds(v: bytes, n: int)
    requires 1 <= n < |v| && v[n] == QUOTE
    ensures v[0] != BACKSLASH ==> Decode(v, n) == Behind([v[0]], Decode(v[1..], n - 1))
    ensures v[0] == BACKSLASH ==>
              var l := EscapeStep(v, n);
              Decode(v, n) == if l.len == 0 then Decoding([], v, false)
                              else Behind(l.out, Decode(v[l.len..], n - l.len))
  {
    hide EscapeStep, Behind;
  }

  lemma DecodePlain(c: uchar, v: bytes, n: nat)
    requires c != BACKSLASH && n < |v| && v[n] == QUOTE
    ensures ([c] + v)[1 + n] == QUOTE
    ensures Decode([c] + v, 1 + n) == Behind([c], Decode(v, n))
  {
    hide EscapeStep;
    assert ([c] + v)[1..] == v && ([c] + v)[1 + n] == v[n];
  }

  lemma DecodeEscape(e: bytes, out: bytes, v: bytes, n: nat)
    requires e != [] && e[0] == BACKSLASH && n < |v| && v[n] == QUOTE
    requires |e| <= |e| + n < |e + v| && EscapeStep(e + v, |e| + n) == Literal(|e|, out)
    ensures (e + v)[|e| + n] == QUOTE
    ensures Decode(e + v, |e| + n) == Behind(out, Decode(v, n))
  {
    hide EscapeStep, Behind;
    assert (e + v)[|e|..] == v && (e + v)[|e| + n] == v[n];
  }

  lemma DecodeSimple(e: uchar, v: bytes, n: nat)
    requires SimpleEscape(e) != 0 && n < |v| && v[n] == QUOTE
    ensures ([BACKSLASH, e] + v)[2 + n] == QUOTE
    ensures Decode([BACKSLASH, e] + v, 2 + n) == Behind([SimpleEscape(e)], Decode(v, n))
  {
    hide SimpleEscape, Utf16, Decode, Behind;
    assert ([BACKSLASH, e] + v)[1] == e;
    DecodeEscape([BACKSLASH, e], [SimpleEscape(e)], v, n);
  }

  lemma DecodeControl(c: uchar, v: bytes, n: nat)
    requires c < 32 && n < |v| && v[n] == QUOTE
    ensures var u := [BACKSLASH, LOWER_U, 48, 48, HexDigit(c / 16), HexDigit(c % 16)] + v;
            && u[6 + n] == QUOTE
            && Decode(u, 6 + n) == Behind([c], Decode(v, n))
  {
    hide Utf16, Decode, Behind, HexDigit;
    var e := [BACKSLASH, LOWER_U, 48, 48, HexDigit(c / 16), HexDigit(c % 16)];
    Utf16OfControl(c, v, n);
    assert (e + v)[1] == LOWER_U;
    DecodeEscape(e, [c], v, n);
  }

  lemma DecodeOneByte(c: uchar, v: bytes, n: nat)
    requires c != 0 && n < |v| && v[n] == QUOTE
    ensures (EscapeByte(c) + v)[|EscapeByte(c)| + n] == QUOTE
    ensures Decode(EscapeByte(c) + v, |EscapeByte(c)| + n) == Behind([c], Decode(v, n))
  {
    hide Decode, Behind, EscapeByte, HexDigit, SimpleEscape;
    var e := EscapeByte(c);
    EscapeForms(c);
    if |e| == 6 {
      DecodeControl(c, v, n);
    } else if |e| == 2 {
      DecodeSimple(e[1], v, n);
    } else {
      DecodePlain(c, v, n);
    }
  }

  lemma EscapeForms(c: uchar)
    requires c != 0
    ensures var e := EscapeByte(c);
            || (c < 32 && e == [BACKSLASH, LOWER_U, 48, 48, HexDigit(c / 16), HexDigit(c % 16)])
            || (|e| == 2 && e == [BACKSLASH, e[1]] && SimpleEscape(e[1]) == c)
            || (c != BACKSLASH && e == [c])
  {
    hide HexDigit;
  }

  lemma EscapeOfNothing(w: bytes)
    ensures |Escape([])| == 0 && Escape([]) + [QUOTE] + w == [QUOTE] + w
  {
  }

  lemma DecodeEnd(v: bytes)
    requires |v| >= 1 && v[0] == QUOTE
    ensures Decode(v, 0) == Decoding([], v, true)
  {
  }

  lemma {:induction false} DecodeEscaped(s: cstring, w: bytes)
    ensures (Escape(s) + [QUOTE] + w)[|Escape(s)|] == QUOTE
    ensures Decode(Escape(s) + [QUOTE] + w, |Escape(s)|) == Decoding(s, [QUOTE] + w, true)
    decreases |s|
  {
    hide EscapeByte, Decode, Behind, Escape;
    if s == [] {
      EscapeOfNothing(w);
      DecodeEnd([QUOTE] + w);
    } else {
      var tail: cstring := s[1..];
      var v := Escape(tail) + [QUOTE] + w;
      DecodeEscaped(tail, w);
      DecodeOneByte(s[0], v, |Escape(tail)|);
      EscapeFront(s, w);
      BehindFirst(s, [QUOTE] + w);
    }
  }

  lemma BehindFirst(s: bytes, rest: bytes)
    requires s != []
    ensures Behind([s[0]], Decoding(s[1..], rest, true)) == Decoding(s, rest, true)
  {
    assert [s[0]] + s[1..] == s;
  }

  lemma EscapeFront(s: cstring, w: bytes)
    requires s != []
    ensures Escape(s) + [QUOTE] + w == EscapeByte(s[0]) + (Escape(s[1..]) + [QUOTE] + w)
    ensures |Escape(s)| == |EscapeByte(s[0])| + |Escape(s[1..])|
  {
    hide EscapeByte;
  }

  /** Reading back a printed string gives its bytes and stops just after the closing quote. */
  lemma ParseQuoted(s: CStr, w: bytes)
    ensures ParseString(Quoted(s) + w) == Ok(TextOf(s), w)
  {
    hide ScanQuote, Decode, UpToNul, Escape;
    var text := TextOf(s);
    QuotedText(s);
    var u := Quoted(s) + w;
    assert u[1..] == Escape(text) + [QUOTE] + w;
    ScanEscaped(text, w);
    DecodeEscaped(text, w);
    assert u[|Escape(text)| + 2..] == w;
    UpToNulWhole(text);
  }

  lemma QuotedText(s: CStr)
    ensures Quoted(s) == [QUOTE] + Escape(TextOf(s)) + [QUOTE]
  {
    assert Escape([]) == [];
  }

  lemma UpToNulWhole(s: cstring)
    ensures UpToNul(s) == s
  {
    hide UpToNul;
  }

  // ----- malformed escapes and the end of the string -----

  /** Among the escapes decoded in the next `n` bytes is a \u literal whose digits give 0, malformed ones included. */
  predicate MeetsZero(v: bytes, n: int)
    requires -1 <= n < |v|
    decreases |v|
  {
    if n <= 0 then false
    else if v[0] != BACKSLASH then MeetsZero(v[1..], n - 1)
    else if v[1] == LOWER_U && n >= 6 && Hex4(v[2..6]) == 0 then true
    else
      var l := EscapeStep(v, n);
      l.len != 0 && MeetsZero(v[l.len..], n - l.len)
  }

  lemma EscapeNul(v: bytes, n: int)
    requires 1 <= n < |v|
    ensures var l := EscapeStep(v, n);
            if v[1] == LOWER_U && n >= 6 && Hex4(v[2..6]) == 0 then l.len != 0 && l.out == [0] else NulFree(l.out)
  {
    hide Hex4;
    Utf16Nul(v, n);
  }

  lemma MeetsZeroEscape(v: bytes, n: int)
    requires 1 <= n < |v| && v[0] == BACKSLASH
    ensures var l := EscapeStep(v, n);
            MeetsZero(v, n) <==> l.len != 0 && (!NulFree(l.out) || MeetsZero(v[l.len..], n - l.len))
  {
    hide Hex4, EscapeStep;
    EscapeNul(v, n);
    var l := EscapeStep(v, n);
    assert l.out != [] && l.out[0] == 0 ==> !NulFree(l.out);
  }

  /** A NUL byte comes out of decoding exactly if such a literal is met. */
  lemma {:induction false} DecodedNul(v: bytes, n: int)
    requires -1 <= n < |v| && (n >= 0 ==> v[n] == QUOTE) && forall i :: 0 <= i < n ==> v[i] != 0
    ensures NulFree(Decode(v, n).out) <==> !MeetsZero(v, n)
    decreases |v|
  {
    hide EscapeStep, Hex4;
    if n > 0 && v[0] != BACKSLASH {
      DecodedNul(v[1..], n - 1);
      NulFreeConcat([v[0]], Decode(v[1..], n - 1).out);
    } else if n > 0 {
      hide MeetsZero, Decode, NulFree;
      MeetsZeroEscape(v, n);
      DecodeUnfolds(v, n);
      var l := EscapeStep(v, n);
      if l.len != 0 {
        DecodedNul(v[l.len..], n - l.len);
        NulFreeConcat(l.out, Decode(v[l.len..], n - l.len).out);
      } else {
        NothingNul();
      }
    }
  }

  lemma NothingNul()
    ensures NulFree([])
  {
  }

  lemma NulFreeConcat(a: bytes, b: bytes)
    ensures NulFree(a + b) <==> NulFree(a) && NulFree(b)
  {
    if NulFree(a + b) {
      assert forall i :: 0 <= i < |a| ==> a[i] == (a + b)[i];
      assert forall i :: 0 <= i < |b| ==> b[i] == (a + b)[|a| + i];
    }
  }

  /** The string read is all that its literal decodes to if and only if none of its \u literals gives 0. */
  lemma ReadWhole(u: bytes)
    requires Terminated(u) && ParseString(u).Ok?
    ensures u[0] == QUOTE && ScanQuote(u[1..]).At?
    ensures var n := ScanQuote(u[1..]).n; ParseString(u).value == Decode(u[1..], n).out <==> !MeetsZero(u[1..], n)
  {
    hide ScanQuote, Decode, MeetsZero, UpToNul;
    var v, n := u[1..], ScanQuote(u[1..]).n;
    TerminatedHead(u);
    assert n < |v| - 1;
    DecodedNul(v, n);
    var out := Decode(v, n).out;
    if NulFree(out) { UpToNulWhole(out); }
  }

  lemma ScanAtQuote(v: bytes)
    requires v != [] && v[0] == QUOTE
    ensures ScanQuote(v) == At(0)
  {
  }

  /** Bytes that neither end a literal nor begin an escape. */
  lemma {:induction false} ScanBytes(e: bytes, v: bytes)
    requires forall i :: 0 <= i < |e| ==> e[i] != QUOTE && e[i] != BACKSLASH
    ensures ScanQuote(e + v) == match ScanQuote(v) case NotFound => NotFound case At(n) => At(n + |e|)
    decreases |e|
  {
    hide ScanQuote;
    if e == [] {
      assert e + v == v;
    } else {
      assert e + v == [e[0]] + (e[1..] + v);
      ScanSkips([e[0]], e[1..] + v);
      ScanBytes(e[1..], v);
    }
  }

  /** A \u literal with its bytes `d`, and the closing quote at once behind it. */
  lemma LoneLiteral(d: bytes, rest: bytes)
    requires forall i :: 0 <= i < |d| ==> d[i] != QUOTE && d[i] != BACKSLASH
    ensures var v := [BACKSLASH, LOWER_U] + (d + ([QUOTE] + rest));
            ScanQuote(v) == At(|d| + 2) && v[|d| + 2] == QUOTE && ParseString([QUOTE] + v)
            == var r := Decode(v, |d| + 2); if r.ok then Ok(UpToNul(r.out), rest) else Err(r.rest)
  {
    hide ScanQuote, Decode, UpToNul;
    var v := [BACKSLASH, LOWER_U] + (d + ([QUOTE] + rest));
    ScanSkips([BACKSLASH, LOWER_U], d + ([QUOTE] + rest));
    ScanBytes(d, [QUOTE] + rest);
    ScanAtQuote([QUOTE] + rest);
    assert ([QUOTE] + v)[1..] == v && v[|d| + 3..] == rest;
  }

  /** Four bytes that are not all hex digits: the literal is accepted, and the string read is empty. */
  lemma MalformedAccepted(d: bytes, rest: bytes)
    requires |d| == 4 && forall i :: 0 <= i < |d| ==> d[i] != QUOTE && d[i] != BACKSLASH
    requires exists i :: 0 <= i < |d| && HexValue(d[i]) < 0
    ensures var r := ParseString([QUOTE, BACKSLASH, LOWER_U] + d + [QUOTE] + rest);
            r.Ok? && r.value == [] && r.rest == rest
  {
    hide ScanQuote, Decode, Hex4;
    var v := [BACKSLASH, LOWER_U] + (d + ([QUOTE] + rest));
    assert [QUOTE, BACKSLASH, LOWER_U] + d + [QUOTE] + rest == [QUOTE] + v;
    LoneLiteral(d, rest);
    Hex4Zero(d);
    assert v[2..6] == d && v[6..] == [QUOTE] + rest && v[1] == LOWER_U;
    assert Utf16(v, 6) == Literal(6, [0]);
    DecodeUnfolds(v, 6);
    DecodeEnd([QUOTE] + rest);
  }

  /** Too few bytes in front of the quote: the literal is refused at its backslash. */
  lemma ShortRefused(d: bytes, rest: bytes)
    requires |d| < 4 && forall i :: 0 <= i < |d| ==> d[i] != QUOTE && d[i] != BACKSLASH
    ensures var u := [QUOTE, BACKSLASH, LOWER_U] + d + [QUOTE] + rest;
            ParseString(u).Err? && ParseString(u).rest == u[1..]
  {
    hide ScanQuote, Decode, Hex4;
    var v := [BACKSLASH, LOWER_U] + (d + ([QUOTE] + rest));
    assert [QUOTE, BACKSLASH, LOWER_U] + d + [QUOTE] + rest == [QUOTE] + v;
    LoneLiteral(d, rest);
    DecodeUnfolds(v, |d| + 2);
  }

  // ----- the size estimate of `parse_string` is an upper bound -----

  /**
   * How many escape pairs the scanning loop begins in the next `n` bytes, if the current byte is
   * (`mid`) or is not the second byte of a pair: `skipped_bytes`.
   */
  function Begun(v: bytes, n: int, mid: bool): (k: nat)
    requires n <= |v|
    decreases |v|
  {
    if n <= 0 then 0
    else if mid then Begun(v[1..], n - 1, false)
    else if v[0] == BACKSLASH then 1 + Begun(v[1..], n - 1, true)
    else Begun(v[1..], n - 1, false)
  }

  /** Two neighbouring bytes never both begin a pair. */
  lemma BegunStep(v: bytes, n: int, mid: bool) returns (after: bool)
    requires 2 <= n <= |v|
    ensures Begun(v, n, mid) <= 1 + Begun(v[2..], n - 2, after)
  {
    assert v[1..][1..] == v[2..];
    after := if !mid && v[0] == BACKSLASH then false else v[1] == BACKSLASH;
  }

  lemma BegunSix(v: bytes, n: int, mid: bool) returns (after: bool)
    requires 6 <= n <= |v|
    ensures Begun(v, n, mid) <= 3 + Begun(v[6..], n - 6, after)
  {
    hide Begun;
    after := BegunStep(v, n, mid);
    after := BegunStep(v[2..], n - 2, after);
    assert v[2..][2..] == v[4..];
    after := BegunStep(v[4..], n - 4, after);
    assert v[4..][2..] == v[6..];
  }

  /** An escape of `len` bytes writes at most `len` minus the pairs begun in it, the rest being in step or not. */
  lemma EscapeFits(v: bytes, n: int, mid: bool) returns (after: bool)
    requires 1 <= n < |v| && v[0] == BACKSLASH && EscapeStep(v, n).len != 0
    ensures var l := EscapeStep(v, n);
            if l.len > n then |l.out| + Begun(v, n, mid) <= n + 1
            else |l.out| + Begun(v, n, mid) <= l.len + Begun(v[l.len..], n - l.len, after)
  {
    hide SimpleEscape, Utf16;
    var l := EscapeStep(v, n);
    if n == 1 {
      assert Begun(v[1..], 0, mid) == 0 && Begun(v[1..], 0, true) == 0;
      after := mid;
    } else if l.len == 2 {
      after := BegunStep(v, n, mid);
    } else {
      hide Begun;
      after := BegunSix(v, n, mid);
      if l.len == 12 {
        after := BegunSix(v[6..], n - 6, after);
        assert v[6..][6..] == v[12..];
      }
    }
  }

  /** Bytes written are at most bytes consumed minus escape pairs begun, in step with the scan or not. */
  lemma {:induction false} DecodeFits(v: bytes, n: int, mid: bool)
    requires -1 <= n < |v| && (n >= 0 ==> v[n] == QUOTE)
    ensures |Decode(v, n).out| + Begun(v, n, mid) <= n + 1
    decreases |v|
  {
    hide EscapeStep;
    if n <= 0 {
      assert Begun(v, n, mid) == 0;
    } else if v[0] != BACKSLASH {
      DecodeFits(v[1..], n - 1, false);
    } else if EscapeStep(v, n).len == 0 {
      BegunBound(v, n, mid);
    } else {
      hide Begun;
      var after := EscapeFits(v, n, mid);
      var l := EscapeStep(v, n);
      DecodeFits(v[l.len..], n - l.len, after);
    }
  }

  lemma {:induction false} BegunBound(v: bytes, n: int, mid: bool)
    requires 0 <= n <= |v|
    ensures Begun(v, n, mid) <= n
    decreases |v|
  {
    if n > 0 {
      BegunBound(v[1..], n - 1, false);
      BegunBound(v[1..], n - 1, true);
    }
  }

  // ----- a literal is read from its own bytes only -----

  lemma {:induction false} ScanLocal(v: bytes, v': bytes, n: nat)
    requires ScanQuote(v) == At(n) && n < |v'| && v'[..n + 1] == v[..n + 1]
    ensures ScanQuote(v') == At(n)
    decreases |v|
  {
    assert forall i :: 0 <= i <= n ==> v'[i] == v[..n + 1][i] == v[i] by {
      assert forall i :: 0 <= i <= n ==> v'[i] == v'[..n + 1][i];
    }
    if n > 0 {
      var k := if v[0] == BACKSLASH then 2 else 1;
      assert v'[k..][..n - k + 1] == v[k..][..n - k + 1];
      ScanLocal(v[k..], v'[k..], n - k);
    }
  }

  lemma Utf16Local(v: bytes, v': bytes, n: nat)
    requires n < |v| && n < |v'| && v'[..n + 1] == v[..n + 1]
    ensures Utf16(v', n) == Utf16(v, n)
  {
    hide Hex4, Utf8;
    if n >= 6 {
      assert v'[2..6] == v'[..n + 1][2..6] && v[2..6] == v[..n + 1][2..6];
    }
    if n >= 12 {
      assert v'[8..12] == v'[..n + 1][8..12] && v[8..12] == v[..n + 1][8..12];
      assert v'[6] == v'[..n + 1][6] && v[6] == v[..n + 1][6] && v'[7] == v'[..n + 1][7] && v[7] == v[..n + 1][7];
    }
  }

  lemma EscapeLocal(v: bytes, v': bytes, n: int)
    requires 1 <= n < |v| && n < |v'| && v'[..n + 1] == v[..n + 1]
    ensures EscapeStep(v', n) == EscapeStep(v, n)
  {
    hide SimpleEscape, Utf16;
    assert v'[1] == v'[..n + 1][1] && v[1] == v[..n + 1][1];
    Utf16Local(v, v', n);
  }

  /** The same bytes written, and the same success. */
  predicate SameResult(a: Decoding, b: Decoding) {
    a.out == b.out && a.ok == b.ok
  }

  lemma BehindSame(w: bytes, a: Decoding, b: Decoding)
    requires SameResult(a, b)
    ensures SameResult(Behind(w, a), Behind(w, b))
  {
  }

  lemma {:induction false} DecodeLocal(v: bytes, v': bytes, n: int)
    requires -1 <= n < |v| && n < |v'| && v'[..n + 1] == v[..n + 1] && (n >= 0 ==> v[n] == QUOTE)
    ensures n >= 0 ==> v'[n] == QUOTE
    ensures SameResult(Decode(v', n), Decode(v, n))
    decreases |v|, 1
  {
    hide EscapeStep, Decode, Behind;
    if n <= 0 {
      if n == 0 { SameAt(v, v', n, 0); }
      DecodeAtEnd(v, n);
      DecodeAtEnd(v', n);
      return;
    }
    SameAt(v, v', n, 0);
    SameAt(v, v', n, n);
    DecodeUnfolds(v, n);
    DecodeUnfolds(v', n);
    hide SameResult;
    if v[0] != BACKSLASH {
      DecodeLocalAfter(v, v', n, 1);
      BehindSame([v[0]], Decode(v'[1..], n - 1), Decode(v[1..], n - 1));
    } else {
      EscapeLocal(v, v', n);
      var l := EscapeStep(v, n);
      if l.len != 0 {
        DecodeLocalAfter(v, v', n, l.len);
        BehindSame(l.out, Decode(v'[l.len..], n - l.len), Decode(v[l.len..], n - l.len));
      } else {
        NothingRead(v, v');
      }
    }
  }

  lemma NothingRead(v: bytes, v': bytes)
    ensures SameResult(Decoding([], v', false), Decoding([], v, false))
  {
  }

  lemma SameAt(v: bytes, v': bytes, n: nat, k: nat)
    requires k <= n < |v| && n < |v'| && v'[..n + 1] == v[..n + 1]
    ensures v'[k] == v[k]
  {
    assert v'[k] == v'[..n + 1][k] && v[k] == v[..n + 1][k];
  }

  lemma DecodeAtEnd(v: bytes, n: int)
    requires -1 <= n <= 0 && n < |v| && (n >= 0 ==> v[n] == QUOTE)
    ensures Decode(v, n) == Decoding([], v, true)
  {
  }

  lemma {:induction false} DecodeLocalAfter(v: bytes, v': bytes, n: int, k: nat)
    requires 0 < k <= n + 1 && n < |v| && n < |v'| && v'[..n + 1] == v[..n + 1] && v[n] == QUOTE
    ensures n - k >= 0 ==> v[k..][n - k] == QUOTE && v'[k..][n - k] == QUOTE
    ensures SameResult(Decode(v'[k..], n - k), Decode(v[k..], n - k))
    decreases |v|, 0
  {
    hide Decode, SameResult;
    assert v'[n] == v'[..n + 1][n];
    assert v'[k..][..n - k + 1] == v'[..n + 1][k..] == v[..n + 1][k..] == v[k..][..n - k + 1];
    DecodeLocal(v[k..], v'[k..], n - k);
  }

  /** A literal that is read followed by `x` is read the same followed by `y`. */
  lemma ParseStringLocal(lit: bytes, x: bytes, y: bytes, s: cstring)
    requires |lit| >= 1 && ParseString(lit + x) == Ok(s, x)
    ensures ParseString(lit + y) == Ok(s, y)
  {
    hide ScanQuote, Decode, UpToNul;
    var u, w := lit + x, lit + y;
    var n := ScanQuote(u[1..]).n;
    assert |lit| == n + 2;
    assert w[1..][..n + 1] == lit[1..] == u[1..][..n + 1];
    ScanLocal(u[1..], w[1..], n);
    DecodeLocal(u[1..], w[1..], n);
    assert w[n + 2..] == y;
  }
}
