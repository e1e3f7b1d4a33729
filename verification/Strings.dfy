/** JSON string literals: escaping as `print_string_ptr` does it, scanning and decoding as `parse_string` does. */
module Strings {
  import opened CText

  const LOWER_U: uchar := 117

  /** A `char *` field: NULL or a C string. */
  datatype CStr = Missing | Chars(text: cstring)

  /** What a parsing step returns: a value and the text left, or the text at the position of the error. */
  datatype Parsed<T> = Ok(value: T, rest: bytes) | Err(rest: bytes)

  // ----- escaping (section 7 of RFC 8259) -----

  function HexDigit(n: nat): uchar
    requires n < 16
  {
    if n < 10 then 48 + n else 87 + n
  }

  function EscapeByte(c: uchar): (r: bytes)
    ensures |r| >= 1
    ensures c != 0 ==> NulFree(r)
  {
    if c == QUOTE then [BACKSLASH, QUOTE]
    else if c == BACKSLASH then [BACKSLASH, BACKSLASH]
    else if c == 8 then [BACKSLASH, 98]
    else if c == 12 then [BACKSLASH, 102]
    else if c == LF then [BACKSLASH, 110]
    else if c == CR then [BACKSLASH, 114]
    else if c == TAB then [BACKSLASH, 116]
    else if c < 32 then [BACKSLASH, LOWER_U, 48, 48, HexDigit(c / 16), HexDigit(c % 16)]
    else [c]
  }

  function Escape(s: bytes): (r: bytes)
    ensures NulFree(s) ==> NulFree(r)
  {
    if s == [] then []
    else
      assert NulFree(s) ==> s[0] != 0 && NulFree(s[1..]);
      EscapeByte(s[0]) + Escape(s[1..])
  }

  /** The text of a string value; a NULL pointer prints like the empty string. */
  function Quoted(s: CStr): (r: cstring)
    ensures |r| >= 2 && r[0] == QUOTE
  {
    match s
    case Missing => [QUOTE, QUOTE]
    case Chars(text) => [QUOTE] + Escape(text) + [QUOTE]
  }

  /** The bytes of the C string printed for a field: NULL prints as the empty string. */
  function TextOf(s: CStr): cstring {
    match s case Missing => [] case Chars(text) => text
  }

  // ----- \u escapes -----

  function HexValue(c: uchar): int {
    if 48 <= c <= 57 then c - 48
    else if 65 <= c <= 70 then c - 55
    else if 97 <= c <= 102 then c - 87
    else -1
  }

  /** `parse_hex4`: four hex digits, or 0 when one of them is not a hex digit. */
  function Hex4(d: bytes): (h: nat)
    requires |d| == 4
    ensures h < 0x1_0000
  {
    if HexValue(d[0]) < 0 || HexValue(d[1]) < 0 || HexValue(d[2]) < 0 || HexValue(d[3]) < 0 then 0
    else 4096 * HexValue(d[0]) + 256 * HexValue(d[1]) + 16 * HexValue(d[2]) + HexValue(d[3])
  }

  /** The UTF-8 form of a code point; `(x | 0x80) & 0xBF` keeps six bits and sets the top one. */
  function Utf8(cp: nat): (r: bytes)
    requires cp < 0x11_0000
    ensures 1 <= |r| <= 4
    ensures cp < 0x1_0000 ==> |r| <= 3
  {
    if cp < 0x80 then [cp]
    else if cp < 0x800 then [0xC0 + cp / 64, 0x80 + cp % 64]
    else if cp < 0x1_0000 then [0xE0 + cp / 4096, 0x80 + cp / 64 % 64, 0x80 + cp % 64]
    else [0xF0 + cp / 262144, 0x80 + cp / 4096 % 64, 0x80 + cp / 64 % 64, 0x80 + cp % 64]
  }

  predicate Utf8Tail(b: uchar) {
    0x80 <= b <= 0xBF
  }

  /** The sequences of one character that the syntax of section 4 of RFC 3629 admits. */
  predicate Utf8Char(b: bytes) {
    (|b| == 1 && b[0] <= 0x7F)
    || (|b| == 2 && 0xC2 <= b[0] <= 0xDF && Utf8Tail(b[1]))
    || (|b| == 3 && Utf8Tail(b[2]) && (
          (b[0] == 0xE0 && 0xA0 <= b[1] <= 0xBF) || (0xE1 <= b[0] <= 0xEC && Utf8Tail(b[1]))
          || (b[0] == 0xED && 0x80 <= b[1] <= 0x9F) || (0xEE <= b[0] <= 0xEF && Utf8Tail(b[1]))))
    || (|b| == 4 && Utf8Tail(b[2]) && Utf8Tail(b[3]) && (
          (b[0] == 0xF0 && 0x90 <= b[1] <= 0xBF) || (0xF1 <= b[0] <= 0xF3 && Utf8Tail(b[1]))
          || (b[0] == 0xF4 && 0x80 <= b[1] <= 0x8F)))
  }

  /** The character number of such a sequence (section 3 of RFC 3629). */
  function Utf8Value(b: bytes): int {
    if |b| == 1 then b[0]
    else if |b| == 2 then (b[0] as int - 0xC0) * 64 + (b[1] as int - 0x80)
    else if |b| == 3 then (b[0] as int - 0xE0) * 4096 + (b[1] as int - 0x80) * 64 + (b[2] as int - 0x80)
    else if |b| == 4 then
      (b[0] as int - 0xF0) * 262144 + (b[1] as int - 0x80) * 4096 + (b[2] as int - 0x80) * 64 + (b[3] as int - 0x80)
    else -1
  }

  predicate Surrogate(cp: nat) {
    0xD800 <= cp <= 0xDFFF
  }

  /** The bytes are those of the code point, and they are well formed exactly if it is no surrogate. */
  lemma Utf8Faithful(cp: nat)
    requires cp < 0x11_0000
    ensures Utf8Value(Utf8(cp)) == cp && (Utf8Char(Utf8(cp)) <==> !Surrogate(cp))
  {
    SixBits(cp);
    SixBits(cp / 64);
    SixBits(cp / 4096);
    Utf8WellFormed(cp);
    hide Utf8, Utf8Value, Utf8Char;
    Utf8Pieces(cp);
  }

  lemma Utf8WellFormed(cp: nat)
    requires cp < 0x11_0000
    ensures Utf8Char(Utf8(cp)) <==> !Surrogate(cp)
  {
    SixBits(cp);
    SixBits(cp / 64);
  }

  lemma SixBits(n: nat)
    ensures n == n / 64 * 64 + n % 64
    ensures n / 64 / 64 == n / 4096 && n / 4096 / 64 == n / 262144
  {
  }

  lemma Utf8Pieces(cp: nat)
    requires cp < 0x11_0000
    ensures Utf8Value(Utf8(cp)) ==
            if cp < 0x80 then cp
            else if cp < 0x800 then cp / 64 * 64 + cp % 64
            else if cp < 0x1_0000 then cp / 4096 * 4096 + cp / 64 % 64 * 64 + cp % 64
            else cp / 262144 * 262144 + cp / 4096 % 64 * 4096 + cp / 64 % 64 * 64 + cp % 64
  {
  }

  /** How many input bytes a \u literal took, 0 for failure, and what it decodes to. */
  datatype Literal = Literal(len: nat, out: bytes)

  /** `utf16_literal_to_utf8`, on a text that starts with `\u` and has `n` bytes before the closing quote. */
  function Utf16(v: bytes, n: int): (l: Literal)
    requires n < |v|
    ensures l.len == 0 || l.len == 6 || l.len == 12
    ensures l.len <= n || l.len == 0
    ensures l.len == 0 ==> l.out == []
    ensures l.len == 6 ==> 1 <= |l.out| <= 3
    ensures l.len == 12 ==> 1 <= |l.out| <= 4
  {
    if n < 6 then Literal(0, [])
    else
      var first := Hex4(v[2..6]);
      if 0xDC00 <= first <= 0xDFFF then Literal(0, [])
      else if 0xD800 <= first <= 0xDBFF then
        if n < 12 || v[6] != BACKSLASH || v[7] != LOWER_U then Literal(0, [])
        else
          var second := Hex4(v[8..12]);
          if second < 0xDC00 || second > 0xDFFF then Literal(0, [])
          else Literal(12, Utf8(0x1_0000 + first % 0x400 * 0x400 + second % 0x400))
      else Literal(6, Utf8(first))
  }

  /** Whatever the input, what a \u literal decodes to is nothing or one well formed character. */
  lemma Utf16WellFormed(v: bytes, n: int)
    requires n < |v|
    ensures var l := Utf16(v, n); if l.len == 0 then l.out == [] else Utf8Char(l.out)
    ensures Utf16(v, n).len == 6 ==> Utf8Value(Utf16(v, n).out) == Hex4(v[2..6])
    ensures Utf16(v, n).len == 12 ==>
              Utf8Value(Utf16(v, n).out) == 0x1_0000 + (Hex4(v[2..6]) - 0xD800) * 0x400 + (Hex4(v[8..12]) - 0xDC00)
  {
    hide Hex4, Utf8, Utf8Char, Utf8Value;
    if Utf16(v, n).len == 6 {
      Utf8Faithful(Hex4(v[2..6]));
    } else if Utf16(v, n).len == 12 {
      Utf8Faithful(0x1_0000 + Hex4(v[2..6]) % 0x400 * 0x400 + Hex4(v[8..12]) % 0x400);
    }
  }

  /** `parse_hex4` gives 0 for four zeros, and for four bytes that are not all hex digits. */
  lemma Hex4Zero(d: bytes)
    requires |d| == 4
    ensures Hex4(d) == 0 <==> d == [48, 48, 48, 48] || exists i :: 0 <= i < 4 && HexValue(d[i]) < 0
  {
    if forall i :: 0 <= i < 4 ==> HexValue(d[i]) >= 0 {
      assert HexValue(d[0]) >= 0 && HexValue(d[1]) >= 0 && HexValue(d[2]) >= 0 && HexValue(d[3]) >= 0;
      assert forall i :: 0 <= i < 4 ==> (HexValue(d[i]) == 0 <==> d[i] == 48);
    }
  }

  lemma Utf8NulFree(cp: nat)
    requires cp < 0x11_0000
    ensures if cp == 0 then Utf8(cp) == [0] else NulFree(Utf8(cp)) && Utf8(cp)[0] != 0
  {
  }

  /** Exactly when a \u literal gives a NUL byte: it has six bytes in front of the quote, and its digits give 0. */
  lemma Utf16Nul(v: bytes, n: int)
    requires n < |v|
    ensures Utf16(v, n).out == [0] <==> n >= 6 && Hex4(v[2..6]) == 0
    ensures Utf16(v, n).out != [0] ==> NulFree(Utf16(v, n).out)
    ensures n >= 12 && 0xD800 <= Hex4(v[2..6]) <= 0xDBFF && Hex4(v[8..12]) == 0 ==> Utf16(v, n).len == 0
  {
    hide Hex4, Utf8;
    var l := Utf16(v, n);
    if l.len == 6 {
      Utf8NulFree(Hex4(v[2..6]));
    } else if l.len == 12 {
      Utf8NulFree(0x1_0000 + Hex4(v[2..6]) % 0x400 * 0x400 + Hex4(v[8..12]) % 0x400);
    }
  }

  // ----- scanning and decoding -----

  datatype Found = NotFound | At(n: nat)

  /** The first loop of `parse_string`: where the closing quote is, a byte after a backslash being skipped. */
  function ScanQuote(v: bytes): (f: Found)
    ensures f.At? ==> f.n < |v| && v[f.n] == QUOTE
  {
    if v == [] then NotFound
    else if v[0] == QUOTE then At(0)
    else if v[0] == BACKSLASH then
      if |v| < 2 then NotFound
      else match ScanQuote(v[2..]) case NotFound => NotFound case At(n) => At(n + 2)
    else match ScanQuote(v[1..]) case NotFound => NotFound case At(n) => At(n + 1)
  }

  /** The byte an escape of two characters stands for, or 0 if the character names no such escape. */
  function SimpleEscape(e: uchar): uchar {
    if e == 98 then 8 else if e == 102 then 12 else if e == 110 then LF else if e == 114 then CR
    else if e == 116 then TAB else if e == QUOTE || e == BACKSLASH || e == SLASH then e else 0
  }

  /** Bytes written, the text at which decoding stopped, and whether it got past the last byte. */
  datatype Decoding = Decoding(out: bytes, rest: bytes, ok: bool)

  function Behind(written: bytes, d: Decoding): Decoding {
    d.(out := written + d.out)
  }

  /** What the escape at the front of `v` takes, 0 for failure, and what it gives. */
  function EscapeStep(v: bytes, n: int): (l: Literal)
    requires 1 <= n < |v|
    ensures l.len <= n + 1 && (l.len == 0 ==> l.out == [])
  {
    if SimpleEscape(v[1]) != 0 then Literal(2, [SimpleEscape(v[1])])
    else if v[1] == LOWER_U then Utf16(v, n)
    else Literal(0, [])
  }

  /**
   * The second loop of `parse_string` with `n` bytes left before the closing quote. A `\u` escape eats
   * its four bytes whatever they are, so this loop can fall out of step with the scan; it then may even
   * take the closing quote for an escaped one, which leaves `n` at -1.
   */
  function Decode(v: bytes, n: int): (d: Decoding)
    requires -1 <= n < |v|
    requires n >= 0 ==> v[n] == QUOTE
    ensures |d.rest| <= |v|
    decreases |v|
  {
    if n <= 0 then Decoding([], v, true)
    else if v[0] != BACKSLASH then Behind([v[0]], Decode(v[1..], n - 1))
    else
      var l := EscapeStep(v, n);
      if l.len == 0 then Decoding([], v, false) else Behind(l.out, Decode(v[l.len..], n - l.len))
  }

  /** `parse_string`: the value is the C string the caller sees, which ends at the first NUL decoded. */
  function ParseString(u: bytes): (r: Parsed<cstring>)
    requires |u| >= 1
    ensures r.Ok? ==> |r.rest| < |u| && r.rest == u[|u| - |r.rest|..]
    ensures |r.rest| <= |u|
  {
    if u[0] != QUOTE then Err(u[1..])
    else
      match ScanQuote(u[1..])
      case NotFound => Err(u[1..])
      case At(n) =>
        var d := Decode(u[1..], n);
        if d.ok then Ok(UpToNul(d.out), u[n + 2..]) else Err(d.rest)
  }
}
