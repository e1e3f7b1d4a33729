/** How `print_string_ptr` spells a character, among all the ways the grammar has. */
module Spelling {
  import opened CText
  import opened Strings
  import G = Grammar

  /** A spelling of the byte `b`: a character of the grammar that means just that. */
  predicate Spells(ch: G.Char, b: uchar) {
    G.CharOk(ch) && G.Paired([ch]) && G.Meaning([ch]) == [b]
  }

  /** The same, form by form. */
  predicate SpellsBy(ch: G.Char, b: uchar) {
    G.CharOk(ch) &&
    match ch
    case Unescaped(s) => s == [b]
    case Escaped(e) => G.EscapedByte(e) == b
    case UEscaped(d) => G.HexNumber(d) == b
  }

  predicate LowerCase(ch: G.Char) {
    ch.UEscaped? ==> forall i :: 0 <= i < 4 ==> !(0x41 <= ch.d[i] <= 0x46)
  }

  lemma SpellsForms(ch: G.Char, b: uchar)
    requires 0 < b < 0x80
    ensures Spells(ch, b) <==> SpellsBy(ch, b)
  {
    hide G.CharOk, G.EscapedByte, G.HexNumber;
    var none: seq<G.Char> := [ch][1..];
    assert none == [] && G.Paired(none) && G.Meaning(none) == [];
    match ch
    case Unescaped(s) => assert s + [] == s;
    case Escaped(e) => assert [G.EscapedByte(e)] == [b] <==> G.EscapedByte(e) == b;
    case UEscaped(d) =>
      if G.Paired([ch]) {
        assert Utf8(G.HexNumber(d)) + [] == Utf8(G.HexNumber(d));
        OneByte(G.HexNumber(d), b);
      }
  }

  lemma OneByte(cp: nat, b: uchar)
    requires cp < 0x1_0000 && b < 0x80
    ensures Utf8(cp) == [b] <==> cp == b
  {
  }

  function Chosen(b: uchar): G.Char
    requires 0 < b < 0x80
  {
    if |EscapeByte(b)| == 2 then G.Escaped(EscapeByte(b)[1])
    else if |EscapeByte(b)| == 6 then G.UEscaped(EscapeByte(b)[2..])
    else G.Unescaped([b])
  }

  lemma ChosenSpells(b: uchar)
    requires 0 < b < 0x80
    ensures G.CharText(Chosen(b)) == EscapeByte(b) && SpellsBy(Chosen(b), b) && LowerCase(Chosen(b))
  {
  }

  lemma SameDigits(a: nat, b: nat, e: nat, f: nat, a': nat, b': nat, e': nat, f': nat)
    requires a < 16 && b < 16 && e < 16 && f < 16 && a' < 16 && b' < 16 && e' < 16 && f' < 16
    requires 0x1000 * a + 0x100 * b + 0x10 * e + f == 0x1000 * a' + 0x100 * b' + 0x10 * e' + f'
    ensures a == a' && b == b' && e == e' && f == f'
  {
  }

  lemma SameDigit(x: uchar, y: uchar)
    requires G.HexDigit(x) && G.HexDigit(y) && G.DigitNumber(x) == G.DigitNumber(y)
    requires !(0x41 <= x <= 0x46) && !(0x41 <= y <= 0x46)
    ensures x == y
  {
  }

  lemma OneUEscaped(d: G.quad, d': G.quad)
    requires G.CharOk(G.UEscaped(d)) && G.CharOk(G.UEscaped(d')) && G.HexNumber(d) == G.HexNumber(d')
    requires LowerCase(G.UEscaped(d)) && LowerCase(G.UEscaped(d'))
    ensures d == d'
  {
    hide G.DigitNumber;
    var x := seq(4, i requires 0 <= i < 4 => G.DigitNumber(d[i]));
    var y := seq(4, i requires 0 <= i < 4 => G.DigitNumber(d'[i]));
    assert G.HexNumber(d) == 0x1000 * x[0] + 0x100 * x[1] + 0x10 * x[2] + x[3];
    assert G.HexNumber(d') == 0x1000 * y[0] + 0x100 * y[1] + 0x10 * y[2] + y[3];
    SameDigits(x[0], x[1], x[2], x[3], y[0], y[1], y[2], y[3]);
    forall i | 0 <= i < 4 ensures d[i] == d'[i] {
      assert x[i] == y[i];
      SameDigit(d[i], d'[i]);
    }
  }

  lemma ShorterThan(b: uchar, other: G.Char)
    requires 0 < b < 0x80 && SpellsBy(other, b) && LowerCase(other) && other != Chosen(b)
    ensures |EscapeByte(b)| < |G.CharText(other)|
  {
    ChosenSpells(b);
    match other
    case Unescaped(_) =>
    case Escaped(e) =>
    case UEscaped(d) =>
      if Chosen(b).UEscaped? { OneUEscaped(d, Chosen(b).d); }
  }

  /**
   * A byte below 128 is printed in the one shortest spelling the grammar has for it, with hex digits in lower case;
   * bytes from 128 on are printed as they are.
   */
  lemma ShortestSpelling(b: uchar)
    requires b > 0
    ensures b >= 0x80 ==> EscapeByte(b) == [b]
    ensures b < 0x80 ==>
              exists ch :: Spells(ch, b) && LowerCase(ch) && EscapeByte(b) == G.CharText(ch) &&
                forall other :: Spells(other, b) && LowerCase(other) && other != ch ==>
                  |G.CharText(ch)| < |G.CharText(other)|
  {
    hide Spells, SpellsBy, LowerCase, Chosen, G.CharText;
    if b < 0x80 {
      ChosenSpells(b);
      SpellsForms(Chosen(b), b);
      forall other | Spells(other, b) && LowerCase(other) && other != Chosen(b)
        ensures |EscapeByte(b)| < |G.CharText(other)|
      {
        SpellsForms(other, b);
        ShorterThan(b, other);
      }
    }
  }

  /** The decoder knows the short escapes of the grammar and no others. */
  lemma SimpleEscapesSame(e: uchar)
    ensures SimpleEscape(e) == G.EscapedByte(e)
  {
  }
}
