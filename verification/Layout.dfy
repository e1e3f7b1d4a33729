/**
 * Formatted printing as a layout of compact text. The layout is found by one pass over the compact bytes, given as
 * byte numbers; it knows nothing of items, and what the printer puts out formatted is exactly that.
 */
module Layout {
  import opened CText
  import opened Doubles
  import opened Strings
  import opened Json

  datatype Bracket = InArray | InObject

  /** Where the pass is: between tokens, at the start of a line not yet indented, or in a string literal. */
  datatype Place = Between | LineStart | Quoting

  /** One tab for every open bracket or brace. */
  function Indentation(open: seq<Bracket>): (r: bytes)
    ensures |r| == |open|
  {
    seq(|open|, _ => 9)
  }

  function Closed(open: seq<Bracket>): seq<Bracket> {
    if open == [] then [] else open[..|open| - 1]
  }

  predicate Among(open: seq<Bracket>, b: Bracket) {
    open != [] && open[|open| - 1] == b
  }

  /**
   * A new line follows every opening brace and every comma between members, and precedes every closing brace
   * (which follows an opening one directly on the line they have begun together); a tab follows every colon, a blank
   * every comma between elements. String literals are copied.
   */
  function LayOut(s: bytes, open: seq<Bracket>, place: Place): bytes
    decreases |s|
  {
    if s == [] then []
    else if place == Quoting then
      if s[0] == 0x5C && |s| >= 2 then s[..2] + LayOut(s[2..], open, Quoting)
      else [s[0]] + LayOut(s[1..], open, if s[0] == 0x22 then Between else Quoting)
    else if s[0] == 0x7D then
      (if place == LineStart then [] else [10]) + Indentation(Closed(open)) + [0x7D]
      + LayOut(s[1..], Closed(open), Between)
    else
      (if place == LineStart then Indentation(open) else [])
      + if s[0] == 0x7B then [0x7B, 10] + LayOut(s[1..], open + [InObject], LineStart)
        else if s[0] == 0x5B then [0x5B] + LayOut(s[1..], open + [InArray], Between)
        else if s[0] == 0x5D then [0x5D] + LayOut(s[1..], Closed(open), Between)
        else if s[0] == 0x3A then [0x3A, 9] + LayOut(s[1..], open, Between)
        else if s[0] == 0x2C && Among(open, InObject) then [0x2C, 10] + LayOut(s[1..], open, LineStart)
        else if s[0] == 0x2C then [0x2C, 0x20] + LayOut(s[1..], open, Between)
        else [s[0]] + LayOut(s[1..], open, if s[0] == 0x22 then Quoting else Between)
  }

  predicate Plain(b: uchar) {
    b != 0x22 && b != 0x2C && b != 0x3A && b != 0x5B && b != 0x5D && b != 0x7B && b != 0x7D
  }

  lemma {:induction false} PlainCopied(w: bytes, rest: bytes, open: seq<Bracket>)
    requires forall i :: 0 <= i < |w| ==> Plain(w[i])
    ensures LayOut(w + rest, open, Between) == w + LayOut(rest, open, Between)
    decreases |w|
  {
    if w == [] {
      assert w + rest == rest;
    } else {
      assert (w + rest)[1..] == w[1..] + rest;
      PlainCopied(w[1..], rest, open);
    }
  }

  lemma ByteCopied(b: uchar, rest: bytes, open: seq<Bracket>)
    requires b != 0
    ensures LayOut(EscapeByte(b) + rest, open, Quoting) == EscapeByte(b) + LayOut(rest, open, Quoting)
  {
    var e := EscapeByte(b);
    if |e| == 2 {
      PairCopied(e[1], rest, open);
    } else if |e| == 6 {
      PairCopied(e[1], e[2..] + rest, open);
      DigitsCopied(e[2..], rest, open);
      assert e + rest == [0x5C, e[1]] + (e[2..] + rest);
      assert e == [0x5C, e[1]] + e[2..];
    } else {
      assert ([b] + rest)[1..] == rest;
    }
  }

  lemma PairCopied(e: uchar, rest: bytes, open: seq<Bracket>)
    ensures LayOut([0x5C, e] + rest, open, Quoting) == [0x5C, e] + LayOut(rest, open, Quoting)
  {
    var s := [0x5C, e] + rest;
    assert s[..2] == [0x5C, e] && s[2..] == rest;
  }

  lemma {:induction false} DigitsCopied(w: bytes, rest: bytes, open: seq<Bracket>)
    requires forall i :: 0 <= i < |w| ==> w[i] != 0x22 && w[i] != 0x5C
    ensures LayOut(w + rest, open, Quoting) == w + LayOut(rest, open, Quoting)
    decreases |w|
  {
    if w == [] {
      assert w + rest == rest;
    } else {
      assert (w + rest)[1..] == w[1..] + rest;
      DigitsCopied(w[1..], rest, open);
    }
  }

  lemma {:induction false} EscapedCopied(text: cstring, rest: bytes, open: seq<Bracket>)
    ensures LayOut(Escape(text) + rest, open, Quoting) == Escape(text) + LayOut(rest, open, Quoting)
    decreases |text|
  {
    hide LayOut, EscapeByte;
    if text == [] {
      assert Escape(text) + rest == rest;
    } else {
      var first, more := EscapeByte(text[0]), Escape(text[1..]);
      ByteCopied(text[0], more + rest, open);
      EscapedCopied(text[1..], rest, open);
      assert Escape(text) + rest == first + (more + rest);
      assert first + (more + LayOut(rest, open, Quoting)) == Escape(text) + LayOut(rest, open, Quoting);
    }
  }

  /** A token that is copied, and what is behind it. */
  ghost predicate Copies(w: bytes, rest: bytes, open: seq<Bracket>) {
    LayOut(w + rest, open, Between) == w + LayOut(rest, open, Between)
  }

  lemma QuotedCopied(s: CStr, rest: bytes, open: seq<Bracket>)
    ensures Copies(Quoted(s), rest, open)
  {
    hide LayOut, Escape;
    var inner := match s case Missing => [] case Chars(text) => Escape(text);
    if s.Chars? { EscapedCopied(s.text, [0x22] + rest, open); }
    QuoteOpens(inner + ([0x22] + rest), open);
    QuoteCloses(rest, open);
    assert Quoted(s) + rest == [0x22] + (inner + ([0x22] + rest));
    assert inner + ([0x22] + rest) == [0x22] + rest || s.Chars?;
    assert [0x22] + (inner + ([0x22] + LayOut(rest, open, Between))) == Quoted(s) + LayOut(rest, open, Between);
  }

  lemma QuoteOpens(rest: bytes, open: seq<Bracket>)
    ensures LayOut([0x22] + rest, open, Between) == [0x22] + LayOut(rest, open, Quoting)
  {
    assert ([0x22] + rest)[1..] == rest;
  }

  lemma QuoteCloses(rest: bytes, open: seq<Bracket>)
    ensures LayOut([0x22] + rest, open, Quoting) == [0x22] + LayOut(rest, open, Between)
  {
    assert ([0x22] + rest)[1..] == rest;
  }

  // ----- one step of the pass at each mark -----

  lemma BraceOpens(rest: bytes, open: seq<Bracket>)
    ensures LayOut([0x7B] + rest, open, Between) == [0x7B, 10] + LayOut(rest, open + [InObject], LineStart)
  {
    assert ([0x7B] + rest)[1..] == rest;
  }

  lemma BracketOpens(rest: bytes, open: seq<Bracket>)
    ensures LayOut([0x5B] + rest, open, Between) == [0x5B] + LayOut(rest, open + [InArray], Between)
  {
    assert ([0x5B] + rest)[1..] == rest;
  }

  lemma BracketCloses(rest: bytes, open: seq<Bracket>)
    ensures LayOut([0x5D] + rest, open, Between) == [0x5D] + LayOut(rest, Closed(open), Between)
  {
    assert ([0x5D] + rest)[1..] == rest;
  }

  lemma ColonStands(rest: bytes, open: seq<Bracket>)
    ensures LayOut([0x3A] + rest, open, Between) == [0x3A, 9] + LayOut(rest, open, Between)
  {
    assert ([0x3A] + rest)[1..] == rest;
  }

  lemma CommaStands(rest: bytes, open: seq<Bracket>)
    ensures LayOut([0x2C] + rest, open, Between) ==
              if Among(open, InObject) then [0x2C, 10] + LayOut(rest, open, LineStart)
              else [0x2C, 0x20] + LayOut(rest, open, Between)
  {
    assert ([0x2C] + rest)[1..] == rest;
  }

  lemma BraceCloses(rest: bytes, open: seq<Bracket>, place: Place)
    requires place != Quoting
    ensures LayOut([0x7D] + rest, open, place) ==
              (if place == LineStart then [] else [10])
                + Indentation(Closed(open)) + [0x7D] + LayOut(rest, Closed(open), Between)
  {
    assert ([0x7D] + rest)[1..] == rest;
  }

  lemma LineBegins(s: bytes, open: seq<Bracket>)
    requires s != [] && s[0] != 0x7D
    ensures LayOut(s, open, LineStart) == Indentation(open) + LayOut(s, open, Between)
  {
  }

  lemma TabsAreIndentation(open: seq<Bracket>)
    ensures Indentation(open) == Tabs(|open|)
  {
  }

  /** An item printed compactly is laid out as the same item printed formatted, as deep as brackets are open. */
  ghost predicate LaidOut(c: Codec, t: Json, open: seq<Bracket>, rest: bytes) {
    LayOut(Render(c, t, false, |open|) + rest, open, Between)
    == Render(c, t, true, |open|) + LayOut(rest, open, Between)
  }

  lemma ScalarLaidOut(c: Codec, t: Json, open: seq<Bracket>, rest: bytes)
    requires c.Valid() && !t.Array? && !t.Object? && !t.Raw?
    ensures LaidOut(c, t, open, rest)
  {
    hide LayOut, Quoted;
    match t
    case String(s) => QuotedCopied(s, rest, open);
    case Number(d) =>
      if d.Finite? { ShownReadsBack(c, d.bits); }
      PlainCopied(NumberText(c, d), rest, open);
    case Invalid => assert [] + rest == rest;
    case Null => PlainCopied(NULL_TEXT, rest, open);
    case True => PlainCopied(TRUE_TEXT, rest, open);
    case False => PlainCopied(FALSE_TEXT, rest, open);
  }

  /**
   * With anything behind it, under any brackets: formatted printing of an item without raw text is the layout of its
   * compact printing.
   */
  lemma {:induction false} RenderLaidOut(c: Codec, t: Json, open: seq<Bracket>, rest: bytes)
    requires c.Valid() && RawFree(t)
    ensures LaidOut(c, t, open, rest)
    decreases t, 1
  {
    match t
    case Array(child) => ArrayLaidOut(c, child, open, rest);
    case Object(child) => ObjectLaidOut(c, child, open, rest);
    case _ => ScalarLaidOut(c, t, open, rest);
  }

  lemma {:induction false} ArrayLaidOut(c: Codec, child: Chain, open: seq<Bracket>, rest: bytes)
    requires c.Valid() && RawFreeChain(child)
    ensures LaidOut(c, Array(child), open, rest)
    decreases child, 3
  {
    hide LayOut, RenderItems, Closed, LaidOut, Render, RawFreeChain;
    var inner := open + [InArray];
    var items := RenderItems(c, child, false, |open| + 1);
    Reopened(open, InArray);
    BracketOpens(items + ([0x5D] + rest), open);
    ItemsLaidOut(c, child, inner, [0x5D] + rest);
    BracketCloses(rest, inner);
    ArrayAround(c, child, open, rest);
  }

  /** The brackets around the elements. */
  lemma ArrayAround(c: Codec, child: Chain, open: seq<Bracket>, rest: bytes)
    requires var items, laid := RenderItems(c, child, false, |open| + 1), RenderItems(c, child, true, |open| + 1);
             LayOut([0x5B] + (items + ([0x5D] + rest)), open, Between)
             == [0x5B] + (laid + ([0x5D] + LayOut(rest, open, Between)))
    ensures LaidOut(c, Array(child), open, rest)
  {
    hide LayOut, RenderItems;
    var items, laid := RenderItems(c, child, false, |open| + 1), RenderItems(c, child, true, |open| + 1);
    Around([0x5B], items, [0x5D], rest);
    Around([0x5B], laid, [0x5D], LayOut(rest, open, Between));
  }

  lemma Around(a: bytes, b: bytes, e: bytes, rest: bytes)
    ensures a + b + e + rest == a + (b + (e + rest))
  {
  }

  lemma Reopened(open: seq<Bracket>, b: Bracket)
    ensures Closed(open + [b]) == open && (forall x :: Among(open + [b], x) <==> x == b) && |open + [b]| == |open| + 1
  {
  }

  lemma {:induction false} ItemsLaidOut(c: Codec, ch: Chain, open: seq<Bracket>, rest: bytes)
    requires c.Valid() && RawFreeChain(ch) && Among(open, InArray)
    ensures LayOut(RenderItems(c, ch, false, |open|) + rest, open, Between)
         == RenderItems(c, ch, true, |open|) + LayOut(rest, open, Between)
    decreases ch, 2
  {
    hide LayOut, Render;
    if ch.End? {
      assert RenderItems(c, ch, false, |open|) + rest == rest;
    } else {
      var d := |open|;
      var more, laid := RenderItems(c, ch.next, false, d) + rest, RenderItems(c, ch.next, true, d);
      var behind := Separator(false, ch.next) + more;
      ItemsText(c, ch, false, d, rest);
      RenderLaidOut(c, ch.value, open, behind);
      ItemsLaidOut(c, ch.next, open, rest);
      CommaStands(more, open);
      assert ch.next.End? ==> behind == more;
      ItemsText(c, ch, true, d, LayOut(rest, open, Between));
      assert LayOut(behind, open, Between) == Separator(true, ch.next) + LayOut(more, open, Between);
    }
  }

  lemma {:induction false} ObjectLaidOut(c: Codec, child: Chain, open: seq<Bracket>, rest: bytes)
    requires c.Valid() && RawFreeChain(child)
    ensures LaidOut(c, Object(child), open, rest)
    decreases child, 3
  {
    hide LayOut, RenderMembers, Closed, LaidOut, Render, RawFreeChain, Indentation;
    Reopened(open, InObject);
    BraceOpens(RenderMembers(c, child, false, |open| + 1) + ([0x7D] + rest), open);
    MembersLaidOut(c, child, open + [InObject], rest);
    ObjectAround(c, child, open, rest);
  }

  /** The braces around the members. */
  lemma ObjectAround(c: Codec, child: Chain, open: seq<Bracket>, rest: bytes)
    requires var d := |open| + 1;
             LayOut([0x7B] + (RenderMembers(c, child, false, d) + ([0x7D] + rest)), open, Between)
             == [0x7B, 10] + (RenderMembers(c, child, true, d)
                              + (Indentation(open) + [0x7D] + LayOut(rest, open, Between)))
    ensures LaidOut(c, Object(child), open, rest)
  {
    hide LayOut, RenderMembers;
    var d := |open| + 1;
    TabsAreIndentation(open);
    ObjectText(c, child, false, |open|);
    ObjectText(c, child, true, |open|);
    Around([0x7B], RenderMembers(c, child, false, d), [0x7D], rest);
    Around([0x7B, 10], RenderMembers(c, child, true, d), Tabs(|open|) + [0x7D], LayOut(rest, open, Between));
  }

  /** The end of an object: the indentation of the line, the brace, and what is behind it. */
  function Ending(open: seq<Bracket>, rest: bytes): bytes {
    Indentation(Closed(open)) + [0x7D] + LayOut(rest, Closed(open), Between)
  }

  /** Members up to their closing brace, from the start of a line. */
  ghost predicate MembersLaid(c: Codec, ch: Chain, open: seq<Bracket>, rest: bytes) {
    LayOut(RenderMembers(c, ch, false, |open|) + ([0x7D] + rest), open, LineStart)
    == RenderMembers(c, ch, true, |open|) + Ending(open, rest)
  }

  lemma {:induction false} MembersLaidOut(c: Codec, ch: Chain, open: seq<Bracket>, rest: bytes)
    requires c.Valid() && RawFreeChain(ch) && Among(open, InObject)
    ensures MembersLaid(c, ch, open, rest)
    decreases ch, 2
  {
    if ch.End? {
      NoMembersLaid(c, open, rest);
    } else {
      hide LayOut, Render, RenderMembers, LaidOut, MembersLaid;
      var ending := MemberEnd(false, ch.next.End?) + (RenderMembers(c, ch.next, false, |open|) + ([0x7D] + rest));
      RenderLaidOut(c, ch.value, open, ending);
      MemberLaidOut(c, ch.key, ch.value, open, ending);
      MembersLaidOut(c, ch.next, open, rest);
      MemberEnds(c, ch, open, rest);
      MemberAround(c, ch, open, rest, ending);
    }
  }

  lemma NoMembersLaid(c: Codec, open: seq<Bracket>, rest: bytes)
    ensures MembersLaid(c, End, open, rest)
  {
    hide LayOut, Indentation, Closed;
    assert [] + ([0x7D] + rest) == [0x7D] + rest;
    BraceCloses(rest, open, LineStart);
  }

  /** A member and what follows it, put together. */
  lemma MemberAround(c: Codec, ch: Chain, open: seq<Bracket>, rest: bytes, ending: bytes)
    requires ch.Link?
    requires ending == MemberEnd(false, ch.next.End?) + (RenderMembers(c, ch.next, false, |open|) + ([0x7D] + rest))
    requires MemberLaid(c, ch.key, ch.value, open, ending)
    requires LayOut(ending, open, Between)
          == MemberEnd(true, ch.next.End?) + (RenderMembers(c, ch.next, true, |open|) + Ending(open, rest))
    ensures MembersLaid(c, ch, open, rest)
  {
    hide LayOut, Render, RenderMembers, Quoted, MemberEnd, Ending, Tabs;
    MembersText(c, ch, false, |open|, [0x7D] + rest);
    MembersText(c, ch, true, |open|, Ending(open, rest));
    assert [] + (Quoted(ch.key) + ([0x3A] + (Render(c, ch.value, false, |open|) + ending)))
        == Quoted(ch.key) + ([0x3A] + (Render(c, ch.value, false, |open|) + ending));
  }

  /** A name at the start of a line, its colon, and the text of its value. */
  ghost predicate MemberLaid(c: Codec, key: CStr, value: Json, open: seq<Bracket>, ending: bytes) {
    LayOut(Quoted(key) + ([0x3A] + (Render(c, value, false, |open|) + ending)), open, LineStart)
    == Tabs(|open|)
       + (Quoted(key) + ([0x3A, 9] + (Render(c, value, true, |open|) + LayOut(ending, open, Between))))
  }

  lemma MemberLaidOut(c: Codec, key: CStr, value: Json, open: seq<Bracket>, ending: bytes)
    requires LaidOut(c, value, open, ending)
    ensures MemberLaid(c, key, value, open, ending)
  {
    hide LayOut, Render, Indentation;
    var text := Render(c, value, false, |open|) + ending;
    QuotedCopied(key, [0x3A] + text, open);
    assert Quoted(key)[0] == 0x22;
    hide Quoted;
    LineBegins(Quoted(key) + ([0x3A] + text), open);
    ColonStands(text, open);
    TabsAreIndentation(open);
  }

  /** What stands behind the value of a member. */
  lemma MemberEnds(c: Codec, ch: Chain, open: seq<Bracket>, rest: bytes)
    requires ch.Link? && Among(open, InObject) && MembersLaid(c, ch.next, open, rest)
    ensures LayOut(MemberEnd(false, ch.next.End?) + (RenderMembers(c, ch.next, false, |open|) + ([0x7D] + rest)),
                   open, Between)
         == MemberEnd(true, ch.next.End?) + (RenderMembers(c, ch.next, true, |open|) + Ending(open, rest))
  {
    hide LayOut, Indentation, Closed;
    var more := RenderMembers(c, ch.next, false, |open|) + ([0x7D] + rest);
    if ch.next.End? {
      assert MemberEnd(false, true) + more == [0x7D] + rest;
      BraceCloses(rest, open, Between);
      assert [10] + ([] + Ending(open, rest)) == [10] + Ending(open, rest);
      assert [10] + Indentation(Closed(open)) + [0x7D] + LayOut(rest, Closed(open), Between)
          == [10] + Ending(open, rest);
    } else {
      hide RenderMembers, Ending;
      CommaStands(more, open);
    }
  }

  /** Formatted printing is the layout of compact printing. */
  lemma FormattedIsLayout(c: Codec, t: Json)
    requires c.Valid() && RawFree(t)
    ensures LayOut(Render(c, t, false, 0), [], Between) == Render(c, t, true, 0)
  {
    hide LayOut, Render;
    RenderLaidOut(c, t, [], []);
    assert Render(c, t, false, 0) + [] == Render(c, t, false, 0);
    assert LayOut([], [], Between) == [] by { NothingLaidOut(); }
  }

  lemma NothingLaidOut()
    ensures LayOut([], [], Between) == []
  {
  }
}
