/** When minifying a second time changes nothing. */
module MinifyTwice {
  import opened CText
  import opened Strings
  import opened Minify
  import opened MinifyMeaning

  /** The first byte of a text that minifying keeps, 0 if that is the terminator. */
  function NextKept(u: bytes): uchar
    decreases |u|
  {
    if u == [] then 0
    else if Dropped(u[0]) then NextKept(u[1..])
    else if LineComment(u) then NextKept(ToLineEnd(u))
    else if BlockComment(u) then NextKept(AfterComment(u))
    else u[0]
  }

  /** The slash at the front opens no comment, but it will once what lies behind it has been dropped. */
  predicate OpensLater(u: bytes)
    requires u != []
  {
    u[0] == SLASH && (NextKept(u[1..]) == SLASH || NextKept(u[1..]) == STAR)
  }

  /** Somewhere outside comments and strings there is such a slash. */
  predicate SlashMeets(u: bytes)
    decreases |u|
  {
    if u == [] || u[0] == 0 then false
    else if Dropped(u[0]) then SlashMeets(u[1..])
    else if LineComment(u) then SlashMeets(ToLineEnd(u))
    else if BlockComment(u) then SlashMeets(AfterComment(u))
    else if u[0] == QUOTE then
      match ScanQuote(u[1..])
      case NotFound => false
      case At(n) => SlashMeets(u[n + 2..])
    else OpensLater(u) || SlashMeets(u[1..])
  }

  lemma ClosedFront(u: bytes)
    requires Closed(u)
    ensures u != [] && (u[0] == QUOTE ==> ScanQuote(u[1..]).At?)
  {
    hide ScanQuote;
  }

  lemma {:induction false} FirstKept(u: bytes)
    requires Closed(u)
    ensures Min(u) != [] && Min(u)[0] == NextKept(u)
    decreases |u|
  {
    hide ScanQuote;
    if u[0] != 0 {
      if Dropped(u[0]) {
        FirstKept(u[1..]);
      } else if LineComment(u) {
        FirstKept(ToLineEnd(u));
      } else if BlockComment(u) {
        FirstKept(AfterComment(u));
      }
    }
  }

  /** What the front of a closed text leads to, as all recursions here go on. */
  function Next(u: bytes): (r: bytes)
    requires u != [] && u[0] != 0 && Closed(u)
    ensures |r| < |u| && r == u[|u| - |r|..] && Closed(r)
  {
    if Dropped(u[0]) then u[1..]
    else if LineComment(u) then ToLineEnd(u)
    else if BlockComment(u) then AfterComment(u)
    else if u[0] == QUOTE then u[ScanQuote(u[1..]).n + 2..]
    else u[1..]
  }

  /** The bytes at the front that are kept. */
  function Front(u: bytes): bytes
    requires u != [] && u[0] != 0 && Closed(u)
  {
    if Dropped(u[0]) || LineComment(u) || BlockComment(u) then [] else u[..|u| - |Next(u)|]
  }

  lemma MinByFront(u: bytes)
    requires u != [] && u[0] != 0 && Closed(u)
    ensures Min(u) == Front(u) + Min(Next(u))
  {
    hide ScanQuote, Closed;
    if u[0] == QUOTE {
      ClosedFront(u);
      LiteralMin(u);
    } else if !Dropped(u[0]) && !LineComment(u) && !BlockComment(u) {
      assert Front(u) == [u[0]];
    }
  }

  lemma MeetsFront(u: bytes)
    requires u != [] && u[0] != 0 && Closed(u)
    ensures SlashMeets(u) <==> SlashMeets(Next(u)) || (Front(u) != [] && OpensLater(u))
  {
    hide ScanQuote;
  }

  /** The kept front of a text in front of another one: kept again, unless it is a slash that opens a comment there. */
  lemma FrontAgain(u: bytes, m: bytes)
    requires u != [] && u[0] != 0 && Closed(u) && Front(u) != [] && m != []
    requires !(u[0] == SLASH && (m[0] == SLASH || m[0] == STAR))
    ensures Min(Front(u) + m) == Front(u) + Min(m) && Closed(Front(u) + m) == Closed(m)
  {
    hide ScanQuote, Closed, Min;
    var f := Front(u);
    assert u == f + Next(u);
    ClosedFront(u);
    if u[0] == QUOTE {
      LiteralAgain(f, Next(u), m, ScanQuote(u[1..]).n);
      LiteralMin(f + m);
      LiteralClosed(f + m);
    } else {
      assert f == [u[0]] && (f + m)[1..] == m && (f + m)[1] == m[0];
      OneByteKept(f + m);
    }
  }

  lemma OneByteKept(u: bytes)
    requires u != [] && u[0] != 0 && !Dropped(u[0]) && u[0] != QUOTE && !LineComment(u) && !BlockComment(u)
    ensures Min(u) == [u[0]] + Min(u[1..]) && Closed(u) == Closed(u[1..])
  {
  }

  lemma LiteralClosed(u: bytes)
    requires u != [] && u[0] == QUOTE && ScanQuote(u[1..]).At?
    ensures Closed(u) == Closed(u[ScanQuote(u[1..]).n + 2..])
  {
    hide ScanQuote;
  }

  /** A comment that has come up is dropped, which makes the text shorter. */
  lemma CommentDropped(m: bytes)
    requires |m| >= 2 && m[0] == SLASH && (m[1] == SLASH || m[1] == STAR)
    ensures |Min(m)| < |m|
  {
  }

  /**
   * Minifying a text whose comments and strings are closed a second time changes nothing, if and only if no slash
   * that is kept comes to stand in front of a slash or star that is kept; the second pass then stays in bounds, too.
   */
  lemma {:induction false} TwiceIsOnce(u: bytes)
    requires Closed(u)
    ensures Min(Min(u)) == Min(u) <==> !SlashMeets(u)
    ensures !SlashMeets(u) ==> Closed(Min(u))
    decreases |u|
  {
    hide Min, Closed, SlashMeets, Next, Front, NextKept;
    ClosedFront(u);
    if u[0] == 0 {
      AtTerminator(u);
      return;
    }
    MinByFront(u);
    MeetsFront(u);
    var rest, f := Next(u), Front(u);
    var m := Min(rest);
    TwiceIsOnce(rest);
    FirstKept(rest);
    if f == [] {
      assert f + m == m;
    } else if u[0] == SLASH && (m[0] == SLASH || m[0] == STAR) {
      SlashFront(u);
      CommentDropped(f + m);
    } else {
      FrontAgain(u, m);
      SlashFront(u);
      assert f + Min(m) == f + m <==> Min(m) == m by { SameTail(f, Min(m), m); }
    }
  }

  lemma SlashFront(u: bytes)
    requires u != [] && u[0] != 0 && Closed(u) && Front(u) != []
    ensures u[0] == SLASH ==> Front(u) == [SLASH] && Next(u) == u[1..]
  {
    hide ScanQuote;
  }

  lemma SameTail(f: bytes, a: bytes, b: bytes)
    ensures f + a == f + b <==> a == b
  {
    assert (f + a)[|f|..] == a && (f + b)[|f|..] == b;
  }

  lemma AtTerminator(u: bytes)
    requires Closed(u) && u != [] && u[0] == 0
    ensures Min(Min(u)) == Min(u) && !SlashMeets(u) && Closed(Min(u))
  {
  }

  /** A text where it does change something: the blank that is dropped brings two slashes together. */
  lemma MinifyTwiceDiffers()
    ensures var u: bytes := [SLASH, SPACE, SLASH, 0];
            && Terminated(u) && Closed(u)
            && Min(u) == [SLASH, SLASH, 0] && Closed(Min(u))
            && Min(Min(u)) == [0]
  {
    FirstPass();
    SecondPass();
    hide Min, Closed;
  }

  lemma FirstPass()
    ensures Min([SLASH, SPACE, SLASH, 0]) == [SLASH, SLASH, 0] && Closed([SLASH, SPACE, SLASH, 0])
  {
    var u: bytes := [SLASH, SPACE, SLASH, 0];
    assert u[1..] == [SPACE, SLASH, 0] && u[1..][1..] == [SLASH, 0] && u[1..][1..][1..] == [0];
    assert Min(u[1..][1..]) == [SLASH, 0] && Closed(u[1..][1..]);
  }

  lemma SecondPass()
    ensures Min([SLASH, SLASH, 0]) == [0] && Closed([SLASH, SLASH, 0])
  {
    hide ToLineEnd, AfterComment, ScanQuote;
    LineEndOf([SLASH, SLASH, 0]);
  }

  lemma LineEndStep(u: bytes)
    requires u != []
    ensures ToLineEnd(u) == if u[0] == 0 || u[0] == LF then u else ToLineEnd(u[1..])
  {
  }

  lemma LineEndOf(m: bytes)
    requires m == [SLASH, SLASH, 0]
    ensures ToLineEnd(m) == [0]
  {
    hide ToLineEnd;
    LineEndStep(m);
    LineEndStep(m[1..]);
    LineEndStep(m[1..][1..]);
  }
}
