/** `cJSON_Minify` on its buffer: one read and one write position, the write position never ahead. */
module MinifyInPlace {
  import opened CText
  import opened Strings
  import opened Minify

  /** `i` bytes have been written and the buffer is untouched from there on; reading goes on at `j`. */
  ghost predicate Written(now: bytes, was: bytes, i: nat, j: nat) {
    Terminated(was) && |now| == |was| && i <= j < |was| && now[i..] == was[i..]
  }

  /** Between two tokens: what is written followed by what the text from `j` on gives is the minified text. */
  ghost predicate Between(now: bytes, was: bytes, i: nat, j: nat) {
    && Written(now, was, i, j)
    && (Closed(was[j..]) <==> Closed(was))
    && (Closed(was) ==> now[..i] + Min(was[j..]) == Min(was))
  }

  /** Inside a string literal that ends with the quote at `end - 1`. */
  ghost predicate InLiteral(now: bytes, was: bytes, i: nat, j: nat, end: nat) {
    && Written(now, was, i, j) && j < end < |was|
    && ScanQuote(was[j..]) == At(end - 1 - j)
    && (Closed(was[end..]) <==> Closed(was))
    && (Closed(was) ==> now[..i] + was[j..end] + Min(was[end..]) == Min(was))
  }

  /** Inside a string literal that is never closed. */
  ghost predicate Runaway(now: bytes, was: bytes, i: nat, j: nat) {
    Written(now, was, i, j) && !Closed(was) && ScanQuote(was[j..]).NotFound?
  }

  lemma ReadBack(now: bytes, was: bytes, i: nat, j: nat)
    requires Written(now, was, i, j)
    ensures now[j] == was[j] && (was[j] == 0 <==> j == |was| - 1)
    ensures j + 1 < |was| ==> now[j + 1] == was[j + 1]
  {
    assert now[j] == now[i..][j - i] && was[j] == was[i..][j - i];
    if j + 1 < |was| {
      assert now[j + 1] == now[i..][j + 1 - i] && was[j + 1] == was[i..][j + 1 - i];
    }
  }

  /** The buffer after the byte at `j` is copied to `i`. */
  function Copied(now: bytes, i: nat, j: nat): bytes
    requires i <= j < |now|
  {
    now[i := now[j]]
  }

  lemma CopyWritten(now: bytes, was: bytes, i: nat, j: nat)
    requires Written(now, was, i, j) && j + 1 < |was|
    ensures Written(Copied(now, i, j), was, i + 1, j + 1)
    ensures Copied(now, i, j)[..i + 1] == now[..i] + [was[j]]
  {
    ReadBack(now, was, i, j);
    assert Copied(now, i, j)[i + 1..] == now[i..][1..];
    Tails(was, i, 1);
  }

  lemma MoveOn(now: bytes, was: bytes, i: nat, j: nat, j': nat)
    requires Between(now, was, i, j) && j <= j' < |was|
    requires Min(was[j'..]) == Min(was[j..]) && (Closed(was[j'..]) <==> Closed(was[j..]))
    ensures Between(now, was, i, j')
  {
    hide Min, Closed;
  }

  lemma BetweenFacts(now: bytes, was: bytes, i: nat, j: nat)
    requires Between(now, was, i, j)
    ensures |now| == |was| && i <= j < |was| && now[j] == was[j] && (was[j] == 0 <==> j == |was| - 1)
    ensures j + 1 < |was| ==> now[j + 1] == was[j + 1]
    ensures Terminated(was[j..])
    ensures LineComment(was[j..]) <==> now[j] == SLASH && now[j + 1] == SLASH
    ensures BlockComment(was[j..]) <==> now[j] == SLASH && now[j + 1] == STAR
  {
    hide Min, Closed;
    ReadBack(now, was, i, j);
  }

  /** The bytes ahead of the read position are those of the text. */
  lemma ReadAhead(now: bytes, was: bytes, i: nat, start: nat, j: nat)
    requires Between(now, was, i, start) && start <= j < |was|
    ensures |now| == |was| && Terminated(was) && now[j] == was[j] && (was[j] == 0 <==> j == |was| - 1)
    ensures j + 1 < |was| ==> now[j + 1] == was[j + 1]
  {
    hide Min, Closed;
    ReadBack(now, was, i, j);
  }

  lemma SkipStep(now: bytes, was: bytes, i: nat, j: nat)
    requires Between(now, was, i, j) && Dropped(was[j])
    ensures Between(now, was, i, j + 1)
  {
    hide ScanQuote;
    Tails(was, j, 1);
    MoveOn(now, was, i, j, j + 1);
  }

  lemma CopyStep(now: bytes, was: bytes, i: nat, j: nat)
    requires Between(now, was, i, j)
    requires was[j] != 0 && !Dropped(was[j]) && !LineComment(was[j..]) && !BlockComment(was[j..]) && was[j] != QUOTE
    ensures Between(Copied(now, i, j), was, i + 1, j + 1)
  {
    hide Min, Closed, LineComment, BlockComment;
    TerminatedTail(was, j);
    PlainByte(was[j..]);
    Tails(was, j, 1);
    ReadBack(now, was, i, j);
    CopyWritten(now, was, i, j);
    assert now[..i] + ([was[j]] + Min(was[j + 1..])) == now[..i] + [was[j]] + Min(was[j + 1..]);
  }

  lemma PlainByte(u: bytes)
    requires Terminated(u) && u[0] != 0 && !Dropped(u[0]) && !LineComment(u) && !BlockComment(u) && u[0] != QUOTE
    ensures Min(u) == [u[0]] + Min(u[1..]) && (Closed(u[1..]) <==> Closed(u))
  {
    hide ScanQuote;
  }

  lemma MinOfLiteral(u: bytes)
    requires Terminated(u) && u[0] == QUOTE && ScanQuote(u[1..]).At?
    ensures var n := ScanQuote(u[1..]).n;
            n + 2 < |u| && Min(u) == u[..n + 2] + Min(u[n + 2..]) && (Closed(u[n + 2..]) <==> Closed(u))
  {
    hide ScanQuote, Min;
    LiteralMin(u);
    var n := ScanQuote(u[1..]).n;
    assert u[n + 1] == QUOTE;
  }

  lemma EnterLiteral(now: bytes, was: bytes, i: nat, j: nat, end: nat)
    requires Between(now, was, i, j) && was[j] == QUOTE && ScanQuote(was[j + 1..]).At?
    requires end == j + 2 + ScanQuote(was[j + 1..]).n
    ensures j + 1 < end && InLiteral(Copied(now, i, j), was, i + 1, j + 1, end)
  {
    hide ScanQuote, Min, Closed;
    TerminatedTail(was, j);
    Tails(was, j, 1);
    MinOfLiteral(was[j..]);
    var n := ScanQuote(was[j + 1..]).n;
    Tails(was, j, n + 2);
    assert was[j..][..n + 2] == was[j..end];
    LiteralCopy(now, was, i, j, end);
    assert now[..i] + (was[j..end] + Min(was[end..])) == now[..i] + was[j..end] + Min(was[end..]);
  }

  lemma EnterRunaway(now: bytes, was: bytes, i: nat, j: nat)
    requires Between(now, was, i, j) && was[j] == QUOTE && ScanQuote(was[j + 1..]).NotFound?
    ensures j + 1 < |was| && Runaway(Copied(now, i, j), was, i + 1, j + 1)
  {
    hide ScanQuote, Min;
    ReadBack(now, was, i, j);
    Tails(was, j, 1);
    assert !Closed(was[j..]);
    CopyWritten(now, was, i, j);
  }

  lemma RunawayByte(now: bytes, was: bytes, i: nat, j: nat)
    requires Runaway(now, was, i, j)
    ensures now[j] == was[j] && was[j] != QUOTE && (was[j] == 0 <==> j == |was| - 1)
    ensures j + 1 < |was| && was[j] != BACKSLASH ==> Runaway(Copied(now, i, j), was, i + 1, j + 1)
  {
    hide Closed;
    ReadBack(now, was, i, j);
    if j + 1 < |was| {
      CopyWritten(now, was, i, j);
      Tails(was, j, 1);
    }
  }

  lemma RunawayPair(now: bytes, was: bytes, i: nat, j: nat)
    requires Runaway(now, was, i, j) && was[j] == BACKSLASH && j + 2 < |was|
    ensures Runaway(Copied(Copied(now, i, j), i + 1, j + 1), was, i + 2, j + 2)
  {
    hide Closed;
    CopyWritten(now, was, i, j);
    CopyWritten(Copied(now, i, j), was, i + 1, j + 1);
    Tails(was, j, 2);
  }

  lemma LiteralCopy(now: bytes, was: bytes, i: nat, j: nat, end: nat)
    requires Written(now, was, i, j) && j < end <= |was| && j + 1 < |was|
    ensures Written(Copied(now, i, j), was, i + 1, j + 1)
    ensures Copied(now, i, j)[..i + 1] + was[j + 1..end] == now[..i] + was[j..end]
  {
    CopyWritten(now, was, i, j);
    assert was[j..end] == [was[j]] + was[j + 1..end];
  }

  lemma LiteralByte(now: bytes, was: bytes, i: nat, j: nat, end: nat)
    requires InLiteral(now, was, i, j, end) && was[j] != QUOTE && was[j] != BACKSLASH
    ensures InLiteral(Copied(now, i, j), was, i + 1, j + 1, end)
  {
    hide Min, Closed;
    LiteralCopy(now, was, i, j, end);
    Tails(was, j, 1);
  }

  lemma PairAhead(was: bytes, j: nat)
    requires j < |was| && was[j] == BACKSLASH && ScanQuote(was[j..]).At?
    ensures j + 2 < |was| && ScanQuote(was[j + 2..]).At? && ScanQuote(was[j..]).n == ScanQuote(was[j + 2..]).n + 2
  {
    Tails(was, j, 2);
  }

  lemma LiteralPair(now: bytes, was: bytes, i: nat, j: nat, end: nat)
    requires InLiteral(now, was, i, j, end) && was[j] == BACKSLASH
    ensures InLiteral(Copied(Copied(now, i, j), i + 1, j + 1), was, i + 2, j + 2, end)
  {
    hide Min, Closed, ScanQuote;
    PairAhead(was, j);
    LiteralCopy(now, was, i, j, end);
    LiteralCopy(Copied(now, i, j), was, i + 1, j + 1, end);
  }

  lemma LeaveLiteral(now: bytes, was: bytes, i: nat, j: nat, end: nat)
    requires InLiteral(now, was, i, j, end) && was[j] == QUOTE
    ensures j + 1 == end && Between(Copied(now, i, j), was, i + 1, end)
  {
    hide Min, Closed;
    LiteralCopy(now, was, i, j, end);
    assert was[j + 1..end] == [];
  }

  lemma LiteralFacts(now: bytes, was: bytes, i: nat, j: nat, end: nat)
    requires InLiteral(now, was, i, j, end)
    ensures |now| == |was| && i <= j < end < |was| && now[j] == was[j] && was[j] != 0
    ensures was[j] == BACKSLASH ==> j + 2 < end
  {
    ReadBack(now, was, i, j);
    assert was[j] == was[j..][0];
  }

  /** One byte goes to the write position. */
  method CopyOne(json: array<uchar>, i: nat, j: nat)
    requires i <= j < json.Length
    modifies json
    ensures json[..] == Copied(old(json[..]), i, j)
  {
    json[i] := json[j];
  }

  /** In the literal that ends at `end`, or in one that never ends when `end` is 0. */
  ghost predicate InString(now: bytes, was: bytes, i: nat, j: nat, end: nat) {
    if end == 0 then Runaway(now, was, i, j) else InLiteral(now, was, i, j, end)
  }

  lemma InStringFacts(now: bytes, was: bytes, i: nat, j: nat, end: nat)
    requires InString(now, was, i, j, end)
    ensures |now| == |was| && i <= j < |was| && now[j] == was[j] && (was[j] == 0 <==> j == |was| - 1)
    ensures end == 0 ==> !Closed(was)
    ensures was[j] == 0 ==> end == 0
  {
    hide Closed;
    ReadBack(now, was, i, j);
    if end == 0 { RunawayByte(now, was, i, j); } else { LiteralFacts(now, was, i, j, end); }
  }

  lemma InStringByte(now: bytes, was: bytes, i: nat, j: nat, end: nat)
    requires InString(now, was, i, j, end) && was[j] != 0 && was[j] != QUOTE && was[j] != BACKSLASH
    ensures InString(Copied(now, i, j), was, i + 1, j + 1, end)
  {
    hide Closed, Runaway, InLiteral;
    InStringFacts(now, was, i, j, end);
    if end == 0 { RunawayByte(now, was, i, j); } else { LiteralByte(now, was, i, j, end); }
  }

  lemma InStringPair(now: bytes, was: bytes, i: nat, j: nat, end: nat)
    requires InString(now, was, i, j, end) && was[j] == BACKSLASH
    ensures j + 2 == |was| ==> end == 0
    ensures j + 2 < |was| ==> InString(Copied(Copied(now, i, j), i + 1, j + 1), was, i + 2, j + 2, end)
  {
    hide Closed, Runaway, InLiteral;
    InStringFacts(now, was, i, j, end);
    if end != 0 {
      LiteralFacts(now, was, i, j, end);
      LiteralPair(now, was, i, j, end);
    } else if j + 2 < |was| {
      RunawayPair(now, was, i, j);
    }
  }

  /**
   * The loop over a string literal, from the byte after its opening quote; `end` is where it ends, 0 if it
   * never does. Reading then goes on at `j`, which is outside the buffer after a literal that is not closed.
   */
  method CopyLiteral(json: array<uchar>, i0: nat, j0: nat, ghost was: bytes, ghost end: nat) returns (i: nat, j: nat)
    requires i0 <= j0 < json.Length && InString(json[..], was, i0, j0, end)
    modifies json
    ensures end == 0 ==> j >= json.Length && !Closed(was)
    ensures end != 0 ==> Between(json[..], was, i, j) && j == end
  {
    hide InLiteral, Between, Copied, Runaway, Closed, InString;
    i, j := i0, j0;
    InStringFacts(json[..], was, i, j, end);
    while j < json.Length && json[j] != 0 && json[j] != QUOTE
      invariant i <= j
      invariant j < json.Length ==> InString(json[..], was, i, j, end)
      invariant j >= json.Length ==> end == 0
      decreases json.Length - j
    {
      InStringFacts(json[..], was, i, j, end);
      if json[j] == BACKSLASH {
        InStringPair(json[..], was, i, j, end);
        CopyOne(json, i, j);
        i, j := i + 1, j + 1;
      } else {
        InStringByte(json[..], was, i, j, end);
      }
      CopyOne(json, i, j);
      i, j := i + 1, j + 1;
    }
    if j < json.Length {
      InStringFacts(json[..], was, i, j, end);
      LiteralEnd(json[..], was, i, j, end);
      CopyOne(json, i, j);
      i, j := i + 1, j + 1;
    }
  }

  lemma LiteralEnd(now: bytes, was: bytes, i: nat, j: nat, end: nat)
    requires InString(now, was, i, j, end) && (was[j] == 0 || was[j] == QUOTE)
    ensures end == 0 ==> j == |was| - 1 && !Closed(was)
    ensures end != 0 ==> j + 1 == end && Between(Copied(now, i, j), was, i + 1, end)
  {
    hide Closed, Runaway, InLiteral, Between;
    InStringFacts(now, was, i, j, end);
    if end == 0 { RunawayByte(now, was, i, j); } else { LeaveLiteral(now, was, i, j, end); }
  }

  lemma LineEndFrom(was: bytes, j: nat)
    requires Terminated(was) && j < |was|
    ensures was[j] == 0 || was[j] == LF ==> ToLineEnd(was[j..]) == was[j..]
    ensures was[j] != 0 && was[j] != LF ==> j + 1 < |was| && ToLineEnd(was[j..]) == ToLineEnd(was[j + 1..])
  {
    Tails(was, j, 1);
  }

  lemma CommentFrom(was: bytes, j: nat)
    requires Terminated(was) && j < |was|
    ensures was[j] == 0 ==> AfterComment(was[j..]) == []
    ensures was[j] != 0 ==> j + 1 < |was|
    ensures was[j] == STAR && was[j + 1] == SLASH ==> AfterComment(was[j..]) == was[j + 2..]
    ensures was[j] != 0 && !(was[j] == STAR && was[j + 1] == SLASH) ==>
              AfterComment(was[j..]) == AfterComment(was[j + 1..])
  {
    Tails(was, j, 1);
    if was[j] != 0 { Tails(was, j, 2); }
  }

  /** The loop over a `//` comment. */
  method SkipLine(json: array<uchar>, start: nat, ghost was: bytes, ghost i: nat) returns (j: nat)
    requires start < json.Length && Between(json[..], was, i, start) && LineComment(was[start..])
    ensures start < j < json.Length && Between(json[..], was, i, j)
  {
    hide ToLineEnd, Min, Closed, Between, LineComment, Terminated;
    BetweenFacts(json[..], was, i, start);
    LineCommentGone(was[start..]);
    j := start;
    while json[j] != 0 && json[j] != LF
      invariant start <= j < json.Length
      invariant ToLineEnd(was[j..]) == ToLineEnd(was[start..])
      decreases json.Length - j
    {
      ReadAhead(json[..], was, i, start, j);
      LineEndFrom(was, j);
      j := j + 1;
    }
    ReadAhead(json[..], was, i, start, j);
    LineEndFrom(was, j);
    LineCommentGone(was[start..]);
    MoveOn(json[..], was, i, start, j);
  }

  lemma LineCommentGone(u: bytes)
    requires Terminated(u) && LineComment(u)
    ensures Min(u) == Min(ToLineEnd(u)) && (Closed(ToLineEnd(u)) <==> Closed(u))
  {
    hide ToLineEnd;
  }

  lemma BlockCommentGone(u: bytes)
    requires Terminated(u) && BlockComment(u)
    ensures Min(u) == Min(AfterComment(u)) && (Closed(AfterComment(u)) <==> Closed(u))
    ensures Closed(u) ==> AfterComment(u) != []
  {
    hide AfterComment;
  }

  /** The loop over a block comment; after one that is not closed the read position has left the buffer. */
  method SkipBlock(json: array<uchar>, start: nat, ghost was: bytes, ghost i: nat) returns (j: nat)
    requires start < json.Length && Between(json[..], was, i, start) && BlockComment(was[start..])
    ensures start < j && (j < json.Length ==> Between(json[..], was, i, j))
    ensures j >= json.Length ==> !Closed(was)
  {
    hide AfterComment, Min, Closed, Between, BlockComment, Terminated;
    BetweenFacts(json[..], was, i, start);
    BlockCommentGone(was[start..]);
    ReadAhead(json[..], was, i, start, start);
    CommentFrom(was, start);
    j := start;
    while json[j] != 0 && !(json[j] == STAR && json[j + 1] == SLASH)
      invariant start <= j < json.Length
      invariant json[j] != 0 ==> j + 1 < json.Length
      invariant AfterComment(was[j..]) == AfterComment(was[start..])
      decreases json.Length - j
    {
      ReadAhead(json[..], was, i, start, j);
      CommentFrom(was, j);
      j := j + 1;
      ReadAhead(json[..], was, i, start, j);
    }
    ReadAhead(json[..], was, i, start, j);
    CommentFrom(was, j);
    j := j + 2;
    if j < json.Length {
      MoveOn(json[..], was, i, start, j);
    } else {
      NothingLeft(json[..], was, i, start, j);
    }
  }

  lemma NothingLeft(now: bytes, was: bytes, i: nat, start: nat, j: nat)
    requires Between(now, was, i, start) && BlockComment(was[start..])
    requires AfterComment(was[start..]) == [] || (j == |was| && AfterComment(was[start..]) == was[j..])
    ensures !Closed(was)
  {
    hide AfterComment, Min, Closed;
    TerminatedTail(was, start);
    BlockCommentGone(was[start..]);
  }

  lemma Started(was: bytes)
    requires Terminated(was)
    ensures Between(was, was, 0, 0)
  {
    hide Min, Closed;
    assert was[0..] == was && was[..0] == [];
  }

  lemma Finished(now: bytes, was: bytes, i: nat, j: nat)
    requires Between(now, was, i, j) && was[j] == 0
    ensures Closed(was) && i < |now| && |Min(was)| == i + 1
    ensures now[i := 0][..i + 1] == Min(was) && now[i := 0][i + 1..] == was[i + 1..]
  {
    assert was[j..] == [0];
    assert Min([0]) == [0] && Closed([0]);
    hide Min, Closed;
    assert now[i := 0][i + 1..] == now[i..][1..];
    Tails(was, i, 1);
  }

  /**
   * `cJSON_Minify` on a text with its terminator; of NULL nothing is made. `overrun` says that the next read
   * would lie behind the buffer, where the C loops run on: exactly when some comment or string is not closed.
   * Otherwise no byte beyond the minified text is written.
   */
  method MinifyBuffer(json: array?<uchar>) returns (overrun: bool)
    requires json != null ==> Terminated(json[..])
    modifies json
    ensures overrun <==> json != null && !Closed(old(json[..]))
    ensures json != null && !overrun ==>
      && |Min(old(json[..]))| <= json.Length
      && json[..|Min(old(json[..]))|] == Min(old(json[..]))
      && json[|Min(old(json[..]))|..] == old(json[..])[|Min(old(json[..]))|..]
  {
    hide Min, Between, Closed, Copied, LineComment, BlockComment, InString, ScanQuote;
    if json == null { return false; }
    ghost var was := json[..];
    var i: nat, j: nat := 0, 0;
    Started(was);
    while j < json.Length && json[j] != 0
      invariant j < json.Length ==> i <= j && Between(json[..], was, i, j)
      invariant j >= json.Length ==> !Closed(was)
      decreases json.Length - j
    {
      BetweenFacts(json[..], was, i, j);
      if json[j] == SPACE || json[j] == TAB || json[j] == CR || json[j] == LF {
        SkipStep(json[..], was, i, j);
        j := j + 1;
      } else if json[j] == SLASH && json[j + 1] == SLASH {
        j := SkipLine(json, j, was, i);
      } else if json[j] == SLASH && json[j + 1] == STAR {
        j := SkipBlock(json, j, was, i);
      } else if json[j] == QUOTE {
        ghost var end := LiteralStart(json[..], was, i, j);
        CopyOne(json, i, j);
        i, j := CopyLiteral(json, i + 1, j + 1, was, end);
      } else {
        CopyStep(json[..], was, i, j);
        CopyOne(json, i, j);
        i, j := i + 1, j + 1;
      }
      if j < json.Length {
        BetweenFacts(json[..], was, i, j);
      }
    }
    if j >= json.Length { return true; }
    BetweenFacts(json[..], was, i, j);
    Finished(json[..], was, i, j);
    json[i] := 0;
    return false;
  }

  lemma LiteralStart(now: bytes, was: bytes, i: nat, j: nat) returns (end: nat)
    requires Between(now, was, i, j) && was[j] == QUOTE
    ensures j + 1 < |was| && InString(Copied(now, i, j), was, i + 1, j + 1, end)
    ensures end == 0 || j + 1 < end < |was|
  {
    hide Closed, Min, ScanQuote, Runaway, InLiteral, Copied;
    ReadBack(now, was, i, j);
    match ScanQuote(was[j + 1..])
    case NotFound =>
      end := 0;
      EnterRunaway(now, was, i, j);
    case At(n) =>
      end := j + 2 + n;
      EnterLiteral(now, was, i, j, end);
  }

  /** A lone quote and a comment opener are the shortest texts on which the read position leaves the buffer. */
  lemma Overruns(u: bytes)
    requires u == [QUOTE, 0] || u == [SLASH, STAR, 0]
    ensures Terminated(u) && !Closed(u)
  {
    if u[0] == QUOTE {
      assert u[1..] == [0];
      assert ScanQuote([0]).NotFound?;
    } else {
      assert u[1..] == [STAR, 0] && u[2..] == [0];
      assert AfterComment([0]) == [];
      assert AfterComment([STAR, 0]) == [] by { assert [STAR as uchar, 0][1..] == [0]; }
      assert AfterComment(u) == [];
    }
  }
}
