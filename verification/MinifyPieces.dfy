/**
 * What `cJSON_Minify` takes a text for, by byte numbers: blanks, comments, string literals and single bytes, one
 * after the other. What it leaves is the literals and the single bytes, in order.
 */
module MinifyPieces {
  import opened CText
  import opened Strings
  import opened StringProofs
  import opened Minify

  /** In a literal: a byte by itself, or a byte with a backslash in front. */
  datatype Mark = Plain(b: uchar) | Escaped(b: uchar)

  /**
   * A block comment is a slash and then everything up to the first star with a slash behind it, which may be the
   * star that opens the comment; `inner` is what lies between that slash and that star.
   */
  datatype Piece =
    | Blank(b: uchar)
    | Line(body: bytes)
    | Block(inner: bytes)
    | Quotation(marks: seq<Mark>)
    | Single(b: uchar)

  predicate MarkOk(m: Mark) {
    m.b != 0 && (m.Plain? ==> m.b != 0x22 && m.b != 0x5C)
  }

  function MarkText(m: Mark): bytes {
    if m.Plain? then [m.b] else [0x5C, m.b]
  }

  function MarksText(marks: seq<Mark>): bytes {
    if marks == [] then [] else MarkText(marks[0]) + MarksText(marks[1..])
  }

  predicate ClosesAt(u: bytes, i: int) {
    0 <= i < |u| - 1 && u[i] == 0x2A && u[i + 1] == 0x2F
  }

  /** Before the end of a comment: no star with a slash behind it. */
  predicate Unclosed(inner: bytes) {
    NulFree(inner) && forall i :: 0 <= i < |inner| ==> !ClosesAt(inner, i)
  }

  /** `next` is the byte behind the piece. */
  predicate PieceOk(p: Piece, next: uchar) {
    match p
    case Blank(b) => b == 0x20 || b == 0x09 || b == 0x0D || b == 0x0A
    case Line(body) => (forall i :: 0 <= i < |body| ==> body[i] != 0x0A && body[i] != 0) && (next == 0x0A || next == 0)
    case Block(inner) => Unclosed(inner) && (inner == [] || inner[0] == 0x2A)
    case Quotation(marks) => forall i :: 0 <= i < |marks| ==> MarkOk(marks[i])
    case Single(b) =>
      && b != 0 && b != 0x20 && b != 0x09 && b != 0x0D && b != 0x0A && b != 0x22
      && (b == 0x2F ==> next != 0x2F && next != 0x2A)
  }

  function PieceText(p: Piece): bytes {
    match p
    case Blank(b) => [b]
    case Line(body) => [0x2F, 0x2F] + body
    case Block(inner) => [0x2F] + inner + [0x2A, 0x2F]
    case Quotation(marks) => [0x22] + MarksText(marks) + [0x22]
    case Single(b) => [b]
  }

  /** The text of all pieces with its terminator. */
  function Text(ps: seq<Piece>): (u: bytes)
    ensures u != []
  {
    if ps == [] then [0] else PieceText(ps[0]) + Text(ps[1..])
  }

  function Kept(ps: seq<Piece>): bytes {
    if ps == [] then [0]
    else if ps[0].Quotation? || ps[0].Single? then PieceText(ps[0]) + Kept(ps[1..])
    else Kept(ps[1..])
  }

  predicate PiecesOk(ps: seq<Piece>) {
    ps == [] || (PieceOk(ps[0], Text(ps[1..])[0]) && PiecesOk(ps[1..]))
  }

  // ----- one piece -----

  lemma {:induction false} LineSkipped(body: bytes, rest: bytes)
    requires (forall i :: 0 <= i < |body| ==> body[i] != 0x0A && body[i] != 0)
    requires rest != [] && (rest[0] == 0x0A || rest[0] == 0)
    ensures ToLineEnd(body + rest) == rest
    decreases |body|
  {
    if body == [] {
      assert body + rest == rest;
    } else {
      assert (body + rest)[1..] == body[1..] + rest;
      LineSkipped(body[1..], rest);
    }
  }

  lemma {:induction false} BlockSkipped(inner: bytes, rest: bytes)
    requires Unclosed(inner)
    ensures AfterComment(inner + [0x2A, 0x2F] + rest) == rest
    decreases |inner|
  {
    var u := inner + [0x2A, 0x2F] + rest;
    if inner == [] {
      assert u[2..] == rest;
    } else {
      assert u[1..] == inner[1..] + [0x2A, 0x2F] + rest;
      assert !ClosesAt(inner, 0);
      forall i | 0 <= i < |inner| - 1 ensures !ClosesAt(inner[1..], i) {
        assert !ClosesAt(inner, i + 1);
      }
      BlockSkipped(inner[1..], rest);
    }
  }

  lemma {:induction false} MarksScanned(marks: seq<Mark>, rest: bytes)
    requires forall i :: 0 <= i < |marks| ==> MarkOk(marks[i])
    ensures ScanQuote(MarksText(marks) + ([0x22] + rest)) == At(|MarksText(marks)|)
    decreases |marks|
  {
    hide ScanQuote;
    if marks == [] {
      assert MarksText(marks) + ([0x22] + rest) == [0x22] + rest;
      ScanAtQuote([0x22] + rest);
    } else {
      assert MarkOk(marks[0]);
      MarksScanned(marks[1..], rest);
      ScanSkips(MarkText(marks[0]), MarksText(marks[1..]) + ([0x22] + rest));
      assert MarksText(marks) + ([0x22] + rest) == MarkText(marks[0]) + (MarksText(marks[1..]) + ([0x22] + rest));
    }
  }

  lemma CommentMin(u: bytes)
    requires |u| >= 2 && u[0] == 0x2F && (u[1] == 0x2F || u[1] == 0x2A)
    ensures var r := if u[1] == 0x2F then ToLineEnd(u) else AfterComment(u);
            Min(u) == Min(r) && Closed(u) == Closed(r)
  {
    hide ToLineEnd, AfterComment;
  }

  lemma LineStep(u: bytes)
    requires u != []
    ensures ToLineEnd(u) == if u[0] == 0 || u[0] == 0x0A then u else ToLineEnd(u[1..])
  {
  }

  lemma BlockStep(u: bytes)
    requires |u| >= 2 && u[0] != 0
    ensures AfterComment(u) == if u[0] == 0x2A && u[1] == 0x2F then u[2..] else AfterComment(u[1..])
  {
  }

  lemma OtherMin(u: bytes)
    requires u != [] && u[0] != 0 && u[0] != 0x22
    requires u[0] == 0x2F ==> |u| >= 2 && u[1] != 0x2F && u[1] != 0x2A
    ensures var blank := u[0] == 0x20 || u[0] == 0x09 || u[0] == 0x0D || u[0] == 0x0A;
            Min(u) == (if blank then [] else [u[0]]) + Min(u[1..])
    ensures Closed(u) == Closed(u[1..])
  {
    hide ToLineEnd, AfterComment;
  }

  lemma QuotationKept(marks: seq<Mark>, rest: bytes)
    requires forall i :: 0 <= i < |marks| ==> MarkOk(marks[i])
    ensures var u := PieceText(Quotation(marks)) + rest;
            Min(u) == PieceText(Quotation(marks)) + Min(rest) && Closed(u) == Closed(rest)
  {
    hide ScanQuote, MarksText;
    var text := MarksText(marks);
    var u := PieceText(Quotation(marks)) + rest;
    MarksScanned(marks, rest);
    assert u[1..] == text + ([0x22] + rest);
    assert u[..|text| + 2] == PieceText(Quotation(marks)) && u[|text| + 2..] == rest;
  }

  lemma LineDropped(body: bytes, rest: bytes)
    requires rest != [] && PieceOk(Line(body), rest[0])
    ensures var u := PieceText(Line(body)) + rest; Min(u) == Min(rest) && Closed(u) == Closed(rest)
  {
    hide Min, Closed, ToLineEnd, AfterComment;
    LineSkipped([0x2F, 0x2F] + body, rest);
    CommentMin([0x2F, 0x2F] + body + rest);
  }

  lemma BlockDropped(inner: bytes, rest: bytes)
    requires rest != [] && PieceOk(Block(inner), rest[0])
    ensures var u := PieceText(Block(inner)) + rest; Min(u) == Min(rest) && Closed(u) == Closed(rest)
  {
    hide Min, Closed, ToLineEnd, AfterComment;
    var shut := inner + [0x2A, 0x2F] + rest;
    var u := PieceText(Block(inner)) + rest;
    assert u == [0x2F] + shut;
    BlockSkipped(inner, rest);
    BlockStep(u);
    assert shut[0] == 0x2A;
    CommentMin(u);
  }

  lemma ByteTaken(b: uchar, rest: bytes)
    requires rest != [] && (PieceOk(Blank(b), rest[0]) || PieceOk(Single(b), rest[0]))
    ensures Min([b] + rest) == (if PieceOk(Blank(b), rest[0]) then [] else [b]) + Min(rest)
    ensures Closed([b] + rest) == Closed(rest)
  {
    hide Min, Closed, ToLineEnd, AfterComment;
    assert ([b] + rest)[1..] == rest;
    OtherMin([b] + rest);
  }

  /** A piece in front of a text: kept or dropped, and nothing else changes. */
  lemma PieceTaken(p: Piece, rest: bytes)
    requires rest != [] && PieceOk(p, rest[0])
    ensures var u := PieceText(p) + rest;
            && Min(u) == (if p.Quotation? || p.Single? then PieceText(p) else []) + Min(rest)
            && Closed(u) == Closed(rest)
  {
    hide Min, Closed, MarksText, ToLineEnd, AfterComment, ScanQuote;
    match p
    case Blank(b) => ByteTaken(b, rest);
    case Line(body) => LineDropped(body, rest);
    case Block(inner) => BlockDropped(inner, rest);
    case Quotation(marks) => QuotationKept(marks, rest);
    case Single(b) => ByteTaken(b, rest);
  }

  /** Whatever a text is made of: its blanks and comments go, its literals and other bytes stay, in their order. */
  lemma {:induction false} MinOfPieces(ps: seq<Piece>)
    requires PiecesOk(ps)
    ensures Min(Text(ps)) == Kept(ps) && Closed(Text(ps))
    decreases |ps|
  {
    hide Min, Closed, PieceOk, PieceText;
    if ps == [] {
      TerminatorMin();
    } else {
      MinOfPieces(ps[1..]);
      PieceTaken(ps[0], Text(ps[1..]));
    }
  }

  lemma TerminatorMin()
    ensures Min([0]) == [0] && Closed([0])
  {
  }

  // ----- every text whose comments and literals are closed is made of such pieces -----

  /** Where a line comment ends. */
  lemma {:induction false} LineFound(u: bytes) returns (k: nat)
    requires Terminated(u)
    ensures k < |u| && ToLineEnd(u) == u[k..] && (u[k] == 0x0A || u[k] == 0)
    ensures forall i :: 0 <= i < k ==> u[i] != 0x0A && u[i] != 0
    decreases |u|
  {
    hide ToLineEnd, Terminated;
    TerminatedNotEmpty(u);
    LineStep(u);
    k := 0;
    if u[0] != 0 && u[0] != 0x0A {
      TerminatedHead(u);
      var more := LineFound(u[1..]);
      k := 1 + more;
      Tails(u, 1, more);
      assert forall i :: 0 < i < |u| ==> u[i] == u[1..][i - 1];
    }
  }

  lemma TerminatedNotEmpty(u: bytes)
    requires Terminated(u)
    ensures u != []
  {
  }

  /** The star and slash that end a block comment stand at `k`. */
  ghost predicate BlockEndsAt(u: bytes, k: nat) {
    k + 2 < |u| && ClosesAt(u, k) && forall i :: 0 <= i < k ==> u[i] != 0 && !ClosesAt(u, i)
  }

  lemma EndsLater(u: bytes, k: nat)
    requires u != [] && BlockEndsAt(u[1..], k) && u[0] != 0 && !ClosesAt(u, 0)
    ensures BlockEndsAt(u, k + 1)
  {
    forall i | 0 < i <= k + 1 ensures u[i] == u[1..][i - 1] && (ClosesAt(u, i) <==> ClosesAt(u[1..], i - 1)) {
    }
  }

  lemma {:induction false} BlockFound(u: bytes) returns (k: nat)
    requires Terminated(u) && AfterComment(u) != []
    ensures k + 2 < |u| && BlockEndsAt(u, k) && AfterComment(u) == u[k + 2..]
    decreases |u|
  {
    hide AfterComment, Terminated, BlockEndsAt, ClosesAt;
    BlockStart(u);
    BlockStep(u);
    if u[0] == 0x2A && u[1] == 0x2F {
      k := 0;
      EndsHere(u);
    } else {
      TerminatedHead(u);
      var more := BlockFound(u[1..]);
      k := more + 1;
      EndsNotHere(u);
      EndsLater(u, more);
      Tails(u, 1, more + 2);
    }
  }

  lemma EndsNotHere(u: bytes)
    requires |u| >= 2 && (u[0] != 0x2A || u[1] != 0x2F)
    ensures !ClosesAt(u, 0)
  {
  }

  lemma EndsHere(u: bytes)
    requires |u| > 2 && u[0] == 0x2A && u[1] == 0x2F
    ensures BlockEndsAt(u, 0)
  {
  }

  lemma BlockStart(u: bytes)
    requires AfterComment(u) != []
    ensures |u| >= 2 && u[0] != 0
  {
  }

  lemma {:induction false} MarksFound(v: bytes) returns (marks: seq<Mark>)
    requires Terminated(v) && ScanQuote(v).At?
    ensures forall i :: 0 <= i < |marks| ==> MarkOk(marks[i])
    ensures var n := ScanQuote(v).n; v[..n] == MarksText(marks)
    decreases |v|
  {
    if v[0] == 0x22 {
      marks := [];
    } else {
      var k := if v[0] == 0x5C then 2 else 1;
      TerminatedTail(v, k);
      var more := MarksFound(v[k..]);
      marks := [if k == 2 then Escaped(v[1]) else Plain(v[0])] + more;
      assert marks[1..] == more;
      assert v[..ScanQuote(v).n] == v[..k] + v[k..][..ScanQuote(v[k..]).n];
    }
  }

  /** What a piece leaves of a text. */
  ghost predicate Leaves(u: bytes, p: Piece, rest: bytes) {
    && u == PieceText(p) + rest && |rest| < |u| && Terminated(rest) && Closed(rest)
    && rest != [] && PieceOk(p, rest[0])
  }

  lemma FirstQuotation(u: bytes) returns (p: Piece, rest: bytes)
    requires Terminated(u) && Closed(u) && u[0] == 0x22
    ensures Leaves(u, p, rest)
  {
    hide ScanQuote, MarksText, ToLineEnd, AfterComment;
    TerminatedHead(u);
    var n := ScanQuote(u[1..]).n;
    var marks := MarksFound(u[1..]);
    p, rest := Quotation(marks), u[n + 2..];
    ClosedNotEmpty(rest);
    TerminatedTail(u, n + 2);
    assert u == [u[0]] + u[1..][..n] + [u[1..][n]] + rest;
  }

  lemma FirstLine(u: bytes) returns (p: Piece, rest: bytes)
    requires Terminated(u) && Closed(u) && |u| > 2 && u[0] == 0x2F && u[1] == 0x2F
    ensures Leaves(u, p, rest)
  {
    hide Closed, ToLineEnd, AfterComment, Terminated;
    ClosedComment(u);
    var k := LineFound(u);
    p, rest := Line(u[2..k]), u[k..];
    TerminatedTail(u, k);
    assert [0x2F, 0x2F] + u[2..k] == u[..k];
    assert u == u[..k] + u[k..];
  }

  lemma InnerUnclosed(v: bytes, k: nat)
    requires BlockEndsAt(v, k)
    ensures Unclosed(v[..k]) && (k > 0 ==> v[..k][0] == v[0])
  {
    forall i | 0 <= i < k ensures v[..k][i] != 0 && !ClosesAt(v[..k], i) {
      assert !ClosesAt(v, i);
    }
  }

  lemma BlockParts(u: bytes, k: nat)
    requires u != [] && u[0] == 0x2F && BlockEndsAt(u[1..], k)
    ensures u == [0x2F] + u[1..][..k] + [0x2A, 0x2F] + u[k + 3..]
  {
    var v := u[1..];
    assert v[k] == 0x2A && v[k + 1] == 0x2F;
    assert u[..k + 3] == [0x2F] + v[..k] + [0x2A, 0x2F];
    assert u == u[..k + 3] + u[k + 3..];
  }

  lemma FirstBlock(u: bytes) returns (p: Piece, rest: bytes)
    requires Terminated(u) && Closed(u) && |u| > 2 && u[0] == 0x2F && u[1] == 0x2A
    ensures Leaves(u, p, rest)
  {
    hide Closed, ToLineEnd, AfterComment, Terminated, BlockEndsAt, Unclosed;
    BlockStep(u);
    ClosedComment(u);
    ClosedNotEmpty(AfterComment(u));
    TerminatedHead(u);
    var k := BlockFound(u[1..]);
    Tails(u, 1, k + 2);
    p, rest := Block(u[1..][..k]), u[k + 3..];
    TerminatedTail(u, k + 3);
    InnerUnclosed(u[1..], k);
    BlockParts(u, k);
  }

  /** The first piece of a closed text, and what is left. */
  lemma FirstPiece(u: bytes) returns (p: Piece, rest: bytes)
    requires Terminated(u) && Closed(u) && u[0] != 0
    ensures Leaves(u, p, rest)
  {
    if u[0] == 0x22 {
      p, rest := FirstQuotation(u);
    } else if u[0] == 0x2F && u[1] == 0x2F {
      p, rest := FirstLine(u);
    } else if u[0] == 0x2F && u[1] == 0x2A {
      p, rest := FirstBlock(u);
    } else {
      hide Closed;
      TerminatedHead(u);
      var blank := u[0] == 0x20 || u[0] == 0x09 || u[0] == 0x0D || u[0] == 0x0A;
      p, rest := if blank then Blank(u[0]) else Single(u[0]), u[1..];
      ClosedOther(u);
      assert u == [u[0]] + u[1..];
    }
  }

  lemma ClosedNotEmpty(u: bytes)
    requires Closed(u)
    ensures u != []
  {
  }

  lemma ClosedComment(u: bytes)
    requires |u| >= 2 && u[0] == 0x2F && (u[1] == 0x2F || u[1] == 0x2A) && Closed(u)
    ensures Closed(if u[1] == 0x2F then ToLineEnd(u) else AfterComment(u))
  {
    CommentMin(u);
  }

  lemma ClosedOther(u: bytes)
    requires u != [] && u[0] != 0 && u[0] != 0x22 && Closed(u)
    requires u[0] == 0x2F ==> |u| >= 2 && u[1] != 0x2F && u[1] != 0x2A
    ensures Closed(u[1..])
  {
    OtherMin(u);
  }

  lemma {:induction false} Cut(u: bytes) returns (ps: seq<Piece>)
    requires Terminated(u) && Closed(u)
    ensures PiecesOk(ps) && Text(ps) == u
    decreases |u|
  {
    hide Closed, PieceOk, PieceText, Terminated;
    TerminatedNotEmpty(u);
    if u[0] == 0 {
      TerminatedHead(u);
      ps := [];
    } else {
      var p, rest := FirstPiece(u);
      var more := Cut(rest);
      ps := [p] + more;
      assert ps[1..] == more;
    }
  }

  /** The texts on which the code stays inside its buffer are exactly those made of such pieces. */
  lemma ClosedExactly(u: bytes)
    requires Terminated(u)
    ensures Closed(u) <==> exists ps :: PiecesOk(ps) && Text(ps) == u
  {
    hide Closed, PiecesOk, Text;
    if Closed(u) {
      var ps := Cut(u);
      assert PiecesOk(ps) && Text(ps) == u;
    } else {
      forall ps | PiecesOk(ps) && Text(ps) == u ensures Closed(u) {
        MinOfPieces(ps);
      }
    }
  }
}
