/** NUL-terminated C text and the parser's view of whitespace. */
module CText {

  type uchar = c: int | 0 <= c < 256
  type bytes = seq<uchar>

  const TAB: uchar := 9
  const LF: uchar := 10
  const CR: uchar := 13
  const SPACE: uchar := 32
  const QUOTE: uchar := 34
  const COMMA: uchar := 44
  const SLASH: uchar := 47
  const COLON: uchar := 58
  const LBRACKET: uchar := 91
  const BACKSLASH: uchar := 92
  const RBRACKET: uchar := 93
  const LBRACE: uchar := 123
  const RBRACE: uchar := 125

  predicate NulFree(s: bytes) {
    forall i :: 0 <= i < |s| ==> s[i] != 0
  }

  /** A C string without its terminator. */
  type cstring = s: bytes | NulFree(s)

  /** A C string with its terminator: what `strlen + 1` bytes hold. */
  ghost predicate Terminated(u: bytes) {
    |u| >= 1 && u[|u| - 1] == 0 && forall i :: 0 <= i < |u| - 1 ==> u[i] != 0
  }

  lemma Tails(s: bytes, i: nat, k: nat)
    requires i + k <= |s|
    ensures s[i..][k..] == s[i + k..]
  {
  }

  lemma TerminatedTail(u: bytes, k: nat)
    requires Terminated(u) && k < |u|
    ensures Terminated(u[k..])
  {
  }

  lemma TerminatedConcat(s: bytes, u: bytes)
    requires NulFree(s) && Terminated(u)
    ensures Terminated(s + u)
  {
  }

  /** Only the last byte is NUL. */
  lemma TerminatedHead(u: bytes)
    requires Terminated(u)
    ensures u[0] == 0 <==> |u| == 1
    ensures u[0] != 0 ==> Terminated(u[1..])
  {
  }

  /** The prefix of a buffer that C sees as a string: everything before the first NUL. */
  function UpToNul(b: bytes): (s: cstring)
    ensures s <= b && (|s| == |b| || b[|s|] == 0)
  {
    if b == [] || b[0] == 0 then []
    else
      var t := UpToNul(b[1..]);
      assert NulFree([b[0]] + t);
      [b[0]] + t
  }

  /**
   * `buffer_skip_whitespace`: any byte up to 32 is skipped, the terminator too; when that reaches the
   * end of the buffer the position steps back onto the terminator.
   */
  function SkipWs(u: bytes): (r: bytes)
    requires |u| >= 1
    ensures 1 <= |r| <= |u| && r == u[|u| - |r|..]
    ensures |r| > 1 ==> r[0] > 32
  {
    if |u| > 1 && u[0] <= 32 then SkipWs(u[1..]) else u
  }

  /** Exactly the blanks in front are skipped, where every byte up to 32 is one; the last byte never is. */
  lemma {:induction false} SkipsBlanks(u: bytes, k: nat)
    requires k < |u| && (forall i :: 0 <= i < k ==> u[i] <= 32) && (u[k] > 32 || k == |u| - 1)
    ensures SkipWs(u) == u[k..]
    decreases k
  {
    if k > 0 {
      assert u[0] <= 32 && u[1..][k - 1..] == u[k..];
      SkipsBlanks(u[1..], k - 1);
    }
  }

  lemma SkipWsTerminated(u: bytes)
    requires Terminated(u)
    ensures Terminated(SkipWs(u))
  {
    TerminatedTail(u, |u| - |SkipWs(u)|);
  }

  /** `strncmp` against a literal that has to fit. */
  predicate StartsWith(u: bytes, w: bytes) {
    |w| <= |u| && u[..|w|] == w
  }
}
