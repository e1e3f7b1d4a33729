/**
 * What the recursive-descent parser of cJSON.c computes: a function on the text left in the parse
 * buffer, which always ends with the terminating NUL. The offset of the C code is the length of the
 * whole buffer minus the length of the text left.
 */
module Parser {
  import opened CText
  import opened Doubles
  import opened Strings
  import opened Json

  /** How many bytes `parse_number` copies: the run of number bytes, cut at the size of its buffer. */
  function NumberRun(u: bytes, room: nat): (k: nat)
    ensures k <= |u| && k <= room
    ensures forall i :: 0 <= i < k ==> NumberByte(u[i])
    ensures k < |u| && k < room ==> !NumberByte(u[k])
  {
    if room == 0 || u == [] || !NumberByte(u[0]) then 0 else 1 + NumberRun(u[1..], room - 1)
  }

  /** `parse_number`: `strtod` sees the copied bytes only, so it cannot use more than those. */
  function ParseNumber(c: Codec, u: bytes): (r: Parsed<Json>)
    ensures r.Ok? ==> |r.rest| < |u| && r.rest == u[|u| - |r.rest|..]
    ensures r.Ok? && Terminated(u) ==> Terminated(r.rest)
    ensures r.Err? ==> r.rest == u
  {
    var run := NumberRun(u, NUMBER_BUFFER);
    var scan := c.strtod(u[..run]);
    if scan.used == 0 || scan.used > run then Err(u)
    else
      assert NumberByte(u[scan.used - 1]);
      Ok(Number(scan.value), u[scan.used..])
  }

  /** The `strncmp` tests of `parse_value`. */
  function ParseLiteral(u: bytes): (r: Parsed<Json>)
    ensures r.Ok? ==> |r.rest| < |u| && r.rest == u[|u| - |r.rest|..]
    ensures r.Ok? && Terminated(u) ==> Terminated(r.rest)
    ensures r.Err? ==> r.rest == u
  {
    if StartsWith(u, NULL_TEXT) then Ok(Null, After(u, NULL_TEXT))
    else if StartsWith(u, FALSE_TEXT) then Ok(False, After(u, FALSE_TEXT))
    else if StartsWith(u, TRUE_TEXT) then Ok(True, After(u, TRUE_TEXT))
    else Err(u)
  }

  function After(u: bytes, w: cstring): (r: bytes)
    requires StartsWith(u, w) && w != []
    ensures |r| < |u| && r == u[|u| - |r|..]
    ensures Terminated(u) ==> Terminated(r)
  {
    assert u[|w| - 1] == u[..|w|][|w| - 1] != 0;
    u[|w|..]
  }

  function ParseText(u: bytes): (r: Parsed<Json>)
    requires Terminated(u)
    ensures r.Ok? ==> |r.rest| < |u| && Terminated(r.rest)
    ensures |r.rest| <= |u|
  {
    match ParseString(u)
    case Err(rest) => Err(rest)
    case Ok(s, rest) => TerminatedTail(u, |u| - |rest|); Ok(String(Chars(s)), rest)
  }

  /** `parse_value` */
  function ParseValue(c: Codec, u: bytes, depth: nat): (r: Parsed<Json>)
    requires Terminated(u)
    ensures r.Ok? ==> |r.rest| < |u| && Terminated(r.rest)
    ensures |r.rest| <= |u|
    decreases |u|, 1
  {
    var literal := ParseLiteral(u);
    if literal.Ok? then literal
    else if u[0] == QUOTE then ParseText(u)
    else if u[0] == MINUS || Digit(u[0]) then ParseNumber(c, u)
    else if u[0] == LBRACKET then ParseArray(c, u, depth)
    else if u[0] == LBRACE then ParseObject(c, u, depth)
    else Err(u)
  }

  /** The text after the byte at the front, past whitespace. */
  function NextToken(u: bytes): (r: bytes)
    requires Terminated(u) && u[0] != 0
    ensures |r| < |u| && Terminated(r)
  {
    TerminatedHead(u);
    SkipWsTerminated(u[1..]);
    SkipWs(u[1..])
  }

  /** The text after the byte at the front. */
  function Rest(u: bytes): (r: bytes)
    requires Terminated(u) && u[0] != 0
    ensures |r| < |u| && Terminated(r)
  {
    TerminatedHead(u);
    u[1..]
  }

  /** `parse_array` */
  function ParseArray(c: Codec, u: bytes, depth: nat): (r: Parsed<Json>)
    requires Terminated(u) && u[0] == LBRACKET
    ensures r.Ok? ==> |r.rest| < |u| && Terminated(r.rest)
    ensures |r.rest| <= |u|
    decreases |u|, 0
  {
    if depth >= NESTING_LIMIT then Err(u)
    else
      var v := NextToken(u);
      if v[0] == RBRACKET then Ok(Array(End), Rest(v))
      else
        match ParseItems(c, v, depth + 1)
        case Ok(ch, rest) => Ok(Array(ch), rest)
        case Err(rest) => Err(rest)
  }

  /** The element loop of `parse_array`, from the first byte of an element to after the closing bracket. */
  function ParseItems(c: Codec, v: bytes, depth: nat): (r: Parsed<Chain>)
    requires Terminated(v)
    ensures r.Ok? ==> |r.rest| < |v| && Terminated(r.rest) && r.value.Link?
    ensures |r.rest| <= |v|
    decreases |v|, 2
  {
    match ParseValue(c, v, depth)
    case Err(rest) => Err(rest)
    case Ok(value, after) =>
      SkipWsTerminated(after);
      var w := SkipWs(after);
      if w[0] == COMMA then
        match ParseItems(c, NextToken(w), depth)
        case Err(rest) => Err(rest)
        case Ok(next, rest) => Ok(Link(Missing, value, next), rest)
      else if w[0] == RBRACKET then Ok(Link(Missing, value, End), Rest(w))
      else Err(w)
  }

  /** `parse_object` */
  function ParseObject(c: Codec, u: bytes, depth: nat): (r: Parsed<Json>)
    requires Terminated(u) && u[0] == LBRACE
    ensures r.Ok? ==> |r.rest| < |u| && Terminated(r.rest)
    ensures |r.rest| <= |u|
    decreases |u|, 0
  {
    if depth >= NESTING_LIMIT then Err(u)
    else
      var v := NextToken(u);
      if v[0] == RBRACE then Ok(Object(End), Rest(v))
      else
        match ParseMembers(c, v, depth + 1)
        case Ok(ch, rest) => Ok(Object(ch), rest)
        case Err(rest) => Err(rest)
  }

  /** A name, the colon after it, and the text at the value. */
  function ParseName(v: bytes): (r: Parsed<cstring>)
    requires Terminated(v)
    ensures r.Ok? ==> |r.rest| < |v| && Terminated(r.rest)
    ensures |r.rest| <= |v|
  {
    match ParseString(v)
    case Err(rest) => Err(rest)
    case Ok(key, after) =>
      TerminatedTail(v, |v| - |after|);
      SkipWsTerminated(after);
      var w := SkipWs(after);
      if w[0] == COLON then Ok(key, NextToken(w)) else Err(w)
  }

  /** The member loop of `parse_object`, from the first byte of a name to after the closing brace. */
  function ParseMembers(c: Codec, v: bytes, depth: nat): (r: Parsed<Chain>)
    requires Terminated(v)
    ensures r.Ok? ==> |r.rest| < |v| && Terminated(r.rest) && r.value.Link?
    ensures |r.rest| <= |v|
    decreases |v|, 2
  {
    match ParseName(v)
    case Err(rest) => Err(rest)
    case Ok(key, x) =>
      match ParseValue(c, x, depth)
      case Err(rest) => Err(rest)
      case Ok(value, after) =>
        SkipWsTerminated(after);
        var w := SkipWs(after);
        if w[0] == COMMA then
          match ParseMembers(c, NextToken(w), depth)
          case Err(rest) => Err(rest)
          case Ok(next, rest) => Ok(Link(Chars(key), value, next), rest)
        else if w[0] == RBRACE then Ok(Link(Chars(key), value, End), Rest(w))
        else Err(w)
  }

  const BOM: bytes := [0xEF, 0xBB, 0xBF]

  /** `skip_utf8_bom` at the start of the buffer: it wants one byte and the terminator after the mark. */
  function SkipBom(u: bytes): (r: bytes)
    requires Terminated(u)
    ensures |r| <= |u| && Terminated(r)
  {
    if |u| > 4 && u[..3] == BOM then TerminatedTail(u, 3); u[3..] else u
  }

  /** `cJSON_ParseWithOpts` on a text with its terminator: the tree and the text after it, or the error position. */
  function Parse(c: Codec, u: bytes, requireEnd: bool): (r: Parsed<Json>)
    requires Terminated(u)
    ensures |r.rest| <= |u|
  {
    SkipWsTerminated(SkipBom(u));
    match ParseValue(c, SkipWs(SkipBom(u)), 0)
    case Err(rest) => Err(rest)
    case Ok(t, rest) =>
      if !requireEnd then Ok(t, rest)
      else
        var w := SkipWs(rest);
        if w[0] == 0 then Ok(t, w) else Err(w)
  }
}
