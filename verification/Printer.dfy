/** The growing print buffer of cJSON.c and the print functions that write into it. */
module Printer {
  import opened Words
  import opened CText
  import opened Doubles
  import opened Strings
  import opened Json
  import opened CHeap
  import opened ItemValues

  class PrintBuffer {
    var buffer: array?<uchar>
    var length: nat
    var offset: nat
    var depth: nat
    const noalloc: bool
    const format: bool
    /** `realloc` is among the hooks; without it growing is done by allocate, copy and free. */
    const canRealloc: bool
    /** An allocation has failed. */
    ghost var starved: bool
    /** Blocks allocated for printing and not freed; an external buffer is none. */
    ghost var live: nat
    /** Growing without `realloc` has copied the byte at the offset from a block of no bytes. */
    ghost var overread: bool
    /** The size of the first buffer. */
    ghost const first: nat

    ghost predicate Valid()
      reads this
    {
      && (if buffer == null then length == 0 && starved else buffer.Length == length)
      && length <= INT_MAX
      && (length > 0 ==> offset < length)
      && (length == 0 && buffer != null ==> offset == 0 && first == 0)
      && (overread ==> first == 0 && !canRealloc)
      && (length > 0 && first == 0 && !canRealloc ==> overread)
      && live == (if buffer == null || noalloc then 0 else 1)
    }

    /** The most the buffer can ever hold. */
    ghost function Capacity(): nat
      reads this
    {
      if noalloc then length else INT_MAX
    }

    /** `text` has been written, and writing goes on right after it. */
    ghost predicate At(text: bytes)
      reads this, buffer
    {
      Valid() && buffer != null && offset == |text| && buffer[..offset] == text
    }

    /** `text` has been written with a terminator, but the offset may still lie before its end. */
    ghost predicate Done(text: bytes)
      reads this, buffer
    {
      && Valid() && buffer != null && offset <= |text| && |text| + 1 < length
      && buffer[..|text|] == text && buffer[|text|] == 0 && NulFree(text[offset..])
    }

    /** What no call changes: the format, an external buffer, and anything but the buffer in use. */
    twostate predicate Kept()
      reads this
    {
      && (buffer == null || buffer == old(buffer) || fresh(buffer))
      && (noalloc ==> buffer == old(buffer) && length == old(length) && starved == old(starved))
      && (old(starved) ==> starved)
    }

    /** As long as the buffer is the same, its bytes from `k` on are. */
    twostate predicate Beyond(k: nat)
      reads this, buffer
    {
      buffer != null && buffer == old(buffer) ==> forall i :: k <= i < buffer.Length ==> buffer[i] == old(buffer[i])
    }

    constructor (buffer: array<uchar>, noalloc: bool, format: bool, canRealloc: bool)
      requires buffer.Length <= INT_MAX
      ensures this.buffer == buffer && this.noalloc == noalloc
      ensures this.format == format && this.canRealloc == canRealloc && !starved
      ensures At([]) && depth == 0 && length == buffer.Length && !overread && first == buffer.Length
    {
      this.buffer, this.length, this.offset, this.depth := buffer, buffer.Length, 0, 0;
      this.noalloc, this.format, this.canRealloc, this.starved := noalloc, format, canRealloc, false;
      this.live, this.overread, this.first := if noalloc then 0 else 1, false, buffer.Length;
    }

    /** `ensure`: on success `needed` bytes and one more are there, and what was written is kept. */
    method Ensure(needed: nat, ghost text: bytes) returns (ok: bool)
      requires At(text)
      modifies this
      ensures Valid() && Kept() && depth == old(depth)
      ensures Beyond(0)
      ensures ok ==> At(text) && offset + needed + 1 <= length && |text| + needed + 1 <= Capacity()
      ensures !ok ==> starved || |text| + needed + 1 > Capacity()
    {
      if buffer == null { return false; }
      if length > 0 && offset >= length { return false; }
      if needed > INT_MAX { return false; }
      var total := needed + offset + 1;
      if total <= length { return true; }
      if noalloc { return false; }
      var newsize;
      if total > INT_MAX / 2 {
        if total <= INT_MAX {
          newsize := INT_MAX;
        } else {
          return false;
        }
      } else {
        newsize := total * 2;
      }
      ok := Reallocate(newsize, text);
    }

    /** The two ways to grow in `ensure`, which may fail at any time; the buffer is lost then. */
    method Reallocate(newsize: nat, ghost text: bytes) returns (ok: bool)
      requires At(text) && !noalloc && length < newsize <= INT_MAX
      modifies this
      ensures Valid() && Kept() && depth == old(depth)
      ensures Beyond(0)
      ensures ok ==> At(text) && length == newsize
      ensures !ok ==> starved
    {
      if * {
        live := live - 1;
        buffer, length := null, 0;
        starved := true;
        return false;
      }
      var newbuffer := new uchar[newsize];
      // `realloc` turns the old block into the new one, `allocate` makes a second one
      if !canRealloc { live := live + 1; }
      var kept := if canRealloc then length else offset + 1;
      if kept > length {
        overread := true;
        kept := length;
      }
      forall i | 0 <= i < kept {
        newbuffer[i] := buffer[i];
      }
      assert newbuffer[..offset] == text;
      if !canRealloc { live := live - 1; }
      buffer, length := newbuffer, newsize;
      return true;
    }

    /** Writes `piece` at the offset, inside what has been reserved. */
    method Store(piece: bytes, ghost text: bytes)
      requires At(text) && offset + |piece| <= length
      modifies buffer
      ensures At(text) && buffer[..|text| + |piece|] == text + piece && Beyond(|text| + |piece|)
    {
      forall i | 0 <= i < |piece| {
        buffer[offset + i] := piece[i];
      }
      assert buffer[..offset] == text;
    }

    /** Reserve, write `piece` and move past it. */
    method Append(piece: bytes, reserve: nat, ghost text: bytes) returns (ok: bool)
      requires At(text) && |piece| <= reserve
      modifies this, buffer
      ensures Valid() && Kept() && depth == old(depth)
      ensures ok ==> At(text + piece) && |text| + reserve + 1 <= Capacity() && Beyond(|text| + |piece|)
      ensures !ok ==> starved || |text| + reserve + 1 > Capacity()
    {
      ok := Ensure(reserve, text);
      if ok {
        Store(piece, text);
        offset := offset + |piece|;
      }
    }

    /** Reserve and write `piece` with its terminator, the offset staying in front of it. */
    method Finish(piece: cstring, ghost text: bytes) returns (ok: bool)
      requires At(text)
      modifies this, buffer
      ensures Valid() && Kept() && depth == old(depth)
      ensures ok ==> Done(text + piece) && offset == |text| && Beyond(|text| + |piece| + 1)
      ensures ok ==> |text| + |piece| + 2 <= Capacity()
      ensures !ok ==> starved || |text| + |piece| + 2 > Capacity()
    {
      ok := Ensure(|piece| + 1, text);
      if ok {
        Store(piece + [0], text);
        assert buffer[..|text| + |piece|] == text + piece;
        assert buffer[|text| + |piece|] == (text + (piece + [0]))[|text| + |piece|];
      }
    }

    /** `update_offset`: `strlen` from the offset. */
    method UpdateOffset(ghost text: bytes)
      requires Done(text)
      modifies this`offset
      ensures At(text) && offset < length
    {
      while buffer[offset] != 0
        invariant offset <= |text| && Done(text)
        decreases |text| - offset
      {
        assert offset < |text|;
        offset := offset + 1;
      }
    }

    /** The work buffer is freed, if there is one. */
    method Release()
      requires Valid() && !noalloc
      modifies this
      ensures buffer == null && live == 0 && starved == old(starved) && overread == old(overread)
    {
      if buffer != null {
        buffer := null;
        live := live - 1;
      }
    }

    /** The end of `print`: a block of exactly the size of the text; `realloc` that fails forgets the old one. */
    method Shrink(ghost text: bytes) returns (printed: array?<uchar>)
      requires At(text) && offset < length && !noalloc
      modifies this
      ensures printed != null ==> fresh(printed) && printed[..] == text + [0] && live == 0
      ensures printed == null ==> live == if canRealloc then 1 else 0
    {
      if * {
        if !canRealloc { Release(); }
        return null;
      }
      printed := new uchar[offset + 1];
      forall i | 0 <= i <= offset {
        printed[i] := if i == offset then 0 else buffer[i];
      }
      assert printed[..offset] == text;
      Release();
    }

    // ----- strings -----

    /** The escaping loop of `print_string_ptr`, behind the opening quote. */
    method WriteEscaped(input: cstring)
      requires Valid() && buffer != null && offset + |Escape(input)| + 3 <= length
      modifies buffer
      ensures buffer[..offset + 1] == old(buffer[..offset + 1])
      ensures buffer[offset + 1..offset + 1 + |Escape(input)|] == Escape(input)
      ensures Beyond(offset + |Escape(input)| + 2)
    {
      hide EscapeByte, Escape;
      ghost var start := offset + 1;
      var i, op := 0, offset + 1;
      EscapeNothing();
      while i < |input|
        invariant 0 <= i <= |input| && op == start + |Escape(input[..i])| && |Escape(input[..i])| <= |Escape(input)|
        invariant buffer[..start] == old(buffer[..start])
        invariant buffer[start..op] == Escape(input[..i])
        invariant Beyond(start + |Escape(input)| + 1)
      {
        EscapeSplit(input, i);
        ghost var before := buffer[..op];
        assert buffer[start..op] == before[start..] && buffer[..start] == before[..start];
        var next := WriteEscape(input[i], op);
        assert buffer[start..op] == buffer[..op][start..] && buffer[..start] == buffer[..op][..start];
        assert buffer[start..next] == buffer[start..op] + buffer[op..next];
        i, op := i + 1, next;
      }
      assert input[..i] == input;
    }

    /** One turn of that loop. */
    method WriteEscape(c: uchar, op: nat) returns (next: nat)
      requires Valid() && buffer != null && c != 0 && op + |EscapeByte(c)| < length
      modifies buffer
      ensures next == op + |EscapeByte(c)| && buffer[op..next] == EscapeByte(c) && Beyond(next + 1)
      ensures buffer[..op] == old(buffer[..op])
    {
      if c > 31 && c != QUOTE && c != BACKSLASH {
        buffer[op] := c;
        next := op + 1;
      } else if c == BACKSLASH || c == QUOTE || c == 8 || c == 12 || c == LF || c == CR || c == TAB {
        buffer[op] := BACKSLASH;
        if c == BACKSLASH { buffer[op + 1] := BACKSLASH; }
        else if c == QUOTE { buffer[op + 1] := QUOTE; }
        else if c == 8 { buffer[op + 1] := 98; }
        else if c == 12 { buffer[op + 1] := 102; }
        else if c == LF { buffer[op + 1] := 110; }
        else if c == CR { buffer[op + 1] := 114; }
        else { buffer[op + 1] := 116; }
        next := op + 2;
      } else {
        next := WriteControl(c, op);
      }
    }

    /** The default case: `sprintf` also writes a terminator, which the next byte overwrites. */
    method WriteControl(c: uchar, op: nat) returns (next: nat)
      requires Valid() && buffer != null && c < 32 && op + 6 < length
      modifies buffer
      ensures next == op + 6 && Beyond(next + 1)
      ensures buffer[op..next] == [BACKSLASH, LOWER_U, 48, 48, HexDigit(c / 16), HexDigit(c % 16)]
      ensures buffer[..op] == old(buffer[..op])
    {
      hide HexDigit;
      buffer[op], buffer[op + 1], buffer[op + 2], buffer[op + 3] := BACKSLASH, LOWER_U, 48, 48;
      buffer[op + 4], buffer[op + 5], buffer[op + 6] := HexDigit(c / 16), HexDigit(c % 16), 0;
      next := op + 6;
    }

    /** The `memcpy` of a string without anything to escape. */
    method WritePlain(s: cstring)
      requires Valid() && buffer != null && offset + |s| + 1 <= length
      modifies buffer
      ensures buffer[..offset + 1] == old(buffer[..offset + 1])
      ensures buffer[offset + 1..offset + 1 + |s|] == s && Beyond(offset + 1 + |s|)
    {
      forall i | 0 <= i < |s| {
        buffer[offset + 1 + i] := s[i];
      }
      ghost var copied := buffer[offset + 1..offset + 1 + |s|];
      assert |copied| == |s| && forall k :: 0 <= k < |s| ==> copied[k] == s[k];
      assert copied == s;
    }

    /** The opening quote and the escaped string. */
    method OpenQuote(s: cstring, escapeCharacters: nat, ghost text: bytes)
      requires At(text) && |s| + escapeCharacters == |Escape(s)| && offset + |Escape(s)| + 3 < length
      modifies buffer
      ensures buffer[..offset + 1] == text + [QUOTE] && buffer[offset + 1..offset + 1 + |Escape(s)|] == Escape(s)
      ensures Beyond(offset + |Escape(s)| + 2)
    {
      hide Escape;
      buffer[offset] := QUOTE;
      assert buffer[..offset + 1] == text + [QUOTE];
      if escapeCharacters == 0 {
        EscapeShort(s);
        WritePlain(s);
      } else {
        WriteEscaped(s);
      }
    }

    /** Everything `print_string_ptr` writes once the room is there. */
    method WriteQuoted(s: cstring, escapeCharacters: nat, ghost text: bytes)
      requires At(text) && |s| + escapeCharacters == |Escape(s)| && offset + |Escape(s)| + 3 < length
      modifies buffer
      ensures Done(text + Quoted(Chars(s))) && Beyond(offset + |Escape(s)| + 3)
    {
      hide Escape, Done, Quoted;
      OpenQuote(s, escapeCharacters, text);
      assert buffer[offset] == buffer[..offset + 1][offset] == QUOTE;
      assert buffer[..offset] == buffer[..offset + 1][..offset] == text;
      CloseQuote(s, text);
    }

    /** `print_string_ptr` */
    method PrintStringPtr(input: CStr, ghost text: bytes) returns (ok: bool)
      requires At(text)
      modifies this, buffer
      ensures Valid() && Kept() && depth == old(depth)
      ensures ok ==> Done(text + Quoted(input)) && Beyond(|text| + |Quoted(input)| + 1)
      ensures ok ==> |text| + |Quoted(input)| + 2 <= Capacity()
      ensures !ok ==> starved || |text| + |Quoted(input)| + 2 > Capacity()
    {
      hide Escape;
      if input.Missing? {
        ok := Finish([QUOTE, QUOTE], text);
      } else {
        var escapeCharacters := CountEscapes(input.text);
        assert |Quoted(input)| == |input.text| + escapeCharacters + 2;
        ok := Ensure(|input.text| + escapeCharacters + 3, text);
        if ok {
          WriteQuoted(input.text, escapeCharacters, text);
        }
      }
    }

    /** The closing quote and the terminator. */
    method CloseQuote(s: cstring, ghost text: bytes)
      requires At(text) && offset + |Escape(s)| + 3 < length
      requires buffer[offset] == QUOTE && buffer[offset + 1..offset + 1 + |Escape(s)|] == Escape(s)
      modifies buffer
      ensures Done(text + Quoted(Chars(s))) && Beyond(offset + |Escape(s)| + 3)
    {
      hide Escape;
      var end := offset + |Escape(s)| + 1;
      buffer[end] := QUOTE;
      buffer[end + 1] := 0;
      ghost var q := Quoted(Chars(s));
      assert buffer[offset + 1..end] == Escape(s);
      assert q == [QUOTE] + Escape(s) + [QUOTE];
      assert buffer[offset..end + 1] == q;
      assert buffer[..offset] == text;
      assert buffer[..end + 1] == text + q;
    }

    // ----- values -----

    /** As Finish, with the offset moved past the piece. */
    method AppendTerminated(piece: cstring, ghost text: bytes) returns (ok: bool)
      requires At(text)
      modifies this, buffer
      ensures Valid() && Kept() && depth == old(depth)
      ensures ok ==> At(text + piece) && |text| + |piece| + 2 <= Capacity() && Beyond(|text| + |piece| + 1)
      ensures !ok ==> starved || |text| + |piece| + 2 > Capacity()
    {
      ok := Finish(piece, text);
      if ok {
        offset := offset + |piece|;
      }
    }

    /** What a print function promises for an item with text `r`: success exactly if it is printable and `r` fits. */
    twostate predicate Printed(ok: bool, text: bytes, r: bytes, printable: bool)
      reads this, buffer
    {
      && Valid() && Kept()
      && (ok ==> depth == old(depth) && Done(text + r) && printable)
      && (ok ==> |text| + |r| + 2 <= Capacity() && Beyond(|text| + |r| + 1))
      && (!ok ==> starved || !printable || |text| + |r| + 2 > Capacity())
    }

    /** `print_number` */
    method PrintNumber(c: Codec, d: Double, ghost text: bytes) returns (ok: bool)
      requires At(text)
      modifies this, buffer
      ensures Printed(ok, text, NumberText(c, d), Printable(c, Number(d)))
    {
      var digits := NULL_TEXT;
      if d.Finite? {
        digits := c.g15(d.bits);
        var test := c.strtod(digits);
        if test.used == 0 || !DoubleEq(test.value, d) {
          digits := c.g17(d.bits);
        }
      }
      if |digits| > MAX_LEXEME { return false; }
      ok := Finish(digits, text);
      if ok {
        offset := offset + |digits|;
        assert (text + digits)[offset..] == [];
      }
    }

    /** `print_value`; of NULL nothing is printed. */
    method PrintValue(c: Codec, mem: Mem, item: Ptr, ghost t: Tree, ghost text: bytes) returns (ok: bool)
      requires At(text) && (item != NULL ==> Readable(mem, t) && item == t.ptr)
      modifies this, buffer
      ensures Printed(ok, text, Render(c, ValueOf(mem, t), format, old(depth)),
                      item != NULL && Printable(c, ValueOf(mem, t)))
      decreases t, 1
    {
      hide Quoted, RenderItems, RenderMembers, ChainOf, StrAt;
      if item == NULL { return false; }
      var node := mem[item].node;
      match node.kind
      case KNull => ok := Finish(NULL_TEXT, text);
      case KFalse => ok := Finish(FALSE_TEXT, text);
      case KTrue => ok := Finish(TRUE_TEXT, text);
      case KNumber => ok := PrintNumber(c, node.number, text);
      case KRaw =>
        if node.valuestring == NULL {
          NullString(mem);
          return false;
        }
        StringThere(mem, node.valuestring);
        ok := Finish(StrAt(mem, node.valuestring).text, text);
      case KString => ok := PrintStringPtr(StrAt(mem, node.valuestring), text);
      case KArray => ok := PrintArray(c, mem, item, t, text);
      case KObject => ok := PrintObject(c, mem, item, t, text);
      case KInvalid => ok := false;
    }

    /** The opening bracket or brace, and `depth++`. */
    method Open(piece: bytes, reserve: nat, ghost text: bytes) returns (ok: bool)
      requires At(text) && |piece| <= reserve
      modifies this, buffer
      ensures Valid() && Kept()
      ensures ok ==> At(text + piece) && depth == old(depth) + 1 && Beyond(|text| + |piece| + 1)
      ensures !ok ==> starved || |text| + reserve + 1 > Capacity()
    {
      ok := Append(piece, reserve, text);
      if ok {
        depth := depth + 1;
      }
    }

    /** The closing bracket or brace, and `depth--`. */
    method Close(piece: cstring, ghost text: bytes) returns (ok: bool)
      requires At(text) && depth > 0
      modifies this, buffer
      ensures Valid() && Kept()
      ensures ok ==> Done(text + piece) && depth == old(depth) - 1 && Beyond(|text| + |piece| + 1)
      ensures ok ==> |text| + |piece| + 2 <= Capacity()
      ensures !ok ==> starved || |text| + |piece| + 2 > Capacity()
    {
      ok := Finish(piece, text);
      if ok {
        depth := depth - 1;
      }
    }

    /** `print_array` */
    method PrintArray(c: Codec, mem: Mem, item: Ptr, ghost t: Tree, ghost text: bytes) returns (ok: bool)
      requires At(text) && Readable(mem, t) && item == t.ptr
      modifies this, buffer
      ensures Printed(ok, text, Render(c, Array(ChainOf(mem, t.kids)), format, old(depth)),
                      Printable(c, Array(ChainOf(mem, t.kids))))
      decreases t, 0
    {
      hide Render, RenderItems, Printable, PrintableChain, At, Done, ChainOf, Readable, Walk;
      WalkStart(mem, t);
      ghost var child := ChainOf(mem, t.kids);
      ghost var items, d := RenderItems(c, child, format, depth + 1), depth;
      ArrayText(c, child, format, d);
      ghost var now := text + [LBRACKET];
      ok := Open([LBRACKET], 1, text);
      if !ok { return; }
      ok, now := PrintElements(c, mem, mem[item].node.child, t.kids, child, now);
      if !ok { return; }
      Grouped(text, [LBRACKET], items, [RBRACKET]);
      ok := Close([RBRACKET], now);
    }

    /** The element loop of `print_array`. */
    method PrintElements(c: Codec, mem: Mem, first: Ptr, ghost ts: seq<Tree>, ghost child: Chain, ghost text: bytes)
      returns (ok: bool, ghost now: bytes)
      requires At(text) && Walk(mem, ts, 0, first, child)
      modifies this, buffer
      ensures Valid() && Kept() && (ok ==> depth == old(depth))
      ensures ok ==> At(now) && now == text + RenderItems(c, child, format, depth)
      ensures ok ==> PrintableChain(c, child) && Beyond(|now| + 1)
      ensures !ok ==> starved || !PrintableChain(c, child)
                      || |text| + |RenderItems(c, child, format, old(depth))| + 2 > Capacity()
      decreases ts, 3
    {
      hide Render, RenderItems, PrintableChain, Separator, Walk, Readable, ValueOf, StrAt;
      ghost var ch, k := child, 0;
      var current := first;
      ok, now := true, text;
      while current != NULL
        invariant Kept() && depth == old(depth) && At(now) && Beyond(|now| + 1) && Walk(mem, ts, k, current, ch)
        invariant now + RenderItems(c, ch, format, depth) == text + RenderItems(c, child, format, depth)
        invariant PrintableChain(c, ch) == PrintableChain(c, child)
        decreases |ts| - k
      {
        WalkStep(mem, ts, k, current, ch);
        ElementText(c, ch, format, depth, now);
        ok := PrintElement(c, mem, current, ts[k], ch, now);
        if !ok { return; }
        now := now + Render(c, ch.value, format, depth) + Separator(format, ch.next);
        current := mem[current].node.next;
        ch, k := ch.next, k + 1;
      }
      WalkEnd(mem, ts, k, ch);
      NoElements(c, format, depth);
      assert now + [] == now;
    }

    /** One turn of the loop: the value, and a separator if another element follows. */
    method PrintElement(c: Codec, mem: Mem, current: Ptr, ghost t: Tree, ghost ch: Chain, ghost text: bytes)
      returns (ok: bool)
      requires At(text) && ItemAt(mem, current) && Readable(mem, t) && current == t.ptr
      requires ch.Link? && ch.value == ValueOf(mem, t) && (mem[current].node.next == NULL <==> ch.next.End?)
      modifies this, buffer
      ensures Valid() && Kept() && (ok ==> depth == old(depth))
      ensures ok ==>
                At(text + Render(c, ch.value, format, depth) + Separator(format, ch.next)) && Printable(c, ch.value)
      ensures ok ==> Beyond(|text| + |Render(c, ch.value, format, depth)| + |Separator(format, ch.next)| + 1)
      ensures !ok ==> starved || !Printable(c, ch.value)
                      || |text| + |Render(c, ch.value, format, old(depth))|
                         + |Separator(format, ch.next)| + 2 > Capacity()
      decreases t, 2
    {
      hide Render, Printable, Readable, ValueOf;
      ghost var r := Render(c, ch.value, format, depth);
      ok := PrintValue(c, mem, current, t, text);
      if ok {
        UpdateOffset(text + r);
        if mem[current].node.next != NULL {
          ok := AppendTerminated(ItemSeparator(format), text + r);
        } else {
          assert text + r + [] == text + r;
        }
      }
    }

    /** `print_object` */
    method PrintObject(c: Codec, mem: Mem, item: Ptr, ghost t: Tree, ghost text: bytes) returns (ok: bool)
      requires At(text) && Readable(mem, t) && item == t.ptr
      modifies this, buffer
      ensures Printed(ok, text, Render(c, Object(ChainOf(mem, t.kids)), format, old(depth)),
                      Printable(c, Object(ChainOf(mem, t.kids))))
      decreases t, 0
    {
      hide Render, RenderMembers, Printable, PrintableChain, ObjectOpen, ObjectClose, At, Done, ChainOf, Readable, Walk;
      WalkStart(mem, t);
      ghost var child := ChainOf(mem, t.kids);
      ghost var members, d := RenderMembers(c, child, format, depth + 1), depth;
      ObjectText(c, child, format, d);
      ObjectPrintable(c, child);
      ObjectEnds(format, d);
      ghost var now := text + ObjectOpen(format);
      ok := Open(ObjectOpen(format), if format then 3 else 2, text);
      if !ok { return; }
      ok, now := PrintMembers(c, mem, mem[item].node.child, t.kids, child, now);
      if !ok { return; }
      Grouped(text, ObjectOpen(format), members, ObjectClose(format, d));
      ok := Close(ObjectClose(format, depth - 1), now);
    }

    /** The member loop of `print_object`. */
    method PrintMembers(c: Codec, mem: Mem, first: Ptr, ghost ts: seq<Tree>, ghost child: Chain, ghost text: bytes)
      returns (ok: bool, ghost now: bytes)
      requires At(text) && Walk(mem, ts, 0, first, child)
      modifies this, buffer
      ensures Valid() && Kept() && (ok ==> depth == old(depth))
      ensures ok ==> At(now) && now == text + RenderMembers(c, child, format, depth)
      ensures ok ==> PrintableChain(c, child) && Beyond(|now| + 1)
      ensures !ok ==> starved || !PrintableChain(c, child)
                      || |text| + |RenderMembers(c, child, format, old(depth))| + 2 > Capacity()
      decreases ts, 3
    {
      hide Render, RenderMembers, PrintableChain, MemberText, Walk, Readable, ValueOf, StrAt;
      ghost var ch, k := child, 0;
      var current := first;
      ok, now := true, text;
      while current != NULL
        invariant Kept() && depth == old(depth) && At(now) && Beyond(|now| + 1) && Walk(mem, ts, k, current, ch)
        invariant now + RenderMembers(c, ch, format, depth) == text + RenderMembers(c, child, format, depth)
        invariant PrintableChain(c, ch) == PrintableChain(c, child)
        decreases |ts| - k
      {
        WalkStep(mem, ts, k, current, ch);
        MembersFromMember(c, ch, format, depth, now);
        ok := PrintMember(c, mem, current, ts[k], ch, now);
        if !ok { return; }
        now := now + MemberText(c, ch, format, depth);
        current := mem[current].node.next;
        ch, k := ch.next, k + 1;
      }
      WalkEnd(mem, ts, k, ch);
      NoElements(c, format, depth);
      assert now + [] == now;
    }

    /** One turn of the loop: indent, name, colon, value, end of the member. */
    method PrintMember(c: Codec, mem: Mem, current: Ptr, ghost t: Tree, ghost ch: Chain, ghost text: bytes)
      returns (ok: bool)
      requires At(text) && ItemAt(mem, current) && Readable(mem, t) && current == t.ptr
      requires ch.Link? && ch.key == StrAt(mem, mem[current].node.name) && ch.value == ValueOf(mem, t)
      requires mem[current].node.next == NULL <==> ch.next.End?
      modifies this, buffer
      ensures Valid() && Kept() && (ok ==> depth == old(depth))
      ensures ok ==> At(text + MemberText(c, ch, format, depth)) && Printable(c, ch.value)
      ensures ok ==> Beyond(|text| + |MemberText(c, ch, format, depth)| + 1)
      ensures !ok ==> starved || !Printable(c, ch.value)
                      || |text| + |MemberText(c, ch, format, old(depth))| + 2 > Capacity()
      decreases t, 2
    {
      hide Render, Printable, Quoted, MemberEnd, KeySeparator, Tabs, Readable, ValueOf, StrAt, MemberText, At, Done;
      ghost var d, now := depth, text;
      ghost var r := Render(c, ch.value, format, d);
      MemberSplit(c, ch, format, d, text);
      ok, now := PrintName(StrAt(mem, mem[current].node.name), text);
      if !ok { return; }
      ok := PrintValue(c, mem, current, t, now);
      if !ok { return; }
      ok := EndMember(mem[current].node.next == NULL, now + r);
    }

    /** The comma and line feed behind a member. */
    method EndMember(last: bool, ghost text: bytes) returns (ok: bool)
      requires Done(text)
      modifies this, buffer
      ensures Valid() && Kept() && depth == old(depth)
      ensures ok ==> At(text + MemberEnd(format, last)) && Beyond(|text| + |MemberEnd(format, last)| + 1)
      ensures !ok ==> starved || |text| + |MemberEnd(format, last)| + 2 > Capacity()
    {
      hide MemberEnd;
      UpdateOffset(text);
      ok := AppendTerminated(MemberEnd(format, last), text);
    }

    /** The part of a member before its value. */
    method PrintName(key: CStr, ghost text: bytes) returns (ok: bool, ghost now: bytes)
      requires At(text)
      modifies this, buffer
      ensures Valid() && Kept() && depth == old(depth)
      ensures now == text + Indent(format, depth) + Quoted(key) + KeySeparator(format)
      ensures ok ==> At(now) && Beyond(|now| + 1)
      ensures !ok ==> starved || |now| + 1 > Capacity()
    {
      hide Quoted;
      now := text + Indent(format, depth) + Quoted(key) + KeySeparator(format);
      ghost var q := text + Indent(format, depth);
      if format {
        ok := Append(Tabs(depth), depth, text);
        if !ok { return; }
      } else {
        assert text + [] == text;
      }
      ok := PrintStringPtr(key, q);
      if !ok { return; }
      UpdateOffset(q + Quoted(key));
      ok := Append(KeySeparator(format), if format then 2 else 1, q + Quoted(key));
    }
  }

  lemma NullString(mem: Mem)
    ensures StrAt(mem, NULL) == Missing
  {
  }

  lemma StringThere(mem: Mem, p: Ptr)
    requires p != NULL && TextAt(mem, p)
    ensures StrAt(mem, p).Chars?
  {
    hide UpToNul;
  }

  /** The text of one member. */
  function MemberText(c: Codec, ch: Chain, fmt: bool, d: nat): bytes
    requires ch.Link?
  {
    Indent(fmt, d) + Quoted(ch.key) + KeySeparator(fmt) + Render(c, ch.value, fmt, d) + MemberEnd(fmt, ch.next.End?)
  }

  lemma MemberSplit(c: Codec, ch: Chain, fmt: bool, d: nat, text: bytes)
    requires ch.Link?
    ensures text + MemberText(c, ch, fmt, d)
         == text + Indent(fmt, d) + Quoted(ch.key) + KeySeparator(fmt) + Render(c, ch.value, fmt, d)
            + MemberEnd(fmt, ch.next.End?)
  {
    hide Render, Quoted, Indent, KeySeparator, MemberEnd;
  }

  lemma MembersFromMember(c: Codec, ch: Chain, fmt: bool, d: nat, before: bytes)
    requires ch.Link?
    ensures before + RenderMembers(c, ch, fmt, d)
         == before + MemberText(c, ch, fmt, d) + RenderMembers(c, ch.next, fmt, d)
    ensures PrintableChain(c, ch) == (Printable(c, ch.value) && PrintableChain(c, ch.next))
  {
    hide Render, Printable, Quoted, Indent, KeySeparator, MemberEnd;
  }

  lemma ObjectPrintable(c: Codec, child: Chain)
    ensures Printable(c, Object(child)) == PrintableChain(c, child)
  {
  }

  lemma ObjectEnds(fmt: bool, d: nat)
    ensures |ObjectOpen(fmt)| == (if fmt then 2 else 1)
    ensures |ObjectClose(fmt, d)| == if fmt then d + 1 else 1
  {
  }

  lemma ArrayText(c: Codec, child: Chain, fmt: bool, d: nat)
    ensures Render(c, Array(child), fmt, d) == [LBRACKET] + RenderItems(c, child, fmt, d + 1) + [RBRACKET]
    ensures Printable(c, Array(child)) == PrintableChain(c, child)
  {
    hide RenderItems;
  }

  lemma ElementText(c: Codec, ch: Chain, fmt: bool, d: nat, before: bytes)
    requires ch.Link?
    ensures before + RenderItems(c, ch, fmt, d)
         == before + Render(c, ch.value, fmt, d) + Separator(fmt, ch.next) + RenderItems(c, ch.next, fmt, d)
    ensures PrintableChain(c, ch) == (Printable(c, ch.value) && PrintableChain(c, ch.next))
  {
    hide Render, Printable;
  }

  lemma NoElements(c: Codec, fmt: bool, d: nat)
    ensures RenderItems(c, End, fmt, d) == [] && RenderMembers(c, End, fmt, d) == [] && PrintableChain(c, End)
  {
  }

  lemma EscapeNothing()
    ensures Escape([]) == []
  {
  }

  lemma {:induction false} EscapeAppend(a: bytes, b: bytes)
    ensures Escape(a + b) == Escape(a) + Escape(b)
    decreases |a|
  {
    hide EscapeByte;
    if a == [] {
      assert a + b == b;
    } else {
      assert (a + b)[1..] == a[1..] + b;
      EscapeAppend(a[1..], b);
      assert EscapeByte(a[0]) + (Escape(a[1..]) + Escape(b)) == Escape(a) + Escape(b);
    }
  }

  lemma EscapeSplit(s: cstring, i: nat)
    requires i < |s|
    ensures Escape(s[..i + 1]) == Escape(s[..i]) + EscapeByte(s[i])
    ensures |Escape(s[..i])| + |EscapeByte(s[i])| <= |Escape(s)|
  {
    hide EscapeByte;
    EscapeOne(s[i]);
    EscapeAppend(s[..i], [s[i]]);
    assert s[..i] + [s[i]] == s[..i + 1];
    EscapeAppend(s[..i + 1], s[i + 1..]);
    assert s[..i + 1] + s[i + 1..] == s;
  }

  lemma EscapeOne(c: uchar)
    ensures Escape([c]) == EscapeByte(c)
  {
    hide EscapeByte;
    assert [c][1..] == [];
    EscapeNothing();
  }

  lemma EscapeByteShort(c: uchar)
    ensures |EscapeByte(c)| == 1 ==> EscapeByte(c) == [c]
  {
  }

  /** Text that needs no escape characters is its own escaped form. */
  lemma {:induction false} EscapeShort(s: bytes)
    ensures |Escape(s)| >= |s|
    ensures |Escape(s)| == |s| ==> Escape(s) == s
    decreases |s|
  {
    hide EscapeByte;
    if s != [] {
      EscapeShort(s[1..]);
      EscapeByteShort(s[0]);
      assert [s[0]] + s[1..] == s;
    }
  }

  lemma Grouped(a: bytes, b: bytes, c: bytes, d: bytes)
    ensures a + b + c + d == a + (b + c + d)
  {
  }

  /** The first loop of `print_string_ptr`: how many bytes escaping adds. */
  method CountEscapes(s: cstring) returns (n: nat)
    ensures |s| + n == |Escape(s)|
  {
    hide Escape;
    n := 0;
    EscapeNothing();
    for i := 0 to |s|
      invariant i + n == |Escape(s[..i])|
    {
      EscapeSplit(s, i);
      var c := s[i];
      if c == QUOTE || c == BACKSLASH || c == 8 || c == 12 || c == LF || c == CR || c == TAB {
        n := n + 1;
      } else if c < 32 {
        n := n + 5;
      }
    }
    assert s[..|s|] == s;
  }

  // ----- the entry points -----

  /**
   * `print`, behind `cJSON_Print` and `cJSON_PrintUnformatted`: the text with its terminator, in a buffer of
   * exactly that size. It fails only for lack of memory, for an item that cannot be printed, or for a text
   * too long for an `int`. `left` counts the blocks allocated here that are still there in the end: the result,
   * or, when there is none, a block that is lost because `realloc` failed to shrink the complete text.
   */
  method Print(c: Codec, mem: Mem, item: Ptr, ghost t: Tree, format: bool, canRealloc: bool)
    returns (printed: array?<uchar>, ghost starved: bool, ghost left: nat)
    requires item != NULL ==> Readable(mem, t) && item == t.ptr
    ensures var text := Render(c, ValueOf(mem, t), format, 0);
            && (printed != null ==> fresh(printed) && item != NULL && Printable(c, ValueOf(mem, t)))
            && (printed != null ==> printed[..] == text + [0])
            && (printed == null ==> starved || item == NULL || !Printable(c, ValueOf(mem, t)) || |text| + 2 > INT_MAX)
            && (printed != null ==> left == 1)
            && (printed == null ==> left <= 1)
            && (printed == null && left == 1 ==>
                  canRealloc && starved && item != NULL && Printable(c, ValueOf(mem, t)) && |text| + 2 <= INT_MAX)
  {
    hide Render, Printable, Readable, ValueOf;
    if * { return null, true, 0; }
    var start := new uchar[256];
    var p := new PrintBuffer(start, false, format, canRealloc);
    var ok := p.PrintValue(c, mem, item, t, []);
    if !ok {
      p.Release();
      return null, p.starved, p.live;
    }
    ghost var text := Render(c, ValueOf(mem, t), format, 0);
    assert [] + text == text;
    p.UpdateOffset(text);
    printed := p.Shrink(text);
    starved, left := printed == null, if printed == null then p.live else p.live + 1;
  }

  /**
   * `cJSON_PrintBuffered`: the text with its terminator at the start of the buffer, whatever its first size. With
   * a first size of 0 and without `realloc`, and only then, the first growth reads a byte the buffer does not have.
   */
  method PrintBuffered(c: Codec, mem: Mem, item: Ptr, ghost t: Tree, prebuffer: int, format: bool, canRealloc: bool)
    returns (printed: array?<uchar>, ghost starved: bool, ghost left: nat, ghost overread: bool)
    requires item != NULL ==> Readable(mem, t) && item == t.ptr
    requires prebuffer <= INT_MAX
    ensures var text := Render(c, ValueOf(mem, t), format, 0);
            && (printed != null ==>
                  && fresh(printed) && item != NULL && Printable(c, ValueOf(mem, t)) && prebuffer >= 0
                  && |text| + 2 <= printed.Length && printed[..|text| + 1] == text + [0])
            && (printed == null ==>
                  || prebuffer < 0 || starved || item == NULL || !Printable(c, ValueOf(mem, t))
                  || |text| + 2 > INT_MAX)
            && left == (if printed != null then 1 else 0)
            && (overread ==> prebuffer == 0 && !canRealloc)
            && (printed != null && prebuffer == 0 && !canRealloc ==> overread)
  {
    hide Render, Printable, Readable, ValueOf;
    if prebuffer < 0 { return null, false, 0, false; }
    if * { return null, true, 0, false; }
    var start := new uchar[prebuffer];
    var p := new PrintBuffer(start, false, format, canRealloc);
    var ok := p.PrintValue(c, mem, item, t, []);
    if !ok {
      p.Release();
      return null, p.starved, p.live, p.overread;
    }
    ghost var text := Render(c, ValueOf(mem, t), format, 0);
    assert [] + text == text;
    printed, starved, left, overread := p.buffer, false, p.live, p.overread;
    assert printed[..|text|] == text;
  }

  /**
   * `cJSON_PrintPreallocated`. It succeeds exactly if the item can be printed and the buffer has two bytes
   * more than the text: one for the terminator and one that `ensure` always keeps in hand.
   */
  method PrintPreallocated(c: Codec, mem: Mem, item: Ptr, ghost t: Tree, buf: array?<uchar>, len: int, format: bool)
    returns (ok: bool)
    requires item != NULL ==> Readable(mem, t) && item == t.ptr
    requires buf != null && len >= 0 ==> buf.Length == len && len <= INT_MAX
    modifies buf
    ensures var text := Render(c, ValueOf(mem, t), format, 0);
            && (ok <==> buf != null && len >= 0 && item != NULL && Printable(c, ValueOf(mem, t)) && |text| + 2 <= len)
            && (ok ==> buf[..|text| + 1] == text + [0] && buf[|text| + 1..] == old(buf[|text| + 1..]))
  {
    hide Render, Printable, Readable, ValueOf;
    if len < 0 || buf == null { return false; }
    var p := new PrintBuffer(buf, true, format, true);
    ok := p.PrintValue(c, mem, item, t, []);
    ghost var text := Render(c, ValueOf(mem, t), format, 0);
    assert [] + text == text;
    if ok {
      assert buf[..|text|] == text;
    }
  }
}
