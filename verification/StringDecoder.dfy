/** The loops of `parse_string`: the scan for the closing quote and the decoding into an allocated block. */
module StringDecoder {
  import opened CText
  import opened Strings
  import opened StringProofs
  import opened CHeap
  import opened Ownership

  function Overwrite(d: bytes, i: nat, w: bytes): (r: bytes)
    requires i + |w| <= |d|
    ensures |r| == |d|
  {
    d[..i] + w + d[i + |w|..]
  }

  // ----- \u escapes -----

  /** `parse_hex4` */
  method ParseHex4(input: bytes, at: nat) returns (h: nat)
    requires at + 4 <= |input|
    ensures h == Hex4(input[at..at + 4])
  {
    ghost var d := input[at..at + 4];
    h := 0;
    var i := 0;
    while i < 4
      invariant 0 <= i <= 4
      invariant forall k :: 0 <= k < i ==> HexValue(d[k]) >= 0
      invariant h == (if i == 0 then 0
                      else if i == 1 then 16 * HexValue(d[0])
                      else if i == 2 then 256 * HexValue(d[0]) + 16 * HexValue(d[1])
                      else if i == 3 then 4096 * HexValue(d[0]) + 256 * HexValue(d[1]) + 16 * HexValue(d[2])
                      else Hex4(d))
    {
      var c := input[at + i];
      assert c == d[i];
      if 48 <= c <= 57 {
        h := h + (c - 48);
      } else if 65 <= c <= 70 {
        h := h + (10 + c - 65);
      } else if 97 <= c <= 102 {
        h := h + (10 + c - 97);
      } else {
        return 0;
      }
      if i < 3 {
        h := 16 * h;
      }
      i := i + 1;
    }
  }

  /** The code point after `k` bytes of it have been written. */
  function Shifted(cp: nat, k: nat): nat {
    if k == 0 then cp else Shifted(cp, k - 1) / 64
  }

  function FirstByteMark(length: nat): uchar {
    if length == 2 then 0xC0 else if length == 3 then 0xE0 else if length == 4 then 0xF0 else 0
  }

  lemma Shifts(cp: nat)
    ensures Shifted(cp, 0) == cp && Shifted(cp, 1) == cp / 64
    ensures Shifted(cp, 2) == cp / 4096 && Shifted(cp, 3) == cp / 262144
  {
    hide Shifted;
    ShiftNone(cp);
    ShiftMore(cp, 0);
    ShiftMore(cp, 1);
    ShiftMore(cp, 2);
  }

  /** The bytes in the order the encoding loop makes them: the last one first. */
  lemma Utf8Bytes(cp: nat, k: nat)
    requires cp < 0x11_0000 && k < |Utf8(cp)|
    ensures var n := |Utf8(cp)|;
            Utf8(cp)[k] == if k > 0 then 0x80 + Shifted(cp, n - 1 - k) % 64 else Shifted(cp, n - 1) + FirstByteMark(n)
  {
    hide Shifted;
    Shifts(cp);
  }

  method EncodeUtf8(codepoint: nat, heap: Heap, output: Ptr, at: nat) returns (length: nat)
    requires codepoint < 0x11_0000
    requires output in heap.mem && heap.mem[output].Text? && at + |Utf8(codepoint)| <= |heap.mem[output].data|
    modifies heap`mem
    ensures length == |Utf8(codepoint)|
    ensures heap.mem == old(heap.mem)[output := Text(Overwrite(old(heap.mem[output].data), at, Utf8(codepoint)))]
  {
    hide Utf8, Shifted, FirstByteMark, Overwrite;
    length := EncodedLength(codepoint);
    ghost var d := heap.mem[output].data;
    ghost var w := Utf8(codepoint);
    var rest := codepoint;
    var position := length - 1;
    ShiftNone(codepoint);
    OverwriteNone(d, at + length);
    assert w[length..] == [];
    while position > 0
      invariant 0 <= position < length == |w| && rest == Shifted(codepoint, length - 1 - position)
      invariant output in heap.mem && heap.mem[output].Text? && |heap.mem[output].data| == |d|
      invariant heap.mem == old(heap.mem)[output := heap.mem[output]]
      invariant heap.mem[output].data == Overwrite(d, at + position + 1, w[position + 1..])
    {
      Utf8Bytes(codepoint, position);
      heap.Put(output, at + position, 0x80 + rest % 64);
      OverwriteBefore(d, at + position, w[position..]);
      ShiftMore(codepoint, length - 1 - position);
      rest := rest / 64;
      position := position - 1;
    }
    Utf8Bytes(codepoint, 0);
    heap.Put(output, at, if length > 1 then rest + FirstByteMark(length) else rest);
    assert length == 1 ==> FirstByteMark(length) == 0 by { MarkOfOne(); }
    OverwriteBefore(d, at, w);
    assert w[0..] == w;
  }

  method EncodedLength(codepoint: nat) returns (length: nat)
    requires codepoint < 0x11_0000
    ensures length == |Utf8(codepoint)|
  {
    if codepoint < 0x80 {
      length := 1;
    } else if codepoint < 0x800 {
      length := 2;
    } else if codepoint < 0x1_0000 {
      length := 3;
    } else {
      length := 4;
    }
  }

  lemma ShiftNone(cp: nat)
    ensures Shifted(cp, 0) == cp
  {
  }

  lemma ShiftMore(cp: nat, k: nat)
    ensures Shifted(cp, k + 1) == Shifted(cp, k) / 64
  {
  }

  lemma MarkOfOne()
    ensures FirstByteMark(1) == 0
  {
  }

  lemma OverwriteNone(d: bytes, i: nat)
    requires i <= |d|
    ensures Overwrite(d, i, []) == d
  {
  }

  lemma OverwriteBefore(d: bytes, i: nat, w: bytes)
    requires w != [] && i + |w| <= |d|
    ensures Overwrite(d, i + 1, w[1..])[i := w[0]] == Overwrite(d, i, w)
  {
  }

  /** `utf16_literal_to_utf8`: the number of bytes read, 0 for failure, and the new output position. */
  method Utf16LiteralToUtf8(content: bytes, inputPointer: nat, inputEnd: nat, heap: Heap, output: Ptr,
                            outputPointer: nat)
    returns (sequenceLength: nat, next: nat)
    requires inputPointer <= inputEnd < |content|
    requires output in heap.mem && heap.mem[output].Text?
    requires outputPointer + |Utf16(content[inputPointer..], inputEnd - inputPointer).out| <= |heap.mem[output].data|
    modifies heap`mem
    ensures var l := Utf16(content[inputPointer..], inputEnd - inputPointer);
            && sequenceLength == l.len && next == outputPointer + |l.out|
            && heap.mem == old(heap.mem)[output := Text(Overwrite(old(heap.mem[output].data), outputPointer, l.out))]
  {
    hide Hex4, Utf8;
    ghost var v := content[inputPointer..];
    var codepoint;
    sequenceLength, codepoint := ReadLiteral(content, inputPointer, inputEnd);
    if sequenceLength == 0 {
      assert Overwrite(heap.mem[output].data, outputPointer, []) == heap.mem[output].data;
      assert heap.mem == heap.mem[output := heap.mem[output]];
      return 0, outputPointer;
    }
    var length := EncodeUtf8(codepoint, heap, output, outputPointer);
    next := outputPointer + length;
  }

  /** The code point of a literal. */
  method ReadLiteral(content: bytes, inputPointer: nat, inputEnd: nat) returns (sequenceLength: nat, codepoint: nat)
    requires inputPointer <= inputEnd < |content|
    ensures codepoint < 0x11_0000
    ensures Utf16(content[inputPointer..], inputEnd - inputPointer)
         == if sequenceLength == 0 then Literal(0, []) else Literal(sequenceLength, Utf8(codepoint))
  {
    hide Hex4, Utf8;
    ghost var v := content[inputPointer..];
    sequenceLength, codepoint := 0, 0;
    if inputEnd - inputPointer < 6 {
      return;
    }
    assert content[inputPointer + 2..inputPointer + 6] == v[2..6];
    var firstCode := ParseHex4(content, inputPointer + 2);
    if 0xDC00 <= firstCode <= 0xDFFF {
      return;
    }
    if 0xD800 <= firstCode <= 0xDBFF {
      var second := inputPointer + 6;
      if inputEnd - second < 6 {
        return;
      }
      if content[second] != BACKSLASH || content[second + 1] != LOWER_U {
        return;
      }
      assert content[second + 2..second + 6] == v[8..12];
      var secondCode := ParseHex4(content, second + 2);
      if secondCode < 0xDC00 || secondCode > 0xDFFF {
        return;
      }
      sequenceLength := 12;
      codepoint := 0x1_0000 + (firstCode % 0x400 * 0x400 + secondCode % 0x400);
    } else {
      sequenceLength := 6;
      codepoint := firstCode;
    }
  }

  // ----- the scan -----

  /** The scan has reached `i`, and `skipped` pairs have begun before it. */
  ghost predicate Scanned(content: bytes, start: nat, i: nat, skipped: nat) {
    && start <= i <= |content|
    && var f := ScanQuote(content[start..]);
       && f == (match ScanQuote(content[i..]) case NotFound => NotFound case At(n) => At(n + (i - start)))
       && (f.At? ==> Begun(content[start..], f.n, false) == skipped + Begun(content[i..], f.n - (i - start), false))
  }

  lemma ScanStart(content: bytes, start: nat)
    requires start <= |content|
    ensures Scanned(content, start, start, 0)
  {
    hide ScanQuote, Begun;
  }

  lemma ScanPlain(content: bytes, start: nat, i: nat, skipped: nat)
    requires Scanned(content, start, i, skipped) && i < |content| && content[i] != BACKSLASH && content[i] != QUOTE
    ensures Scanned(content, start, i + 1, skipped)
  {
    Tails(content, i, 1);
    ScanOne(content[i..]);
    hide ScanQuote, Begun;
  }

  lemma ScanOne(v: bytes)
    requires v != [] && v[0] != BACKSLASH && v[0] != QUOTE
    ensures ScanQuote(v) == match ScanQuote(v[1..]) case NotFound => NotFound case At(n) => At(n + 1)
    ensures forall n :: 1 <= n <= |v| ==> Begun(v, n, false) == Begun(v[1..], n - 1, false)
  {
  }

  lemma ScanTwo(v: bytes)
    requires |v| >= 2 && v[0] == BACKSLASH
    ensures ScanQuote(v) == match ScanQuote(v[2..]) case NotFound => NotFound case At(n) => At(n + 2)
    ensures forall n :: 2 <= n <= |v| ==> Begun(v, n, false) == 1 + Begun(v[2..], n - 2, false)
  {
    Tails(v, 1, 1);
  }

  lemma ScanPair(content: bytes, start: nat, i: nat, skipped: nat)
    requires Scanned(content, start, i, skipped) && i + 1 < |content| && content[i] == BACKSLASH
    ensures Scanned(content, start, i + 2, skipped + 1)
  {
    Tails(content, i, 2);
    ScanTwo(content[i..]);
    hide ScanQuote, Begun;
  }

  /** The scan ends at a quote, at the end of the text, or at a backslash just before the end. */
  lemma ScanStops(content: bytes, start: nat, i: nat, skipped: nat)
    requires Scanned(content, start, i, skipped)
    ensures i < |content| && content[i] == QUOTE ==>
              ScanQuote(content[start..]) == At(i - start) && skipped == Begun(content[start..], i - start, false)
    ensures i == |content| || (i + 1 == |content| && content[i] == BACKSLASH) ==> ScanQuote(content[start..]).NotFound?
  {
  }

  /** Where the closing quote is, and how many escape pairs begin before it. */
  method ScanLiteral(content: bytes, start: nat) returns (closed: bool, inputEnd: nat, skippedBytes: nat)
    requires start <= |content|
    ensures !closed ==> ScanQuote(content[start..]).NotFound?
    ensures closed ==> start <= inputEnd < |content| && ScanQuote(content[start..]) == At(inputEnd - start)
    ensures closed ==> skippedBytes == Begun(content[start..], inputEnd - start, false)
  {
    hide Scanned, ScanQuote, Begun;
    inputEnd, skippedBytes := start, 0;
    ScanStart(content, start);
    while inputEnd < |content| && content[inputEnd] != QUOTE
      invariant start <= inputEnd <= |content| && Scanned(content, start, inputEnd, skippedBytes)
      decreases |content| - inputEnd
    {
      if content[inputEnd] == BACKSLASH {
        if inputEnd + 1 >= |content| {
          ScanStops(content, start, inputEnd, skippedBytes);
          return false, inputEnd, skippedBytes;
        }
        ScanPair(content, start, inputEnd, skippedBytes);
        skippedBytes := skippedBytes + 1;
        inputEnd := inputEnd + 1;
      } else {
        ScanPlain(content, start, inputEnd, skippedBytes);
      }
      inputEnd := inputEnd + 1;
    }
    ScanStops(content, start, inputEnd, skippedBytes);
    closed := inputEnd < |content|;
  }

  // ----- decoding -----

  /** The `switch` on the byte after a backslash: how much input was used, 0 for failure. */
  method DecodeEscape(content: bytes, inputPointer: nat, inputEnd: nat, heap: Heap, output: Ptr, outputPointer: nat)
    returns (sequenceLength: nat, next: nat)
    requires inputPointer < inputEnd < |content|
    requires output in heap.mem && heap.mem[output].Text?
    requires outputPointer + |StepFrom(content, inputPointer, inputEnd).out| <= |heap.mem[output].data|
    modifies heap`mem
    ensures var l := StepFrom(content, inputPointer, inputEnd);
            && sequenceLength == l.len && next == outputPointer + |l.out|
            && heap.mem == old(heap.mem)[output := Text(Overwrite(old(heap.mem[output].data), outputPointer, l.out))]
  {
    hide Utf16;
    ghost var v := content[inputPointer..];
    ghost var d := heap.mem[output].data;
    var c := content[inputPointer + 1];
    assert c == v[1];
    if c == LOWER_U {
      sequenceLength, next := Utf16LiteralToUtf8(content, inputPointer, inputEnd, heap, output, outputPointer);
      return;
    }
    var e: uchar := 0;
    if c == 98 { e := 8; }
    else if c == 102 { e := 12; }
    else if c == 110 { e := LF; }
    else if c == 114 { e := CR; }
    else if c == 116 { e := TAB; }
    else if c == QUOTE || c == BACKSLASH || c == SLASH { e := c; }
    else {
      assert Overwrite(d, outputPointer, []) == d;
      assert heap.mem == heap.mem[output := heap.mem[output]];
      return 0, outputPointer;
    }
    assert d[outputPointer := e] == Overwrite(d, outputPointer, [e]);
    heap.Put(output, outputPointer, e);
    sequenceLength, next := 2, outputPointer + 1;
  }

  lemma OverwriteMore(d: bytes, a: bytes, b: bytes)
    requires |a| + |b| <= |d|
    ensures Overwrite(Overwrite(d, 0, a), |a|, b) == Overwrite(d, 0, a + b)
  {
  }

  /** The block `output` of `was` now starts with the bytes written. */
  ghost predicate Output(was: Mem, mem: Mem, output: Ptr, written: bytes) {
    && output in was && was[output].Text? && |written| <= |was[output].data|
    && mem == was[output := Text(Overwrite(was[output].data, 0, written))]
  }

  lemma OutputMore(was: Mem, mem: Mem, output: Ptr, written: bytes, more: bytes)
    requires Output(was, mem, output, written) && |written| + |more| <= |was[output].data|
    ensures output in mem && mem[output].Text? && |mem[output].data| == |was[output].data|
    ensures Output(was, mem[output := Text(Overwrite(mem[output].data, |written|, more))], output, written + more)
  {
    OverwriteMore(was[output].data, written, more);
  }

  /** Decoding from position `i` of the text, the closing quote being at `e`. */
  ghost function DecodeFrom(content: bytes, i: nat, e: nat): (d: Decoding)
    requires i <= e + 1 && e < |content| && content[e] == QUOTE
    ensures |d.rest| <= |content| - i
  {
    Decode(content[i..], e - i)
  }

  ghost function StepFrom(content: bytes, i: nat, e: nat): (l: Literal)
    requires i < e < |content|
    ensures i + l.len <= e + 1
  {
    EscapeStep(content[i..], e - i)
  }

  lemma DecodePlainFrom(content: bytes, i: nat, e: nat)
    requires i < e < |content| && content[e] == QUOTE && content[i] != BACKSLASH
    ensures DecodeFrom(content, i, e) == Behind([content[i]], DecodeFrom(content, i + 1, e))
  {
    Tails(content, i, 1);
  }

  lemma DecodeEscapeFrom(content: bytes, i: nat, e: nat)
    requires i < e < |content| && content[e] == QUOTE && content[i] == BACKSLASH
    ensures var l := StepFrom(content, i, e);
            DecodeFrom(content, i, e)
            == if l.len == 0 then Decoding([], content[i..], false)
               else Behind(l.out, DecodeFrom(content, i + l.len, e))
    ensures StepFrom(content, i, e).len == 0 ==> StepFrom(content, i, e).out == []
  {
    hide EscapeStep, Behind, Decode;
    DecodeUnfolds(content[i..], e - i);
    Tails(content, i, StepFrom(content, i, e).len);
  }

  lemma DecodeDone(content: bytes, i: nat, e: nat)
    requires e <= i <= e + 1 && e < |content| && content[e] == QUOTE
    ensures DecodeFrom(content, i, e) == Decoding([], content[i..], true)
  {
  }

  /** One round of the decoding loop; `written` is what has been put out so far. */
  method DecodeRound(content: bytes, inputPointer: nat, inputEnd: nat, heap: Heap, output: Ptr,
                     ghost was: Mem, ghost written: bytes, outputPointer: nat)
    returns (ok: bool, nextInput: nat, nextOutput: nat, ghost more: bytes)
    requires inputPointer < inputEnd < |content| && content[inputEnd] == QUOTE
    requires outputPointer == |written| && Output(was, heap.mem, output, written)
    requires |written| + |DecodeFrom(content, inputPointer, inputEnd).out| <= |was[output].data|
    modifies heap`mem
    ensures Output(was, heap.mem, output, written + more) && nextOutput == |written + more|
    ensures inputPointer <= nextInput <= inputEnd + 1 && (ok ==> inputPointer < nextInput)
    ensures DecodeFrom(content, inputPointer, inputEnd)
         == if ok then Behind(more, DecodeFrom(content, nextInput, inputEnd))
            else Decoding(more, content[nextInput..], false)
  {
    hide DecodeFrom, StepFrom, EscapeStep, Overwrite, Output;
    if content[inputPointer] != BACKSLASH {
      DecodePlainFrom(content, inputPointer, inputEnd);
      more := [content[inputPointer]];
      OutputMore(was, heap.mem, output, written, more);
      OverwriteOne(heap.mem[output].data, outputPointer, content[inputPointer]);
      heap.Put(output, outputPointer, content[inputPointer]);
      return true, inputPointer + 1, outputPointer + 1, more;
    }
    DecodeEscapeFrom(content, inputPointer, inputEnd);
    more := StepFrom(content, inputPointer, inputEnd).out;
    OutputMore(was, heap.mem, output, written, more);
    var sequenceLength;
    sequenceLength, nextOutput := DecodeEscape(content, inputPointer, inputEnd, heap, output, outputPointer);
    nextInput := inputPointer + sequenceLength;
    ok := sequenceLength != 0;
  }

  lemma OverwriteOne(d: bytes, i: nat, c: uchar)
    requires i < |d|
    ensures Overwrite(d, i, [c]) == d[i := c]
  {
  }

  /** The decoding loop: it writes what Decode says, from the start of the block, and stops where Decode stops. */
  method DecodeLiteral(content: bytes, start: nat, inputEnd: nat, heap: Heap, output: Ptr)
    returns (ok: bool, inputPointer: nat, outputPointer: nat)
    requires start <= inputEnd < |content| && content[inputEnd] == QUOTE
    requires output in heap.mem && heap.mem[output].Text?
    requires |DecodeFrom(content, start, inputEnd).out| <= |heap.mem[output].data|
    modifies heap`mem
    ensures var d := DecodeFrom(content, start, inputEnd);
            && ok == d.ok && outputPointer == |d.out| && inputPointer == |content| - |d.rest|
            && Output(old(heap.mem), heap.mem, output, d.out)
  {
    hide DecodeFrom, Output, Overwrite;
    ghost var was := heap.mem;
    ghost var d := DecodeFrom(content, start, inputEnd);
    ghost var written: bytes := [];
    ok, inputPointer, outputPointer := true, start, 0;
    OutputNothing(was, output);
    assert [] + d.out == d.out;
    while inputPointer < inputEnd
      invariant start <= inputPointer <= inputEnd + 1 && ok
      invariant outputPointer == |written| && Output(was, heap.mem, output, written)
      invariant d == Behind(written, DecodeFrom(content, inputPointer, inputEnd))
      decreases inputEnd + 1 - inputPointer
    {
      ghost var now, before, more := DecodeFrom(content, inputPointer, inputEnd), written, [];
      ok, inputPointer, outputPointer, more :=
        DecodeRound(content, inputPointer, inputEnd, heap, output, was, written, outputPointer);
      written := written + more;
      if !ok {
        return;
      }
      BehindTwice(before, more, DecodeFrom(content, inputPointer, inputEnd));
    }
    DecodeDone(content, inputPointer, inputEnd);
    assert written + [] == written;
  }

  lemma BehindTwice(a: bytes, b: bytes, d: Decoding)
    ensures Behind(a, Behind(b, d)) == Behind(a + b, d)
  {
    assert a + (b + d.out) == (a + b) + d.out;
  }

  lemma OutputNothing(mem: Mem, output: Ptr)
    requires output in mem && mem[output].Text?
    ensures Output(mem, mem, output, [])
  {
    assert Overwrite(mem[output].data, 0, []) == mem[output].data;
    assert mem == mem[output := mem[output]];
  }
}
