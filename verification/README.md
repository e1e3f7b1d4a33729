# Verified model of the cJSON, SM3 and SM4 code of the archive client

A Dafny model of three components of `SecProGIS-LibClient/Archive`, with machine-checked proofs:

- **cJSON 1.7.3** (`cJSON.c`): parser, printer, minifier, comparison, deep copy, deletion and the editing of
  sibling lists;
- **SM3 and HMAC** (`sm3.cpp`): the streaming hash, against the one-shot definitions of GM/T 0004-2012 and RFC 2104;
- **SM4** (`sm4.cpp`), ECB, ECB with copied tail and CBC, and the part of `ArchiveDlg.cpp` that seals a file with it.

`dafny verify dfyconfig.toml` checks everything.

## How the code is modelled

**Text.** Bytes of JSON text are integers from 0 to 255; a C string is a NUL-free sequence, and a buffer handed to the
parser or minifier ends with its only NUL. What the parser computes is first written as a function on the text left
(`Parser`), what the printer puts out as a function on values (`Json`), what the minifier leaves as `Minify.Min`. The
lemmas about round trips, minifying and comparison are about those functions. What they have to agree with is written
down independently of them, in byte numbers: the grammar of RFC 8259 by its derivation trees (`Grammar`), formatted
printing as a layout of compact text (`Layout`), what minifying drops as pieces of text (`MinifyPieces`), and the way
characters are spelled (`Spelling`).

**Running code.** The imperative code is then proved against them: the parser with its offset and depth
(`HeapParser`, `StringDecoder`), the printer with its growing buffer (`Printer`), the minifier in its array
(`MinifyInPlace`), the hash context and cipher context as classes (`Sm3Stream`, `Sm4`).

**The C heap.** Leaks, double frees and dangling pointers cannot be expressed with objects that are never freed, so
cJSON's nodes live in an explicit heap: a map from addresses to blocks, a block being an item struct or the bytes of a
string (`CHeap`, `Ownership`). Freeing removes the block; touching a block that is not there cannot be written. A
ghost tree says which blocks an item owns, or, for printing, copying and comparing, only which items a walk along
`child` and `next` meets; "the heap is as it was" is plain equality of maps. An allocation may fail at any point; the
ghost flag `starved` records that one has.

**Numbers.** A double is NaN, an infinity or the 64-bit pattern of a finite number. `sprintf` with 15 and with 17
digits and `strtod` are arbitrary functions that meet a contract (`Doubles.Codec.Valid`): both texts are 1 to 25 bytes
of `[0-9+-eE.]` that start with a digit or `-` and are read to their end, 17 digits determine the number, and the sign
of a zero survives. Which of the two is printed is modelled as the code has it. For texts of the grammar `strtod` is
asked in addition to read every number of RFC 8259 to its end (`Grammar.ReadsNumerals`). That the contract can be met
is proved by an example (`Acceptance.ReaderIsValid`). Which number a pattern stands for, and how numbers compare, is
that of IEEE 754 (`Binary64`).

**Words and tables.** The constants of SM3 and SM4 are pinned by what the standards say of them: the S-box by its
algebra, the key constants by their counting (`Sm4Tables`), everything else by the examples in the appendices of the
standards, computed through in lemmas (`Sm3Example`, `Sm4Example`). Hash and cipher words are 32-bit vectors. `ROTL(T,
j)` with j of 32 and more, and with j = 0, shifts by the word width, which C leaves undefined; it is read as rotation
by j mod 32, as section 5.3.3 of GM/T 0004-2012 has it.

## What the code does otherwise than its documentation or its names suggest

- `cJSON.h` asks for five bytes more than the text in `cJSON_PrintPreallocated`; two are needed and two are enough.
- Whitespace for the parser is any byte up to 32, not the four of RFC 8259; the minifier drops only those four.
- `parse_hex4` gives 0 for digits that are none, so a `\u` literal with malformed digits can be accepted, and ends the
  string. Exactly: it decodes to a NUL byte if and only if its six bytes come before the closing quote and its four
  digits are zeros or not all hex digits. One that is cut short by the quote, and one whose digits call for a second
  literal with malformed digits, is refused.
- `sm4_setkey_dec` sets the mode to encryption; the ECB functions never look at the mode.
- Sealing an empty file does not finish: the output is then 12 bytes long and `CipherLen` is -32. Nor does it when the
  payload has a length that is negative as an `int`; `OnEncryptFile` throws on such a file already at
  `new BYTE[PlainLen]`, before it creates the output. From 4 GB on the digest covers the head of the payload only.
- For `cJSON_Minify` the three bytes slash, star, slash are a whole comment.
- `cJSON_Minify` reads on behind its buffer exactly if a comment or string in the text is not closed.
- Minifying twice is not minifying once in general. It is exactly if no slash outside comments and strings comes to
  stand before a slash or a star once what lies between them is dropped; for texts that the parser accepts it always is.
- `cJSON_Compare` may find an item different from its own copy: exactly if there is a NaN, a NULL string, an unset type,
  an unnamed member, or an object with two different values under one name. One and the same node it finds equal to
  itself even then, so two items that share such a node can be found equal although their values are not.
- Not every text of the grammar of RFC 8259 is accepted: numbers of more than 63 bytes, unpaired surrogates and nesting
  beyond 1000 are refused, and exactly these.
- `print` loses its work buffer when the `realloc` that is to shrink it fails.

## Model

| member | source | states |
|---|---|---|
| `Sm3Stream.ExpandMessage` | SecProGIS-LibClient/Archive/sm3.cpp:57-120 | The loops that fill `W` and `W1` compute the message expansion of section 5.3.2 of GM/T 0004-2012, given by an independent recursive definition |
| `Sm3Stream.MixRegisters` | SecProGIS-LibClient/Archive/sm3.cpp:132-181 | The 64 rounds over eight registers are the rounds of section 5.3.3, with the constant rotated by j mod 32 |
| `Sm3Stream.Process` | SecProGIS-LibClient/Archive/sm3.cpp:41-195 | `sm3_process` replaces the state by the compression function of the state and the block |
| `Sm3Stream.CounterStep` | SecProGIS-LibClient/Archive/sm3.cpp:205-208 | Adding a length to `total[0]` with the carry test `total[0] < ilen` adds it to the two-word number modulo 2^64 |
| `Sm3Stream.LengthWordsAreBits` | SecProGIS-LibClient/Archive/sm3.cpp:243-247 | The two words that `sm3_finish` shifts together are the bit length modulo 2^64, also when the byte count overflows its low word |
| `Sm3Stream.PaddingBytes` | SecProGIS-LibClient/Archive/sm3.cpp:230-251 | What `sm3_finish` feeds in after the message is exactly the padding of section 5.2, for every message length |
| `Sm3Stream.Sm3Context.Starts` | SecProGIS-LibClient/Archive/sm3.cpp:27-39 | After `sm3_starts` nothing has been taken in and the context is valid: counter, state and buffer agree with the empty message |
| `Sm3Stream.Sm3Context.Update` | SecProGIS-LibClient/Archive/sm3.cpp:197-228 | For every cut of the input: the context stays valid (two-word counter is the byte count modulo 2^64, state is the fold over the whole blocks, buffer holds exactly the tail) for the message taken in so far followed by the new bytes; a length of zero or less changes nothing |
| `Sm3Stream.Sm3Context.Finish` | SecProGIS-LibClient/Archive/sm3.cpp:238-260 | The digest is SM3 of everything taken in, however it was cut |
| `Sm3Stream.HashMessage` | SecProGIS-LibClient/Archive/sm3.cpp:262-270 | `sm3` is the one-shot specification |
| `Sm3Example.HashOfAbc` | SecProGIS-LibClient/Archive/sm3.cpp:27-270 | The hash of the three bytes `abc` is the digest of appendix A.1 of GM/T 0004-2012, byte by byte: initial value, constants, boolean functions, permutations, rotations, expansion, padding and output are those of the standard |
| `Sm3Stream.HashFile` | SecProGIS-LibClient/Archive/sm3.cpp:272-292 | Returns 1 for a file that does not open, 2 when reading failed, with the digest of what was read before, and otherwise 0 with the digest of the whole content, read in pieces of 1024 bytes |
| `Blocks.FoldAppend` | SecProGIS-LibClient/Archive/sm3.cpp:218-223 | Folding the compression over a concatenation of whole blocks is folding over the second part from where the first ended |
| `Sm3Stream.Sm3Context.HmacStarts` | SecProGIS-LibClient/Archive/sm3.cpp:294-314 | Keys of any length: longer ones are hashed first; both pads hold the key block of section 2 of RFC 2104 mixed with 0x36 and 0x5C |
| `Sm3Stream.Sm3Context.HmacUpdate` | SecProGIS-LibClient/Archive/sm3.cpp:316-319 | The text so far grows by the new bytes |
| `Sm3Stream.Sm3Context.HmacFinish` | SecProGIS-LibClient/Archive/sm3.cpp:321-332 | The result is H((K xor opad), H((K xor ipad), text)), the comma standing for concatenation, for the text as it arrived in pieces |
| `Sm3Stream.HmacMessage` | SecProGIS-LibClient/Archive/sm3.cpp:334-341 | `sm3_hmac` is that function of key and text |
| `Feistel.RunUndone` | SecProGIS-LibClient/Archive/sm4.cpp:230-254 | For any number of rounds, any round keys and any mixing function, running the network with the keys reversed on the flipped output gives the flipped input back |
| `Feistel.CryptUndone` | SecProGIS-LibClient/Archive/sm4.cpp:230-254 | The same with the final word reversal included: the reversed keys undo the network |
| `Feistel.RunInjective` | SecProGIS-LibClient/Archive/sm4.cpp:230-254 | Two inputs with the same output of the rounds are equal |
| `Feistel.TraceInjective` | SecProGIS-LibClient/Archive/sm4.cpp:204-224 | Any four neighbouring words of a schedule of any length determine its start, whatever the mixing function |
| `Sm4Spec.LoadStored` | SecProGIS-LibClient/Archive/sm4.cpp:238-253 | Storing four words in byte order and loading them gives the words back |
| `Sm4Spec.StoreLoaded` | SecProGIS-LibClient/Archive/sm4.cpp:238-253 | Loading sixteen bytes and storing them gives the bytes back |
| `Sm4Spec.BlockUndone` | SecProGIS-LibClient/Archive/sm4.cpp:230-254 | For any round keys, the block function with the reversed keys inverts the block function on every block (section 7.2 of GM/T 0002-2012) |
| `Sm4Spec.FourWordsDetermineKey` | SecProGIS-LibClient/Archive/sm4.cpp:204-224 | Any four consecutive words of the 36-word schedule determine the key |
| `Sm4Spec.RoundKeysInjective` | SecProGIS-LibClient/Archive/sm4.cpp:204-224 | Two keys with the same 32 round keys are equal |
| `Sm4Tables.SboxInverts` | SecProGIS-LibClient/Archive/sm4.cpp:96-143 | For every byte, without naming an entry of the table: the S-box is an affine map, inversion in the field of 256 elements modulo X^8 + X^7 + X^6 + X^5 + X^4 + X^2 + 1, and the same affine map, where inversion means that the product is 1, or 0 going to 0 |
| `Sm4Tables.ConstantsCount` | SecProGIS-LibClient/Archive/sm4.cpp:120-130 | Byte j of the key constant i is 7 (4 i + j) modulo 256, for all 32 constants |
| `Sm4Example.BlockEncrypted` | SecProGIS-LibClient/Archive/sm4.cpp:96-254 | Key and block 0123456789abcdeffedcba9876543210 give 681edf34d206965e86b3e94f536e4246, as in appendix A.1 of GM/T 0002-2012: the system parameter, the rotations and the order of everything are those of the standard |
| `Sm4.SetKey` | SecProGIS-LibClient/Archive/sm4.cpp:204-224 | The loop leaves the 32 round keys of the specification's key expansion in `SK` |
| `Sm4.KeyLoop` | SecProGIS-LibClient/Archive/sm4.cpp:218-222 | The loop over 32 constants fills `k` and `SK` as the recursively defined schedule says, for any constants |
| `Sm4.OneRound` | SecProGIS-LibClient/Archive/sm4.cpp:230-254 | `sm4_one_round` writes the block function of the input block and nothing else, also when input and output are the same bytes |
| `Sm4.Sm4Context.SetKeyEnc` | SecProGIS-LibClient/Archive/sm4.cpp:259-263 | The context holds the round keys; the mode is encryption |
| `Sm4.Sm4Context.SetKeyDec` | SecProGIS-LibClient/Archive/sm4.cpp:268-277 | Swapping in place leaves exactly the reverse of what `sm4_setkey_enc` leaves; the mode field is set to encryption here as well |
| `Sm4.Sm4Context.CryptEcb` | SecProGIS-LibClient/Archive/sm4.cpp:292-306 | The loop writes the block-wise encryption of the input as it was, a last partial block being taken in full; also in place, and for overlapping windows of one array as long as the output is not ahead; no other byte changes |
| `Sm4.Sm4Context.CryptEcb16` | SecProGIS-LibClient/Archive/sm4.cpp:279-286 | Whole blocks are encrypted, the tail of fewer than 16 bytes is copied |
| `Sm4.Sm4Context.CryptCbc` | SecProGIS-LibClient/Archive/sm4.cpp:311-353 | Both directions are CBC of section 6.2 of NIST SP 800-38A, also in place and for overlapping windows with the output not ahead; `iv` is left as the last cipher block |
| `Sm4Modes.EcbUndone` | SecProGIS-LibClient/Archive/sm4.cpp:292-306 | ECB with the reversed keys gives the message back |
| `Sm4Modes.EcbTailUndone` | SecProGIS-LibClient/Archive/sm4.cpp:279-286 | Decryption of a message of any length with the reversed keys restores every byte, the copied tail included |
| `Sm4Modes.EcbTailAppend` | SecProGIS-LibClient/Archive/sm4.cpp:279-286 | Cutting at a block boundary and treating the parts separately gives the same bytes as one call |
| `Sm4Modes.CbcBlockAt` | SecProGIS-LibClient/Archive/sm4.cpp:311-353 | Every block of CBC encryption is the block function of the message block mixed with the cipher block before it, and with the initial vector for the first: the defining equations of NIST SP 800-38A |
| `Sm4Modes.CbcUndone` | SecProGIS-LibClient/Archive/sm4.cpp:311-353 | CBC decryption undoes CBC encryption for all round keys, initial vectors and whole-block messages |
| `Sm4Modes.CbcEncryptAppend` | SecProGIS-LibClient/Archive/sm4.cpp:311-353 | Two calls, the second with the `iv` the first left, encrypt as one call does |
| `Sm4Modes.CbcDecryptAppend` | SecProGIS-LibClient/Archive/sm4.cpp:311-353 | The same for decryption |
| `Archive.OverwritePast` | SecProGIS-LibClient/Archive/ArchiveDlg.cpp:463-486 | The first write after the seek over the digest leaves everything before it in place and zeros in the gap |
| `Archive.BackPatch` | SecProGIS-LibClient/Archive/ArchiveDlg.cpp:523-524 | Writing the digest at offset 12 fills the gap left for it and changes neither the head nor the payload |
| `Archive.EncryptChunks` | SecProGIS-LibClient/Archive/ArchiveDlg.cpp:469-504 | The loop over chunks of 102400 bytes produces, after any number of chunks, what one `sm_crypt_ecb_16` call over everything read so far would |
| `Archive.SealFile` | SecProGIS-LibClient/Archive/ArchiveDlg.cpp:460-526 | It runs to the end exactly when the plain file is not empty and its length is not negative as an `int`; what is in the output file in every case, the payload being that of one call over the whole file and the digest that of the part of the payload `CipherLen` covers |
| `Archive.SealedBelow2GB` | SecProGIS-LibClient/Archive/ArchiveDlg.cpp:506-526 | From 1 byte up to 2^31 - 1 the finished file is flag, deadline, SM3 of the payload and payload at offsets 0, 4, 12 and 44 |
| `Archive.UnsealPayload` | SecProGIS-LibClient/Archive/ArchiveDlg.cpp:648-651 | Decrypting the payload of a sealed file in one call with the reversed keys gives the plain file, and the stored digest is that of the payload |
| `Strings.Utf8Faithful` | SecProGIS-LibClient/Archive/cJSON.c:639-688 | For every code point the bytes written have its number, as section 3 of RFC 3629 computes it, and are well formed by the syntax of its section 4 exactly if it is no surrogate |
| `Strings.Utf16WellFormed` | SecProGIS-LibClient/Archive/cJSON.c:576-694 | For every input: a `\u` literal decodes to nothing or to one well formed character, the one the four digits or the surrogate pair name |
| `Strings.Utf16Nul` | SecProGIS-LibClient/Archive/cJSON.c:539-694 | A `\u` literal decodes to a NUL byte if and only if it has six bytes in front of the closing quote and its digits give 0, which malformed ones do |
| `StringProofs.ReadWhole` | SecProGIS-LibClient/Archive/cJSON.c:697-809 | For every literal accepted: the string the caller sees is all that was decoded if and only if no `\u` literal met on the way gives 0 |
| `StringProofs.MalformedAccepted` | SecProGIS-LibClient/Archive/cJSON.c:539-572 | Four bytes that are not all hex digits behind `\u`, alone in a literal: accepted, as the empty string |
| `StringProofs.ShortRefused` | SecProGIS-LibClient/Archive/cJSON.c:585-590 | Fewer than four bytes there: refused at the backslash |
| `StringProofs.ParseQuoted` | SecProGIS-LibClient/Archive/cJSON.c:697-944 | For every NUL-free string: reading the printed literal returns its bytes and stops just after the closing quote, whatever follows (escapes of section 7 of RFC 8259) |
| `StringProofs.DecodeFits` | SecProGIS-LibClient/Archive/cJSON.c:712-801 | For every input, malformed `\u` escapes that put the decoding loop out of step included: bytes written are at most bytes consumed minus escape pairs begun |
| `StringProofs.ParseStringLocal` | SecProGIS-LibClient/Archive/cJSON.c:697-809 | A literal is read from its own bytes only: with any other text after it the result is the same |
| `StringDecoder.ParseHex4` | SecProGIS-LibClient/Archive/cJSON.c:539-572 | The loop with its shifts gives the value of the four digits, or 0 if one is none |
| `StringDecoder.EncodeUtf8` | SecProGIS-LibClient/Archive/cJSON.c:639-688 | The loop that writes from the last byte to the first puts the UTF-8 form at the output position and changes nothing else |
| `StringDecoder.Utf16LiteralToUtf8` | SecProGIS-LibClient/Archive/cJSON.c:576-694 | Length read, bytes written and failure are those of the function on the text: surrogate pairs joined, lone halves refused |
| `StringDecoder.ScanLiteral` | SecProGIS-LibClient/Archive/cJSON.c:710-733 | The first loop finds the closing quote as the function does, and counts exactly the escape pairs begun before it |
| `StringDecoder.DecodeLiteral` | SecProGIS-LibClient/Archive/cJSON.c:743-801 | The second loop writes what the decoding function says, from the start of the block, every write inside the block, and stops where that stops |
| `ParserSteps.AllocationFits` | SecProGIS-LibClient/Archive/cJSON.c:734-741 | What `parse_string` allocates has room for every byte it writes and the terminator, for every input |
| `CText.SkipsBlanks` | SecProGIS-LibClient/Archive/cJSON.c:962-980 | Exactly the bytes up to 32 in front are skipped, the last byte of the buffer never |
| `Doubles.SaturatedIsClose` | SecProGIS-LibClient/Archive/cJSON.c:317-331 | `valueint` is less than one away from a number in the range of `int`, and equal to it if it is whole |
| `Binary64.SaturatedAsNumber` | SecProGIS-LibClient/Archive/cJSON.c:317-331 | For every double, its value computed as section 3.4 of IEEE 754 says: 2147483647 from there on, -2147483648 from there down and for a NaN, and between them the number cut towards zero |
| `HeapParser.ParseBuffer.SkipUtf8Bom` | SecProGIS-LibClient/Archive/cJSON.c:983-996 | The byte order mark is skipped as the function on the text does it |
| `HeapParser.ParseBuffer.SkipWhitespace` | SecProGIS-LibClient/Archive/cJSON.c:962-980 | The loop and the step back from the end of the buffer do what the function on the text does; the position never moves back |
| `HeapParser.ParseBuffer.ParseString` | SecProGIS-LibClient/Archive/cJSON.c:697-822 | Refines the function on the text; a success adds one block that holds the string and its terminator, a failure leaves the heap as it was and the offset at the error |
| `HeapParser.ParseBuffer.ParseNumber` | SecProGIS-LibClient/Archive/cJSON.c:265-339 | At most 63 number bytes go to `strtod`; the offset moves by what it used; the item becomes the number, with `valueint` the number cut to the range of `int` |
| `HeapParser.ParseBuffer.ParseValue` | SecProGIS-LibClient/Archive/cJSON.c:1211-1263 | Outcome of the dispatch on the first bytes: success gives the value of the function on the text, every `valueint` as it should be, new blocks for exactly the new tree, the offset after it and the depth restored; failure gives the heap as it was and, unless an allocation failed, the same error position |
| `HeapParser.ParseBuffer.ParseArray` | SecProGIS-LibClient/Archive/cJSON.c:1340-1431 | The same for arrays; depth never exceeds the nesting limit |
| `HeapParser.ParseBuffer.ParseElements` | SecProGIS-LibClient/Archive/cJSON.c:1374-1412 | The do-while loop builds a well formed sibling list that stands for the parsed chain; every failure deletes the whole list |
| `HeapParser.ParseBuffer.ParseElement` | SecProGIS-LibClient/Archive/cJSON.c:1375-1407 | One round: the elements read so far, put before what the function on the remaining text gives, still make up the whole list; a failure discards the list |
| `HeapParser.ParseBuffer.AppendItem` | SecProGIS-LibClient/Archive/cJSON.c:1377-1396 | A new item joins the list at the end: the list stays well formed and the values in it are unchanged |
| `HeapParser.ParseBuffer.ParseObject` | SecProGIS-LibClient/Archive/cJSON.c:1496-1602 | The same for objects |
| `HeapParser.ParseBuffer.ParseMembers` | SecProGIS-LibClient/Archive/cJSON.c:1528-1584 | The same for the member loop |
| `HeapParser.ParseBuffer.ParseMember` | SecProGIS-LibClient/Archive/cJSON.c:1529-1579 | One round for members: name, colon and value; a failure at any of them discards the list, the name included |
| `HeapParser.ParseBuffer.ParseKey` | SecProGIS-LibClient/Archive/cJSON.c:1552-1568 | The name is read into `valuestring` and moved to `string`; the item then owns it as its name even if the colon is missing |
| `HeapParser.ParseWithOpts` | SecProGIS-LibClient/Archive/cJSON.c:999-1076 | An item comes out exactly when the function on the text succeeds and no allocation failed; it then owns exactly the new blocks and stands for the value; otherwise the heap is as before, the reported position lies in the text, and the global error record has text and position; it is reset in every other case |
| `Ownership.Heap.Allocate` | SecProGIS-LibClient/Archive/cJSON.c:119-124 | The allocator may fail at any time; otherwise it returns an address not in use |
| `Ownership.Heap.NewItem` | SecProGIS-LibClient/Archive/cJSON.c:201-210 | A new block with all fields zero at an address not in use, or NULL |
| `Ownership.Heap.Delete` | SecProGIS-LibClient/Archive/cJSON.c:213-234 | Exactly the blocks owned by the items of the list are freed, each once; children and strings of references are left alone |
| `CHeap.OwnedExists` | SecProGIS-LibClient/Archive/cJSON.c:213-234 | All blocks an item owns are there, and NULL is none of them |
| `CHeap.OwnedFrame` | SecProGIS-LibClient/Archive/cJSON.c:213-234 | Ownership depends on the owned blocks only, and not on the item's own links to siblings |
| `ItemValues.ValueFrame` | SecProGIS-LibClient/Archive/cJSON.c:1211-1263 | The value and name of an item depend on the blocks it owns only |
| `ItemValues.PlainReadable` | SecProGIS-LibClient/Archive/cJSON.c:1266-1337 | What the parser makes can be walked along `child` and `next` to the end, which is what printing and copying ask of an item |
| `ItemValues.AppendBlank` | SecProGIS-LibClient/Archive/cJSON.c:1377-1396 | Linking a blank item behind the last one keeps a list under construction well formed and its chain of values unchanged |
| `ItemValues.BuiltUndone` | SecProGIS-LibClient/Archive/cJSON.c:1424-1430 | Freeing a list under construction restores the heap it was built on |
| `BuiltLists.RootDiscarded` | SecProGIS-LibClient/Archive/cJSON.c:1046-1050 | The result of a parse can be given to `cJSON_Delete`, and deleting it restores the heap it was built on |
| `BuiltLists.RootReadable` | SecProGIS-LibClient/Archive/cJSON.c:1266-1337 | The result of a parse can be read to its end with the same value, whatever is put on the heap later |
| `ItemValues.Adopt` | SecProGIS-LibClient/Archive/cJSON.c:1414-1421 | Hanging a finished list under an item makes the item own it, and keeps its values |
| `RoundTrip.ParsePrinted` | SecProGIS-LibClient/Archive/cJSON.c:1211-1716 | For every printable item without Raw: parsing its text, formatted or not, with `require_null_terminated` consumes everything and gives the item's normal form if it is within the nesting limit, and is refused if not |
| `RoundTrip.RoundTripExact` | SecProGIS-LibClient/Archive/cJSON.c:1211-1716 | The item itself comes back if and only if it is within the nesting limit and holds no NaN, infinity, NULL string, NULL member name or named element |
| `RoundTrip.ParseRender` | SecProGIS-LibClient/Archive/cJSON.c:1211-1337 | The same at any depth and with anything but a number byte after the text |
| `Doubles.ShownReadsBack` | SecProGIS-LibClient/Archive/cJSON.c:487-505 | Whichever of the two texts the test chooses, 15 digits or 17, reading it back uses all of it and gives exactly the double printed, the sign of a zero included |
| `Binary64.ShownShortIfExact` | SecProGIS-LibClient/Archive/cJSON.c:487-505 | The text with 15 digits is printed exactly if it reads back as a number of the same value, by IEEE 754; otherwise the one with 17 |
| `Binary64.EqualAsNumbers` | SecProGIS-LibClient/Archive/cJSON.c:2828-2833 | `==` on doubles by their patterns is equality of the numbers they stand for: both zeros equal, infinities by sign, NaN equal to nothing |
| `Acceptance.GrammarAccepted` | SecProGIS-LibClient/Archive/cJSON.c:999-1602 | For every derivation of the grammar of RFC 8259, whose terminals are given by byte numbers of its own, blanks, all escapes and a byte order mark in front included: the text is accepted with `require_null_terminated` if and only if its numbers have at most 63 bytes, its escaped surrogates are paired and its nesting is at most 1000; all of it is consumed and the tree is the one the derivation stands for |
| `Acceptance.GrammarPrefixAccepted` | SecProGIS-LibClient/Archive/cJSON.c:999-1076 | Without `require_null_terminated` and with any text behind it that does not go on with a number byte: that text is left over exactly under the same three conditions, with the same tree; otherwise parsing fails or stops inside an overlong number |
| `Acceptance.NumberBytes` | SecProGIS-LibClient/Archive/cJSON.c:277-303 | The bytes copied for `strtod` are exactly those that occur in some number of the grammar |
| `Acceptance.ReaderIsValid` | SecProGIS-LibClient/Archive/cJSON.c:473-536 | What is assumed of `sprintf` and `strtod` can be met, for printing and for reading the grammar together: by an example that prints bit patterns in decimal; nothing is said of the formatting of the C library itself |
| `Acceptance.StringRead` | SecProGIS-LibClient/Archive/cJSON.c:697-809 | A string of section 7 of RFC 8259 is accepted if and only if its escaped surrogates are paired, and gives its characters in UTF-8 up to the first NUL |
| `Acceptance.MeaningWhole` | SecProGIS-LibClient/Archive/cJSON.c:697-809 | That is the whole string if and only if no escape with four zeros is in it |
| `Spelling.SimpleEscapesSame` | SecProGIS-LibClient/Archive/cJSON.c:758-784 | The decoder knows the two-character escapes of the grammar, with the same meaning, and no others |
| `Acceptance.NumeralRead` | SecProGIS-LibClient/Archive/cJSON.c:265-339 | A number of section 6 of RFC 8259 is read to its end if it has at most 63 bytes; a longer one is refused or leaves a byte of itself behind |
| `Printer.PrintBuffer.Ensure` | SecProGIS-LibClient/Archive/cJSON.c:372-457 | Room for `needed` bytes and a terminator beyond the offset, the bytes before it kept; it fails only if an allocation failed, or the limit of an `int` or of a fixed buffer is exceeded |
| `Printer.PrintBuffer.UpdateOffset` | SecProGIS-LibClient/Archive/cJSON.c:460-470 | `strlen` from the offset moves it to the end of the text |
| `Printer.CountEscapes` | SecProGIS-LibClient/Archive/cJSON.c:853-877 | The counting loop gives exactly the bytes escaping adds |
| `Printer.PrintBuffer.PrintStringPtr` | SecProGIS-LibClient/Archive/cJSON.c:826-945 | The quoted and escaped text, terminated, in what was reserved; no byte beyond the terminator changes |
| `Spelling.ShortestSpelling` | SecProGIS-LibClient/Archive/cJSON.c:899-938 | Among all spellings the grammar has for a character below 128, with hex digits in lower case, the one printed is the only shortest; bytes from 128 on are printed as they are |
| `Printer.PrintBuffer.PrintNumber` | SecProGIS-LibClient/Archive/cJSON.c:473-536 | The text with 15 digits if it reads back as the same number, else the one with 17; null for NaN and the infinities; an overlong text is refused |
| `Printer.PrintBuffer.PrintValue` | SecProGIS-LibClient/Archive/cJSON.c:1266-1337 | Refines the renderer for every item that can be read to the end: on success the buffer holds the text so far followed by the rendered item, whatever the size of the buffer and however often it grew, and nothing beyond is touched; failure only for lack of room or memory or an item that cannot be printed |
| `Printer.PrintBuffer.PrintArray` | SecProGIS-LibClient/Archive/cJSON.c:1434-1493 | The same for arrays, the elements found along `next` |
| `Printer.PrintBuffer.PrintObject` | SecProGIS-LibClient/Archive/cJSON.c:1605-1716 | The same for objects, the members found along `next` |
| `Layout.FormattedIsLayout` | SecProGIS-LibClient/Archive/cJSON.c:1434-1716 | For every item without Raw: what is printed formatted is the layout of what is printed unformatted, by one pass over its bytes that skips string literals: 9 behind a colon; behind a comma 32 in an array and 10 in an object; 10 behind an opening brace and before a closing one, once if nothing lies between; a byte 9 for every open bracket or brace at the start of a line |
| `Layout.RenderLaidOut` | SecProGIS-LibClient/Archive/cJSON.c:1266-1716 | The same under any open brackets and with any text behind it |
| `Printer.PrintBuffer.Shrink` | SecProGIS-LibClient/Archive/cJSON.c:1112-1132 | The block of exactly the size of the text, the work buffer being gone; if that block cannot be had the work buffer is freed without `realloc`, and lost with it |
| `Printer.Print` | SecProGIS-LibClient/Archive/cJSON.c:1086-1148 | The result is the rendered text with its terminator, in a buffer of exactly that size, and no other block is left; if there is no result, a block is left only when the complete text could not be shrunk by `realloc` |
| `Printer.PrintBuffered` | SecProGIS-LibClient/Archive/cJSON.c:1161-1189 | The same text at the start of the buffer, whatever size it was given at first; no block but the result is left; a byte behind a block is read only, and on success always, with a first size of 0 and no `realloc` |
| `Printer.PrintPreallocated` | SecProGIS-LibClient/Archive/cJSON.c:1191-1208 | It succeeds exactly if the item can be printed and the buffer has at least two bytes more than the text, and then holds the same text and is unchanged behind the terminator |
| `MinifyInPlace.MinifyBuffer` | SecProGIS-LibClient/Archive/cJSON.c:2623-2691 | The read position leaves the buffer if and only if some comment or string is not closed; otherwise, in place and with the write position never ahead, the buffer starts with the minified text and is unchanged beyond it |
| `MinifyInPlace.Overruns` | SecProGIS-LibClient/Archive/cJSON.c:2663-2677 | A lone quote and a lone comment opener are texts on which it does leave the buffer |
| `Minify.MinifyFormatted` | SecProGIS-LibClient/Archive/cJSON.c:2623-2691 | Minifying the text of `cJSON_Print` gives the text of `cJSON_PrintUnformatted`, for every item without Raw |
| `Minify.MinRender` | SecProGIS-LibClient/Archive/cJSON.c:1457-1712 | The same at any pair of depths and with any text after it |
| `MinifyPieces.MinOfPieces` | SecProGIS-LibClient/Archive/cJSON.c:2623-2691 | A text is blanks, line comments, block comments, string literals and single bytes one after the other, all given by byte numbers: what is left is the literals and single bytes, unchanged and in their order |
| `MinifyPieces.ClosedExactly` | SecProGIS-LibClient/Archive/cJSON.c:2623-2691 | The texts whose comments and literals are closed are exactly those that can be cut into such pieces |
| `MinifyMeaning.MinifyKeepsMeaning` | SecProGIS-LibClient/Archive/cJSON.c:2623-2691 | A text accepted with `require_null_terminated` stays in bounds when minified, is accepted again with the same tree, and minifying it again changes nothing |
| `MinifyTwice.TwiceIsOnce` | SecProGIS-LibClient/Archive/cJSON.c:2623-2691 | On every closed text, minifying twice is minifying once if and only if no slash outside comments and strings comes to stand before a slash or a star when what lies between is dropped; the minified text is then closed again |
| `MinifyTwice.MinifyTwiceDiffers` | SecProGIS-LibClient/Archive/cJSON.c:2623-2691 | A text on which a second pass changes more: a dropped blank brings two slashes together |
| `CompareNodes.GetObjectItem` | SecProGIS-LibClient/Archive/cJSON.c:1771-1797 | The walk along `child` and `next` finds the first child with the name, and NULL exactly if no child has it, as long as `strcmp` meets no NULL name on the way; with case ignored a name is the same if it has the same length and at every place the same byte or the same letter in either case |
| `CompareNodes.CompareIgnoringCase` | SecProGIS-LibClient/Archive/cJSON.c:98-118 | The loop gives 0 exactly for two strings of one length with the same byte, or the same letter from A to Z in either case, at every place, and never for NULL |
| `Compare.SameNameMeans` | SecProGIS-LibClient/Archive/cJSON.c:98-118 | The same for the function that comparison and lookup are defined by; with case told apart, the names are equal |
| `CompareNodes.CompareItems` | SecProGIS-LibClient/Archive/cJSON.c:2793-2916 | The recursive comparison of nodes, with its shortcut for one and the same node, decides the relation that the lemmas below are about, whenever no `strcmp` it reaches is given a NULL name |
| `CompareNodes.AlwaysComparable` | SecProGIS-LibClient/Archive/cJSON.c:1789-1794 | When case is ignored that is always so |
| `CompareNodes.CompareElements` | SecProGIS-LibClient/Archive/cJSON.c:2851-2871 | The array loop: element by element along `next`, and none left over on either side |
| `CompareNodes.CompareMembers` | SecProGIS-LibClient/Archive/cJSON.c:2879-2908 | One member loop: every member of the one object is equal to the first of that name in the other |
| `CompareNodes.EqualExactly` | SecProGIS-LibClient/Archive/cJSON.c:2793-2916 | For all items that can be read to the end, shared nodes included: their values are equal if and only if the code answers yes and every node met on both sides at once has a value equal to its own copy |
| `CompareNodes.ApartIsSound` | SecProGIS-LibClient/Archive/cJSON.c:2816-2820 | Items without a node in common owe nothing to the shortcut |
| `CompareNodes.GoodIsSound` | SecProGIS-LibClient/Archive/cJSON.c:2816-2820 | Nor do items that are equal to their copies, whatever nodes they share |
| `CompareNodes.SharedNanEqual` | SecProGIS-LibClient/Archive/cJSON.c:2816-2820 | An array that holds a NaN and a reference to it: found equal, though their values are not |
| `Compare.EqualSymmetric` | SecProGIS-LibClient/Archive/cJSON.c:2793-2916 | Symmetric on all items, for both settings of `case_sensitive` |
| `Compare.EqualTransitive` | SecProGIS-LibClient/Archive/cJSON.c:2793-2916 | Transitive on all items, for both settings of `case_sensitive` |
| `Compare.EqualIsCanonical` | SecProGIS-LibClient/Archive/cJSON.c:2793-2916 | For all items: they compare equal if and only if neither holds a NaN, a NULL string, an unset type, an unnamed member or two different values under one name, and they are the same up to the order of members (object members as a map) and up to the case of names if asked for |
| `Compare.EqualToCopy` | SecProGIS-LibClient/Archive/cJSON.c:2793-2916 | For all items: an item compares equal to a copy of itself if and only if it holds none of these |
| `Compare.DuplicateNamesDiffer` | SecProGIS-LibClient/Archive/cJSON.c:2879-2908 | With a name used twice an object can differ from its own copy, because only the first match is looked up |
| `Siblings.GetItem` | SecProGIS-LibClient/Archive/cJSON.c:1742-1759 | The child at the index, or NULL past the end |
| `Siblings.GetArraySize` | SecProGIS-LibClient/Archive/cJSON.c:1719-1740 | The number of children converted to `int`, which is that number exactly up to INT_MAX |
| `Siblings.AddItemToArray` | SecProGIS-LibClient/Archive/cJSON.c:1843-1870 | The sequence of children gains the item at its end, and the siblings behind it if it has any; `next` and `prev` stay inverse and NULL at both ends; only links change |
| `Siblings.DetachItemViaPointer` | SecProGIS-LibClient/Archive/cJSON.c:2065-2093 | The item leaves the sequence and points nowhere; the list stays well formed; only links change |
| `Siblings.DetachItemFromArray` | SecProGIS-LibClient/Archive/cJSON.c:2095-2103 | The same by index; a negative index or one past the end changes nothing |
| `Siblings.DeleteItemFromArray` | SecProGIS-LibClient/Archive/cJSON.c:2105-2108 | The item leaves the sequence and exactly what it owned is freed |
| `Siblings.InsertItemInArray` | SecProGIS-LibClient/Archive/cJSON.c:2135-2162 | The sequence gains the item before the index, whatever its links were; past the end it is appended, before the start nothing happens |
| `Siblings.ReplaceItemViaPointer` | SecProGIS-LibClient/Archive/cJSON.c:2164-2197 | The replacement takes the item's place in the sequence, whatever its links were, and exactly what the item owned is freed; replacing an item by itself changes nothing |
| `Siblings.InsertKeepsOwnership` | SecProGIS-LibClient/Archive/cJSON.c:1843-1870 | After an append or insert the parent owns its old blocks and those of the new child, and no others |
| `Siblings.DetachKeepsOwnership` | SecProGIS-LibClient/Archive/cJSON.c:2065-2093 | After a detach the parent and the detached item share out exactly the blocks the parent owned |
| `Siblings.ReplaceKeepsOwnership` | SecProGIS-LibClient/Archive/cJSON.c:2164-2197 | After a replacement the parent owns what it owned, less the blocks of the item replaced, and those of the replacement |
| `Siblings.DeleteKeepsOwnership` | SecProGIS-LibClient/Archive/cJSON.c:2105-2108 | After a deletion the parent owns what it owned, less the blocks of the item deleted |
| `Siblings.AppendKeepsOwnership` | SecProGIS-LibClient/Archive/cJSON.c:1843-1870 | After an append of an item with siblings behind it the parent owns what it owned and all of them |
| `Siblings.EditedOwned` | SecProGIS-LibClient/Archive/cJSON.c:2135-2197 | Whatever relinking and freeing led to a well formed list of owned, disjoint children, the parent owns them |
| `Siblings.RunKeepsOwnership` | SecProGIS-LibClient/Archive/cJSON.c:1843-2197 | In every run of appends, insertions, detachments, replacements, deletions and steps elsewhere, the item owns at any time exactly the tree the edits make of it |
| `Duplicates.Strdup` | SecProGIS-LibClient/Archive/cJSON.c:148-167 | A new block with the same string, NULL for NULL, or NULL when there is no memory |
| `Duplicates.CopyItem` | SecProGIS-LibClient/Archive/cJSON.c:2556-2581 | Type, numbers and strings are copied, the reference flag is not, and a name that is constant is shared; a failure leaves nothing behind |
| `Duplicates.Attached` | SecProGIS-LibClient/Archive/cJSON.c:2596-2608 | Linking the copy of a child keeps the copy a tree of blocks of its own; only links change |
| `Duplicates.CopyKids` | SecProGIS-LibClient/Archive/cJSON.c:2588-2610 | The loop copies the children in order; a failure deletes the whole copy |
| `Duplicates.Duplicate` | SecProGIS-LibClient/Archive/cJSON.c:2544-2621 | For everything that can be read to the end, references and shared blocks included: a recursive copy owns only blocks that did not exist before, leaves every old block as it was, is no reference anywhere, borrows exactly the names that were borrowed, and stands for the same value and name; without `recurse` only the item is read and the children are missing; a failure leaves the heap as it was |
| `Duplicates.TwinValue` | SecProGIS-LibClient/Archive/cJSON.c:2556-2610 | Item-wise agreement of fields, as copying establishes it, makes one name and one value |
| `Duplicates.AloneDiscarded` | SecProGIS-LibClient/Archive/cJSON.c:213-234 | Deleting a copy restores the heap it was made on, so the names it borrows are left alone |
| `Duplicates.CopySurvives` | SecProGIS-LibClient/Archive/cJSON.c:2544-2621 | What `cJSON_Duplicate` returns keeps its blocks and the name and value of the original when any other blocks are freed, those of the original included, as long as the names the original borrows are spared |
| `Duplicates.CopyOfPlain` | SecProGIS-LibClient/Archive/cJSON.c:2544-2621 | A copy of what the parser makes is such a tree again, on the heap it was made on |
| `Duplicates.CopyComparesEqual` | SecProGIS-LibClient/Archive/cJSON.c:2544-2916 | `cJSON_Compare` finds a copy equal to its original exactly if it finds the original equal to anything of its kind: no NaN, NULL string, unset type, unnamed member or two values under one name |

## Left out

- Windows, MFC and dialog code, progress display, flushing, the hexadecimal digest shown to the user, database access (`KM.cpp`, `INTmysql.cpp`), the MySQL and OpenSSL headers.
- `OnDecryptFile` as a whole: it reads a header of 9 bytes where `OnEncryptFile` writes 44, so the round trip is stated for the payload.
- Sm3Stream.Sm3Context.Update: the input is a sequence, so reading it while it changes (aliasing with the context) is not captured; the length is an `int`, as in the source.
- Floating-point formatting and scanning themselves, and decimal points of other locales.
- `cJSON_InitHooks` and the choice of allocator; any allocator that returns unused blocks is covered.
- CompareNodes.CompareItems: a comparison that hands a NULL name to `strcmp` is excluded.
- Acceptance.GrammarAccepted: texts outside the grammar of RFC 8259 that the parser accepts as well (other blanks, raw control characters, numbers such as `01`).
- Siblings.InsertItemInArray: a NULL item at a valid index, on which the source writes through NULL.
- Editing by name (`add_item_to_object`, `replace_item_in_object`, detach by name), creation functions and arrays of numbers: the sibling list functions above with a string copied or a lookup before them.
- Raw items in the round trip and in the minifying of printed text: they can hold anything.
- Archive.SealFile: a failing allocation of the `CipherLen` bytes, and file errors.
- MinifyInPlace.MinifyBuffer: what is read and written behind the buffer once the read position has left it.
- Printer.PrintBuffer.PrintValue: an item whose walk never ends, on which the source does not return.
- Cryptographic strength.
