/** The file-sealing part of `OnEncryptFile` in ArchiveDlg.cpp: header, chunked encryption, back-patched digest. */
module Archive {
  import opened Words
  import opened Blocks
  import opened Feistel
  import opened Sm3Spec
  import opened Sm3Stream
  import opened Sm4Spec
  import opened Sm4Modes
  import Sm4

  const ENC_BLOCK_SIZE: nat := 102400
  const HEADER_SIZE: nat := 44

  /** The four bytes of the LONG flag 1 as an x86 `Write` stores them. */
  const FLAG: seq<bv8> := [1, 0, 0, 0]

  /** What `data` written at `pos` makes of a file; a gap beyond the end reads as zeros. */
  function Overwrite(content: seq<bv8>, pos: nat, data: seq<bv8>): (r: seq<bv8>)
    ensures |r| == if pos + |data| > |content| then pos + |data| else |content|
  {
    var gap := if pos > |content| then pos - |content| else 0;
    var base := content + Zeros(gap);
    base[..pos] + data + (if pos + |data| < |base| then base[pos + |data|..] else [])
  }

  /** `CFile` as a byte sequence with a position. */
  class CFile {
    var content: seq<bv8>
    var pos: nat

    constructor (bytes: seq<bv8>)
      ensures content == bytes && pos == 0
    {
      content, pos := bytes, 0;
    }

    /** Reads up to `n` bytes into `buf`; fewer only at the end of the file. */
    method Read(buf: array<bv8>, n: nat) returns (k: nat)
      requires n <= buf.Length
      modifies this`pos, buf
      ensures k == if old(pos) >= |content| then 0 else if |content| - old(pos) < n then |content| - old(pos) else n
      ensures pos == old(pos) + k
      ensures k > 0 ==> pos <= |content| && buf[..k] == content[old(pos)..pos]
    {
      k := if pos >= |content| then 0 else if |content| - pos < n then |content| - pos else n;
      if k > 0 {
        forall i | 0 <= i < k {
          buf[i] := content[pos + i];
        }
        assert buf[..k] == content[pos..pos + k];
      }
      pos := pos + k;
    }

    method Write(data: seq<bv8>)
      modifies this
      ensures content == Overwrite(old(content), old(pos), data) && pos == old(pos) + |data|
    {
      content := Overwrite(content, pos, data);
      pos := pos + |data|;
    }

    method Seek(to: nat)
      modifies this`pos
      ensures pos == to
    {
      pos := to;
    }
  }

  /** A cut that is a multiple of 16, or the end: what is encrypted so far does not depend on what follows. */
  lemma ChunkGrows(rks: seq<bv32>, plain: seq<bv8>, total: nat, k: nat)
    requires total + k <= |plain| && total % 16 == 0
    ensures EcbTail(rks, plain[..total + k]) == EcbTail(rks, plain[..total]) + EcbTail(rks, plain[total..total + k])
  {
    hide EcbTail;
    EcbTailAppend(rks, plain[..total], plain[total..total + k]);
    assert plain[..total] + plain[total..total + k] == plain[..total + k];
  }

  /** The output file when `total` bytes are encrypted: nothing beyond the first header part before the first chunk. */
  ghost predicate Progress(rks: seq<bv32>, head: seq<bv8>, plain: seq<bv8>, total: nat, content: seq<bv8>, pos: nat) {
    && |head| == 12 && total <= |plain| && (total % 16 == 0 || total == |plain|)
    && pos == HEADER_SIZE + total
    && content == if total == 0 then head else head + Zeros(32) + EcbTail(rks, plain[..total])
  }

  lemma OverwriteEnd(content: seq<bv8>, data: seq<bv8>)
    ensures Overwrite(content, |content|, data) == content + data
  {
    assert content + Zeros(0) == content && content[..|content|] == content;
  }

  lemma OverwritePast(content: seq<bv8>, gap: nat, data: seq<bv8>)
    ensures Overwrite(content, |content| + gap, data) == content + Zeros(gap) + data
  {
    var base := content + Zeros(gap);
    assert base[..|base|] == base;
  }

  lemma ProgressGrows(rks: seq<bv32>, head: seq<bv8>, plain: seq<bv8>, total: nat, content: seq<bv8>, pos: nat, k: nat)
    requires Progress(rks, head, plain, total, content, pos)
    requires 0 < k && total + k <= |plain| && (k % 16 == 0 || total + k == |plain|)
    ensures Progress(rks, head, plain, total + k,
                     Overwrite(content, pos, EcbTail(rks, plain[total..total + k])), pos + k)
  {
    hide EcbTail, Overwrite;
    var data := EcbTail(rks, plain[total..total + k]);
    ChunkGrows(rks, plain, total, k);
    if total == 0 {
      NothingSealed(rks, plain);
      OverwritePast(head, 32, data);
    } else {
      OverwriteEnd(content, data);
      assert head + Zeros(32) + EcbTail(rks, plain[..total]) + data
          == head + Zeros(32) + (EcbTail(rks, plain[..total]) + data);
    }
  }

  lemma NothingSealed(rks: seq<bv32>, plain: seq<bv8>)
    ensures EcbTail(rks, plain[..0]) == [] && forall s: seq<bv8> :: EcbTail(rks, plain[..0]) + s == s
  {
    assert plain[..0] == [] && EcbTail(rks, []) == [];
  }

  /** The `while(true)` loop of `OnEncryptFile`. */
  method EncryptChunks(plain: CFile, cipher: CFile, key: seq<bv8>, ghost head: seq<bv8>)
    requires plain != cipher && plain.pos == 0 && |key| == 16
    requires Progress(RoundKeys(key), head, plain.content, 0, cipher.content, cipher.pos)
    modifies plain`pos, cipher
    ensures Progress(RoundKeys(key), head, plain.content, |plain.content|, cipher.content, cipher.pos)
  {
    hide RoundKeys, EcbTail, Progress, Overwrite;
    var receive := new bv8[ENC_BLOCK_SIZE](_ => 0);
    var output := new bv8[ENC_BLOCK_SIZE](_ => 0);
    var ctx := new Sm4.Sm4Context();
    ghost var text := plain.content;
    while true
      invariant plain.content == text && plain.pos <= |text|
      invariant ctx.Shape()
      invariant plain.pos % 16 == 0 || plain.pos == |text|
      invariant Progress(RoundKeys(key), head, text, plain.pos, cipher.content, cipher.pos)
      decreases |text| - plain.pos
    {
      ghost var total := plain.pos;
      var blockReadSize := plain.Read(receive, ENC_BLOCK_SIZE);
      if blockReadSize > 0 {
        ctx.SetKeyEnc(key);
        ctx.CryptEcb16(blockReadSize, receive, output);
        ProgressGrows(RoundKeys(key), head, text, total, cipher.content, cipher.pos, blockReadSize);
        cipher.Write(output[..blockReadSize]);
      } else {
        break;
      }
    }
  }

  lemma HeaderStart(head: seq<bv8>, rks: seq<bv32>, plain: seq<bv8>)
    requires |head| == 12
    ensures Progress(rks, head, plain, 0, head, HEADER_SIZE)
  {
  }

  /** A finished file: flag, deadline, SM3 of the payload, payload, at offsets 0, 4, 12 and 44. */
  ghost function SealedFile(deadline: seq<bv8>, payload: seq<bv8>): seq<bv8>
    requires |deadline| == 8
  {
    FLAG + deadline + Sm3(payload) + payload
  }

  lemma BackPatch(head: seq<bv8>, payload: seq<bv8>, digest: seq<bv8>)
    requires |head| == 12 && |digest| == 32
    ensures Overwrite(head + Zeros(32) + payload, 12, digest) == head + digest + payload
  {
    var content := head + Zeros(32) + payload;
    assert content + Zeros(0) == content;
    assert content[..12] == head && content[44..] == payload;
  }

  lemma PayloadAt(head: seq<bv8>, payload: seq<bv8>)
    requires |head| == 12
    ensures var file := head + Zeros(32) + payload;
            && |file| == HEADER_SIZE + |payload|
            && forall k :: 0 <= k <= |payload| ==> file[HEADER_SIZE..HEADER_SIZE + k] == payload[..k]
  {
  }

  lemma FinishedPayload(rks: seq<bv32>, head: seq<bv8>, plain: seq<bv8>, content: seq<bv8>, pos: nat)
    requires Progress(rks, head, plain, |plain|, content, pos)
    ensures plain == [] ==> content == head
    ensures plain != [] ==> content == head + Zeros(32) + EcbTail(rks, plain)
  {
    assert plain[..|plain|] == plain;
  }

  /** `CipherLen`: the length of the file in an `int`, less the header. */
  lemma LengthInInt(n: nat)
    ensures ToInt(ToInt(HEADER_SIZE + n) - HEADER_SIZE) == ToInt(n)
  {
  }

  /**
   * What is in the output file in the end, whether or not the last step is reached. A payload whose length is
   * negative as an `int` is covered for these steps by themselves: `OnEncryptFile` throws on such a plain file at
   * `new BYTE[PlainLen]`, for the digest of the plain text, before there is an output file.
   */
  ghost function LeftBehind(deadline: seq<bv8>, payload: seq<bv8>): seq<bv8> {
    if payload == [] then FLAG + deadline
    else if ToInt(|payload|) < 0 then FLAG + deadline + Zeros(32) + payload
    else FLAG + deadline + Sm3(payload[..ToInt(|payload|)]) + payload
  }

  /** A file that is neither empty nor longer than an `int` can say is sealed. */
  lemma SealedBelow2GB(deadline: seq<bv8>, payload: seq<bv8>)
    requires |deadline| == 8 && 0 < |payload| <= INT_MAX
    ensures LeftBehind(deadline, payload) == SealedFile(deadline, payload)
    ensures SealedFile(deadline, payload) == [1, 0, 0, 0] + deadline + Sm3(payload) + payload
  {
    hide Sm3;
    assert payload[..|payload|] == payload;
  }

  /**
   * Sealing one file. For an empty file the output is still 12 bytes long when `CipherLen` is computed, so
   * `new BYTE[CipherLen]` is asked for a negative size and throws; and so it does when the length of the payload
   * comes out negative as an `int`. Otherwise sealing runs to the end, and the digest is that of as much of the
   * payload as the `int` says: all of it exactly below 2 GB.
   */
  method SealFile(plain: CFile, cipher: CFile, deadline: seq<bv8>, key: seq<bv8>) returns (finished: bool)
    requires plain != cipher && plain.pos == 0 && cipher.content == [] && cipher.pos == 0
    requires |deadline| == 8 && |key| == 16
    modifies plain`pos, cipher
    ensures finished <==> plain.content != [] && ToInt(|plain.content|) >= 0
    ensures cipher.content == LeftBehind(deadline, EcbTail(RoundKeys(key), plain.content))
  {
    hide LeftBehind, RoundKeys, EcbTail, Progress, Overwrite, Sm3, ToInt;
    ghost var head := FLAG + deadline;
    HeaderBytes(deadline);
    cipher.Write(FLAG);
    cipher.Write(deadline);
    cipher.Seek(cipher.pos + 32);
    HeaderStart(head, RoundKeys(key), plain.content);
    EncryptChunks(plain, cipher, key, head);
    FinishedPayload(RoundKeys(key), head, plain.content, cipher.content, cipher.pos);
    ghost var payload := EcbTail(RoundKeys(key), plain.content);
    PayloadAt(head, payload);
    LengthInInt(|payload|);
    EmptyLength();
    var cipherLen := ToInt(ToInt(|cipher.content|) - HEADER_SIZE);
    LeftBehindNow(deadline, payload);
    if cipherLen < 0 {
      return false;
    }
    var output := new bv8[cipherLen](_ => 0);
    cipher.Seek(HEADER_SIZE);
    var k := cipher.Read(output, cipherLen);
    ghost var part := payload[..cipherLen];
    assert output[..] == output[..cipherLen] == part;
    var digest := HashMessage(output[..], cipherLen);
    assert part[..cipherLen] == part;
    cipher.Seek(12);
    BackPatch(head, payload, digest);
    cipher.Write(digest);
    return true;
  }

  lemma LeftBehindNow(deadline: seq<bv8>, payload: seq<bv8>)
    ensures payload == [] ==> LeftBehind(deadline, payload) == FLAG + deadline
    ensures payload != [] && ToInt(|payload|) < 0 ==>
              LeftBehind(deadline, payload) == FLAG + deadline + Zeros(32) + payload
    ensures payload != [] && ToInt(|payload|) >= 0 ==>
              LeftBehind(deadline, payload) == FLAG + deadline + Sm3(payload[..ToInt(|payload|)]) + payload
  {
    hide Sm3, ToInt;
  }

  lemma EmptyLength()
    ensures ToInt(ToInt(12) - HEADER_SIZE) == -32
  {
  }

  lemma HeaderBytes(deadline: seq<bv8>)
    requires |deadline| == 8
    ensures Overwrite([], 0, FLAG) == FLAG && Overwrite(FLAG, 4, deadline) == FLAG + deadline
  {
    assert [] + Zeros(0) == [] && FLAG + Zeros(0) == FLAG;
    assert FLAG[..4] == FLAG;
  }

  /** The payload of a sealed file, decrypted in one call with the reversed round keys, is the original file. */
  lemma UnsealPayload(deadline: seq<bv8>, key: seq<bv8>, plain: seq<bv8>)
    requires |deadline| == 8 && |key| == 16
    ensures var file := SealedFile(deadline, EcbTail(RoundKeys(key), plain));
            && |file| == 44 + |plain|
            && file[..4] == [1, 0, 0, 0] && file[4..12] == deadline && file[12..44] == Sm3(file[44..])
            && EcbTail(Reverse(RoundKeys(key)), file[44..]) == plain
  {
    hide EcbTail, RoundKeys, Sm3, Reverse;
    var payload := EcbTail(RoundKeys(key), plain);
    var file := SealedFile(deadline, payload);
    assert file[44..] == payload;
    EcbTailUndone(RoundKeys(key), plain);
  }
}
