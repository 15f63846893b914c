/**
 * The native arrays of C records that `JSStaticValues.commit` and
 * `JSStaticFunctions.commit` build: each record is a run of pointer-sized
 * words followed by an `unsigned` attributes field, records are `CHUNK`
 * bytes apart, and one all-zero record closes the array.
 */
module RecordTables {
  import opened Base
  import opened NativeBuffer

  datatype Record = Record(words: seq<Long>, attributes: Int32)

  /** `i * c`, the offset of the `i`-th item of size `c`, by repeated addition. */
  function Stride(i: nat, c: nat): nat
  {
    if i == 0 then 0 else Stride(i - 1, c) + c
  }

  lemma {:induction false} StrideIsProduct(i: nat, c: nat)
    ensures Stride(i, c) == i * c
  {
    if i > 0 {
      StrideIsProduct(i - 1, c);
      assert (i - 1) * c + c == i * c;
    }
  }

  /** Items further along start after earlier items end. */
  lemma {:induction false} StrideApart(i: nat, j: nat, c: nat)
    requires i < j
    ensures Stride(i, c) + c <= Stride(j, c)
  {
    if i < j - 1 {
      StrideApart(i, j - 1, c);
    }
  }

  /** The words of a record, all in the same slot width. */
  function WordBytes(words: seq<Long>, w: Width): (r: seq<Byte>)
    ensures |r| == Stride(|words|, w)
  {
    if words == [] then [] else StrideFirst(|words|, w); EncodeLong(words[0], w) + WordBytes(words[1..], w)
  }

  /** Peeling the first item off a stride. */
  lemma {:induction false} StrideFirst(i: nat, c: nat)
    requires i > 0
    ensures Stride(i, c) == c + Stride(i - 1, c)
  {
    if i > 1 {
      StrideFirst(i - 1, c);
    }
  }

  /** The size of a record of `m` words. */
  function RecordSize(m: nat, w: Width): nat
  {
    Stride(m, w) + 4
  }

  /** The bytes of a whole record: its words, then its attributes. */
  function RecordBytes(rec: Record, w: Width): (r: seq<Byte>)
    ensures |r| == RecordSize(|rec.words|, w)
  {
    WordBytes(rec.words, w) + EncodeInt(rec.attributes)
  }

  /** Successive `putLong` calls for `words`, starting at `base`. */
  function PutWords(s: seq<Byte>, base: int, words: seq<Long>, w: Width): (r: seq<Byte>)
    requires SlotFits(s, base, Stride(|words|, w))
    ensures |r| == |s|
    decreases |words|
  {
    if words == [] then s
    else
      StrideFirst(|words|, w);
      PutWords(PutLongImage(s, base, words[0], w), base + w, words[1..], w)
  }

  /** The `putLong` calls for the words of `rec`, then the `putInt` of its attributes. */
  function PutRecord(s: seq<Byte>, base: int, rec: Record, w: Width): seq<Byte>
    requires SlotFits(s, base, RecordSize(|rec.words|, w))
  {
    PutIntImage(PutWords(s, base, rec.words, w), base + Stride(|rec.words|, w), rec.attributes)
  }

  /** The writes for a record of two words, spelt out. */
  lemma PutTwoWords(s: seq<Byte>, base: nat, rec: Record, w: Width)
    requires |rec.words| == 2 && SlotFits(s, base, 2 * w + 4)
    ensures Stride(2, w) == 2 * w
    ensures PutRecord(s, base, rec, w)
         == PutIntImage(PutLongImage(PutLongImage(s, base, rec.words[0], w),
                                     base + w, rec.words[1], w),
                        base + 2 * w, rec.attributes)
  {
    StrideIsProduct(2, w);
    StrideIsProduct(1, w);
    var s1 := PutLongImage(s, base, rec.words[0], w);
    var s2 := PutLongImage(s1, base + w, rec.words[1], w);
    assert rec.words[1..][1..] == [];
    assert PutWords(s, base, rec.words, w) == PutWords(s1, base + w, rec.words[1..], w);
    assert PutWords(s1, base + w, rec.words[1..], w) == s2;
  }

  /** The writes for a record of three words, spelt out. */
  lemma PutThreeWords(s: seq<Byte>, base: nat, rec: Record, w: Width)
    requires |rec.words| == 3 && SlotFits(s, base, 3 * w + 4)
    ensures Stride(3, w) == 3 * w
    ensures PutRecord(s, base, rec, w)
         == PutIntImage(PutLongImage(PutLongImage(PutLongImage(s, base, rec.words[0], w),
                                                  base + w, rec.words[1], w),
                                     base + 2 * w, rec.words[2], w),
                        base + 3 * w, rec.attributes)
  {
    StrideIsProduct(3, w);
    StrideIsProduct(2, w);
    StrideIsProduct(1, w);
    var s1 := PutLongImage(s, base, rec.words[0], w);
    var s2 := PutLongImage(s1, base + w, rec.words[1], w);
    var s3 := PutLongImage(s2, base + 2 * w, rec.words[2], w);
    assert rec.words[1..][1..][1..] == [];
    assert PutWords(s, base, rec.words, w) == PutWords(s1, base + w, rec.words[1..], w);
    assert PutWords(s1, base + w, rec.words[1..], w) == PutWords(s2, base + 2 * w, rec.words[1..][1..], w);
    assert PutWords(s2, base + 2 * w, rec.words[1..][1..], w) == s3;
  }

  lemma {:induction false} PutWordsIsSplice(s: seq<Byte>, base: int, words: seq<Long>, w: Width)
    requires SlotFits(s, base, Stride(|words|, w))
    ensures PutWords(s, base, words, w) == Splice(s, base, WordBytes(words, w))
    decreases |words|
  {
    if words == [] {
      assert s[..base] + [] + s[base..] == s;
    } else {
      StrideFirst(|words|, w);
      var a := EncodeLong(words[0], w);
      var b := WordBytes(words[1..], w);
      PutWordsIsSplice(Splice(s, base, a), base + w, words[1..], w);
      SpliceAdjacent(s, base, a, b);
    }
  }

  /** Writing a record field by field stores the record's bytes at `base` and nothing else. */
  lemma {:induction false} PutRecordIsSplice(s: seq<Byte>, base: int, rec: Record, w: Width)
    requires SlotFits(s, base, RecordSize(|rec.words|, w))
    ensures PutRecord(s, base, rec, w) == Splice(s, base, RecordBytes(rec, w))
  {
    PutWordsIsSplice(s, base, rec.words, w);
    SpliceAdjacent(s, base, WordBytes(rec.words, w), EncodeInt(rec.attributes));
  }

  /** The `putLong` calls for a two-word record, then the `putInt` of its attributes. */
  method WriteTwoWordRecord(b: array<Byte>, index: nat, rec: Record, w: Width)
    requires |rec.words| == 2 && index + 2 * w + 4 <= b.Length
    modifies b
    ensures b[..] == Splice(old(b[..]), index, RecordBytes(rec, w))
  {
    var long: int := w;
    ghost var s0 := b[..];
    PutTwoWords(s0, index, rec, w);
    PutRecordIsSplice(s0, index, rec, w);
    PutLong(b, index, rec.words[0], w);
    PutLong(b, index + long, rec.words[1], w);
    PutInt(b, index + 2 * long, rec.attributes);
  }

  /** The `putLong` calls for a three-word record, then the `putInt` of its attributes. */
  method WriteThreeWordRecord(b: array<Byte>, index: nat, rec: Record, w: Width)
    requires |rec.words| == 3 && index + 3 * w + 4 <= b.Length
    modifies b
    ensures b[..] == Splice(old(b[..]), index, RecordBytes(rec, w))
  {
    var long: int := w;
    ghost var s0 := b[..];
    PutThreeWords(s0, index, rec, w);
    PutRecordIsSplice(s0, index, rec, w);
    PutLong(b, index, rec.words[0], w);
    PutLong(b, index + long, rec.words[1], w);
    PutLong(b, index + 2 * long, rec.words[2], w);
    PutInt(b, index + 3 * long, rec.attributes);
  }

  /** Writing block `k` over the first `k` blocks gives the first `k + 1`. */
  lemma SplicedStep(base: seq<Byte>, blocks: seq<seq<Byte>>, size: nat, chunk: nat, k: nat)
    requires size <= chunk && k < |blocks| && Stride(|blocks|, chunk) <= |base|
    requires forall i :: 0 <= i < |blocks| ==> |blocks[i]| == size
    ensures Stride(k, chunk) + size <= |base|
    ensures Spliced(base, blocks, size, chunk, k + 1)
         == Splice(Spliced(base, blocks, size, chunk, k), Stride(k, chunk), blocks[k])
  {
    StrideStep(k, |blocks|, chunk);
  }

  lemma {:induction false} WordByte(words: seq<Long>, w: Width, k: nat, i: nat)
    requires k < |words| && i < w
    ensures Stride(k, w) + i < |WordBytes(words, w)|
    ensures WordBytes(words, w)[Stride(k, w) + i] == EncodeLong(words[k], w)[i]
  {
    StrideApart(k, |words|, w);
    if k > 0 {
      StrideFirst(k, w);
      WordByte(words[1..], w, k - 1, i);
      assert WordBytes(words, w) == EncodeLong(words[0], w) + WordBytes(words[1..], w);
    }
  }

  lemma {:induction false} WordBytesAt(words: seq<Long>, w: Width, k: nat)
    requires k < |words|
    ensures Stride(k, w) + w <= |WordBytes(words, w)|
    ensures WordBytes(words, w)[Stride(k, w)..Stride(k, w) + w] == EncodeLong(words[k], w)
  {
    StrideApart(k, |words|, w);
    var o := Stride(k, w);
    forall i | 0 <= i < w
      ensures WordBytes(words, w)[o..o + w][i] == EncodeLong(words[k], w)[i]
    {
      WordByte(words, w, k, i);
    }
  }

  /** Every field of a record reads back from the record's bytes. */
  lemma {:induction false} RecordFields(rec: Record, w: Width, k: nat)
    requires k < |rec.words|
    ensures SlotFits(RecordBytes(rec, w), Stride(k, w), w)
    ensures GetLong(RecordBytes(rec, w), Stride(k, w), w) == Retained(rec.words[k], w)
  {
    var bytes := RecordBytes(rec, w);
    var words := WordBytes(rec.words, w);
    var o := Stride(k, w);
    WordBytesAt(rec.words, w, k);
    assert bytes[o..o + w] == words[o..o + w];
    DecodeEncodeLong(rec.words[k], w);
  }

  /** The attributes field reads back from the record's bytes. */
  lemma {:induction false} RecordAttributes(rec: Record, w: Width)
    ensures SlotFits(RecordBytes(rec, w), Stride(|rec.words|, w), 4)
    ensures GetInt(RecordBytes(rec, w), Stride(|rec.words|, w)) == rec.attributes
  {
    var bytes := RecordBytes(rec, w);
    var n := |WordBytes(rec.words, w)|;
    assert bytes[n..n + 4] == EncodeInt(rec.attributes);
    DecodeEncodeInt(rec.attributes);
  }

  // ---------------------------------------------------------------------
  // Tables
  // ---------------------------------------------------------------------

  /** Records of `m` words that fit in `chunk` bytes each. */
  predicate Shaped(records: seq<Record>, m: nat, chunk: nat, w: Width)
  {
    RecordSize(m, w) <= chunk && forall i :: 0 <= i < |records| ==> |records[i].words| == m
  }

  function ZeroWords(m: nat): (r: seq<Long>)
    ensures |r| == m && forall i :: 0 <= i < m ==> r[i] == 0
  {
    seq(m, _ => 0)
  }

  /** The record that closes a table: every word and the attributes zero. */
  function Sentinel(m: nat): Record
  {
    Record(ZeroWords(m), 0)
  }

  /** The size `allocateDirect` is asked for: one chunk per record and one for the sentinel. */
  function TableSize(n: nat, chunk: nat): nat
  {
    Stride(n + 1, chunk)
  }

  function Zeros(n: nat): (r: seq<Byte>)
    ensures |r| == n && forall i :: 0 <= i < n ==> r[i] == 0
  {
    seq(n, _ => 0)
  }

  /** `ByteBuffer.allocateDirect(chunk * (n + 1))`: a zero-filled buffer for `n` records and the sentinel. */
  method Allocate(n: nat, chunk: nat) returns (b: array<Byte>)
    ensures fresh(b) && b[..] == Zeros(TableSize(n, chunk))
  {
    StrideIsProduct(n + 1, chunk);
    b := new Byte[chunk * (n + 1)](_ => 0);
  }

  /** The chunk of record `i` lies within a table of `n` records. */
  lemma ChunkFits(i: nat, n: nat, chunk: nat)
    requires i <= n
    ensures Stride(i, chunk) + chunk <= TableSize(n, chunk)
  {
    StrideStep(i, n + 1, chunk);
  }

  /** Record `i` of a table, the sentinel after the last. */
  function RecordOf(records: seq<Record>, m: nat, i: nat): (r: Record)
    requires forall j :: 0 <= j < |records| ==> |records[j].words| == m
    requires i <= |records|
    ensures |r.words| == m
  {
    if i < |records| then records[i] else Sentinel(m)
  }

  /** The bytes of each record, and of the sentinel after them. */
  function Blocks(records: seq<Record>, m: nat, w: Width): (r: seq<seq<Byte>>)
    requires forall i :: 0 <= i < |records| ==> |records[i].words| == m
    ensures |r| == |records| + 1
    ensures forall i :: 0 <= i < |r| ==> r[i] == RecordBytes(RecordOf(records, m, i), w)
    ensures forall i :: 0 <= i < |r| ==> |r[i]| == RecordSize(m, w)
  {
    seq(|records| + 1, i requires 0 <= i <= |records| => RecordBytes(RecordOf(records, m, i), w))
  }

  /** Equal-sized blocks written in turn, `chunk` bytes apart, over `base`: the first `k` of them. */
  function Spliced(base: seq<Byte>, blocks: seq<seq<Byte>>, size: nat, chunk: nat, k: nat): (r: seq<Byte>)
    requires size <= chunk && k <= |blocks| && Stride(|blocks|, chunk) <= |base|
    requires forall i :: 0 <= i < |blocks| ==> |blocks[i]| == size
    ensures |r| == |base|
    decreases k, 1
  {
    if k == 0 then base else SplicedLast(base, blocks, size, chunk, k)
  }

  /** The `k`-th block written over the first `k - 1`. */
  function SplicedLast(base: seq<Byte>, blocks: seq<seq<Byte>>, size: nat, chunk: nat, k: nat): (r: seq<Byte>)
    requires size <= chunk && 0 < k <= |blocks| && Stride(|blocks|, chunk) <= |base|
    requires forall i :: 0 <= i < |blocks| ==> |blocks[i]| == size
    ensures |r| == |base|
    decreases k, 0
  {
    StrideStep(k - 1, |blocks|, chunk);
    Splice(Spliced(base, blocks, size, chunk, k - 1), Stride(k - 1, chunk), blocks[k - 1])
  }

  lemma StrideStep(i: nat, n: nat, c: nat)
    requires i < n
    ensures Stride(i, c) + c <= Stride(n, c)
  {
    if i < n - 1 {
      StrideApart(i, n - 1, c);
    }
  }

  /** Each block written sits whole at its chunk once all later blocks are written too. */
  lemma {:induction false} SplicedBlock(base: seq<Byte>, blocks: seq<seq<Byte>>, size: nat, chunk: nat, k: nat, j: nat)
    requires size <= chunk && j < k <= |blocks| && Stride(|blocks|, chunk) <= |base|
    requires forall i :: 0 <= i < |blocks| ==> |blocks[i]| == size
    ensures Stride(j, chunk) + size <= |base|
    ensures Spliced(base, blocks, size, chunk, k)[Stride(j, chunk)..Stride(j, chunk) + size] == blocks[j]
  {
    StrideStep(j, |blocks|, chunk);
    StrideStep(k - 1, |blocks|, chunk);
    var prev := Spliced(base, blocks, size, chunk, k - 1);
    if j < k - 1 {
      SplicedBlock(base, blocks, size, chunk, k - 1, j);
      StrideApart(j, k - 1, chunk);
      SpliceKeepsWindow(prev, Stride(k - 1, chunk), blocks[k - 1], Stride(j, chunk), size);
    } else {
      SpliceWindow(prev, Stride(k - 1, chunk), blocks[k - 1]);
    }
  }

  /** The committed table: every record, then the sentinel, each in its chunk of a zero-filled buffer. */
  function Image(records: seq<Record>, m: nat, chunk: nat, w: Width): (r: seq<Byte>)
    requires Shaped(records, m, chunk, w)
    ensures |r| == TableSize(|records|, chunk)
  {
    Spliced(Zeros(TableSize(|records|, chunk)), Blocks(records, m, w), RecordSize(m, w), chunk, |records| + 1)
  }

  /** In the committed table, each record and the sentinel sit whole at their chunks. */
  lemma {:induction false} ImageRecord(records: seq<Record>, m: nat, chunk: nat, w: Width, j: nat)
    requires Shaped(records, m, chunk, w) && j <= |records|
    ensures Stride(j, chunk) + RecordSize(m, w) <= TableSize(|records|, chunk)
    ensures Image(records, m, chunk, w)[Stride(j, chunk)..Stride(j, chunk) + RecordSize(m, w)]
         == RecordBytes(RecordOf(records, m, j), w)
  {
    var n := |records|;
    var blocks := Blocks(records, m, w);
    SplicedBlock(Zeros(TableSize(n, chunk)), blocks, RecordSize(m, w), chunk, n + 1, j);
    assert blocks[j] == RecordBytes(RecordOf(records, m, j), w);
  }

  /** A slot read inside a window that holds a record's bytes reads that record's field. */
  lemma {:induction false} WindowWord(image: seq<Byte>, base: nat, rec: Record, w: Width, k: nat)
    requires k < |rec.words|
    requires base + RecordSize(|rec.words|, w) <= |image|
    requires image[base..base + RecordSize(|rec.words|, w)] == RecordBytes(rec, w)
    ensures SlotFits(image, base + Stride(k, w), w)
    ensures GetLong(image, base + Stride(k, w), w) == Retained(rec.words[k], w)
  {
    StrideApart(k, |rec.words|, w);
    RecordFields(rec, w, k);
    GetLongInWindow(image, base, RecordBytes(rec, w), Stride(k, w), w);
  }

  /** A slot read inside a window that holds a record's bytes reads that record's attributes. */
  lemma {:induction false} WindowAttributes(image: seq<Byte>, base: nat, rec: Record, w: Width)
    requires base + RecordSize(|rec.words|, w) <= |image|
    requires image[base..base + RecordSize(|rec.words|, w)] == RecordBytes(rec, w)
    ensures SlotFits(image, base + Stride(|rec.words|, w), 4)
    ensures GetInt(image, base + Stride(|rec.words|, w)) == rec.attributes
  {
    RecordAttributes(rec, w);
    GetIntInWindow(image, base, RecordBytes(rec, w), Stride(|rec.words|, w));
  }

  /**
   * Reading the committed table: word `k` of record `j` is what its slot
   * retains of the record's word, and every word of the closing record
   * reads as zero.
   */
  lemma {:induction false} ImageWord(records: seq<Record>, m: nat, chunk: nat, w: Width, j: nat, k: nat)
    requires Shaped(records, m, chunk, w) && j <= |records| && k < m
    ensures SlotFits(Image(records, m, chunk, w), Stride(j, chunk) + Stride(k, w), w)
    ensures GetLong(Image(records, m, chunk, w), Stride(j, chunk) + Stride(k, w), w)
         == if j < |records| then Retained(records[j].words[k], w) else 0
  {
    var rec := RecordOf(records, m, j);
    ImageRecord(records, m, chunk, w, j);
    WindowWord(Image(records, m, chunk, w), Stride(j, chunk), rec, w, k);
    if j == |records| {
      assert rec.words[k] == 0;
      assert Retained(0, w) == 0;
    }
  }

  /** Reading the committed table: each record's attributes, zero for the closing record. */
  lemma {:induction false} ImageAttributes(records: seq<Record>, m: nat, chunk: nat, w: Width, j: nat)
    requires Shaped(records, m, chunk, w) && j <= |records|
    ensures SlotFits(Image(records, m, chunk, w), Stride(j, chunk) + Stride(m, w), 4)
    ensures GetInt(Image(records, m, chunk, w), Stride(j, chunk) + Stride(m, w))
         == if j < |records| then records[j].attributes else 0
  {
    var rec := RecordOf(records, m, j);
    ImageRecord(records, m, chunk, w, j);
    WindowAttributes(Image(records, m, chunk, w), Stride(j, chunk), rec, w);
  }
}
