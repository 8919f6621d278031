/**
  The encrypted block store: a file of `size` bytes is a run of sealed records of
  64 KiB each, the last one short. The u64 steps of the loops go through `U64`, whose
  precondition is that the step does not overflow; `IndexFits` covers the products inside
  `PlaintextLen` and `RecordOffset`.
 */
module BlockStore {
  import opened Prelude
  import opened SymbolicCrypto
  import opened FlatFile

  const BLOCK: nat := 65536
  const FULL_RECORD: nat := 65576
  const TWO64: nat := 0x1_0000_0000_0000_0000

  function U64(x: nat): nat
    requires x < TWO64
  {
    x
  }

  function BlockCount(size: nat): nat {
    size / BLOCK + if size % BLOCK > 0 then 1 else 0
  }

  function PlaintextLen(size: nat, index: nat): nat {
    if index * BLOCK >= size then 0 else Min(size - index * BLOCK, BLOCK)
  }

  function RecordLen(size: nat, index: nat): nat {
    NONCE_LEN + PlaintextLen(size, index) + TAG_LEN
  }

  function RecordOffset(index: nat): nat {
    index * FULL_RECORD
  }

  /** The length the final `set_len` asks for. */
  function DataFileLen(size: nat): nat {
    if size == 0 then 0 else RecordOffset(BlockCount(size) - 1) + RecordLen(size, BlockCount(size) - 1)
  }

  /** The whole data file of a file of this size has a u64 length. */
  predicate Fits(size: nat) {
    DataFileLen(size) < TWO64
  }

  /** The data file holds the plaintext plus 40 bytes for each started block. */
  lemma DataFileLenClosedForm(size: nat)
    ensures DataFileLen(size) == size + OVERHEAD * BlockCount(size)
  {
  }

  /** Everything the kernel can ask for: offsets are i64 and lengths u32. */
  lemma KernelSizesFit(size: nat)
    requires size < 0x8000_0000_0000_0000 + 0x1_0000_0000
    ensures Fits(size)
  {
  }

  /** No step on a block of a file that fits overflows. */
  lemma IndexFits(size: nat, index: nat)
    requires Fits(size) && index < BlockCount(size)
    ensures index * BLOCK + PlaintextLen(size, index) <= size < TWO64
    ensures RecordOffset(index) + RecordLen(size, index) <= DataFileLen(size) < TWO64
  {
  }

  // ---- What a data file means ----

  /** `read_block` as a function of the file's cells. */
  function BlockAt(cells: seq<Cell>, key: Key, size: nat, index: nat): Option<seq<Byte>> {
    var from := RecordOffset(index);
    var to := from + RecordLen(size, index);
    if to <= |cells| then OpenRecord(key, index, cells[from..to]) else None
  }

  function BlockOf(flat: seq<Byte>, index: nat): seq<Byte> {
    if index * BLOCK >= |flat| then [] else flat[index * BLOCK..Min((index + 1) * BLOCK, |flat|)]
  }

  /** The data file holds exactly `flat` under `key`. At size 0 any bytes will do. */
  ghost predicate Represents(contents: Option<seq<Cell>>, key: Key, size: nat, flat: seq<Byte>) {
    && |flat| == size
    && (size > 0 ==>
          && contents.Some?
          && |contents.value| == DataFileLen(size)
          && forall i: nat | i < BlockCount(size) :: BlockAt(contents.value, key, size, i) == Some(BlockOf(flat, i)))
  }

  lemma BlockOfLength(flat: seq<Byte>, index: nat)
    ensures |BlockOf(flat, index)| == PlaintextLen(|flat|, index)
    ensures index + 1 < BlockCount(|flat|) ==> PlaintextLen(|flat|, index) == BLOCK
  {
  }

  lemma BlockAtLength(cells: seq<Cell>, key: Key, size: nat, index: nat)
    requires BlockAt(cells, key, size, index).Some?
    ensures |BlockAt(cells, key, size, index).value| == PlaintextLen(size, index)
  {
    var from := RecordOffset(index);
    OpenedWasSealed(key, index, cells[from..from + RecordLen(size, index)]);
  }

  /** Equal cells in the record's window read as the same block. */
  lemma BlockAtFrame(cells: seq<Cell>, cells': seq<Cell>, key: Key, size: nat, size': nat, index: nat)
    requires RecordLen(size, index) == RecordLen(size', index)
    requires RecordOffset(index) + RecordLen(size, index) <= |cells|
    requires RecordOffset(index) + RecordLen(size, index) <= |cells'|
    requires forall j | RecordOffset(index) <= j < RecordOffset(index) + RecordLen(size, index) :: cells[j] == cells'[j]
    ensures BlockAt(cells, key, size, index) == BlockAt(cells', key, size', index)
  {
    var from := RecordOffset(index);
    var to := from + RecordLen(size, index);
    assert cells[from..to] == cells'[from..to];
  }

  // ---- A seekable file ----

  /** Zero-extend to `len`, the effect of writing past the end. */
  function Padded(cells: seq<Cell>, len: nat): (r: seq<Cell>)
    ensures |r| == Max(|cells|, len)
    ensures cells <= r
  {
    if |cells| < len then cells + seq(len - |cells|, _ => Plain(0)) else cells
  }

  function Overwrite(cells: seq<Cell>, offset: nat, record: seq<Cell>): (r: seq<Cell>)
    ensures |r| == Max(|cells|, offset + |record|)
    ensures r[offset..offset + |record|] == record
    ensures forall j | 0 <= j < |cells| && !(offset <= j < offset + |record|) :: r[j] == cells[j]
  {
    var p := Padded(cells, offset + |record|);
    p[..offset] + record + p[offset + |record|..]
  }

  function SetLen(cells: seq<Cell>, len: nat): seq<Cell> {
    Padded(cells, len)[..len]
  }

  datatype IoError = Missing | Unreadable(index: nat)

  class DataFile {
    var contents: Option<seq<Cell>>

    constructor (contents: Option<seq<Cell>>)
      ensures this.contents == contents
    {
      this.contents := contents;
    }

    /** `open_rw`: create when missing, never truncate. */
    method OpenRw()
      modifies this
      ensures contents == if old(contents).Some? then old(contents) else Some([])
    {
      if contents.None? {
        contents := Some([]);
      }
    }
  }

  method ReadBlock(file: DataFile, key: Key, size: nat, index: nat) returns (r: Result<seq<Byte>, IoError>)
    requires file.contents.Some? && Fits(size) && index < BlockCount(size)
    ensures r.Ok? <==> BlockAt(file.contents.value, key, size, index).Some?
    ensures r.Ok? ==>
      r.value == BlockAt(file.contents.value, key, size, index).value && |r.value| == PlaintextLen(size, index)
  {
    var len := U64(RecordLen(size, index));
    var from := U64(RecordOffset(index));
    var cells := file.contents.value;
    if from + len > |cells| {
      return Err(Unreadable(index));
    }
    match OpenRecord(key, index, cells[from..from + len])
    case None => r := Err(Unreadable(index));
    case Some(plaintext) =>
      BlockAtLength(cells, key, size, index);
      r := Ok(plaintext);
  }

  method WriteBlock(file: DataFile, key: Key, index: nat, plaintext: seq<Byte>) returns (ghost nonce: nat)
    requires file.contents.Some? && RecordOffset(index) + |plaintext| + OVERHEAD < TWO64
    modifies file
    ensures file.contents == Some(Overwrite(old(file.contents).value, RecordOffset(index),
      Record(key, nonce, index, plaintext)))
  {
    var drawn: nat := *;
    nonce := drawn;
    var from := U64(RecordOffset(index));
    file.contents := Some(Overwrite(file.contents.value, from, Record(key, drawn, index, plaintext)));
  }

  // ---- read_range ----

  ghost predicate BlocksOpen(contents: Option<seq<Cell>>, key: Key, size: nat, from: nat, to: nat) {
    contents.Some? && forall i: nat | from <= i < to :: BlockAt(contents.value, key, size, i).Some?
  }

  /** Byte `pos` of the file, when its block opens. */
  function ByteAt(cells: seq<Cell>, key: Key, size: nat, pos: nat): Byte {
    var block := BlockAt(cells, key, size, pos / BLOCK);
    if block.Some? && pos % BLOCK < |block.value| then block.value[pos % BLOCK] else 0
  }

  ghost predicate BytesFrom(cells: seq<Cell>, key: Key, size: nat, offset: nat, out: seq<Byte>) {
    forall j | 0 <= j < |out| :: out[j] == ByteAt(cells, key, size, offset + j)
  }

  lemma NoBytes(cells: seq<Cell>, key: Key, size: nat, offset: nat)
    ensures BytesFrom(cells, key, size, offset, [])
  {
  }

  /** The last block of a range lies inside the file. */
  lemma LastBlock(size: nat, offset: nat, len: nat)
    requires offset < size && len > 0
    ensures offset / BLOCK <= (Min(offset + len, size) - 1) / BLOCK < BlockCount(size)
  {
  }

  /** One turn of the read loop appends the part of block `index` that is in range. */
  lemma ReadStep(cells: seq<Cell>, key: Key, size: nat, offset: nat, end: nat, index: nat, out: seq<Byte>)
    requires offset < end <= size && offset / BLOCK <= index <= (end - 1) / BLOCK
    requires BlockAt(cells, key, size, index).Some?
    requires |out| == Min(Max(index * BLOCK, offset), end) - offset
    requires BytesFrom(cells, key, size, offset, out)
    ensures var block := BlockAt(cells, key, size, index).value;
            var from := SatSub(offset, index * BLOCK);
            var to := Min(end - index * BLOCK, |block|);
            && 0 <= from < to <= |block|
            && |out| + to - from == Min(Max((index + 1) * BLOCK, offset), end) - offset
            && BytesFrom(cells, key, size, offset, out + block[from..to])
  {
    BlockAtLength(cells, key, size, index);
    hide BlockAt;
    var block := BlockAt(cells, key, size, index).value;
    var from := SatSub(offset, index * BLOCK);
    var to := Min(end - index * BLOCK, |block|);
    var out' := out + block[from..to];
    forall j | 0 <= j < |out'| ensures out'[j] == ByteAt(cells, key, size, offset + j) {
      if j >= |out| {
        var pos := offset + j;
        assert pos / BLOCK == index && pos % BLOCK == from + (j - |out|);
      }
    }
  }

  /**
    The answer on any file whatsoever: success exactly when every record touched is
    authentic, and then the bytes of those records.
   */
  ghost predicate ReadAnswer(contents: Option<seq<Cell>>, key: Key, size: nat, offset: nat, len: nat,
    r: Result<seq<Byte>, IoError>) {
    && (r.Ok? <==>
          || offset >= size || len == 0
          || BlocksOpen(contents, key, size, offset / BLOCK, (Min(offset + len, size) - 1) / BLOCK + 1))
    && (r.Ok? && (offset >= size || len == 0) ==> r.value == [])
    && (r.Ok? && offset < size && len > 0 ==>
          && |r.value| == Min(offset + len, size) - offset
          && BytesFrom(contents.value, key, size, offset, r.value))
  }

  method ReadRange(file: DataFile, key: Key, size: nat, offset: nat, len: nat) returns (r: Result<seq<Byte>, IoError>)
    requires Fits(size) && offset + len < TWO64
    ensures ReadAnswer(file.contents, key, size, offset, len, r)
    ensures forall flat :: Represents(file.contents, key, size, flat) ==> r == Ok(Slice(flat, offset, len))
  {
    hide BlockAt, Slice, BlockOf, BytesFrom, ByteAt, BlockCount, Fits, PlaintextLen, Represents, ReadAnswer;
    if offset >= size || len == 0 {
      EmptyRead(file.contents, key, size, offset, len);
      return Ok([]);
    }
    LastBlock(size, offset, len);
    var end := Min(U64(offset + len), size);
    var first := offset / BLOCK;
    var last := (end - 1) / BLOCK;
    if file.contents.None? {
      FailedRead(file.contents, key, size, offset, len, first, Missing);
      return Err(Missing);
    }
    var out: seq<Byte> := [];
    var index := first;
    NoBytes(file.contents.value, key, size, offset);
    while index <= last
      invariant first <= index <= last + 1
      invariant BlocksOpen(file.contents, key, size, first, index)
      invariant |out| == Min(Max(index * BLOCK, offset), end) - offset
      invariant BytesFrom(file.contents.value, key, size, offset, out)
    {
      var block := ReadBlock(file, key, size, index);
      if block.Err? {
        FailedRead(file.contents, key, size, offset, len, index, block.error);
        return Err(block.error);
      }
      IndexFits(size, index);
      var blockStart := U64(index * BLOCK);
      var from := SatSub(offset, blockStart);
      var to := Min(end - blockStart, |block.value|);
      ReadStep(file.contents.value, key, size, offset, end, index, out);
      if from < to {
        out := out + block.value[from..to];
      }
      index := index + 1;
    }
    r := Ok(out);
    FinishedRead(file.contents, key, size, offset, len, out);
  }

  /** A record that does not open fails the read, and the file represents nothing. */
  lemma FailedRead(contents: Option<seq<Cell>>, key: Key, size: nat, offset: nat, len: nat, index: nat, error: IoError)
    requires offset < size && len > 0 && offset / BLOCK <= index <= (Min(offset + len, size) - 1) / BLOCK
    requires contents.None? || BlockAt(contents.value, key, size, index).None?
    ensures ReadAnswer(contents, key, size, offset, len, Err(error))
    ensures forall flat :: !Represents(contents, key, size, flat)
  {
    LastBlock(size, offset, len);
    hide BlockAt, BlockOf, BytesFrom, BlockCount, DataFileLen;
  }

  lemma FinishedRead(contents: Option<seq<Cell>>, key: Key, size: nat, offset: nat, len: nat, out: seq<Byte>)
    requires offset < size && len > 0 && |out| == Min(offset + len, size) - offset
    requires BlocksOpen(contents, key, size, offset / BLOCK, (Min(offset + len, size) - 1) / BLOCK + 1)
    requires BytesFrom(contents.value, key, size, offset, out)
    ensures ReadAnswer(contents, key, size, offset, len, Ok(out))
    ensures forall flat :: Represents(contents, key, size, flat) ==> out == Slice(flat, offset, len)
  {
    hide BlockAt, Slice, BytesFrom, Represents, BlocksOpen;
    forall flat | Represents(contents, key, size, flat) ensures out == Slice(flat, offset, len) {
      ReadIsSlice(contents, key, size, flat, offset, len, out);
    }
  }

  lemma RepresentedOpens(contents: Option<seq<Cell>>, key: Key, size: nat, from: nat, to: nat)
    requires to <= BlockCount(size) && size > 0
    ensures forall flat :: Represents(contents, key, size, flat) ==> BlocksOpen(contents, key, size, from, to)
  {
    hide BlockAt, BlockOf, BlockCount;
  }

  lemma EmptyRead(contents: Option<seq<Cell>>, key: Key, size: nat, offset: nat, len: nat)
    requires offset >= size || len == 0
    ensures ReadAnswer(contents, key, size, offset, len, Ok([]))
    ensures forall flat :: Represents(contents, key, size, flat) ==> Slice(flat, offset, len) == []
  {
    forall flat | Represents(contents, key, size, flat) ensures Slice(flat, offset, len) == [] {
    }
  }

  lemma ReadIsSlice(contents: Option<seq<Cell>>, key: Key, size: nat, flat: seq<Byte>, offset: nat, len: nat,
    out: seq<Byte>)
    requires Represents(contents, key, size, flat) && offset < size && len > 0
    requires |out| == Min(offset + len, size) - offset
    requires BytesFrom(contents.value, key, size, offset, out)
    ensures out == Slice(flat, offset, len)
  {
    hide ByteAt, BlockAt, BlockOf;
    forall j | 0 <= j < |out| ensures out[j] == flat[offset + j] {
      ByteOfRepresented(contents, key, size, flat, offset + j);
    }
  }

  lemma ByteOfRepresented(contents: Option<seq<Cell>>, key: Key, size: nat, flat: seq<Byte>, pos: nat)
    requires Represents(contents, key, size, flat) && pos < size
    ensures BlockAt(contents.value, key, size, pos / BLOCK).Some?
    ensures ByteAt(contents.value, key, size, pos) == flat[pos]
  {
    var i := pos / BLOCK;
    assert i < BlockCount(size);
    assert BlockOf(flat, i)[pos % BLOCK] == flat[pos];
  }

  // ---- write_range ----

  function TouchedFrom(size: nat, offset: nat): nat {
    Min(offset / BLOCK, SatSub(BlockCount(size), 1))
  }

  /** The flat bytes as far as the records of the file open. */
  function Flat(contents: Option<seq<Cell>>, key: Key, size: nat): seq<Byte> {
    seq(size, (pos: nat) => if contents.Some? then ByteAt(contents.value, key, size, pos) else 0)
  }

  lemma FlatOfRepresented(contents: Option<seq<Cell>>, key: Key, size: nat, flat: seq<Byte>)
    requires Represents(contents, key, size, flat)
    ensures Flat(contents, key, size) == flat
  {
    forall pos | 0 <= pos < size ensures Flat(contents, key, size)[pos] == flat[pos] {
      ByteOfRepresented(contents, key, size, flat, pos);
    }
  }

  lemma FlatOfBlock(contents: Option<seq<Cell>>, key: Key, size: nat, index: nat)
    requires contents.Some? && index < BlockCount(size)
    requires BlockAt(contents.value, key, size, index).Some?
    ensures BlockOf(Flat(contents, key, size), index) == BlockAt(contents.value, key, size, index).value
  {
    BlockAtLength(contents.value, key, size, index);
    var b := BlockOf(Flat(contents, key, size), index);
    forall j | 0 <= j < |b| ensures b[j] == BlockAt(contents.value, key, size, index).value[j] {
      assert (index * BLOCK + j) / BLOCK == index && (index * BLOCK + j) % BLOCK == j;
    }
  }

  /** Byte `j` of block `index` after the data has been laid over it. */
  function PatchedByte(block: seq<Byte>, index: nat, offset: nat, data: seq<Byte>, j: nat): Byte {
    var pos := index * BLOCK + j;
    if offset <= pos < offset + |data| then data[pos - offset]
    else if j < |block| then block[j]
    else 0
  }

  lemma PatchedBlockIsOverlay(flat: seq<Byte>, index: nat, offset: nat, data: seq<Byte>, buf: seq<Byte>)
    requires |buf| == PlaintextLen(Max(|flat|, offset + |data|), index)
    requires forall j | 0 <= j < |buf| :: buf[j] == PatchedByte(BlockOf(flat, index), index, offset, data, j)
    ensures buf == BlockOf(Overlay(flat, offset, data), index)
  {
    var over := Overlay(flat, offset, data);
    var want := BlockOf(over, index);
    assert |want| == |buf|;
    forall j | 0 <= j < |buf| ensures buf[j] == want[j] {
      assert want[j] == over[index * BLOCK + j];
    }
  }

  /** A record just laid down reads back. */
  lemma WrittenBlockReads(cells: seq<Cell>, key: Key, nonce: nat, size: nat, index: nat, plaintext: seq<Byte>)
    requires |plaintext| == PlaintextLen(size, index)
    ensures BlockAt(Overwrite(cells, RecordOffset(index), Record(key, nonce, index, plaintext)), key, size, index) ==
      Some(plaintext)
  {
    RecordOpensOnlyInPlace(key, nonce, index, plaintext, key, index);
  }

  /** Blocks [from, to) of the file under construction are the new ones. */
  ghost predicate Laid(cells: seq<Cell>, key: Key, size: nat, flat: seq<Byte>, from: nat, to: nat) {
    forall i: nat | from <= i < to :: BlockAt(cells, key, size, i) == Some(BlockOf(flat, i))
  }

  /** The cells outside [from, to) are those of `before`. */
  ghost predicate Untouched(cells: seq<Cell>, before: seq<Cell>, from: nat, to: nat) {
    && |before| <= |cells|
    && forall j | 0 <= j < |before| && !(from <= j < to) :: cells[j] == before[j]
  }

  /** Laid blocks survive any change behind them. */
  lemma LaidFrame(cells: seq<Cell>, cells': seq<Cell>, key: Key, size: nat, flat: seq<Byte>, from: nat, to: nat)
    requires Laid(cells, key, size, flat, from, to)
    requires forall i: nat | from <= i < to :: RecordOffset(i) + RecordLen(size, i) <= |cells'|
    requires forall j | 0 <= j < |cells| && j < |cells'| && j < RecordOffset(to) :: cells[j] == cells'[j]
    ensures Laid(cells', key, size, flat, from, to)
  {
    forall i: nat | from <= i < to ensures BlockAt(cells', key, size, i) == Some(BlockOf(flat, i)) {
      assert BlockAt(cells, key, size, i).Some?;
      BlockAtFrame(cells, cells', key, size, size, i);
    }
  }

  /** Cutting behind the last record leaves a file that represents the laid blocks. */
  lemma CutRepresents(cells: seq<Cell>, key: Key, size: nat, flat: seq<Byte>)
    requires size == |flat| > 0 && Laid(cells, key, size, flat, 0, BlockCount(size)) && DataFileLen(size) <= |cells|
    ensures Represents(Some(SetLen(cells, DataFileLen(size))), key, size, flat)
  {
    hide BlockAt, BlockOf;
    LaidFrame(cells, SetLen(cells, DataFileLen(size)), key, size, flat, 0, BlockCount(size));
  }

  /** The source's resize and copy, in place on one buffer. */
  method PatchBuffer(block: seq<Byte>, index: nat, newSize: nat, offset: nat, data: seq<Byte>) returns (buf: seq<Byte>)
    requires index < BlockCount(newSize) && newSize < TWO64 && offset + |data| <= newSize
    ensures |buf| == PlaintextLen(newSize, index)
    ensures forall j | 0 <= j < |buf| :: buf[j] == PatchedByte(block, index, offset, data, j)
  {
    hide PlaintextLen, BlockCount, Resize, PatchedByte, CopiedOver;
    BlockEndFits(newSize, index);
    var target := PlaintextLen(newSize, index);
    buf := Resize(block, target);
    ResizedBytes(block, target);
    buf := CopyInto(buf, U64(index * BLOCK), offset, data);
    PatchIsPatched(block, index, offset, data, target);
  }

  /** Copy the part of `data` that falls into the block at `blockStart`. */
  method CopyInto(block: seq<Byte>, blockStart: nat, offset: nat, data: seq<Byte>) returns (buf: seq<Byte>)
    requires blockStart + |block| < TWO64 && offset + |data| < TWO64
    ensures buf == CopiedOver(block, blockStart, offset, data)
  {
    hide CopyFromSlice;
    buf := block;
    var blockEnd := U64(blockStart + |block|);
    var writeStart := Max(offset, blockStart);
    var writeEnd := Min(U64(offset + |data|), blockEnd);
    if writeStart < writeEnd {
      buf := CopyFromSlice(buf, writeStart - blockStart, data, writeStart - offset, writeEnd - writeStart);
    }
  }

  /** `n` bytes of `data` from `src` on, over those of `buf` from `dst` on. */
  function CopyFromSlice(buf: seq<Byte>, dst: nat, data: seq<Byte>, src: nat, n: nat): seq<Byte>
    requires dst + n <= |buf| && src + n <= |data|
  {
    buf[..dst] + data[src..src + n] + buf[dst + n..]
  }

  function CopiedOver(base: seq<Byte>, start: nat, offset: nat, data: seq<Byte>): seq<Byte> {
    var lo, hi := Max(offset, start), Min(offset + |data|, start + |base|);
    if lo < hi then CopyFromSlice(base, lo - start, data, lo - offset, hi - lo) else base
  }

  lemma ResizedBytes(block: seq<Byte>, target: nat)
    ensures |Resize(block, target)| == target
  {
  }

  lemma ResizedByte(block: seq<Byte>, target: nat, j: nat)
    requires j < target
    ensures Resize(block, target)[j] == if j < |block| then block[j] else 0
  {
  }

  /** What the copy leaves, byte by byte. */
  lemma PatchIsPatched(block: seq<Byte>, index: nat, offset: nat, data: seq<Byte>, target: nat)
    ensures var buf := CopiedOver(Resize(block, target), index * BLOCK, offset, data);
            |buf| == target && forall j | 0 <= j < |buf| :: buf[j] == PatchedByte(block, index, offset, data, j)
  {
    hide Resize, CopiedOver;
    var base := Resize(block, target);
    ResizedBytes(block, target);
    CopiedBytes(base, index * BLOCK, offset, data);
    var buf := CopiedOver(base, index * BLOCK, offset, data);
    forall j | 0 <= j < target ensures buf[j] == PatchedByte(block, index, offset, data, j) {
      ResizedByte(block, target, j);
    }
  }

  lemma CopiedBytes(base: seq<Byte>, start: nat, offset: nat, data: seq<Byte>)
    ensures var buf := CopiedOver(base, start, offset, data);
            |buf| == |base| && forall j | 0 <= j < |buf| ::
              buf[j] == if offset <= start + j < offset + |data| then data[start + j - offset] else base[j]
  {
    hide CopyFromSlice;
    var lo, hi := Max(offset, start), Min(offset + |data|, start + |base|);
    if lo < hi { SlicedBytes(base, lo - start, data, lo - offset, hi - lo); }
  }

  lemma BlockEndFits(size: nat, index: nat)
    requires index < BlockCount(size)
    ensures index * BLOCK + PlaintextLen(size, index) <= size
  {
  }

  lemma SlicedBytes(buf: seq<Byte>, dst: nat, data: seq<Byte>, src: nat, n: nat)
    requires dst + n <= |buf| && src + n <= |data|
    ensures var out := CopyFromSlice(buf, dst, data, src, n);
            && |out| == |buf|
            && forall j: nat | j < |out| :: out[j] == if dst <= j < dst + n then data[src + j - dst] else buf[j]
  {
    var piece := data[src..src + n];
    assert forall k: nat | k < n :: piece[k] == data[src + k];
    var out := CopyFromSlice(buf, dst, data, src, n);
    forall j: nat | j < |out| ensures out[j] == if dst <= j < dst + n then data[src + j - dst] else buf[j] {
      if dst <= j < dst + n { assert out[j] == piece[j - dst]; }
    }
  }

  /** The blocks before the first touched one are full, so they mean the same at both sizes. */
  lemma UntouchedPrefix(before: seq<Cell>, cells: seq<Cell>, key: Key, size: nat, flat: seq<Byte>, offset: nat,
    data: seq<Byte>)
    requires Represents(Some(before), key, size, flat)
    requires Untouched(cells, before, RecordOffset(TouchedFrom(size, offset)),
      RecordOffset(BlockCount(Max(size, offset + |data|))))
    ensures Laid(cells, key, Max(size, offset + |data|), Overlay(flat, offset, data), 0, TouchedFrom(size, offset))
  {
    hide BlockOf, BlockCount, PlaintextLen, Overlay, TouchedFrom;
    var newSize := Max(size, offset + |data|);
    forall i: nat | i < TouchedFrom(size, offset)
      ensures BlockAt(cells, key, newSize, i) == Some(BlockOf(Overlay(flat, offset, data), i))
    {
      PrefixBlock(flat, offset, data, i);
      assert BlockAt(before, key, size, i) == Some(BlockOf(flat, i));
      BlockAtFrame(before, cells, key, size, newSize, i);
    }
  }

  lemma PrefixBlock(flat: seq<Byte>, offset: nat, data: seq<Byte>, i: nat)
    requires i < TouchedFrom(|flat|, offset)
    ensures 0 < |flat| && i < BlockCount(|flat|) <= BlockCount(Max(|flat|, offset + |data|))
    ensures PlaintextLen(Max(|flat|, offset + |data|), i) == PlaintextLen(|flat|, i) == BLOCK
    ensures BlockOf(Overlay(flat, offset, data), i) == BlockOf(flat, i)
  {
    PrefixBlockSizes(|flat|, offset, Max(|flat|, offset + |data|), i);
    hide TouchedFrom, BlockCount, PlaintextLen;
    assert Overlay(flat, offset, data)[i * BLOCK..(i + 1) * BLOCK] == flat[i * BLOCK..(i + 1) * BLOCK];
  }

  lemma PrefixBlockSizes(size: nat, offset: nat, newSize: nat, i: nat)
    requires i < TouchedFrom(size, offset) && size <= newSize
    ensures i < BlockCount(size) <= BlockCount(newSize)
    ensures PlaintextLen(newSize, i) == PlaintextLen(size, i) == BLOCK
    ensures (i + 1) * BLOCK <= size && (i + 1) * BLOCK <= offset
  {
  }

  /**
    The state of the write loop at `index`: the blocks from `from` are laid at the new
    size, everything else is as before, and the old records seen so far were authentic.
   */
  ghost predicate Rewritten(before: seq<Cell>, cells: seq<Cell>, key: Key, size: nat, newSize: nat,
                            flat: seq<Byte>, from: nat, index: nat)
  {
    && from <= index <= BlockCount(newSize)
    && |cells| == (if index == from then |before| else Max(|before|,
      RecordOffset(index - 1) + RecordLen(newSize, index - 1)))
    && Untouched(cells, before, RecordOffset(from), RecordOffset(index))
    && Laid(cells, key, newSize, flat, from, index)
    && forall i: nat | from <= i < index && i < BlockCount(size) :: BlockAt(before, key, size, i).Some?
  }

  lemma RewriteInit(before: seq<Cell>, key: Key, size: nat, flat: seq<Byte>, offset: nat, newSize: nat)
    requires size <= newSize && offset <= newSize
    ensures BlockCount(size) <= BlockCount(newSize)
    ensures Rewritten(before, before, key, size, newSize, flat, TouchedFrom(size, offset), TouchedFrom(size, offset))
  {
    hide BlockAt, BlockOf;
  }

  lemma WriteSizes(base: seq<Byte>, offset: nat, data: seq<Byte>)
    requires Fits(Max(|base|, offset + |data|))
    ensures |Overlay(base, offset, data)| == Max(|base|, offset + |data|) < TWO64
    ensures Fits(|base|)
  {
  }

  lemma NoBlocksWhenEmpty(size: nat)
    ensures BlockCount(size) == 0 <==> size == 0
  {
  }

  lemma WriteNothing(contents: Option<seq<Cell>>, key: Key, data: seq<Byte>)
    requires data == []
    ensures forall flat :: Represents(contents, key, 0, flat) ==> Represents(contents, key, 0, Overlay(flat, 0, data))
  {
  }

  /** Creating the missing file changes no meaning: only size 0 has no file. */
  lemma CreateKeepsMeaning(key: Key, size: nat)
    ensures forall flat :: Represents(None, key, size, flat) ==> Represents(Some([]), key, size, flat)
  {
  }

  lemma NoBlockBeyondEnd(flat: seq<Byte>, index: nat)
    requires BlockCount(|flat|) <= index
    ensures BlockOf(flat, index) == []
  {
  }

  lemma FlatLength(contents: Option<seq<Cell>>, key: Key, size: nat)
    ensures |Flat(contents, key, size)| == size
  {
  }

  /** Reaching the end means every reread record was authentic, so the file was not empty. */
  lemma RewriteOpened(before: seq<Cell>, cells: seq<Cell>, key: Key, size: nat, newSize: nat, flat: seq<Byte>,
    offset: nat)
    requires 0 < size <= newSize
    requires Rewritten(before, cells, key, size, newSize, flat, TouchedFrom(size, offset), BlockCount(newSize))
    ensures BlocksOpen(Some(before), key, size, TouchedFrom(size, offset), BlockCount(size)) && before != []
  {
    hide OpenRecord, BlockOf;
    var i := TouchedFrom(size, offset);
    assert BlockAt(before, key, size, i).Some?;
  }

  /** The next old record still reads as it did at the start. */
  lemma NextRecordIntact(before: seq<Cell>, cells: seq<Cell>, key: Key, size: nat, newSize: nat,
                         flat: seq<Byte>, from: nat, index: nat)
    requires Rewritten(before, cells, key, size, newSize, flat, from, index) && index < BlockCount(size) &&
      size <= newSize
    ensures BlockAt(cells, key, size, index) == BlockAt(before, key, size, index)
  {
    hide Laid, OpenRecord;
    if RecordOffset(index) + RecordLen(size, index) <= |before| {
      BlockAtFrame(before, cells, key, size, size, index);
    }
  }

  lemma RewriteStep(before: seq<Cell>, cells: seq<Cell>, key: Key, nonce: nat, size: nat, newSize: nat,
                    flat: seq<Byte>, from: nat, index: nat)
    requires Rewritten(before, cells, key, size, newSize, flat, from, index) && index < BlockCount(newSize) &&
      |flat| == newSize
    requires index < BlockCount(size) ==> BlockAt(before, key, size, index).Some?
    ensures Rewritten(before, Overwrite(cells, RecordOffset(index), Record(key, nonce, index, BlockOf(flat, index))),
                      key, size, newSize, flat, from, index + 1)
  {
    hide Overwrite, Record, BlockOf, BlockAt, BlockCount;
    var cells' := Overwrite(cells, RecordOffset(index), Record(key, nonce, index, BlockOf(flat, index)));
    BlockOfLength(flat, index);
    WrittenBlockReads(cells, key, nonce, newSize, index, BlockOf(flat, index));
    LaidFrame(cells, cells', key, newSize, flat, from, index);
  }

  /** Rewriting from the first touched block to the end, then cutting, yields the overlay. */
  lemma WriteRangeMeaning(before: seq<Cell>, cells: seq<Cell>, key: Key, size: nat, flat: seq<Byte>, offset: nat,
    data: seq<Byte>)
    requires Represents(Some(before), key, size, flat) && Max(size, offset + |data|) > 0
    requires var n := Max(size, offset + |data|);
             Rewritten(before, cells, key, size, n, Overlay(Flat(Some(before), key, size), offset, data),
                       TouchedFrom(size, offset), BlockCount(n))
    ensures var n := Max(size, offset + |data|);
            Represents(Some(SetLen(cells, DataFileLen(n))), key, n, Overlay(flat, offset, data))
  {
    var n := Max(size, offset + |data|);
    FlatOfRepresented(Some(before), key, size, flat);
    UntouchedPrefix(before, cells, key, size, flat, offset, data);
    hide BlockAt, BlockOf, Flat;
    CutRepresents(cells, key, n, Overlay(flat, offset, data));
  }

  /** One turn of the write loop: reread at the old size, patch, lay down at the new size. */
  method RewriteBlock(file: DataFile, key: Key, size: nat, newSize: nat, offset: nat, data: seq<Byte>, index: nat,
                      ghost before: seq<Cell>, ghost from: nat) returns (r: Result<(), IoError>)
    requires newSize == Max(size, offset + |data|) && Fits(newSize) && index < BlockCount(newSize) &&
      file.contents.Some?
    requires Rewritten(before, file.contents.value, key, size, newSize,
      Overlay(Flat(Some(before), key, size), offset, data), from, index)
    modifies file
    ensures r.Err? <==> index < BlockCount(size) && BlockAt(before, key, size, index).None?
    ensures file.contents.Some?
    ensures r.Ok? ==> Rewritten(before, file.contents.value, key, size, newSize,
                                Overlay(Flat(Some(before), key, size), offset, data), from, index + 1)
  {
    hide BlockAt, BlockOf, Overlay, Flat, BlockCount, PlaintextLen, Fits, Rewritten;
    ghost var base := Flat(Some(before), key, size);
    ghost var flat := Overlay(base, offset, data);
    FlatLength(Some(before), key, size);
    WriteSizes(base, offset, data);
    var buf: seq<Byte> := [];
    if index < BlockCount(size) {
      NextRecordIntact(before, file.contents.value, key, size, newSize, flat, from, index);
      var block := ReadBlock(file, key, size, index);
      if block.Err? {
        return Err(block.error);
      }
      buf := block.value;
      FlatOfBlock(Some(before), key, size, index);
    } else {
      NoBlockBeyondEnd(base, index);
    }
    buf := PatchBuffer(buf, index, newSize, offset, data);
    PatchedBlockIsOverlay(base, index, offset, data, buf);
    ghost var cells := file.contents.value;
    IndexFits(newSize, index);
    ghost var nonce := WriteBlock(file, key, index, buf);
    RewriteStep(before, cells, key, nonce, size, newSize, flat, from, index);
    r := Ok(());
  }

  /**
    Succeeds exactly when the records it must reread are authentic. On a file that
    represents `flat`, whatever bytes lie beyond it, the result represents the overlay.
   */
  method WriteRange(file: DataFile, key: Key, size: nat, offset: nat, data: seq<Byte>) returns (r: Result<nat, IoError>)
    requires offset + |data| < TWO64 && Fits(Max(size, offset + |data|))
    modifies file
    ensures r.Ok? <==> size == 0 || BlocksOpen(old(file.contents), key, size, TouchedFrom(size, offset),
      BlockCount(size))
    ensures r.Ok? ==> r.value == Max(size, offset + |data|)
    ensures size == 0 && offset == 0 && data == [] ==> file.contents == old(file.contents)
    ensures forall flat :: Represents(old(file.contents), key, size, flat) ==>
      r.Ok? && Represents(file.contents, key, r.value, Overlay(flat, offset, data))
  {
    hide BlockAt, BlockOf, Overlay, Flat, BlockCount, PlaintextLen, Fits, Represents, Rewritten;
    var newSize := Max(size, U64(offset + |data|));
    var oldBlocks := BlockCount(size);
    var newBlocks := BlockCount(newSize);
    NoBlocksWhenEmpty(size);
    NoBlocksWhenEmpty(newSize);
    if newBlocks == 0 {
      WriteNothing(file.contents, key, data);
      return Ok(newSize);
    }
    CreateKeepsMeaning(key, size);
    var touchedFrom := Min(offset / BLOCK, SatSub(oldBlocks, 1));
    file.OpenRw();
    ghost var before := file.contents.value;
    ghost var base := Flat(Some(before), key, size);
    ghost var flat := Overlay(base, offset, data);

    var index := touchedFrom;
    FlatLength(Some(before), key, size);
    WriteSizes(base, offset, data);
    RewriteInit(before, key, size, flat, offset, newSize);
    if size > 0 {
      RepresentedOpens(old(file.contents), key, size, touchedFrom, oldBlocks);
    }
    while index < newBlocks
      invariant touchedFrom <= index <= newBlocks
      invariant file.contents.Some?
      invariant Rewritten(before, file.contents.value, key, size, newSize, flat, touchedFrom, index)
    {
      var block := RewriteBlock(file, key, size, newSize, offset, data, index, before, touchedFrom);
      if block.Err? {
        return Err(block.error);
      }
      index := index + 1;
    }
    ghost var cells := file.contents.value;
    IndexFits(newSize, newBlocks - 1);
    file.contents := Some(SetLen(file.contents.value, U64(RecordOffset(newBlocks - 1) + RecordLen(newSize,
      newBlocks - 1))));
    r := Ok(newSize);
    if size > 0 {
      RewriteOpened(before, cells, key, size, newSize, flat, offset);
    }
    forall meant | Represents(old(file.contents), key, size, meant)
      ensures Represents(file.contents, key, newSize, Overlay(meant, offset, data))
    {
      WriteRangeMeaning(before, cells, key, size, meant, offset, data);
    }
  }

  // ---- truncate ----

  method Truncate(file: DataFile, key: Key, size: nat, newSize: nat) returns (r: Result<(), IoError>)
    requires Fits(size) && Fits(newSize) && newSize < TWO64
    modifies file
    ensures 0 < newSize < size ==>
      (r.Ok? <==> old(file.contents).Some? && BlockAt(old(file.contents).value, key, size,
        BlockCount(newSize) - 1).Some?)
    ensures newSize == 0 || newSize == size ==> r.Ok?
    ensures newSize == size ==> file.contents == old(file.contents)
    ensures newSize == 0 < size ==> file.contents == Some([])
    ensures 0 < size < newSize ==> (r.Ok? <==> BlocksOpen(old(file.contents), key, size, TouchedFrom(size, newSize),
      BlockCount(size)))
    ensures forall flat :: Represents(old(file.contents), key, size, flat) ==>
      r.Ok? && Represents(file.contents, key, newSize, Resize(flat, newSize))
  {
    if newSize > size {
      var grown := WriteRange(file, key, size, newSize, []);
      forall flat | Represents(old(file.contents), key, size, flat)
        ensures Overlay(flat, newSize, []) == Resize(flat, newSize)
      {
        GrowIsResize(flat, newSize);
      }
      if grown.Err? {
        return Err(grown.error);
      }
      return Ok(());
    }
    if newSize == size {
      assert forall flat: seq<Byte> | |flat| == size :: Resize(flat, size) == flat;
      return Ok(());
    }
    var newBlocks := BlockCount(newSize);
    if newBlocks == 0 {
      file.contents := Some([]);
      return Ok(());
    }
    hide Represents, BlockAt, Resize, BlockCount;
    r := Shrink(file, key, size, newSize);
  }

  /** The shrinking branch: reread the new last block, cut it, and cut the file behind it. */
  method Shrink(file: DataFile, key: Key, size: nat, newSize: nat) returns (r: Result<(), IoError>)
    requires Fits(size) && 0 < newSize < size
    modifies file
    ensures r.Ok? <==> old(file.contents).Some? && BlockAt(old(file.contents).value, key, size,
      BlockCount(newSize) - 1).Some?
    ensures forall flat :: Represents(old(file.contents), key, size, flat) ==>
      r.Ok? && Represents(file.contents, key, newSize, Resize(flat, newSize))
  {
    ShrinkSizes(size, newSize);
    var last := BlockCount(newSize) - 1;
    hide BlockAt, BlockOf, BlockCount, PlaintextLen, Fits, Represents, Resize, Overwrite, Record, SetLen, OpenRecord,
      DataFileLen;
    RepresentedBlock(file.contents, key, size, last);
    EmptyFileHasNoBlock(key, size, last);
    file.OpenRw();
    ghost var before := file.contents.value;
    var target := PlaintextLen(newSize, last);
    var block := ReadBlock(file, key, size, last);
    if block.Err? {
      return Err(block.error);
    }
    var buf := block.value[..target];
    IndexFits(newSize, last);
    ghost var nonce := WriteBlock(file, key, last, buf);
    file.contents := Some(SetLen(file.contents.value, U64(RecordOffset(last) + RecordLen(newSize, last))));
    ShrinkMeans(old(file.contents), before, key, nonce, size, newSize);
    r := Ok(());
  }

  /** The cut file, for whatever the file represented. */
  lemma ShrinkMeans(contents: Option<seq<Cell>>, before: seq<Cell>, key: Key, nonce: nat, size: nat, newSize: nat)
    requires 0 < newSize < size && before == (if contents.Some? then contents.value else [])
    requires BlockCount(newSize) >= 1
    requires var last := BlockCount(newSize) - 1;
             BlockAt(before, key, size, last).Some? && PlaintextLen(newSize, last) <= |BlockAt(before, key, size,
               last).value|
    ensures var last := BlockCount(newSize) - 1;
            var record := Record(key, nonce, last, BlockAt(before, key, size,
              last).value[..PlaintextLen(newSize, last)]);
            forall flat :: Represents(contents, key, size, flat) ==>
              Represents(Some(SetLen(Overwrite(before, RecordOffset(last), record), DataFileLen(newSize))),
                         key, newSize, Resize(flat, newSize))
  {
    hide BlockAt, BlockOf, BlockCount, PlaintextLen, Resize, Overwrite, Record, SetLen, DataFileLen;
    forall flat | Represents(contents, key, size, flat)
      ensures var last := BlockCount(newSize) - 1;
              var record := Record(key, nonce, last, BlockAt(before, key, size,
                last).value[..PlaintextLen(newSize, last)]);
              Represents(Some(SetLen(Overwrite(before, RecordOffset(last), record), DataFileLen(newSize))),
                         key, newSize, Resize(flat, newSize))
    {
      assert contents == Some(before);
      hide Represents;
      ShrinkMeaning(before, key, nonce, size, flat, newSize);
    }
  }

  lemma RepresentedBlock(contents: Option<seq<Cell>>, key: Key, size: nat, index: nat)
    requires index < BlockCount(size)
    ensures forall flat :: Represents(contents, key, size, flat) ==>
      contents.Some? && BlockAt(contents.value, key, size, index).Some?
  {
    hide BlockAt, BlockOf;
  }

  lemma ShrinkSizes(size: nat, newSize: nat)
    requires Fits(size) && 0 < newSize < size
    ensures Fits(newSize) && BlockCount(newSize) <= BlockCount(size)
    ensures BlockCount(newSize) > 0
    ensures DataFileLen(newSize) == RecordOffset(BlockCount(newSize) - 1) + RecordLen(newSize, BlockCount(newSize) - 1)
    ensures PlaintextLen(newSize, BlockCount(newSize) - 1) <= PlaintextLen(size, BlockCount(newSize) - 1)
  {
  }

  lemma EmptyFileHasNoBlock(key: Key, size: nat, index: nat)
    ensures BlockAt([], key, size, index).None?
  {
  }

  /** The blocks of a shortened file: full ones are kept, the last one is cut. */
  lemma ShrinkBlocks(flat: seq<Byte>, newSize: nat)
    requires 0 < newSize < |flat|
    ensures var last := BlockCount(newSize) - 1;
            && PlaintextLen(newSize, last) <= |BlockOf(flat, last)|
            && BlockOf(Resize(flat, newSize), last) == BlockOf(flat, last)[..PlaintextLen(newSize, last)]
    ensures forall i: nat | i < BlockCount(newSize) - 1 ::
      PlaintextLen(newSize, i) == PlaintextLen(|flat|, i) == BLOCK &&
        BlockOf(Resize(flat, newSize), i) == BlockOf(flat, i)
  {
    var last := BlockCount(newSize) - 1;
    CutLastBlock(flat, newSize);
    hide BlockCount;
    forall i: nat | i < last ensures BlockOf(Resize(flat, newSize), i) == BlockOf(flat, i) {
      assert Resize(flat, newSize)[i * BLOCK..(i + 1) * BLOCK] == flat[i * BLOCK..(i + 1) * BLOCK];
    }
  }

  lemma CutLastBlock(flat: seq<Byte>, newSize: nat)
    requires 0 < newSize < |flat|
    ensures var last := BlockCount(newSize) - 1;
            && last * BLOCK < newSize <= (last + 1) * BLOCK
            && PlaintextLen(newSize, last) <= |BlockOf(flat, last)|
            && BlockOf(Resize(flat, newSize), last) == BlockOf(flat, last)[..PlaintextLen(newSize, last)]
  {
    var last := BlockCount(newSize) - 1;
    assert PlaintextLen(newSize, last) == newSize - last * BLOCK;
    hide BlockCount, PlaintextLen;
    assert Resize(flat, newSize)[last * BLOCK..newSize] == flat[last * BLOCK..newSize];
  }

  lemma ShrinkPrefix(before: seq<Cell>, cells: seq<Cell>, key: Key, size: nat, flat: seq<Byte>, newSize: nat)
    requires Represents(Some(before), key, size, flat) && 0 < newSize < size
    requires Untouched(cells, before, RecordOffset(BlockCount(newSize) - 1), RecordOffset(BlockCount(newSize)))
    ensures Laid(cells, key, newSize, Resize(flat, newSize), 0, BlockCount(newSize) - 1)
  {
    ShrinkBlocks(flat, newSize);
    assert BlockCount(newSize) <= BlockCount(size);
    hide BlockOf, BlockCount, Resize, PlaintextLen;
    forall i: nat | i < BlockCount(newSize) - 1
      ensures BlockAt(cells, key, newSize, i) == Some(BlockOf(Resize(flat, newSize), i))
    {
      assert BlockAt(before, key, size, i) == Some(BlockOf(flat, i));
      BlockAtFrame(before, cells, key, size, newSize, i);
    }
  }

  lemma ShrinkMeaning(before: seq<Cell>, key: Key, nonce: nat, size: nat, flat: seq<Byte>, newSize: nat)
    requires Represents(Some(before), key, size, flat) && 0 < newSize < size
    ensures var last := BlockCount(newSize) - 1;
            && BlockAt(before, key, size, last).Some?
            && PlaintextLen(newSize, last) <= |BlockAt(before, key, size, last).value|
            && var record := Record(key, nonce, last, BlockAt(before, key, size,
              last).value[..PlaintextLen(newSize, last)]);
               Represents(Some(SetLen(Overwrite(before, RecordOffset(last), record), DataFileLen(newSize))),
                          key, newSize, Resize(flat, newSize))
  {
    hide BlockAt, BlockOf, BlockCount, PlaintextLen, Resize, Represents, SetLen;
    ShrinkLast(before, key, size, flat, newSize);
    ShrinkBlocks(flat, newSize);
    var last := BlockCount(newSize) - 1;
    var kept := BlockOf(flat, last)[..PlaintextLen(newSize, last)];
    var cells := Overwrite(before, RecordOffset(last), Record(key, nonce, last, kept));
    WrittenBlockReads(before, key, nonce, newSize, last, kept);
    ShrinkPrefix(before, cells, key, size, flat, newSize);
    CutRepresents(cells, key, newSize, Resize(flat, newSize));
  }

  lemma ShrinkLast(before: seq<Cell>, key: Key, size: nat, flat: seq<Byte>, newSize: nat)
    requires Represents(Some(before), key, size, flat) && 0 < newSize < size
    ensures var last := BlockCount(newSize) - 1;
            && 0 <= last < BlockCount(size) && |flat| == size && |Resize(flat, newSize)| == newSize
            && BlockAt(before, key, size, last) == Some(BlockOf(flat, last))
            && DataFileLen(newSize) == RecordOffset(last) + RecordLen(newSize, last) &&
              PlaintextLen(newSize, last) <= BLOCK
  {
    hide BlockAt, BlockOf;
    assert BlockAt(before, key, size, BlockCount(newSize) - 1) == Some(BlockOf(flat, BlockCount(newSize) - 1));
  }
}
