/** Whole histories over the block store, representability, and reads at a stale size. */
module BlockHistory {
  import opened Prelude
  import opened SymbolicCrypto
  import opened FlatFile
  import opened BlockStore

  // ---- Every flat file has a data file ----

  function Encode(key: Key, flat: seq<Byte>, blocks: nat): seq<Cell> {
    if blocks == 0 then [] else Encode(key, flat, blocks - 1) + Record(key, 0, blocks - 1, BlockOf(flat, blocks - 1))
  }

  lemma RecordsDoNotOverlap(size: nat)
    ensures forall i: nat :: RecordLen(size, i) <= FULL_RECORD
  {
  }

  lemma AppendIsOverwrite(cells: seq<Cell>, offset: nat, record: seq<Cell>)
    requires |cells| == offset
    ensures Overwrite(cells, offset, record) == cells + record
  {
  }

  lemma {:induction false} EncodeLength(key: Key, flat: seq<Byte>, blocks: nat)
    requires blocks <= BlockCount(|flat|)
    ensures |Encode(key, flat, blocks)| ==
      if blocks == 0 then 0 else RecordOffset(blocks - 1) + RecordLen(|flat|, blocks - 1)
  {
    if blocks > 0 {
      hide BlockCount, BlockOf, PlaintextLen;
      EncodeLength(key, flat, blocks - 1);
      BlockOfLength(flat, blocks - 1);
      if blocks > 1 { BlockOfLength(flat, blocks - 2); }
    }
  }

  lemma LaidNothing(cells: seq<Cell>, key: Key, flat: seq<Byte>)
    ensures Laid(cells, key, |flat|, flat, 0, 0)
  {
  }

  lemma LaidAppend(cells: seq<Cell>, key: Key, flat: seq<Byte>, index: nat)
    requires |cells| == RecordOffset(index) && Laid(cells, key, |flat|, flat, 0, index)
    ensures Laid(cells + Record(key, 0, index, BlockOf(flat, index)), key, |flat|, flat, 0, index + 1)
  {
    BlockOfLength(flat, index);
    RecordsDoNotOverlap(|flat|);
    hide BlockOf, PlaintextLen, BlockAt, Overwrite, RecordLen;
    var record := Record(key, 0, index, BlockOf(flat, index));
    WrittenBlockReads(cells, key, 0, |flat|, index, BlockOf(flat, index));
    AppendIsOverwrite(cells, RecordOffset(index), record);
    hide Record;
    LaidFrame(cells, cells + record, key, |flat|, flat, 0, index);
  }

  lemma {:induction false} EncodeLays(key: Key, flat: seq<Byte>, blocks: nat)
    requires blocks <= BlockCount(|flat|)
    ensures Laid(Encode(key, flat, blocks), key, |flat|, flat, 0, blocks)
  {
    hide Laid, BlockOf, Record, BlockCount, PlaintextLen;
    if blocks == 0 {
      LaidNothing([], key, flat);
    } else {
      EncodeLays(key, flat, blocks - 1);
      EncodeLength(key, flat, blocks - 1);
      if blocks > 1 { BlockOfLength(flat, blocks - 2); }
      LaidAppend(Encode(key, flat, blocks - 1), key, flat, blocks - 1);
    }
  }

  /** Decoding undoes encoding: the encoded cells represent the file they came from. */
  lemma EncodeRepresents(key: Key, flat: seq<Byte>)
    ensures Represents(Some(Encode(key, flat, BlockCount(|flat|))), key, |flat|, flat)
  {
    EncodeLays(key, flat, BlockCount(|flat|));
    EncodeLength(key, flat, BlockCount(|flat|));
    hide BlockAt, BlockOf;
  }

  lemma ByteOfBlock(flat: seq<Byte>, pos: nat)
    requires pos < |flat|
    ensures pos / BLOCK < BlockCount(|flat|)
    ensures pos % BLOCK < |BlockOf(flat, pos / BLOCK)| && BlockOf(flat, pos / BLOCK)[pos % BLOCK] == flat[pos]
  {
  }

  /** A data file means one flat file at most. */
  lemma RepresentsOnce(contents: Option<seq<Cell>>, key: Key, size: nat, flat: seq<Byte>, other: seq<Byte>)
    requires Represents(contents, key, size, flat) && Represents(contents, key, size, other)
    ensures other == flat
  {
    hide BlockAt, BlockOf, BlockCount, DataFileLen;
    forall pos: nat | pos < size ensures other[pos] == flat[pos] {
      ByteOfBlock(flat, pos);
      ByteOfBlock(other, pos);
      assert BlockAt(contents.value, key, size, pos / BLOCK) == Some(BlockOf(flat, pos / BLOCK));
    }
  }

  // ---- Histories ----

  predicate OpFits(size: nat, op: FileOp) {
    match op
    case Write(offset, data) => offset + |data| < TWO64 && Fits(Max(size, offset + |data|))
    case Truncate(newSize) => newSize < TWO64 && Fits(newSize) && Fits(size)
  }

  predicate HistoryFits(base: seq<Byte>, ops: seq<FileOp>) {
    forall i | 0 <= i < |ops| :: OpFits(|Replay(base, ops[..i])|, ops[i])
  }

  /** What one finished data step must have done to the data file. */
  ghost predicate DataEffect(before: Option<seq<Cell>>, key: Key, size: nat, op: FileOp, after: Option<seq<Cell>>) {
    OpFits(size, op) ==>
      forall flat :: Represents(before, key, size, flat) ==> Represents(after, key, |Apply(flat, op)|, Apply(flat, op))
  }

  /** One operation, as the worker thread runs it on the data file. */
  method RunOp(file: DataFile, key: Key, size: nat, op: FileOp) returns (r: Result<nat, IoError>)
    requires OpFits(size, op)
    modifies file
    ensures DataEffect(old(file.contents), key, size, op, file.contents)
    ensures forall flat :: Represents(old(file.contents), key, size, flat) ==> r == Ok(|Apply(flat, op)|)
  {
    hide Represents, Fits, BlockCount, Overlay, Resize, BlockAt;
    match op {
      case Write(offset, data) =>
        r := WriteRange(file, key, size, offset, data);
        forall flat | Represents(old(file.contents), key, size, flat) ensures |Overlay(flat, offset, data)| == r.value {
          RepresentedLength(old(file.contents), key, size, flat);
          OverlayLength(flat, offset, data);
        }
      case Truncate(target) =>
        var done := BlockStore.Truncate(file, key, size, target);
        r := if done.Ok? then Ok(target) else Err(done.error);
        forall flat | Represents(old(file.contents), key, size, flat) ensures |Resize(flat, target)| == target {
          ResizeLength(flat, target);
        }
    }
  }

  lemma RepresentedLength(contents: Option<seq<Cell>>, key: Key, size: nat, flat: seq<Byte>)
    requires Represents(contents, key, size, flat)
    ensures |flat| == size
  {
  }

  /** Any history leaves a data file that represents its replay; every step succeeds. */
  method RunHistory(file: DataFile, key: Key, base: seq<Byte>, ops: seq<FileOp>) returns (size: nat)
    requires Represents(file.contents, key, |base|, base) && HistoryFits(base, ops)
    modifies file
    ensures size == |Replay(base, ops)|
    ensures Represents(file.contents, key, size, Replay(base, ops))
    ensures size > 0 ==> file.contents.Some? && |file.contents.value| == size + OVERHEAD * BlockCount(size)
  {
    hide Represents, Fits, Replay, Apply, OpFits, DataFileLen, BlockCount;
    size := |base|;
    var i := 0;
    ReplayNothing(base, ops[..0]);
    while i < |ops|
      invariant 0 <= i <= |ops|
      invariant size == |Replay(base, ops[..i])|
      invariant Represents(file.contents, key, size, Replay(base, ops[..i]))
    {
      HistoryStep(base, ops, i);
      var r := RunOp(file, key, size, ops[i]);
      size := r.value;
      i := i + 1;
    }
    assert ops[..|ops|] == ops;
    HistoryLength(file.contents, key, Replay(base, ops));
  }

  lemma ReplayNothing(base: seq<Byte>, ops: seq<FileOp>)
    requires ops == []
    ensures Replay(base, ops) == base
  {
  }

  lemma HistoryStep(base: seq<Byte>, ops: seq<FileOp>, i: nat)
    requires i < |ops|
    ensures Replay(base, ops[..i + 1]) == Apply(Replay(base, ops[..i]), ops[i])
  {
    assert ops[..i + 1] == ops[..i] + [ops[i]];
    ReplaySnoc(base, ops[..i], ops[i]);
  }

  lemma HistoryLength(contents: Option<seq<Cell>>, key: Key, flat: seq<Byte>)
    requires Represents(contents, key, |flat|, flat)
    ensures |flat| > 0 ==> contents.Some? && |contents.value| == |flat| + OVERHEAD * BlockCount(|flat|)
  {
    DataFileLenClosedForm(|flat|);
  }

  lemma OverlayLength(flat: seq<Byte>, offset: nat, data: seq<Byte>)
    ensures |Overlay(flat, offset, data)| == Max(|flat|, offset + |data|)
  {
  }

  lemma ResizeLength(flat: seq<Byte>, size: nat)
    ensures |Resize(flat, size)| == size
  {
  }

  /**
    Leftover bytes of a reused inode number cannot be observed: from size 0 the same
    history on any two data files gives the same answer to every read.
   */
  method OrphanBytesAreInvisible(file1: DataFile, file2: DataFile, key: Key, ops: seq<FileOp>, offset: nat, len: nat)
    returns (r1: Result<seq<Byte>, IoError>, r2: Result<seq<Byte>, IoError>)
    requires file1 != file2 && HistoryFits([], ops) && Fits(|Replay([], ops)|) && offset + len < TWO64
    modifies file1, file2
    ensures r1 == r2 == Ok(Slice(Replay([], ops), offset, len))
  {
    var size1 := RunHistory(file1, key, [], ops);
    var size2 := RunHistory(file2, key, [], ops);
    r1 := ReadRange(file1, key, size1, offset, len);
    r2 := ReadRange(file2, key, size2, offset, len);
  }

  // ---- Reads that carry an old size ----

  /** A record opens at a stale size exactly when the block is as long at both sizes. */
  lemma StaleBlock(contents: Option<seq<Cell>>, key: Key, size: nat, flat: seq<Byte>, stale: nat, index: nat)
    requires Represents(contents, key, size, flat) && size > 0 && index < BlockCount(stale)
    ensures BlockAt(contents.value, key, stale, index).Some? <==>
      PlaintextLen(stale, index) == PlaintextLen(size, index)
    ensures BlockAt(contents.value, key, stale, index).Some? ==>
      index < BlockCount(size) && BlockAt(contents.value, key, stale, index) == Some(BlockOf(flat, index))
  {
    var cells := contents.value;
    if index < BlockCount(size) {
      assert BlockAt(cells, key, size, index) == Some(BlockOf(flat, index));
      var from := RecordOffset(index);
      OpenedWasSealed(key, index, cells[from..from + RecordLen(size, index)]);
      BlockOfLength(flat, index);
      hide IsRecord, BlockOf;
      if PlaintextLen(stale, index) == PlaintextLen(size, index) {
      } else if from + RecordLen(stale, index) <= |cells| {
        assert cells[from..from + RecordLen(stale, index)][0] == cells[from..from + RecordLen(size, index)][0];
      }
    }
  }

  /** The sizes alone decide whether a read made with `stale` answers as one made with `size`. */
  predicate ReadsCurrent(stale: nat, size: nat, offset: nat, len: nat) {
    || len == 0
    || (offset >= stale && offset >= size)
    || (&& offset < stale
        && Min(offset + len, stale) == Min(offset + len, size)
        && SameLengths(stale, size, offset / BLOCK, (Min(offset + len, stale) - 1) / BLOCK + 1))
  }

  predicate SameLengths(stale: nat, size: nat, from: nat, to: nat) {
    forall i: nat | from <= i < to :: PlaintextLen(stale, i) == PlaintextLen(size, i)
  }

  /** The stale answer, block by block. */
  lemma StaleBlocks(contents: Option<seq<Cell>>, key: Key, size: nat, flat: seq<Byte>, stale: nat, from: nat, to: nat)
    requires Represents(contents, key, size, flat) && size > 0 && to <= BlockCount(stale)
    ensures BlocksOpen(contents, key, stale, from, to) <==> SameLengths(stale, size, from, to)
  {
    assert contents.Some?;
    hide Represents, BlockAt, PlaintextLen, BlockCount;
    forall i: nat | from <= i < to
      ensures BlockAt(contents.value, key, stale, i).Some? <==> PlaintextLen(stale, i) == PlaintextLen(size, i)
    {
      StaleBlock(contents, key, size, flat, stale, i);
    }
  }

  /** The bytes of a stale read that succeeds are current bytes. */
  lemma StaleBytes(contents: Option<seq<Cell>>, key: Key, size: nat, flat: seq<Byte>, stale: nat, pos: nat)
    requires Represents(contents, key, size, flat) && size > 0 && pos < stale
    requires PlaintextLen(stale, pos / BLOCK) == PlaintextLen(size, pos / BLOCK)
    ensures pos < size && ByteAt(contents.value, key, stale, pos) == flat[pos]
  {
    StaleBlock(contents, key, size, flat, stale, pos / BLOCK);
    hide BlockAt, Represents;
    assert |flat| == size;
  }

  /**
    A queued read keeps the size it was dispatched with. It succeeds exactly when the
    blocks it touches are as long as they now are; it is then made of current bytes; and
    it is the answer of a read made now exactly under `ReadsCurrent`.
   */
  lemma StaleReadExact(contents: Option<seq<Cell>>, key: Key, size: nat, flat: seq<Byte>,
                       stale: nat, offset: nat, len: nat, r: Result<seq<Byte>, IoError>)
    requires Represents(contents, key, size, flat)
    requires ReadAnswer(contents, key, stale, offset, len, r)
    requires size > 0
    ensures r.Ok? <==>
      || offset >= stale || len == 0
      || SameLengths(stale, size, offset / BLOCK, (Min(offset + len, stale) - 1) / BLOCK + 1)
    ensures r.Ok? && offset < stale && len > 0 ==>
      offset < Min(offset + len, stale) <= size && r.value == flat[offset..Min(offset + len, stale)]
    ensures r == Ok(Slice(flat, offset, len)) <==> ReadsCurrent(stale, size, offset, len)
  {
    if offset < stale && len > 0 {
      var end := Min(offset + len, stale);
      LastBlock(stale, offset, len);
      StaleBlocks(contents, key, size, flat, stale, offset / BLOCK, (end - 1) / BLOCK + 1);
      if r.Ok? {
        forall pos: nat | offset <= pos < end ensures pos < size &&
          ByteAt(contents.value, key, stale, pos) == flat[pos] {
          StaleBytes(contents, key, size, flat, stale, pos);
        }
        StaleBytes(contents, key, size, flat, stale, end - 1);
        assert r.value == flat[offset..end];
      }
    }
  }

  /** `do_read`: a file without a data file is empty, whatever its entry says. */
  ghost predicate ReadReply(contents: Option<seq<Cell>>, key: Key, size: nat, offset: nat, len: nat,
    r: Result<seq<Byte>, IoError>) {
    if contents.None? then r == Ok([]) else ReadAnswer(contents, key, size, offset, len, r)
  }

  method ReadFile(file: DataFile, key: Key, size: nat, offset: nat, len: nat) returns (r: Result<seq<Byte>, IoError>)
    requires Fits(size) && offset + len < TWO64
    ensures ReadReply(file.contents, key, size, offset, len, r)
    ensures forall flat :: Represents(file.contents, key, size, flat) ==> r == Ok(Slice(flat, offset, len))
  {
    if file.contents.None? {
      r := Ok([]);
    } else {
      r := ReadRange(file, key, size, offset, len);
    }
  }

  /** Key, size and data file decide the reply. */
  lemma ReadReplyIsDetermined(contents: Option<seq<Cell>>, key: Key, size: nat, offset: nat, len: nat,
                              r: Result<seq<Byte>, IoError>, r': Result<seq<Byte>, IoError>)
    requires ReadReply(contents, key, size, offset, len, r) && ReadReply(contents, key, size, offset, len, r')
    ensures r.Ok? == r'.Ok? && (r.Ok? ==> r.value == r'.value)
  {
    hide ByteAt, BlocksOpen;
    if r.Ok? && r'.Ok? { assert |r.value| == |r'.value|; }
  }

  /** Exactly when a reply made with an old size is the reply a read would get now. */
  lemma StaleReplyExact(contents: Option<seq<Cell>>, key: Key, size: nat, flat: seq<Byte>,
                        stale: nat, offset: nat, len: nat, r: Result<seq<Byte>, IoError>)
    requires Represents(contents, key, size, flat) && ReadReply(contents, key, stale, offset, len, r)
    ensures r == Ok(Slice(flat, offset, len)) <==> contents.None? || ReadsCurrent(stale, size, offset, len)
  {
    hide SameLengths, PlaintextLen, BlocksOpen, BytesFrom, BlockAt, BlockCount;
    if size > 0 {
      StaleReadExact(contents, key, size, flat, stale, offset, len, r);
    }
  }

  /** A one-byte file that grew to two bytes: the read queued before gets an error. */
  lemma StaleReadCanFail(contents: Option<seq<Cell>>, key: Key, flat: seq<Byte>, r: Result<seq<Byte>, IoError>)
    requires Represents(contents, key, 2, flat) && ReadReply(contents, key, 1, 0, 1, r)
    ensures r.Err?
  {
    assert PlaintextLen(1, 0) == 1 && PlaintextLen(2, 0) == 2;
    hide Represents, BlockAt, PlaintextLen, BlockCount;
    RepresentedExists(contents, key, 2, flat);
    StaleReadExact(contents, key, 2, flat, 1, 0, 1, r);
  }

  lemma RepresentedExists(contents: Option<seq<Cell>>, key: Key, size: nat, flat: seq<Byte>)
    requires Represents(contents, key, size, flat) && size > 0
    ensures contents.Some?
  {
  }

  // ---- Which blocks a write needs ----

  /** The write changes block `index`: it lays data there, or the block becomes longer. */
  predicate Needed(size: nat, offset: nat, len: nat, index: nat) {
    || (len > 0 && offset < (index + 1) * BLOCK && index * BLOCK < offset + len)
    || PlaintextLen(Max(size, offset + len), index) != PlaintextLen(size, index)
  }

  /** Every old block the write changes is authentic. */
  ghost predicate NeededOpen(contents: Option<seq<Cell>>, key: Key, size: nat, offset: nat, len: nat) {
    contents.Some? && forall i: nat | i < BlockCount(size) && Needed(size, offset, len, i) ::
      BlockAt(contents.value, key, size, i).Some?
  }

  /** When `write_range` succeeds, by its contract. */
  ghost predicate WriteSucceeds(contents: Option<seq<Cell>>, key: Key, size: nat, offset: nat) {
    size == 0 || BlocksOpen(contents, key, size, TouchedFrom(size, offset), BlockCount(size))
  }

  /**
    The write changes all it reads: it starts in the file and reaches its last block, or
    it starts behind the file and the last block must be filled up.
   */
  predicate ReachesEnd(size: nat, offset: nat, len: nat) {
    if size == 0 then true
    else if offset >= BlockCount(size) * BLOCK then size % BLOCK != 0
    else if len == 0 then offset > size
    else BlockCount(size) <= BlockCount(offset + len)
  }

  lemma ReachesEndNeedsAll(size: nat, offset: nat, len: nat, i: nat)
    requires size > 0 && ReachesEnd(size, offset, len) && TouchedFrom(size, offset) <= i < BlockCount(size)
    ensures Needed(size, offset, len, i)
  {
  }

  lemma ShortNeedsNotLast(size: nat, offset: nat, len: nat)
    requires !ReachesEnd(size, offset, len)
    ensures size > 0 && TouchedFrom(size, offset) <= BlockCount(size) - 1 &&
      !Needed(size, offset, len, BlockCount(size) - 1)
  {
  }

  /** A file whose last record is cut off and all others are authentic. */
  lemma CutLastRecord(key: Key, flat: seq<Byte>)
    requires |flat| > 0
    ensures var cells := Encode(key, flat, BlockCount(|flat|) - 1);
            && BlockCount(|flat|) >= 1
            && (forall i: nat | i < BlockCount(|flat|) - 1 :: BlockAt(cells, key, |flat|, i).Some?)
            && BlockAt(cells, key, |flat|, BlockCount(|flat|) - 1).None?
  {
    hide BlockOf, Encode, BlockAt, BlockCount, PlaintextLen;
    NoBlocksWhenEmpty(|flat|);
    var last := BlockCount(|flat|) - 1;
    EncodeLays(key, flat, last);
    CutIsShort(key, flat, last);
  }

  lemma CutIsShort(key: Key, flat: seq<Byte>, last: nat)
    requires last < BlockCount(|flat|)
    ensures BlockAt(Encode(key, flat, last), key, |flat|, last).None?
  {
    hide BlockOf, Encode, BlockCount, OpenRecord, PlaintextLen;
    EncodeLength(key, flat, last);
    if last > 0 { BlockOfLength(flat, last - 1); }
  }

  /**
    Writes need only the blocks they change if and only if they reach the end of the file:
    otherwise some damage elsewhere, in a block the write leaves alone, makes it fail.
   */
  lemma WriteNeedsOnlyItsBlocksIff(size: nat, offset: nat, len: nat)
    ensures (forall contents, key :: NeededOpen(contents, key, size, offset, len) ==>
      WriteSucceeds(contents, key, size, offset))
       <==> ReachesEnd(size, offset, len)
  {
    hide BlockAt, ReachesEnd, Needed, TouchedFrom, BlockCount;
    if size == 0 {
      EmptyReachesEnd(offset, len);
    } else if ReachesEnd(size, offset, len) {
      forall i: nat | TouchedFrom(size, offset) <= i < BlockCount(size) ensures Needed(size, offset, len, i) {
        ReachesEndNeedsAll(size, offset, len, i);
      }
    } else {
      ShortNeedsNotLast(size, offset, len);
      var flat := seq(size, (_: nat) => 0 as Byte);
      CutLastRecord(Random(0), flat);
      var contents := Some(Encode(Random(0), flat, BlockCount(size) - 1));
      assert NeededOpen(contents, Random(0), size, offset, len);
      assert !WriteSucceeds(contents, Random(0), size, offset);
    }
  }

  lemma EmptyReachesEnd(offset: nat, len: nat)
    ensures ReachesEnd(0, offset, len)
  {
  }

  /** There is a two-block file whose block 0 is authentic and whose block 1 is not. */
  lemma DamagedTailExists(key: Key) returns (cells: seq<Cell>)
    ensures BlockAt(cells, key, BLOCK + 1, 0).Some? && BlockAt(cells, key, BLOCK + 1, 1).None?
  {
    var flat := seq(BLOCK + 1, (_: nat) => 0 as Byte);
    CutLastRecord(key, flat);
    cells := Encode(key, flat, 1);
  }

  /** On every such file, writing one byte to block 0 fails. */
  method OneByteWriteFails(file: DataFile, key: Key, byte: Byte) returns (r: Result<nat, IoError>)
    requires file.contents.Some? && BlockAt(file.contents.value, key, BLOCK + 1, 0).Some?
    requires BlockAt(file.contents.value, key, BLOCK + 1, 1).None?
    modifies file
    ensures r.Err?
  {
    KernelSizesFit(BLOCK + 1);
    hide Fits, BlockAt;
    r := WriteRange(file, key, BLOCK + 1, 0, [byte]);
  }
}
