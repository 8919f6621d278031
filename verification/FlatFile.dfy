/**
  What a file means: one flat byte sequence. A write overlays, filling any gap with
  zeros; a truncate resizes. Histories are replayed in order.
 */
module FlatFile {
  import opened Prelude
  import opened SymbolicCrypto

  datatype FileOp = Write(offset: nat, data: seq<Byte>) | Truncate(size: nat)

  function Overlay(flat: seq<Byte>, offset: nat, data: seq<Byte>): seq<Byte> {
    seq(Max(|flat|, offset + |data|), (i: nat) =>
      if offset <= i < offset + |data| then data[i - offset]
      else if i < |flat| then flat[i]
      else 0)
  }

  function Resize(flat: seq<Byte>, size: nat): seq<Byte> {
    seq(size, (i: nat) => if i < |flat| then flat[i] else 0)
  }

  function Apply(flat: seq<Byte>, op: FileOp): seq<Byte> {
    match op
    case Write(offset, data) => Overlay(flat, offset, data)
    case Truncate(size) => Resize(flat, size)
  }

  function Replay(base: seq<Byte>, ops: seq<FileOp>): seq<Byte> {
    if ops == [] then base else Apply(Replay(base, ops[..|ops| - 1]), ops[|ops| - 1])
  }

  /** The bytes a read of `len` bytes at `offset` must return. */
  function Slice(flat: seq<Byte>, offset: nat, len: nat): seq<Byte> {
    if offset >= |flat| then [] else flat[offset..Min(offset + len, |flat|)]
  }

  lemma ReplaySnoc(base: seq<Byte>, ops: seq<FileOp>, op: FileOp)
    ensures Replay(base, ops + [op]) == Apply(Replay(base, ops), op)
  {
    assert (ops + [op])[..|ops|] == ops;
  }

  /** Growing by an empty write at the new size is a resize. */
  lemma GrowIsResize(flat: seq<Byte>, size: nat)
    requires |flat| <= size
    ensures Overlay(flat, size, []) == Resize(flat, size)
  {
  }

  // ---- A second definition of a history's meaning, byte by byte ----

  /** The byte at `pos` decided by the most recent operation that touches it. */
  function LatestByte(base: seq<Byte>, ops: seq<FileOp>, pos: nat): Byte {
    if ops == [] then (if pos < |base| then base[pos] else 0)
    else
      var earlier := ops[..|ops| - 1];
      match ops[|ops| - 1]
      case Write(offset, data) =>
        if offset <= pos < offset + |data| then data[pos - offset] else LatestByte(base, earlier, pos)
      case Truncate(size) =>
        if size <= pos then 0 else LatestByte(base, earlier, pos)
  }

  /** The length decided by the last truncate and the largest write end after it. */
  function LatestLength(base: nat, ops: seq<FileOp>): nat {
    if ops == [] then base
    else match ops[|ops| - 1]
      case Write(offset, data) => Max(LatestLength(base, ops[..|ops| - 1]), offset + |data|)
      case Truncate(size) => size
  }

  /** Replaying a history gives, at every position, the latest byte put there. */
  lemma {:induction false} ReplayIsLatest(base: seq<Byte>, ops: seq<FileOp>)
    ensures |Replay(base, ops)| == LatestLength(|base|, ops)
    ensures forall pos: nat :: LatestByte(base, ops, pos)
              == if pos < |Replay(base, ops)| then Replay(base, ops)[pos] else 0
    decreases |ops|
  {
    if ops != [] {
      ReplayIsLatest(base, ops[..|ops| - 1]);
    }
  }
}
