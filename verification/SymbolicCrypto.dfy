/**
  The cryptographic boundary, as an algebra of terms. Keys and sealed blobs are free
  constructors, so "opening undoes sealing" and "opening needs the same key and the
  same associated data" are theorems and not axioms. Nonces, salts and encapsulation
  coins are arguments.
 */
module SymbolicCrypto {
  import opened Prelude

  type Byte = b: int | 0 <= b < 256

  /** Argon2 cost parameters, stored with each password slot. */
  datatype Kdf = Kdf(mCost: nat, tCost: nat, pCost: nat)

  /** An ML-KEM ciphertext: parameter set, the key it was encapsulated to, the coins. */
  datatype KemCiphertext = KemCiphertext(param: nat, publicKey: nat, coins: nat)

  datatype Key =
    | Random(id: nat)
    | FromPassword(password: string, salt: nat, kdf: Kdf)
    | Encapsulated(publicKey: nat, coins: nat)
    | Rejected(seed: nat, ciphertext: KemCiphertext)
    | FilenameKey(master: Key)
    | HeaderMacKey(master: Key)

  datatype Aad = NoAad | BlockIndex(index: nat) | VolumeId(id: nat)

  /** A stored byte vector that is either empty or a sealed message. */
  datatype Blob<+M> = Empty | Sealed(key: Key, nonce: nat, aad: Aad, message: M)

  function Open<M>(key: Key, aad: Aad, blob: Blob<M>): Option<M> {
    if blob.Sealed? && blob.key == key && blob.aad == aad then Some(blob.message) else None
  }

  const NONCE_LEN: nat := 24
  const TAG_LEN: nat := 16
  const OVERHEAD: nat := 40

  /** One byte of a data file: a plain byte, or position `at` of a sealed record. */
  datatype Cell = Plain(byte: Byte) | Fragment(record: Blob<seq<Byte>>, at: nat)

  function Record(key: Key, nonce: nat, index: nat, plaintext: seq<Byte>): (cells: seq<Cell>)
    ensures |cells| == |plaintext| + OVERHEAD
  {
    var sealed := Sealed(key, nonce, BlockIndex(index), plaintext);
    seq(|plaintext| + OVERHEAD, (i: nat) => Fragment(sealed, i))
  }

  /** The first `n` cells are the fragments of one record, in order. */
  predicate IsRecord(cells: seq<Cell>, record: Blob<seq<Byte>>, n: nat)
    requires n <= |cells|
  {
    n == 0 || (cells[n - 1] == Fragment(record, n - 1) && IsRecord(cells, record, n - 1))
  }

  lemma {:induction false} IsRecordPointwise(cells: seq<Cell>, record: Blob<seq<Byte>>, n: nat)
    requires n <= |cells|
    ensures IsRecord(cells, record, n) <==> forall i | 0 <= i < n :: cells[i] == Fragment(record, i)
  {
    if n > 0 { IsRecordPointwise(cells, record, n - 1); }
  }

  /** `decrypt_block`: too short, tampered, reordered or foreign cells do not open. */
  function OpenRecord(key: Key, index: nat, cells: seq<Cell>): Option<seq<Byte>> {
    if |cells| < OVERHEAD || !cells[0].Fragment? then None
    else
      var sealed := cells[0].record;
      if && sealed.Sealed?
         && |sealed.message| + OVERHEAD == |cells|
         && IsRecord(cells, sealed, |cells|)
      then Open(key, BlockIndex(index), sealed)
      else None
  }

  /** A record opens under its own key at its own index, and under nothing else. */
  lemma RecordOpensOnlyInPlace(key: Key, nonce: nat, index: nat, plaintext: seq<Byte>, key': Key, index': nat)
    ensures OpenRecord(key', index', Record(key, nonce, index, plaintext))
         == if key' == key && index' == index then Some(plaintext) else None
  {
    var cells := Record(key, nonce, index, plaintext);
    IsRecordPointwise(cells, Sealed(key, nonce, BlockIndex(index), plaintext), |cells|);
  }

  /** Whatever opens was sealed: authenticity, with the exact length. */
  lemma OpenedWasSealed(key: Key, index: nat, cells: seq<Cell>)
    requires OpenRecord(key, index, cells).Some?
    ensures var plaintext := OpenRecord(key, index, cells).value;
            exists nonce :: cells == Record(key, nonce, index, plaintext)
    ensures |cells| == |OpenRecord(key, index, cells).value| + OVERHEAD
  {
    var plaintext := OpenRecord(key, index, cells).value;
    IsRecordPointwise(cells, cells[0].record, |cells|);
    assert cells == Record(key, cells[0].record.nonce, index, plaintext);
  }
}
