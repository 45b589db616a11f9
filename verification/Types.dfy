/** Values shared by every part of the model. */
module Types {
  datatype Option<+T> = None | Some(value: T) {
    function UnwrapOr(default: T): T {
      if Some? then value else default
    }
  }

  datatype Result<+T, +E> = Ok(value: T) | Err(error: E)

  type Byte = n: nat | n < 0x100
  type Bytes = seq<Byte>

  /** Rust's `u64`. */
  type U64 = n: nat | n < 0x1_0000_0000_0000_0000

  /** A 20-byte address, read as a big-endian number. */
  type Address = n: nat | n < 0x1_0000000000_0000000000_0000000000_0000000000

  /** A 256-bit quantity: `U256`, and `B256` read as a big-endian number. */
  type Word = n: nat | n < 0x1_0000000000000000_0000000000000000_0000000000000000_0000000000000000

  /** The hash of no code at all. */
  const KECCAK_EMPTY: Word := 0xc5d2460186f7233c927e7db2dcc703c0e500b653ca82273b7bfad8045d85a470

  /** The two hashes that stand for no code. */
  predicate NoCodeHash(h: Word) {
    h == 0 || h == KECCAK_EMPTY
  }

  datatype AccountInfo = AccountInfo(nonce: U64, balance: Word, codeHash: Word)

  function Lookup<K, V>(m: map<K, V>, k: K): Option<V> {
    if k in m then Some(m[k]) else None
  }
}
