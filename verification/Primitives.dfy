/** The cryptographic functions the library imports, given only by the laws it relies on. */
module Primitives {
  import opened Bytes

  const BLOCK_SIZE := 16

  type Block = b: seq<byte> | |b| == BLOCK_SIZE witness seq(BLOCK_SIZE, _ => 0)
  type Key = k: seq<byte> | |k| == 32 witness seq(32, _ => 0)
  type Digest = d: seq<byte> | |d| == 20 witness seq(20, _ => 0)
  type Nonce = n: seq<byte> | |n| == 3 witness seq(3, _ => 0)

  /** AES-256 on single blocks and HMAC-SHA1. */
  datatype Functions = Functions(
    encrypt: (Key, Block) -> Block,
    decrypt: (Key, Block) -> Block,
    hmac: (seq<byte>, seq<byte>) -> Digest)
  {
    /** Under every key the two block functions are inverse permutations. */
    ghost predicate Lawful() {
      forall k: Key, b: Block :: decrypt(k, encrypt(k, b)) == b && encrypt(k, decrypt(k, b)) == b
    }
  }

  /** Any lawful choice of the three functions. */
  type Suite = f: Functions | f.Lawful()
    witness Functions((k: Key, b: Block) => b, (k: Key, b: Block) => b, (k, m) => seq(20, _ => 0))

  lemma Inverse(suite: Suite, k: Key, b: Block)
    ensures suite.decrypt(k, suite.encrypt(k, b)) == b
    ensures suite.encrypt(k, suite.decrypt(k, b)) == b
  {
  }
}
