/** The packet cipher byte by byte, and which input fails with which error (crypto/encrypt.go, crypto/decrypt.go). */
module CipherBlocks {
  import opened Words
  import opened Wrappers
  import opened Bytes
  import opened Primitives
  import opened Pkcs7
  import opened SymmetricSpec

  lemma XorBlockBytes(a: Block, b: Block)
    ensures forall j :: 0 <= j < BLOCK_SIZE ==> XorBlock(a, b)[j] == Xor(a[j], b[j])
  {
    hide Xor;
  }

  // ---- chaining ----

  /** The block at position at, of 16 bytes. */
  function BlockAt(s: seq<byte>, at: nat): Block
    requires at + 16 <= |s|
  {
    s[at..at + 16]
  }

  lemma ShiftedBlock(first: seq<byte>, rest: seq<byte>, at: nat)
    requires |first| == 16 && at + 16 <= |first + rest|
    ensures BlockAt(first + rest, at) == if at == 0 then first else if at < 16 then (first + rest)[at..at + 16]
                                         else BlockAt(rest, at - 16)
  {
  }

  /** A position behind the first block. */
  lemma LaterPosition(at: nat)
    requires at % 16 == 0 && at > 0
    ensures at >= 16 && (at - 16) % 16 == 0 && (at > 16 ==> at >= 32)
  {
  }

  /** Every block of a chained encryption is the encryption of the text block at its place, xored bytewise with the
      encrypted block before it, or with the vector when there is none. */
  lemma {:induction false} ChainedEncryption(suite: Suite, key: Key, iv: Block, data: seq<byte>, at: nat)
    returns (m: Block)
    requires WholeBlocks(data) && at % 16 == 0 && at + 16 <= |data|
    ensures var c := CbcEncrypt(suite, key, iv, data);
            var previous := if at == 0 then iv else BlockAt(c, at - 16);
            && BlockAt(c, at) == suite.encrypt(key, m)
            && forall j :: 0 <= j < 16 ==> m[j] == Xor(BlockAt(data, at)[j], previous[j])
    decreases at
  {
    hide Xor, XorBlock, BlockAt;
    var first: Block, more := data[..16], data[16..];
    var mixed := XorBlock(first, iv);
    var c0: Block := suite.encrypt(key, mixed);
    var rest := CbcEncrypt(suite, key, c0, more);
    assert data == first + more;
    ShiftedBlock(first, more, at);
    ShiftedBlock(c0, rest, at);
    if at == 0 {
      XorBlockBytes(first, iv);
      return mixed;
    }
    LaterPosition(at);
    ShiftedBlock(c0, rest, at - 16);
    m := ChainedEncryption(suite, key, c0, more, at - 16);
  }

  /** Every block of a chained decryption is the decrypted block at its place, xored bytewise with the input block
      before it, or with the vector. */
  lemma {:induction false} ChainedDecryption(suite: Suite, key: Key, iv: Block, data: seq<byte>, at: nat)
    requires WholeBlocks(data) && at % 16 == 0 && at + 16 <= |data|
    ensures var previous := if at == 0 then iv else BlockAt(data, at - 16);
            var m := suite.decrypt(key, BlockAt(data, at));
            forall j :: 0 <= j < 16 ==> BlockAt(CbcDecrypt(suite, key, iv, data), at)[j] == Xor(m[j], previous[j])
    decreases at
  {
    hide Xor, XorBlock, BlockAt;
    var first: Block, more := data[..16], data[16..];
    var mixed := XorBlock(suite.decrypt(key, first), iv);
    var rest := CbcDecrypt(suite, key, first, more);
    assert data == first + more;
    ShiftedBlock(first, more, at);
    ShiftedBlock(mixed, rest, at);
    if at == 0 {
      XorBlockBytes(suite.decrypt(key, first), iv);
    } else {
      LaterPosition(at);
      ShiftedBlock(first, more, at - 16);
      ChainedDecryption(suite, key, first, more, at - 16);
    }
  }

  /** Without chaining, every block of the result is the block of the input at its place, encrypted or decrypted. */
  lemma {:induction false} EcbBlocks(suite: Suite, key: Key, data: seq<byte>, at: nat)
    requires WholeBlocks(data) && at % 16 == 0 && at + 16 <= |data|
    ensures BlockAt(EcbEncrypt(suite, key, data), at) == suite.encrypt(key, BlockAt(data, at))
    ensures BlockAt(EcbDecrypt(suite, key, data), at) == suite.decrypt(key, BlockAt(data, at))
    decreases at
  {
    hide BlockAt;
    var first: Block, more := data[..16], data[16..];
    assert data == first + more;
    ShiftedBlock(first, more, at);
    ShiftedBlock(suite.encrypt(key, first), EcbEncrypt(suite, key, more), at);
    ShiftedBlock(suite.decrypt(key, first), EcbDecrypt(suite, key, more), at);
    if at > 0 {
      LaterPosition(at);
      EcbBlocks(suite, key, more, at - 16);
    }
  }

  // ---- packets ----

  /** Byte k of the padded text: every added byte says how many were added. */
  function PaddedByte(data: seq<byte>, k: nat): byte {
    if k < |data| then data[k] else 16 - |data| % 16
  }

  lemma PaddedBytes(data: seq<byte>)
    ensures |Padded(data)| == 16 * (|data| / 16) + 16
    ensures forall k :: 0 <= k < |Padded(data)| ==> Padded(data)[k] == PaddedByte(data, k)
  {
    PaddedLength(|data|, BLOCK_SIZE);
  }

  /** The block of the padded text at position at, which is a multiple of 16, is found 16 bytes later in the packet:
      xored bytewise with the block that stands before it there, or with the vector, and encrypted. */
  ghost predicate HoldsBlock(suite: Suite, key: Key, iv: Block, data: seq<byte>, packet: seq<byte>, at: nat)
    requires at + 32 <= |packet|
  {
    exists m: Block ::
      && BlockAt(packet, at + 16) == suite.encrypt(key, m)
      && forall j :: 0 <= j < 16 ==>
           m[j] == Xor(PaddedByte(data, at + j), if at == 0 then iv[j] else BlockAt(packet, at)[j])
  }

  /** Length, vector and all blocks of a packet. */
  ghost predicate IsPacket(suite: Suite, key: Key, iv: Block, data: seq<byte>, packet: seq<byte>) {
    && |packet| == 16 * (|data| / 16) + 32
    && packet[..16] == suite.encrypt(key, iv)
    && forall at :: 0 <= at && at % 16 == 0 && at + 32 <= |packet| ==> HoldsBlock(suite, key, iv, data, packet, at)
  }

  lemma SealBytes(suite: Suite, key: Key, iv: Block, data: seq<byte>)
    ensures IsPacket(suite, key, iv, data, Seal(suite, key, iv, data))
  {
    hide Xor, CbcEncrypt, Padded, PaddedByte, HoldsBlock;
    PaddedBytes(data);
    var padded := Padded(data);
    var packet := Seal(suite, key, iv, data);
    forall at | 0 <= at && at % 16 == 0 && at + 32 <= |packet|
      ensures HoldsBlock(suite, key, iv, data, packet, at)
    {
      SealBlock(suite, key, iv, data, at);
    }
  }

  lemma SealBlock(suite: Suite, key: Key, iv: Block, data: seq<byte>, at: nat)
    requires at % 16 == 0 && at + 16 <= |Padded(data)|
    ensures HoldsBlock(suite, key, iv, data, Seal(suite, key, iv, data), at)
  {
    hide Xor, CbcEncrypt, Padded, PaddedByte;
    PaddedBytes(data);
    var padded := Padded(data);
    var head: seq<byte>, c := suite.encrypt(key, iv), CbcEncrypt(suite, key, iv, padded);
    var m := ChainedEncryption(suite, key, iv, padded, at);
    ShiftedBlock(head, c, at + 16);
    if at > 0 {
      LaterPosition(at);
      ShiftedBlock(head, c, at);
    }
    forall j | 0 <= j < 16
      ensures BlockAt(padded, at)[j] == PaddedByte(data, at + j)
    {
    }
  }

  /** What SymmetricEncryptWithHmacIv puts out, from the first byte to the last: the encrypted vector, made of 13 bytes
      of the HMAC of random part and text under the first half of the key and of the random part, and the blocks of
      the padded text, chained. */
  lemma PacketBytes(suite: Suite, data: seq<byte>, key: Key, random: Nonce) returns (iv: Block)
    requires data != []
    ensures iv[..13] == suite.hmac(key[..16], random + data)[..13] && iv[13..] == random
    ensures EncryptedWithHmacIv(suite, data, key, random).Ok?
    ensures IsPacket(suite, key, iv, data, EncryptedWithHmacIv(suite, data, key, random).value)
  {
    hide Seal, IsPacket;
    iv := HmacIv(suite, key, random, data);
    SealBytes(suite, key, iv, data);
  }

  /** The same for SymmetricEncrypt under a given vector. */
  lemma PlainVectorBytes(suite: Suite, data: seq<byte>, key: Key, iv: Block)
    requires data != []
    ensures Encrypted(suite, data, key, iv).Ok?
    ensures IsPacket(suite, key, iv, data, Encrypted(suite, data, key, iv).value)
  {
    hide Seal, IsPacket;
    SealBytes(suite, key, iv, data);
  }

  // ---- errors ----

  lemma EncryptionErrors(suite: Suite, data: seq<byte>, key: seq<byte>, iv: seq<byte>, random: Nonce)
    ensures Encrypted(suite, data, key, iv) == Err(EmptyInput) <==> data == []
    ensures Encrypted(suite, data, key, iv) == Err(BadKeyLength) <==> data != [] && |key| != 32
    ensures Encrypted(suite, data, key, iv) == Err(BadIVLength) <==> data != [] && |key| == 32 && |iv| != 16
    ensures Encrypted(suite, data, key, iv).Ok? <==> data != [] && |key| == 32 && |iv| == 16
    ensures EncryptedWithHmacIv(suite, data, key, random) == Err(EmptyInput) <==> data == []
    ensures EncryptedWithHmacIv(suite, data, key, random) == Err(BadKeyLength) <==> data != [] && |key| != 32
    ensures EncryptedWithHmacIv(suite, data, key, random).Ok? <==> data != [] && |key| == 32
  {
    hide Seal;
  }

  /** Which input is refused before any decryption, and what the HMAC check adds. */
  lemma DecryptionErrors(suite: Suite, input: seq<byte>, key: seq<byte>, checkHmac: bool)
    ensures var r := Decrypted(suite, input, key, checkHmac);
            && (r == Err(InputTooShort) <==> |input| < 16)
            && (r == Err(BadKeyLength) <==> |input| >= 16 && |key| != 32)
            && (r == Err(NotWholeBlocks) <==> |input| >= 16 && |key| == 32 && |input| % 16 != 0)
            && (r == Err(InvalidHmac) <==>
                  checkHmac && Decrypted(suite, input, key, false).Ok? && Decrypted(suite, input, key, true).Err?)
            && (r.Err? && r.error.BadPadding? <==>
                  |input| >= 16 && |key| == 32 && |input| % 16 == 0 && Decrypted(suite, input, key, false).Err?)
            && (r.Ok? ==> r == Decrypted(suite, input, key, false))
  {
    hide CbcDecrypt, Unpadded, IvOf;
  }

  lemma EcbErrors(suite: Suite, input: seq<byte>, key: seq<byte>)
    ensures EcbDecrypted(suite, input, key) == Err(EmptyInput) <==> input == []
    ensures EcbDecrypted(suite, input, key) == Err(BadKeyLength) <==> input != [] && |key| != 32
    ensures EcbDecrypted(suite, input, key) == Err(NotWholeBlocks) <==> input != [] && |key| == 32 && |input| % 16 != 0
  {
    hide EcbDecrypt, Unpadded;
  }
}
