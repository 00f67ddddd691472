/** The buffers and loops of crypto/encrypt.go and crypto/decrypt.go, proved to compute SymmetricSpec. */
module Symmetric {
  import opened Wrappers
  import opened Bytes
  import opened Primitives
  import opened Pkcs7
  import opened SymmetricSpec

  /** cipher.Block.Encrypt: one block into dst from position at on. */
  method EncryptBlock(suite: Suite, key: Key, dst: array<byte>, at: nat, src: Block)
    requires at + BLOCK_SIZE <= dst.Length
    modifies dst
    ensures dst[..] == old(dst[..at]) + suite.encrypt(key, src) + old(dst[at + BLOCK_SIZE..])
  {
    var block := suite.encrypt(key, src);
    Store(dst, at, block);
  }

  /** cipher.Block.Decrypt */
  method DecryptBlock(suite: Suite, key: Key, dst: array<byte>, at: nat, src: Block)
    requires at + BLOCK_SIZE <= dst.Length
    modifies dst
    ensures dst[..] == old(dst[..at]) + suite.decrypt(key, src) + old(dst[at + BLOCK_SIZE..])
  {
    var block := suite.decrypt(key, src);
    Store(dst, at, block);
  }

  method Store(dst: array<byte>, at: nat, block: Block)
    requires at + BLOCK_SIZE <= dst.Length
    modifies dst
    ensures dst[..] == old(dst[..at]) + block + old(dst[at + BLOCK_SIZE..])
  {
    forall i | 0 <= i < BLOCK_SIZE {
      dst[at + i] := block[i];
    }
  }

  /** cipher.NewCBCEncrypter(block, iv).CryptBlocks(dst, src) */
  method CbcEncryptBlocks(suite: Suite, key: Key, iv: Block, dst: array<byte>, src: seq<byte>)
    requires WholeBlocks(src) && dst.Length == |src|
    modifies dst
    ensures dst[..] == CbcEncrypt(suite, key, iv, src)
  {
    hide XorBlock, CbcEncrypt;
    var previous: Block := iv;
    var at := 0;
    while at < |src|
      invariant 0 <= at <= |src| && WholeBlocks(src[at..])
      invariant dst[..at] + CbcEncrypt(suite, key, previous, src[at..]) == CbcEncrypt(suite, key, iv, src)
    {
      ghost var done := dst[..at];
      var mixed := XorBlock(src[at..at + BLOCK_SIZE], previous);
      CbcEncryptStep(suite, key, previous, src, at);
      EncryptBlock(suite, key, dst, at, mixed);
      previous := suite.encrypt(key, mixed);
      at := at + BLOCK_SIZE;
      assert dst[..at] == done + previous;
    }
    EmptyChain(suite, key, previous);
    assert dst[..at] == dst[..] && src[at..] == [];
  }

  /** cipher.NewCBCDecrypter(block, iv).CryptBlocks(dst, src) */
  method CbcDecryptBlocks(suite: Suite, key: Key, iv: Block, dst: array<byte>, src: seq<byte>)
    requires WholeBlocks(src) && dst.Length == |src|
    modifies dst
    ensures dst[..] == CbcDecrypt(suite, key, iv, src)
  {
    hide XorBlock, CbcDecrypt;
    var previous: Block := iv;
    var at := 0;
    while at < |src|
      invariant 0 <= at <= |src| && WholeBlocks(src[at..])
      invariant dst[..at] + CbcDecrypt(suite, key, previous, src[at..]) == CbcDecrypt(suite, key, iv, src)
    {
      ghost var done := dst[..at];
      var c: Block := src[at..at + BLOCK_SIZE];
      CbcDecryptStep(suite, key, previous, src, at);
      var mixed := XorBlock(suite.decrypt(key, c), previous);
      Store(dst, at, mixed);
      previous := c;
      at := at + BLOCK_SIZE;
      assert dst[..at] == done + mixed;
    }
    EmptyChain(suite, key, previous);
    assert dst[..at] == dst[..] && src[at..] == [];
  }

  lemma EmptyChain(suite: Suite, key: Key, previous: Block)
    ensures CbcEncrypt(suite, key, previous, []) == [] && CbcDecrypt(suite, key, previous, []) == []
  {
  }

  /** One block of the chain, from position at on. */
  lemma CbcEncryptStep(suite: Suite, key: Key, previous: Block, src: seq<byte>, at: nat)
    requires at < |src| && WholeBlocks(src[at..])
    ensures at + BLOCK_SIZE <= |src| && WholeBlocks(src[at + BLOCK_SIZE..])
    ensures var c := suite.encrypt(key, XorBlock(src[at..at + BLOCK_SIZE], previous));
            CbcEncrypt(suite, key, previous, src[at..]) == c + CbcEncrypt(suite, key, c, src[at + BLOCK_SIZE..])
  {
    hide XorBlock;
    assert src[at..][..BLOCK_SIZE] == src[at..at + BLOCK_SIZE];
    assert src[at..][BLOCK_SIZE..] == src[at + BLOCK_SIZE..];
  }

  lemma CbcDecryptStep(suite: Suite, key: Key, previous: Block, src: seq<byte>, at: nat)
    requires at < |src| && WholeBlocks(src[at..])
    ensures at + BLOCK_SIZE <= |src| && WholeBlocks(src[at + BLOCK_SIZE..])
    ensures var c: Block := src[at..at + BLOCK_SIZE];
            CbcDecrypt(suite, key, previous, src[at..])
            == XorBlock(suite.decrypt(key, c), previous) + CbcDecrypt(suite, key, c, src[at + BLOCK_SIZE..])
  {
    hide XorBlock;
    assert src[at..][..BLOCK_SIZE] == src[at..at + BLOCK_SIZE];
    assert src[at..][BLOCK_SIZE..] == src[at + BLOCK_SIZE..];
  }

  /** iv is None for a nil vector; random is what the random source would then deliver, None if it fails. */
  method SymmetricEncrypt(suite: Suite, input: seq<byte>, key: seq<byte>, iv: Option<seq<byte>>, random: Option<Block>)
    returns (r: Result<seq<byte>, CryptoError>)
    ensures iv.Some? ==> r == Encrypted(suite, input, key, iv.value)
    ensures iv.None? && random.Some? ==> r == Encrypted(suite, input, key, random.value)
    ensures iv.None? && random.None? ==>
              r == Err(if input == [] then EmptyInput else if |key| != 32 then BadKeyLength else RandomFailed)
  {
    if |input| == 0 {
      return Err(EmptyInput);
    }
    if |key| != 32 {
      return Err(BadKeyLength);
    }
    if iv.Some? && |iv.value| != BLOCK_SIZE {
      return Err(BadIVLength);
    }
    if iv.None? && random.None? {
      return Err(RandomFailed);
    }
    var vector: Block := if iv.Some? then iv.value else random.value;

    var encryptedIV := new byte[BLOCK_SIZE];
    EncryptBlock(suite, key, encryptedIV, 0, vector);
    assert encryptedIV[..] == suite.encrypt(key, vector);

    PaddedLength(|input|, BLOCK_SIZE);
    var paddedInput := Pkcs7Pad(input, BLOCK_SIZE);
    var encryptedData := new byte[|paddedInput|];
    CbcEncryptBlocks(suite, key, vector, encryptedData, paddedInput);
    return Ok(encryptedIV[..] + encryptedData[..]);
  }

  method SymmetricEncryptWithHmacIv(suite: Suite, input: seq<byte>, key: seq<byte>, random: Option<Nonce>)
    returns (r: Result<seq<byte>, CryptoError>)
    ensures random.Some? ==> r == EncryptedWithHmacIv(suite, input, key, random.value)
    ensures random.None? ==>
              r == Err(if input == [] then EmptyInput else if |key| < 16 then BadKeyLength else RandomFailed)
  {
    if |input| == 0 {
      return Err(EmptyInput);
    }
    if |key| < 16 {
      return Err(BadKeyLength);
    }
    if random.None? {
      return Err(RandomFailed);
    }
    var randomBytes := random.value;
    var digest: seq<byte> := suite.hmac(key[..16], randomBytes + input);
    var iv: seq<byte> := digest[..16 - |randomBytes|] + randomBytes;
    r := SymmetricEncrypt(suite, input, key, Some(iv), None);
  }

  method SymmetricDecrypt(suite: Suite, input: seq<byte>, key: seq<byte>, checkHmac: bool)
    returns (r: Result<seq<byte>, CryptoError>)
    ensures r == Decrypted(suite, input, key, checkHmac)
  {
    if |input| < BLOCK_SIZE {
      return Err(InputTooShort);
    }
    if |key| != 32 {
      return Err(BadKeyLength);
    }
    var iv := new byte[BLOCK_SIZE];
    DecryptBlock(suite, key, iv, 0, input[..BLOCK_SIZE]);
    assert iv[..] == IvOf(suite, input, key);

    var ciphertext := input[BLOCK_SIZE..];
    if |ciphertext| % BLOCK_SIZE != 0 {
      return Err(NotWholeBlocks);
    }
    var plaintextPadded := new byte[|ciphertext|];
    CbcDecryptBlocks(suite, key, iv[..], plaintextPadded, ciphertext);

    var unpadded := Pkcs7Unpad(plaintextPadded[..], BLOCK_SIZE);
    if unpadded.Err? {
      return Err(BadPadding(unpadded.error));
    }
    var plaintext := unpadded.value;

    if checkHmac {
      var remotePartialHmac := iv[..iv.Length - 3];
      var randomPart := iv[iv.Length - 3..];
      var computedDigest: seq<byte> := suite.hmac(key[..16], randomPart + plaintext);
      assert randomPart == iv[..][13..] && remotePartialHmac == iv[..][..13];
      if remotePartialHmac != computedDigest[..|remotePartialHmac|] {
        return Err(InvalidHmac);
      }
    }
    return Ok(plaintext);
  }

  method SymmetricDecryptECB(suite: Suite, input: seq<byte>, key: seq<byte>)
    returns (r: Result<seq<byte>, CryptoError>)
    ensures r == EcbDecrypted(suite, input, key)
  {
    hide Unpadded, EcbDecrypt;
    if |input| == 0 {
      return Err(EmptyInput);
    }
    if |key| != 32 {
      return Err(BadKeyLength);
    }
    if |input| % BLOCK_SIZE != 0 {
      return Err(NotWholeBlocks);
    }
    var decrypted := new byte[|input|];
    var bs, be := 0, BLOCK_SIZE;
    assert decrypted[..0] == [] && input[0..] == input;
    while bs < |input|
      invariant 0 <= bs <= |input| && be == bs + BLOCK_SIZE && WholeBlocks(input[bs..])
      invariant decrypted[..bs] + EcbDecrypt(suite, key, input[bs..]) == EcbDecrypt(suite, key, input)
    {
      ghost var done := decrypted[..bs];
      EcbStep(suite, key, input, bs);
      DecryptBlock(suite, key, decrypted, bs, input[bs..be]);
      assert decrypted[..be] == done + suite.decrypt(key, input[bs..be]);
      bs, be := bs + BLOCK_SIZE, be + BLOCK_SIZE;
    }
    assert input[bs..] == [] && decrypted[..bs] == decrypted[..];
    assert decrypted[..] == EcbDecrypt(suite, key, input);
    var unpadded := Pkcs7Unpad(decrypted[..], BLOCK_SIZE);
    if unpadded.Err? {
      return Err(BadPadding(unpadded.error));
    }
    return Ok(unpadded.value);
  }

  lemma EcbStep(suite: Suite, key: Key, input: seq<byte>, bs: nat)
    requires bs + BLOCK_SIZE <= |input| && WholeBlocks(input[bs..])
    ensures WholeBlocks(input[bs + BLOCK_SIZE..])
    ensures EcbDecrypt(suite, key, input[bs..])
         == suite.decrypt(key, input[bs..bs + BLOCK_SIZE]) + EcbDecrypt(suite, key, input[bs + BLOCK_SIZE..])
  {
    var left := input[bs..];
    assert left[..BLOCK_SIZE] == input[bs..bs + BLOCK_SIZE] && left[BLOCK_SIZE..] == input[bs + BLOCK_SIZE..];
  }
}
