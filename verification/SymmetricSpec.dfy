/** What the symmetric functions compute: cipher block chaining (section 6.2 of NIST SP 800-38A) and the
    packet layout of crypto/encrypt.go and crypto/decrypt.go. */
module SymmetricSpec {
  import opened Words
  import opened Wrappers
  import opened Bytes
  import opened Primitives
  import opened Pkcs7

  datatype CryptoError =
    | EmptyInput | InputTooShort | BadKeyLength | BadIVLength | NotWholeBlocks
    | BadPadding(error: PaddingError) | InvalidHmac | RandomFailed

  function XorByte(a: byte, b: byte): byte {
    Byte256();
    XorBound(a, b, 8);
    Xor(a, b)
  }

  function XorBlock(a: Block, b: Block): Block {
    seq(BLOCK_SIZE, i requires 0 <= i < BLOCK_SIZE => XorByte(a[i], b[i]))
  }

  lemma Byte256()
    ensures Pow(2, 8) == 256
  {
    PowAdd(2, 4, 4);
  }

  lemma XorBlockCancels(a: Block, b: Block)
    ensures XorBlock(XorBlock(a, b), b) == a
  {
    forall i | 0 <= i < BLOCK_SIZE
      ensures XorBlock(XorBlock(a, b), b)[i] == a[i]
    {
      XorCancels(a[i], b[i]);
    }
  }

  // ---- chaining ----

  predicate WholeBlocks(data: seq<byte>) {
    |data| % BLOCK_SIZE == 0
  }

  function CbcEncrypt(suite: Suite, key: Key, previous: Block, data: seq<byte>): (r: seq<byte>)
    requires WholeBlocks(data)
    ensures |r| == |data|
    decreases |data|
  {
    if data == [] then []
    else
      var c: Block := suite.encrypt(key, XorBlock(data[..BLOCK_SIZE], previous));
      c + CbcEncrypt(suite, key, c, data[BLOCK_SIZE..])
  }

  function CbcDecrypt(suite: Suite, key: Key, previous: Block, data: seq<byte>): (r: seq<byte>)
    requires WholeBlocks(data)
    ensures |r| == |data|
    decreases |data|
  {
    if data == [] then []
    else
      var c: Block := data[..BLOCK_SIZE];
      XorBlock(suite.decrypt(key, c), previous) + CbcDecrypt(suite, key, c, data[BLOCK_SIZE..])
  }

  lemma {:induction false} CbcDecryptOfEncrypt(suite: Suite, key: Key, previous: Block, data: seq<byte>)
    requires WholeBlocks(data)
    ensures CbcDecrypt(suite, key, previous, CbcEncrypt(suite, key, previous, data)) == data
    decreases |data|
  {
    if data != [] {
      var p: Block := data[..BLOCK_SIZE];
      var c: Block := suite.encrypt(key, XorBlock(p, previous));
      var rest := CbcEncrypt(suite, key, c, data[BLOCK_SIZE..]);
      assert (c + rest)[..BLOCK_SIZE] == c && (c + rest)[BLOCK_SIZE..] == rest;
      Inverse(suite, key, XorBlock(p, previous));
      XorBlockCancels(p, previous);
      CbcDecryptOfEncrypt(suite, key, c, data[BLOCK_SIZE..]);
    }
  }

  lemma {:induction false} CbcEncryptOfDecrypt(suite: Suite, key: Key, previous: Block, data: seq<byte>)
    requires WholeBlocks(data)
    ensures CbcEncrypt(suite, key, previous, CbcDecrypt(suite, key, previous, data)) == data
    decreases |data|
  {
    if data != [] {
      var c: Block := data[..BLOCK_SIZE];
      var p: seq<byte> := XorBlock(suite.decrypt(key, c), previous);
      var rest: seq<byte> := CbcDecrypt(suite, key, c, data[BLOCK_SIZE..]);
      assert (p + rest)[..BLOCK_SIZE] == p && (p + rest)[BLOCK_SIZE..] == rest;
      Inverse(suite, key, c);
      XorBlockCancels(suite.decrypt(key, c), previous);
      CbcEncryptOfDecrypt(suite, key, c, data[BLOCK_SIZE..]);
    }
  }

  // ---- one block at a time, without chaining ----

  function EcbEncrypt(suite: Suite, key: Key, data: seq<byte>): (r: seq<byte>)
    requires WholeBlocks(data)
    ensures |r| == |data|
  {
    if data == [] then []
    else suite.encrypt(key, data[..BLOCK_SIZE]) + EcbEncrypt(suite, key, data[BLOCK_SIZE..])
  }

  function EcbDecrypt(suite: Suite, key: Key, data: seq<byte>): (r: seq<byte>)
    requires WholeBlocks(data)
    ensures |r| == |data|
  {
    if data == [] then []
    else suite.decrypt(key, data[..BLOCK_SIZE]) + EcbDecrypt(suite, key, data[BLOCK_SIZE..])
  }

  lemma {:induction false} EcbInverse(suite: Suite, key: Key, data: seq<byte>)
    requires WholeBlocks(data)
    ensures EcbDecrypt(suite, key, EcbEncrypt(suite, key, data)) == data
    ensures EcbEncrypt(suite, key, EcbDecrypt(suite, key, data)) == data
  {
    if data != [] {
      var b: Block := data[..BLOCK_SIZE];
      var rest := data[BLOCK_SIZE..];
      Inverse(suite, key, b);
      EcbInverse(suite, key, rest);
      var e: seq<byte>, d: seq<byte> := suite.encrypt(key, b), suite.decrypt(key, b);
      var er: seq<byte>, dr: seq<byte> := EcbEncrypt(suite, key, rest), EcbDecrypt(suite, key, rest);
      assert (e + er)[..BLOCK_SIZE] == e && (e + er)[BLOCK_SIZE..] == er;
      assert (d + dr)[..BLOCK_SIZE] == d && (d + dr)[BLOCK_SIZE..] == dr;
    }
  }

  // ---- packets ----

  function Padded(data: seq<byte>): (r: seq<byte>)
    ensures WholeBlocks(r)
  {
    PaddedLength(|data|, BLOCK_SIZE);
    Pkcs7Pad(data, BLOCK_SIZE)
  }

  /** The encrypted initialisation vector followed by the chained blocks. */
  function Seal(suite: Suite, key: Key, iv: Block, data: seq<byte>): seq<byte> {
    suite.encrypt(key, iv) + CbcEncrypt(suite, key, iv, Padded(data))
  }

  /** 13 bytes of the HMAC of random part and plaintext, then the random part. */
  function HmacIv(suite: Suite, key: seq<byte>, random: Nonce, data: seq<byte>): Block
    requires |key| >= 16
  {
    suite.hmac(key[..16], random + data)[..13] + random
  }

  function Encrypted(suite: Suite, data: seq<byte>, key: seq<byte>, iv: seq<byte>): Result<seq<byte>, CryptoError> {
    if data == [] then Err(EmptyInput)
    else if |key| != 32 then Err(BadKeyLength)
    else if |iv| != BLOCK_SIZE then Err(BadIVLength)
    else Ok(Seal(suite, key, iv, data))
  }

  function EncryptedWithHmacIv(suite: Suite, data: seq<byte>, key: seq<byte>, random: Nonce)
    : Result<seq<byte>, CryptoError>
  {
    if data == [] then Err(EmptyInput)
    else if |key| < 16 then Err(BadKeyLength)
    else Encrypted(suite, data, key, HmacIv(suite, key, random, data))
  }

  function IvOf(suite: Suite, input: seq<byte>, key: Key): Block
    requires |input| >= BLOCK_SIZE
  {
    suite.decrypt(key, input[..BLOCK_SIZE])
  }

  function Decrypted(suite: Suite, input: seq<byte>, key: seq<byte>, checkHmac: bool): Result<seq<byte>, CryptoError> {
    if |input| < BLOCK_SIZE then Err(InputTooShort)
    else if |key| != 32 then Err(BadKeyLength)
    else
      var iv := IvOf(suite, input, key);
      var ciphertext := input[BLOCK_SIZE..];
      if !WholeBlocks(ciphertext) then Err(NotWholeBlocks)
      else
        match Unpadded(CbcDecrypt(suite, key, iv, ciphertext), BLOCK_SIZE)
        case Err(e) => Err(BadPadding(e))
        case Ok(plaintext) =>
          if checkHmac && iv[..13] != suite.hmac(key[..16], iv[13..] + plaintext)[..13]
          then Err(InvalidHmac)
          else Ok(plaintext)
  }

  function EcbDecrypted(suite: Suite, input: seq<byte>, key: seq<byte>): Result<seq<byte>, CryptoError> {
    if input == [] then Err(EmptyInput)
    else if |key| != 32 then Err(BadKeyLength)
    else if !WholeBlocks(input) then Err(NotWholeBlocks)
    else
      match Unpadded(EcbDecrypt(suite, key, input), BLOCK_SIZE)
      case Err(e) => Err(BadPadding(e))
      case Ok(plaintext) => Ok(plaintext)
  }

  // ---- what decryption accepts ----

  lemma SealLength(suite: Suite, key: Key, iv: Block, data: seq<byte>)
    ensures |Seal(suite, key, iv, data)| == 16 + 16 * (|data| / 16 + 1)
  {
    PaddedLength(|data|, BLOCK_SIZE);
  }

  /** A packet opens to data exactly when it is the seal of data under the vector it carries. */
  lemma SealIff(suite: Suite, key: Key, input: seq<byte>, data: seq<byte>)
    requires |input| >= BLOCK_SIZE
    ensures Decrypted(suite, input, key, false) == Ok(data) <==>
            input == Seal(suite, key, IvOf(suite, input, key), data)
  {
    var iv := IvOf(suite, input, key);
    var head: Block, ciphertext := input[..BLOCK_SIZE], input[BLOCK_SIZE..];
    var padded := Padded(data);
    Inverse(suite, key, head);
    assert input == head + ciphertext;
    var chained := CbcEncrypt(suite, key, iv, padded);
    assert Seal(suite, key, iv, data)[BLOCK_SIZE..] == chained;
    CbcDecryptOfEncrypt(suite, key, iv, padded);
    if WholeBlocks(ciphertext) {
      CbcEncryptOfDecrypt(suite, key, iv, ciphertext);
      UnpadIff(CbcDecrypt(suite, key, iv, ciphertext), data, BLOCK_SIZE);
    }
  }

  /** With the check on, the vector must in addition be the one computed from data and its own random part. */
  lemma HmacSealIff(suite: Suite, key: Key, input: seq<byte>, data: seq<byte>)
    requires |input| >= BLOCK_SIZE
    ensures Decrypted(suite, input, key, true) == Ok(data) <==>
            input == Seal(suite, key, HmacIv(suite, key, IvOf(suite, input, key)[13..], data), data)
  {
    hide CbcDecrypt, CbcEncrypt, Unpadded, Pkcs7Pad;
    var iv := IvOf(suite, input, key);
    var random: Nonce := iv[13..];
    var expected := HmacIv(suite, key, random, data);
    SealIff(suite, key, input, data);
    assert iv == iv[..13] + iv[13..];
    assert expected[..13] == suite.hmac(key[..16], random + data)[..13] && expected[13..] == random;
    assert iv == expected <==> iv[..13] == expected[..13];
    SealCarriesIv(suite, key, expected, data);
  }

  lemma SealCarriesIv(suite: Suite, key: Key, iv: Block, data: seq<byte>)
    ensures |Seal(suite, key, iv, data)| >= BLOCK_SIZE
    ensures IvOf(suite, Seal(suite, key, iv, data), key) == iv
  {
    assert Seal(suite, key, iv, data)[..BLOCK_SIZE] == suite.encrypt(key, iv);
    Inverse(suite, key, iv);
  }

  /** Decryption accepts exactly what encryption makes: for a non-empty text, every key and every input,
      SymmetricDecrypt with the check returns the text if and only if the input is the output of
      SymmetricEncryptWithHmacIv for that text with the random bytes the input carries. */
  lemma DecryptionExact(suite: Suite, input: seq<byte>, key: seq<byte>, data: seq<byte>)
    requires data != []
    ensures Decrypted(suite, input, key, true) == Ok(data) <==>
            && |key| == 32 && |input| >= BLOCK_SIZE
            && EncryptedWithHmacIv(suite, data, key, IvOf(suite, input, key)[13..]) == Ok(input)
  {
    hide CbcDecrypt, CbcEncrypt, Unpadded, Pkcs7Pad, HmacIv, Seal;
    if |key| == 32 && |input| >= BLOCK_SIZE {
      HmacSealIff(suite, key, input, data);
    }
  }

  /** Without the check the vector is free. */
  lemma UncheckedDecryptionExact(suite: Suite, input: seq<byte>, key: seq<byte>, data: seq<byte>)
    requires data != []
    ensures Decrypted(suite, input, key, false) == Ok(data) <==>
            && |key| == 32 && |input| >= BLOCK_SIZE
            && Encrypted(suite, data, key, IvOf(suite, input, key)) == Ok(input)
  {
    hide CbcDecrypt, CbcEncrypt, Unpadded, Pkcs7Pad, HmacIv, Seal;
    if |key| == 32 && |input| >= BLOCK_SIZE {
      SealIff(suite, key, input, data);
    }
  }

  /** Encryption succeeds on every non-empty text under a 32-byte key, and decryption undoes it. */
  lemma RoundTrip(suite: Suite, data: seq<byte>, key: Key, random: Nonce)
    requires data != []
    ensures EncryptedWithHmacIv(suite, data, key, random)
         == Ok(Seal(suite, key, HmacIv(suite, key, random, data), data))
    ensures Decrypted(suite, EncryptedWithHmacIv(suite, data, key, random).value, key, true) == Ok(data)
  {
    hide CbcDecrypt, CbcEncrypt, Unpadded, Pkcs7Pad, Seal, Decrypted;
    var iv := HmacIv(suite, key, random, data);
    assert iv[13..] == random;
    SealCarriesIv(suite, key, iv, data);
    HmacSealIff(suite, key, Seal(suite, key, iv, data), data);
  }

  /** The one text that decryption returns and encryption refuses is the empty one: it comes from a packet of
      exactly two blocks. */
  lemma EmptyText(suite: Suite, input: seq<byte>, key: Key, random: Nonce)
    ensures EncryptedWithHmacIv(suite, [], key, random).Err?
    ensures Decrypted(suite, input, key, true) == Ok([]) ==> |input| == 32
    ensures Decrypted(suite, Seal(suite, key, HmacIv(suite, key, random, []), []), key, true) == Ok([])
  {
    hide CbcDecrypt, CbcEncrypt, Unpadded, Pkcs7Pad, Seal, Decrypted;
    var iv := HmacIv(suite, key, random, []);
    assert iv[13..] == random;
    SealCarriesIv(suite, key, iv, []);
    HmacSealIff(suite, key, Seal(suite, key, iv, []), []);
    if |input| >= BLOCK_SIZE {
      HmacSealIff(suite, key, input, []);
      SealLength(suite, key, HmacIv(suite, key, IvOf(suite, input, key)[13..], []), []);
    } else {
      ShortInput(suite, input, key);
    }
  }

  lemma ShortInput(suite: Suite, input: seq<byte>, key: Key)
    requires |input| < BLOCK_SIZE
    ensures Decrypted(suite, input, key, true).Err?
  {
  }

  /** ECB decryption accepts exactly the block-wise encryptions of padded texts. */
  lemma EcbDecryptionExact(suite: Suite, input: seq<byte>, key: seq<byte>, data: seq<byte>)
    ensures EcbDecrypted(suite, input, key) == Ok(data) <==>
            |key| == 32 && input == EcbEncrypt(suite, key, Padded(data))
  {
    var padded := Padded(data);
    if |key| == 32 {
      EcbInverse(suite, key, padded);
      if WholeBlocks(input) {
        EcbInverse(suite, key, input);
        UnpadIff(EcbDecrypt(suite, key, input), data, BLOCK_SIZE);
      }
    }
  }
}
