/** Padding to whole blocks (crypto/pkcs7.go; section 6.3 of RFC 5652). */
module Pkcs7 {
  import opened Words
  import opened Wrappers
  import opened Bytes

  datatype PaddingError = InvalidPaddedData | InvalidPadding

  function PadLength(length: nat, blockSize: nat): (pad: nat)
    requires blockSize > 0
    ensures 1 <= pad <= blockSize
  {
    blockSize - length % blockSize
  }

  /** The pad byte is byte(pad), which drops all but eight binary digits. */
  function Pkcs7Pad(data: seq<byte>, blockSize: nat): seq<byte>
    requires blockSize > 0
  {
    var pad := PadLength(|data|, blockSize);
    data + seq(pad, _ => pad % 256)
  }

  function Unpadded(data: seq<byte>, blockSize: nat): Result<seq<byte>, PaddingError>
    requires blockSize > 0
  {
    if |data| == 0 || |data| % blockSize != 0 then Err(InvalidPaddedData)
    else
      var padLen := data[|data| - 1];
      if padLen == 0 || padLen > blockSize then Err(InvalidPadding)
      else
        WholeBlock(|data|, blockSize);
        if forall i :: |data| - padLen <= i < |data| ==> data[i] == padLen
        then Ok(data[..|data| - padLen])
        else Err(InvalidPadding)
  }

  method Pkcs7Unpad(data: seq<byte>, blockSize: nat) returns (r: Result<seq<byte>, PaddingError>)
    requires blockSize > 0
    ensures r == Unpadded(data, blockSize)
  {
    if |data| == 0 || |data| % blockSize != 0 {
      return Err(InvalidPaddedData);
    }
    var padLen := data[|data| - 1];
    if padLen == 0 || padLen > blockSize {
      return Err(InvalidPadding);
    }
    WholeBlock(|data|, blockSize);
    var i := |data| - padLen;
    while i < |data|
      invariant |data| - padLen <= i <= |data|
      invariant forall j :: |data| - padLen <= j < i ==> data[j] == padLen
    {
      if data[i] != padLen {
        return Err(InvalidPadding);
      }
      i := i + 1;
    }
    return Ok(data[..|data| - padLen]);
  }

  lemma WholeBlock(length: nat, blockSize: nat)
    requires blockSize > 0 && length > 0 && length % blockSize == 0
    ensures length >= blockSize
  {
    if length < blockSize {
      SmallMod(length, blockSize);
    }
  }

  lemma PaddedLength(length: nat, blockSize: nat)
    requires blockSize > 0
    ensures (length + PadLength(length, blockSize)) % blockSize == 0
    ensures length + PadLength(length, blockSize) == (length / blockSize + 1) * blockSize
  {
    assert (length / blockSize + 1) * blockSize == length / blockSize * blockSize + blockSize;
    DivModUnique(length + PadLength(length, blockSize), blockSize, length / blockSize + 1, 0);
  }

  /** What padding makes of data: the data, then one to blockSize bytes up to a whole block, each of which says how
      many there are. */
  lemma PadBytes(data: seq<byte>, blockSize: nat)
    requires blockSize > 0
    ensures var r := Pkcs7Pad(data, blockSize);
            var added := |r| - |data|;
            && 1 <= added <= blockSize && |r| % blockSize == 0
            && r[..|data|] == data
            && forall i :: |data| <= i < |r| ==> r[i] == added % 256
  {
    PaddedLength(|data|, blockSize);
  }

  /** The pad length is the only number from 1 to the block size that completes the last block. */
  lemma PadLengthUnique(length: nat, pad: nat, blockSize: nat)
    requires 1 <= pad <= blockSize && (length + pad) % blockSize == 0
    ensures pad == PadLength(length, blockSize)
  {
    var q := (length + pad) / blockSize;
    assert length + pad == q * blockSize;
    if pad == blockSize {
      assert length == (q - 1) * blockSize by { assert (q - 1) * blockSize == q * blockSize - blockSize; }
      DivModUnique(length, blockSize, q - 1, 0);
    } else {
      assert length == (q - 1) * blockSize + (blockSize - pad) by {
        assert (q - 1) * blockSize == q * blockSize - blockSize;
      }
      DivModUnique(length, blockSize, q - 1, blockSize - pad);
    }
  }

  /** Whatever unpadding returns, padding it gives the input back. */
  lemma PadOfUnpad(c: seq<byte>, blockSize: nat)
    requires blockSize > 0 && Unpadded(c, blockSize).Ok?
    ensures Pkcs7Pad(Unpadded(c, blockSize).value, blockSize) == c
  {
    var padLen := c[|c| - 1];
    PadLengthUnique(|c| - padLen, padLen, blockSize);
  }

  /** Unpadding undoes padding exactly when the pad length fits the byte that records it. */
  lemma UnpadOfPad(data: seq<byte>, blockSize: nat)
    requires blockSize > 0
    ensures Unpadded(Pkcs7Pad(data, blockSize), blockSize) == Ok(data) <==> PadLength(|data|, blockSize) < 256
  {
    var pad := PadLength(|data|, blockSize);
    var c := Pkcs7Pad(data, blockSize);
    PaddedLength(|data|, blockSize);
    assert c[|c| - 1] == pad % 256;
    if pad < 256 {
      assert c[..|c| - pad] == data;
    }
  }

  /** With block sizes below 256 the two are mutual inverses: unpadding accepts exactly the padded data. */
  lemma UnpadIff(c: seq<byte>, data: seq<byte>, blockSize: nat)
    requires 0 < blockSize < 256
    ensures Unpadded(c, blockSize) == Ok(data) <==> c == Pkcs7Pad(data, blockSize)
  {
    UnpadOfPad(data, blockSize);
    if Unpadded(c, blockSize).Ok? {
      PadOfUnpad(c, blockSize);
    }
  }
}
