# Verified model of the Steam client library

A Dafny model of the protocol core of a Go client library for the Steam network, with proofs about it. It covers the
stack that carries messages between the client and a connection manager server, the SteamID codec, the login flow and
the login codes.

The stack, from the bottom up:

- `Pkcs7`, `SymmetricSpec`, `Symmetric`: padding (section 6.3 of RFC 5652), CBC chaining (section 6.2 of
  NIST SP 800-38A) and the packet cipher, whose initialisation vector is 13 bytes of an HMAC (section 2 of RFC 2104)
  and 3 random bytes. `SymmetricSpec` holds the functions and their laws, `CipherBlocks` what they put out byte by byte, `Symmetric` the
  loops over buffers.
- `Framing`, `Delivery`, `TcpConnection`, `Transfer`, `OverlappingSends`, `SendSchedules`: packets of length, magic and
  data on a stream that arrives in chunks, the connection object with its state and session key, what a peer reads of what was sent, and
  what becomes of it when calls of `Send` overlap.
- `Messages`, `MessageFields`, `ByteReader`: the three header layouts, as functions, field by field, and as the
  cursor-driven readers.
- `Handlers`, `ProtocolClient`: what every message does to the client, first as functions on a value that holds the
  client's fields and a history of its actions, then as the `Protocol` object, whose methods are proved to do exactly
  that. `Dispatching` says what each kind of message comes to, and what a closed client still does.
- `Unpacking`, `Handshake`, `ReadLoop`, `Conversation`, `Exchanges`, `KeyExchange`: theorems about whole runs of these
  functions.
- `StopChannels`: the heartbeat stop channels under every interleaving of goroutines.

Beside it stand `SteamIdBits`, `SteamIdText`, `SteamIdDomains`, `SteamIdParsing`, `SteamIdJson` (bit fields, the three textual forms,
JSON),
`Totp` (section 5.3 of RFC 4226 and section 4.2 of RFC 6238) and `AuthFlow` (the polling login of the credentials
provider). `Words`, `Bytes`, `Decimal`, `Integers`, `Wrappers` hold shared vocabulary: bitwise operations on numbers,
byte order, decimal texts.

Code the library only imports is represented by function values restricted by laws, in `Primitives` and `Codec`: AES on
single blocks is a permutation with its inverse, HMAC-SHA1 is a function to 20 bytes, protobuf decoding undoes encoding,
the body of a `CMsgMulti` is shorter than its encoding. Both types come with a lawful witness. Random bytes, generated
keys, the clock and the answers of web services are inputs. Methods that read from the outside receive those inputs as
parameters.

## How the main results fit together

`Transfer.TransferAll` states the delivery guarantee on two connection objects; it rests on `Delivery.DeliveredInOrder`,
that on `Framing.PacketDelivered`, and that on `SymmetricSpec.DecryptionExact` and its relatives. `Conversation` adds the
message headers on top, allows the key to change along the way, and ends at the calls of `handleMessage` that one client
makes for what another one wrote (`ClientsTalk`). `Handshake.SessionKeeps` ties the fields of a client to
its history after any sequence of packets, writes and closes, and every entry of the history to the message that caused
it (`HistoryLabels`); the theorems about keys then speak about histories alone, so that they mean the same whatever led
to them. Every method of `ProtocolClient.Protocol` has a contract that equates its
effect with the corresponding function of `Handlers`, so each theorem about the functions is one about the object.

## Where code and documentation differ

The model follows the code.

- Both `FromSteam2` and `FromSteam3` pass the universe where `NewSteamID` expects the type, and the type where it expects
  the universe (steamid/steamid_2.go:43, steamid/steamid_3.go:36, against steamid/steamid.go:61). `Steam2Decodes` and
  `Steam3Exchanges` say what comes out, `Steam2Domain` and `Steam3Domain` on which ids it does no harm, and `ClanSteam3`
  gives an id for which it does.
- A chat id prints the letter `T`, which the grammar of its own parser lacks.
- The extended header is written with a four-byte size and read with a one-byte size. The two agree on where the body
  starts (`ExtendedBoundary`) but on the ids only for one set of them (`ExtendedRoundTripIff`).
- An encryption result without a preceding request leaves the connection in plain text and still raises the connected
  event. `ConnectedIsKeyed` gives the exact condition, and `FirstResult` a stream on which a new client does so.
- An empty text can be decrypted but not encrypted (`EmptyText`).
- `Send` is documented as safe for concurrent use but writes a packet in three unguarded steps. `DeliversIff` gives
  the exact condition: a schedule of the writes delivers the payloads, whatever they are, if and only if the three writes
  of each call stay together. `TornApart` and `TornLate` say what the peer gets otherwise.
- The server chooses the heartbeat interval, and the ticker refuses one that is not positive. `LogOnSucceedsIff` says when
  a logon succeeds; `LogOnWithoutTicks` is the case of interval 0.

## Model

| member | source | states |
|---|---|---|
| SteamIdBits.GetBitsValue | steamid/steamid_bits.go:52-54 | shift and mask give the w binary digits from position o on, for every mask of w ones |
| SteamIdBits.SetBitsValue | steamid/steamid_bits.go:57-59 | clearing and merging replaces exactly the digits of the field by the low digits of the value, for every field position |
| SteamIdBits.AccessorsRead | steamid/steamid_bits.go:12-44 | the four accessors are the digits of the id at positions 0, 32, 52 and 56 |
| SteamIdBits.SettersReplace | steamid/steamid_bits.go:17-49 | each setter truncates its value to the field and leaves every other field, and the four top bits, unchanged |
| SteamIdBits.NewSteamIDValue | steamid/steamid.go:61-67 | an id is the weighted sum of its truncated fields, with the top bits clear |
| SteamIdBits.RebuiltIff | steamid/steamid_bits.go:12-49 | an id is rebuilt from its four fields if and only if it is below 2^60 |
| SteamIdBits.FieldsUnique | steamid/steamid_bits.go:4-9 | a word has only one decomposition into fields within their widths |
| SteamIdDomains.Steam2Decodes | steamid/steamid_2.go:17-44 | an accepted STEAM_X:Y:Z is account (2Z+Y) mod 2^32, instance 1, type X (1 for 0), universe 1; refused exactly when Z does not fit 32 bits |
| SteamIdDomains.PrintedSteam2 | steamid/steamid_2.go:57-63 | printed text matches the pattern exactly for universes up to 5, and then carries universe, parity and half of the account |
| SteamIdDomains.Steam2Domain | steamid/steamid_2.go:11-63 | printing and parsing give an id back if and only if universe, type and instance are 1 and the top bits are clear |
| SteamIdDomains.Steam3Complete | steamid/steamid_3.go:12 | the scanner accepts every text built from the pattern's pieces and finds letter, universe and the longest account |
| SteamIdDomains.Steam3Sound | steamid/steamid_3.go:12 | every accepted text is built from the pattern's pieces around what the scanner reports |
| SteamIdDomains.Steam3Language | steamid/steamid_3.go:12-22 | the scanner accepts exactly the language of the pattern |
| SteamIdDomains.Steam3Decodes | steamid/steamid_3.go:18-37 | what an accepted text decodes to, with type and universe exchanged, and exactly which accepted texts are refused for their size |
| SteamIdDomains.PrintedSteam3 | steamid/steamid_3.go:49-76 | printed text matches the pattern for every type but chat, with the letter, universe and account as groups |
| SteamIdDomains.Steam3Exchanges | steamid/steamid_3.go:18-107 | print then parse takes every id but a chat to the id with type and universe exchanged and the default instance, and refuses chats |
| SteamIdDomains.Steam3Domain | steamid/steamid_3.go:12-107 | printing and parsing give an id back if and only if type and universe are equal, one of 0, 1, 4, 6, 7, at its default instance, with the top bits clear |
| SteamIdDomains.ClanSteam3 | steamid/steamid_3.go:36 | every public clan id is read back as an individual of universe 7 |
| SteamIdDomains.Steam64Decodes | steamid/steamid_64.go:17-29 | every text of 17 or 18 digits is accepted with its value; none overflows |
| SteamIdDomains.Steam64Domain | steamid/steamid_64.go:11-43 | the raw number survives if and only if it has 17 or 18 digits |
| SteamIdDomains.StringDomain | steamid/steamid.go:77-119 | String and FromString undo each other if and only if the id is individual with universe 1, instance 1, below 2^60, or is not individual and has 17 or 18 digits |
| SteamIdDomains.NonIndividualPrintable | steamid/steamid.go:114-119 | every other id of universes 1 to 5 without top bits is in that domain |
| SteamIdDomains.ClanChatRoundTrip | steamid/steamid.go:130-155 | exactly which ids survive the conversion to a chat and back, and to a clan and back |
| SteamIdParsing.TrimCore | steamid/steamid.go:78 | spaces of any number and kind around a text are removed, and nothing else |
| SteamIdParsing.Cored | steamid/steamid.go:78 | every text is spaces, or spaces around a core that begins and ends otherwise |
| SteamIdParsing.SpacesIgnored | steamid/steamid.go:77-95 | spaces around a text do not change what it parses to |
| SteamIdParsing.Steam2Language | steamid/steamid_2.go:11 | the matcher accepts exactly the texts of the pattern, by their characters |
| SteamIdParsing.Steam64Language | steamid/steamid_64.go:11 | likewise: 17 or 18 characters, all of them digits |
| SteamIdParsing.Steam2Text | steamid/steamid.go:77-81 | FromString of a Steam2 text within spaces: each of the four fields from the characters of the text, or the refusal of a number that is too large |
| SteamIdParsing.Steam3Text | steamid/steamid.go:77-84 | FromString of a Steam3 text within spaces: the account, the instance and type number of the letter, the universe modulo 16, or the refusal of a number that is too large |
| SteamIdParsing.Steam64Text | steamid/steamid.go:85-90 | FromString of a raw number within spaces is that number |
| SteamIdParsing.LanguagesAre | steamid/steamid.go:78-94 | the three languages, by their texts |
| SteamIdParsing.FormRefused | steamid/steamid.go:92-94 | a text is refused for its form if and only if its core is in none of the three languages |
| SteamIdParsing.LetterValues | steamid/steamid_3.go:79-96 | the type number of every letter, in both cases, and of any other text |
| SteamIdParsing.TypeValues | steamid/steamid_3.go:59-107 | the letter and the default instance of every type |
| SteamIdParsing.Printed | steamid/steamid.go:114-119 | the printed texts from the fields of the id, and which of them String and MarshalJSON take |
| SteamIdParsing.JsonCases | steamid/steamid.go:170-189 | what is stored and returned for an integer, null, a text that parses, one that does not, and anything else |
| SteamIdParsing.Conversions | steamid/steamid.go:130-155 | which fields the clan and chat conversions set, to which values, and on which ids |
| Decimal.ValueByFirst | steamid/steamid_64.go:22 | the value of a text of digits, from its first digit: the weights fall from left to right |
| Decimal.DigitsAre | steamid/steamid_64.go:11 | the characters of the ten digits and their values |
| SteamIdJson.SteamIDVariable.UnmarshalJSON | steamid/steamid.go:170-189 | the receiver's new value and the error for integers, null, texts and other values |
| SteamIdJson.JsonDomain | steamid/steamid.go:164-189 | JSON gives an id back, without error, if and only if its text does |
| SteamIdJson.NonIndividualJson | steamid/steamid.go:164-189 | clan, server and chat ids of universes 1 to 5 survive JSON |
| SteamIdJson.NumberDecodes | steamid/steamid.go:173-178 | a number above the base is the id itself, any other is cut to 32 bits and added to the base |
| SteamIdJson.NumbersAgree | steamid/steamid.go:170-180 | a and 76561197960265728 + a decode to the same id for every 32-bit a |
| Totp.CreateAuthenticationCode | totp/authentication_code.go:16-72 | the code is five base-26 digits of the truncated digest, and the guard against short digests never fires |
| Totp.MessageIsCounter | totp/authentication_code.go:23-34 | within 2^32 steps the message is the eight-byte big-endian count of 30-second steps |
| Totp.MessageSteps | totp/authentication_code.go:30-33 | two times, of either sign, give the same message if and only if their truncated steps agree modulo 2^32 |
| Totp.CodePerStep | totp/authentication_code.go:30-71 | times in one step give the same code |
| Totp.TruncateValue | totp/authentication_code.go:47-55 | the truncated digest from four of its bytes and the offset in its last |
| Totp.CodeCharacters | totp/authentication_code.go:23-71 | every character of the code from the digest of the eight-byte step count: the digit of its weight in the character set |
| Totp.DigitsAgree | totp/authentication_code.go:65-69 | two numbers get the same n characters if and only if they agree modulo 26^n |
| Totp.CodeCollisions | totp/authentication_code.go:52-71 | two digests give the same code if and only if their truncations agree modulo 26^5 |
| Pkcs7.Pkcs7Unpad | crypto/pkcs7.go:17-38 | the index loop accepts exactly a non-zero last byte within the block size that is repeated to the end |
| Pkcs7.PadBytes | crypto/pkcs7.go:9-14 | padding keeps the data and adds one to blockSize bytes up to a whole block, each of which says how many there are |
| Pkcs7.PadLengthUnique | crypto/pkcs7.go:9-14 | only one pad length from 1 to the block size completes the last block |
| Pkcs7.PadOfUnpad | crypto/pkcs7.go:9-38 | padding whatever unpadding returns gives the input back |
| Pkcs7.UnpadOfPad | crypto/pkcs7.go:9-38 | unpadding undoes padding if and only if the pad length fits one byte |
| Pkcs7.UnpadIff | crypto/pkcs7.go:9-38 | for block sizes below 256 unpadding returns a text if and only if the input is its padded form |
| SymmetricSpec.CbcDecryptOfEncrypt | crypto/encrypt.go:51-53 | chained decryption undoes chained encryption, for every number of blocks |
| SymmetricSpec.CbcEncryptOfDecrypt | crypto/decrypt.go:42-44 | chained encryption undoes chained decryption |
| SymmetricSpec.EcbInverse | crypto/decrypt.go:99-102 | block-wise encryption and decryption are mutual inverses |
| SymmetricSpec.SealLength | crypto/encrypt.go:43-56 | a text of n bytes becomes 16 + 16(n/16 + 1) bytes |
| SymmetricSpec.SealIff | crypto/decrypt.go:15-75 | without the check, a packet opens to a text if and only if it is the encryption of the text under the vector it carries |
| SymmetricSpec.HmacSealIff | crypto/decrypt.go:53-75 | with the check, that vector must also be the one computed from the text and its own random part |
| SymmetricSpec.DecryptionExact | crypto/decrypt.go:15-75 | for every input, key and non-empty text: decryption with the check returns the text if and only if the input is what SymmetricEncryptWithHmacIv makes of it with the random bytes the input carries |
| SymmetricSpec.UncheckedDecryptionExact | crypto/decrypt.go:15-75 | the same without the check, against SymmetricEncrypt with a free vector |
| SymmetricSpec.RoundTrip | crypto/encrypt.go:67-92 | every non-empty text encrypts under a 32-byte key and decrypts to itself |
| SymmetricSpec.EmptyText | crypto/encrypt.go:69-70 | the empty text is refused by encryption, yet a two-block packet decrypts to it |
| SymmetricSpec.EcbDecryptionExact | crypto/decrypt.go:78-106 | ECB decryption returns a text if and only if the input is the block-wise encryption of its padded form |
| CipherBlocks.ChainedEncryption | crypto/encrypt.go:51-53 | every block is the encryption of the text block xored, byte by byte, with the encrypted block before it or the vector |
| CipherBlocks.ChainedDecryption | crypto/decrypt.go:42-44 | every byte is that of the decrypted block xored with the input block before it or the vector |
| CipherBlocks.EcbBlocks | crypto/decrypt.go:99-102 | without chaining every block is encrypted or decrypted on its own, in place |
| CipherBlocks.PacketBytes | crypto/encrypt.go:67-92 | a packet from its first byte to its last: the encrypted vector of HMAC and random part, then the chained blocks of the padded text |
| CipherBlocks.PlainVectorBytes | crypto/encrypt.go:17-57 | the same under a given vector |
| CipherBlocks.EncryptionErrors | crypto/encrypt.go:18-27 | which input is refused with which error, and that all other input is encrypted |
| CipherBlocks.DecryptionErrors | crypto/decrypt.go:16-75 | which input is refused with which error, and that the check takes away exactly the texts with another HMAC |
| CipherBlocks.EcbErrors | crypto/decrypt.go:79-96 | which input the block-wise decryption refuses |
| Symmetric.CbcEncryptBlocks | crypto/encrypt.go:51-53 | filling the buffer block by block computes the chained encryption |
| Symmetric.CbcDecryptBlocks | crypto/decrypt.go:42-44 | filling the buffer block by block computes the chained decryption |
| Symmetric.SymmetricEncrypt | crypto/encrypt.go:17-57 | the buffers hold the specified packet, with each error in its case, that of a failing random source included |
| Symmetric.SymmetricEncryptWithHmacIv | crypto/encrypt.go:67-92 | the same with the computed vector |
| Symmetric.SymmetricDecrypt | crypto/decrypt.go:15-75 | the buffers hold the specified text, with each error in its case and in its order |
| Symmetric.SymmetricDecryptECB | crypto/decrypt.go:78-106 | the two-index block loop computes the block-wise decryption |
| Framing.ReadRawFrame | connection/tcp.go:200-249 | what the reader makes of any written frame, including lengths cut to 32 bits |
| Framing.RawDelivered | connection/tcp.go:200-261 | a frame is delivered within the bound, and never as the sent text beyond it |
| Framing.PacketDelivered | connection/tcp.go:122-261 | a sent payload is what the next Read returns, with nothing else consumed, if and only if it has at most 1,048,559 bytes under a key or 2^20 without |
| Framing.PartialFrame | connection/tcp.go:200-249 | a cut packet is reported as closed when cut between fields and as incomplete otherwise |
| Framing.RawOutcome | connection/tcp.go:200-249 | what the reader makes of any stream, by the bytes at its front: each error in its case, and the packet otherwise |
| Framing.OpenedOutcome | connection/tcp.go:252-258 | a packet is taken as it is without a key, and otherwise decrypted with the HMAC check |
| Delivery.CutDelivery | connection/tcp.go:122-261 | for any list of deliverable payloads and any cut of the stream, exactly the payloads that arrived whole are read, in order, then an end-of-stream error |
| Delivery.DeliveredInOrder | connection/tcp.go:122-261 | the uncut stream gives back exactly the list |
| Transfer.SendEach | connection/tcp.go:122-176 | repeated Send appends the packets of all payloads to the stream |
| Transfer.ReceiveUntilError | connection/tcp.go:186-261 | repeated Read returns what the stream holds, whatever its chunks, and the first error |
| Transfer.TransferAll | connection/tcp.go:90-261 | two connection objects with the same key: what one sends the other receives, in order, for every chunking of the stream |
| OverlappingSends.KeptTogether | connection/tcp.go:150-173 | overlapping calls of Send whose three writes stay together deliver all their payloads, in the order of the calls |
| OverlappingSends.TornApart | connection/tcp.go:150-173 | when a second call writes between the first two writes of another, the peer gets the payloads before them and then refuses the stream, whatever is written afterwards |
| OverlappingSends.TornLate | connection/tcp.go:150-173 | without a key, when a second call writes between the last two writes of a call with a one-byte payload, the peer gets a byte of the second length in its place |
| OverlappingSends.LatePacket | connection/tcp.go:200-249 | a header is followed by whatever was written next, up to the announced length |
| OverlappingSends.ReadBehind | connection/tcp.go:186-261 | behind whole packets a reader goes on exactly as on what follows them |
| SendSchedules.DeliversIff | connection/tcp.go:122-176 | for every schedule of the three writes of n calls: under all keys and for all payloads the peer gets each payload once, in some order, if and only if the writes of each call stay together |
| SendSchedules.PeelCounts | connection/tcp.go:150-173 | in such a schedule the calls of the longest orderly beginning are complete and all others have not begun |
| TcpConnection.Lifecycle | connection/state.go:7-38 | under any calls in any order the state only moves forward, unencrypted means no key and encrypted means one, a key never disappears, the key in force is the last non-empty one set, and only Close disconnects |
| TcpConnection.LastKeyFirst | connection/tcp.go:90-105 | the last non-empty key of a list of calls can be found from either end |
| TcpConnection.SentOutcome | connection/tcp.go:123-173 | which data Send refuses with which error, and the bytes it puts out for all other |
| TcpConnection.Socket.Receive | connection/tcp.go:200-249 | one read takes a non-empty prefix of what has arrived, up to the buffer size |
| TcpConnection.Socket.ReadFull | connection/tcp.go:231-249 | the result depends on the bytes that arrive, not on their chunks |
| TcpConnection.TCPConnection.constructor | connection/tcp.go:72-75 | a new connection is unencrypted and has no key |
| TcpConnection.TCPConnection.SetSessionKey | connection/tcp.go:90-105 | the state and key move as in the lifecycle, and the stored array is a new one |
| TcpConnection.TCPConnection.GetSessionKey | connection/tcp.go:110-114 | the caller gets a copy |
| TcpConnection.TCPConnection.Send | connection/tcp.go:122-176 | the three writes put exactly one packet on the stream, or none and an error |
| TcpConnection.TCPConnection.Read | connection/tcp.go:186-261 | one packet is taken off the stream and opened, or the specified error comes back; nothing is read when closing |
| TcpConnection.TCPConnection.Close | connection/tcp.go:269-283 | the state becomes disconnecting for good and the key stays |
| TcpConnection.TCPConnection.IsConnected | connection/tcp.go:289-292 | connected means not disconnecting |
| TcpConnection.TCPConnection.IsEncrypted | connection/tcp.go:297-299 | encrypted means that state and no other |
| TcpConnection.OverwriteAfterSet | connection/tcp.go:103-104 | overwriting the caller's array after SetSessionKey does not reach the stored key |
| Messages.FlagBit | protocol/read.go:16-26 | the flag test, its removal and its setting, as arithmetic on bit 31 |
| Messages.ParseShrinks | protocol/read.go:13-36 | a parsed message leaves a body at least four bytes shorter |
| Messages.ProtobufRoundTrip | protocol/write.go:69-102 | reading what Write made of a protobuf header gives EMsg, every field of the header with its defaults, and the body, except when both encoded header and body are empty; the EMsg itself comes back if and only if it is not negative |
| Messages.EmptyHeaderIff | protocol/write.go:70-81 | the encoded header is empty if and only if it is unset and the EMsg is one of the two that skip the defaults |
| Messages.ExtendedBoundary | protocol/write.go:104-143 | reading an extended header gives EMsg and body back for every header, with the ids shifted by three bytes |
| Messages.StandardMisread | protocol/write.go:104-143 | a Request or Result written by the client would be read with wrong ids and 19 bytes of its header in front of the body |
| Messages.NegativeMisread | protocol/write.go:104-143 | a negative EMsg without a protobuf header is read as another EMsg, with a protobuf header that takes five bytes of the body, or not at all |
| Messages.ShiftedFields | protocol/read.go:137-162 | the value of each id that is read, from the ids that were written |
| Messages.ExtendedRoundTripIff | protocol/read.go:107-171 | the ids come back unchanged if and only if they are four particular numbers |
| Messages.ExtendedLosesIds | protocol/write.go:111 | a header without job ids is read with the target job id 512 |
| MessageFields.ProtobufFields | protocol/read.go:55-84 | for any bytes with the flag set: where EMsg, length and header lie, each field from the decoded header or its own default, and each error |
| MessageFields.UnflaggedFields | protocol/read.go:39-52 | without the flag EMsgs 1303 and 1305 take the standard layout and all others the extended one |
| MessageFields.StandardFields | protocol/read.go:87-104 | the two ids and the body of the standard layout, and the refusal of a short one |
| MessageFields.ShortFields | protocol/read.go:119-120 | an extended header of size 0 has no ids |
| MessageFields.MiddleFields | protocol/read.go:122-141 | one of size 20 gives both job ids and the body behind two more bytes |
| MessageFields.LongFields | protocol/read.go:143-171 | one of size 36 gives job ids, account and session, and the body behind its padding |
| MessageFields.ExtendedErrors | protocol/read.go:107-177 | which extended headers are refused, and why |
| MessageFields.DefaultedFields | protocol/write.go:70-81 | each field of the header that goes out: what is set stays, account and session default to 0, and two EMsgs are exempt |
| MessageFields.WrittenFields | protocol/write.go:69-102 | each field that a reader finds, from the header that was written |
| MessageFields.WrittenBytes | protocol/write.go:89-102 | a protobuf header is EMsg with the flag, length and encoding |
| MessageFields.LayoutBytes | protocol/write.go:56-143 | the bytes of the response layout and of the extended one |
| MessageFields.SignedWraps | protocol/write.go:140 | the conversions between signed and unsigned keep the number modulo 2^32 |
| ByteReader.Reader.Read | protocol/read.go:64 | a prefix of the rest is taken, and at the end of the input it fails even when no bytes are asked for |
| ByteReader.Reader.ReadFull | protocol/handlers.go:247-250 | n bytes are taken, or everything with the end-of-input error that fits |
| ByteReader.ReadProtobufHeader | protocol/read.go:55-84 | the struct fields and the cursor end as the parsed header and body, or the parser's error is returned |
| ByteReader.ReadStandardHeader | protocol/read.go:87-104 | the same for the 16-byte layout |
| ByteReader.ReadExtendedHeader | protocol/read.go:107-177 | the same for header sizes 0, 20, 36 and the refused ones |
| ByteReader.ReadHeader | protocol/read.go:39-52 | the layout is chosen by flag and EMsg |
| Unpacking.EveryMessageHasTree | protocol/handlers.go:193-261 | every byte sequence, nested to any depth and compressed or not, is a tree of messages |
| Unpacking.TreeUnique | protocol/handlers.go:193-261 | and of only one |
| Unpacking.SplitsIff | protocol/handlers.go:230-245 | the loop cuts a body into messages exactly when the body is those messages with their lengths in front, below 4 GiB |
| Unpacking.UnpackingIsWalk | protocol/handlers.go:193-261 | the mutual recursion has the same effect on the whole client, and the same error, as handling the tree's messages in pre-order |
| Unpacking.WalkReaches | protocol/handlers.go:234-258 | a walk makes the calls of a prefix of its messages and stops at the first that fails, all before it having succeeded |
| Unpacking.UnpackingCalls | protocol/handlers.go:193-261 | handleMessage is called exactly on the pre-order of the tree, or, on failure, exactly on its prefix up to the failing message |
| Unpacking.CallBound | protocol/handlers.go:234-258 | where no compressed level is opened, n bytes lead to at most (n + 4)/8 calls |
| Unpacking.LoopBound | protocol/handlers.go:234-258 | each turn of the loop accounts for at least eight bytes |
| Unpacking.UncompressedAlike | protocol/handlers.go:193-261 | a message without compressed levels is handled alike under every bound on them, never meets the bound and makes at most (n + 4)/8 calls |
| Unpacking.UnzipsIrrelevant | protocol/handlers.go:212-228 | a result that did not meet the bound on compressed levels is the same under every larger bound |
| Dispatching.MultiOpens | protocol/handlers.go:201-228 | which bytes a Multi message opens to: its body as it is for size 0, else decompressed and of that size, with each error in its case |
| Dispatching.MultiHandled | protocol/handlers.go:193-261 | what handling a Multi message comes to for every size and body it decodes to |
| Dispatching.MultiUndecoded | protocol/handlers.go:201-208 | a body that does not decode or holds nothing is refused |
| Dispatching.MultiWalks | protocol/handlers.go:193-261 | a Multi message that holds given messages, as they are or compressed, walks its header and then them and all that is nested in them |
| Dispatching.SplitOutcome | protocol/handlers.go:236-250 | which sub-message sizes are refused, and which bytes are cut off otherwise |
| Dispatching.LogOnRefused | protocol/handlers.go:155-170 | handleMessage with a logon response that fails: each error in its case, and no effect |
| Dispatching.LogOnHandled | protocol/handlers.go:43-51 | handleMessage with one that succeeds, and exactly when it does: account, session, the server's interval, and the request that goes out |
| Dispatching.OthersHandled | protocol/handlers.go:43-58 | announcements fail exactly when they do not decode and change nothing; messages without a handler do nothing |
| Dispatching.RequestRefused | protocol/handlers.go:62-95 | handleMessage with a Request that is refused: each error in its case |
| Dispatching.RequestHandled | protocol/handlers.go:62-134 | handleMessage with one that is accepted: the pending key and the response that goes out |
| Dispatching.ResultHandled | protocol/handlers.go:137-152 | handleMessage with a Result: the error, or the state and key of the link and the event |
| Dispatching.NonceBytes | protocol/handlers.go:84-88 | the nonce that goes back, byte by byte: up to 16 bytes of the Request, then zeros |
| Dispatching.CloseDisconnects | protocol/protocol.go:93-101 | closing makes the link disconnecting and changes nothing else |
| Dispatching.ClosedIsSilent | connection/tcp.go:123-195 | a client that is disconnecting reads nothing and refuses every write |
| Dispatching.ClosedForGood | connection/tcp.go:269-283 | whatever happens after Close, nothing more is read, handled or put on the stream |
| Handshake.PendingMeaning | protocol/handlers.go:97 | a key is pending if and only if its offer is followed by no other offer and no install |
| Handshake.InstalledMeaning | protocol/handlers.go:147-148 | the installed key is the one whose offer the latest effective install found pending |
| Handshake.HistoryLabels | protocol/handlers.go:62-152 | in every history an offer comes right after each handled Request of protocol 1 and universe 1 with a nonce, an install right after each handled Result of 1, and neither comes at any other time |
| Handshake.SessionKeeps | protocol/protocol.go:73-90 | after any packets, writes and closes in any order the client's fields are what its history says and the history is well-formed |
| Handshake.RunKeeps | protocol/protocol.go:73-90 | the same for Run on any stream |
| Handshake.SessionKeys | protocol/handlers.go:62-152 | pending and installed key after any session, in both directions, and the bytes sent, from the messages that were handled |
| Handshake.ConnectedIsKeyed | protocol/handlers.go:147-149 | the connected event follows a handled Result of 1, and finds a key installed if and only if a Request was accepted before |
| Handshake.ConnectedInPlain | protocol/handlers.go:137-152 | a Result of 1 that finds no key, pending or installed, still raises the connected event and leaves the link as it is |
| Handshake.FirstResult | protocol/handlers.go:137-152 | for any job ids, a stream on which a new client does this in its first packet |
| Handshake.SentProperly | connection/tcp.go:144-150 | every packet sent went out with a 32-byte key or none, and was not empty |
| Handshake.InstalledIff | connection/tcp.go:90-105 | a key is installed if and only if some install found one pending |
| Handshake.InstalledStays | connection/tcp.go:91-93 | an installed key is never lost |
| Handshake.PlaintextBoundary | connection/tcp.go:252-258 | packets up to and including the one with the first key-installing Result are taken as they are, every later one was decrypted under the key in force |
| Handshake.ResponseBeforeSwitch | protocol/handlers.go:97-131 | whenever a key is installed, a response with its encrypted form, and the job ids and nonce of the Request it was made for, went out right after that Request, under the older key or, for the first, in plain text |
| Handshake.SessionHistory | protocol/protocol.go:73-90 | the history of every session of a new client meets the conditions of the results above |
| Handshake.RunHistory | protocol/protocol.go:73-90 | and so does that of every Run |
| ReadLoop.RunConsumes | protocol/protocol.go:73-90 | the packets read, put together, are a prefix of the stream: none skipped, repeated or reordered; Run stops at a failing read of the rest, at a closing connection, or with the error of handling the last packet read |
| ReadLoop.RunCalls | protocol/protocol.go:73-90 | the calls of handleMessage over a whole Run are those of the packets read, in order, each followed by its nested messages in pre-order; when a handler fails, the last packet contributes the calls up to the failing one |
| ReadLoop.MessageReadsNothing | protocol/handlers.go:22-261 | handlers take nothing from the stream |
| ReadLoop.MessageFailsOtherwise | protocol/handlers.go:22-261 | a handler's failure is never mistaken for a failure of the stream |
| ReadLoop.RawIsFrame | connection/tcp.go:200-249 | the bytes a packet occupied are exactly its frame |
| Conversation.StreamReadable | connection/tcp.go:122-261 | however the stream is cut, packets sent under changing keys are read back in order, as many as arrived whole, by a peer that changes keys with them |
| Conversation.SessionReadable | protocol/write.go:145-147 | everything a client sends in any session is read back that way, for every cut, within the size bound |
| Conversation.MessagesArrive | protocol/write.go:53-150 | messages with protobuf or extended headers arrive in order with the same EMsgs and bodies, protobuf headers with their defaults and extended ones with shifted ids |
| Conversation.ClientsTalk | protocol/protocol.go:73-90 | through all layers: what one client writes makes another call handleMessage on exactly these messages, in order, for messages without a handler, and then find the connection closed |
| Exchanges.ResponseReadable | protocol/handlers.go:98-131 | a server finds the Request's job ids, the encrypted key, its checksum and the nonce in the response |
| Exchanges.RequestSucceedsIff | protocol/handlers.go:62-134 | a Request is accepted if and only if protocol and universe are 1, there is a nonce, a key is generated and the connection is not closing |
| Exchanges.StandardParses | protocol/read.go:87-104 | a Request or Result as a server writes it parses to its job ids and body |
| Exchanges.RequestAnswered | protocol/handlers.go:62-134 | an accepted Request leaves its key pending, the old one in force, and exactly one packet sent, that response |
| Exchanges.LogOnSucceedsIff | protocol/handlers.go:155-190 | a logon succeeds if and only if the response decodes, says 1 and has a positive interval, and the connection is not closing |
| Exchanges.LogOnWithoutTicks | protocol/heartbeat.go:24 | an interval of 0 makes it fail |
| Exchanges.LogOnAnswered | protocol/handlers.go:155-190 | a successful logon stores account and session, starts the heartbeat with the interval of the response, which is positive, and sends one request whose parsed header carries both |
| KeyExchange.RequestRuns | protocol/handlers.go:62-134 | Run of a new client takes a Request packet, leaves its key pending and puts out the answer in plain |
| KeyExchange.ResultRuns | protocol/handlers.go:137-152 | Run then takes a Result packet, installs that key and raises the connected event with the connection keyed |
| KeyExchange.HandshakeCompletes | protocol/protocol.go:73-90 | a new client that gets a Request, a Result of 1 and messages without handlers under the generated key calls handleMessage on exactly these, in order, ends encrypted under that key and has put out exactly the answer, which carries the Request's ids and nonce |
| ProtocolClient.Protocol.constructor | protocol/protocol.go:62-70 | a new client has no pending key, no stop channel and an empty history |
| ProtocolClient.Protocol.PrintHeader | protocol/write.go:53-143 | the bytes of the layout, and the defaults left in the header |
| ProtocolClient.Protocol.Write | protocol/write.go:53-150 | state, stream and error are those of the specified Write |
| ProtocolClient.Protocol.Send | protocol/write.go:15-51 | the same for the marshalled body |
| ProtocolClient.Protocol.HandleChannelEncryptRequest | protocol/handlers.go:62-134 | the object's new state and error are those of the specified Request |
| ProtocolClient.Protocol.HandleChannelEncryptResult | protocol/handlers.go:137-152 | the same for a Result |
| ProtocolClient.Protocol.StartHeartbeat | protocol/heartbeat.go:12-21 | the old stop channel is closed, once, and a new open one is in its place |
| ProtocolClient.Protocol.HandleClientLogOnResponse | protocol/handlers.go:155-190 | the object's new state and error are those of the specified logon |
| ProtocolClient.Protocol.HandleOther | protocol/handlers.go:43-58 | the same for the whole dispatch apart from Multi |
| ProtocolClient.ReadRequest | protocol/handlers.go:63-88 | which bodies of a Request are refused, and the nonce of the others, zero-filled when short |
| ProtocolClient.Protocol.ReadMessage | protocol/read.go:13-36 | the object's new state and error are those of the specified recursion |
| ProtocolClient.Protocol.HandleMessage | protocol/handlers.go:22-59 | the same |
| ProtocolClient.Protocol.HandleMulti | protocol/handlers.go:193-228 | the same |
| ProtocolClient.Protocol.HandleSubMessages | protocol/handlers.go:233-260 | the loop with its moving cursor has the effect of the recursion over the rest of the data |
| ProtocolClient.ReadSubMessage | protocol/handlers.go:236-250 | one length and message are cut off, or an error returned; the end-of-input case of the switch cannot occur |
| ProtocolClient.Protocol.Run | protocol/protocol.go:73-90 | the loop on the object and its socket is the specified Run, for every chunking of the stream |
| ProtocolClient.Protocol.Close | protocol/protocol.go:93-101 | the stop channel is closed and cleared, the state is disconnecting and the socket closed |
| StopChannels.NextKeeps | protocol/heartbeat.go:12-21 | each single step of any goroutine keeps mutual exclusion and the state of the channels |
| StopChannels.ClosedSafely | protocol/protocol.go:93-101 | in every interleaving of startHeartbeat and Close no channel is closed twice, and whenever the mutex is free the field is nil or holds the only open channel ever made |
| StopChannels.NewClosedSafely | protocol/protocol.go:93-101 | this holds of every interleaving of calls on a new client |
| StopChannels.StartAlone | protocol/heartbeat.go:12-21 | a call of startHeartbeat that nobody interrupts closes every earlier channel and leaves a new open one |
| StopChannels.CloseAlone | protocol/protocol.go:93-99 | a call of Close that nobody interrupts leaves every channel closed and the field nil |
| StopChannels.CloseTwicePanics | protocol/heartbeat.go:17-19 | closing a channel panics exactly when there is none or it is closed |
| AuthFlow.FirstAllowedIs | identity/credentials.go:471-513 | the picked type is allowed and none of higher priority is; nothing is picked exactly when none is allowed |
| AuthFlow.Pick | identity/credentials.go:471-513 | the two loops with their lookup map compute that pick |
| AuthFlow.PollingStops | identity/credentials.go:202-227 | polling stops at the first answer with a token and returns that answer; every earlier one had none |
| AuthFlow.PollingSucceeds | identity/credentials.go:202-227 | polling succeeds if and only if some answer has a token and no failure, token or ended context comes before it |
| AuthFlow.CallKeeps | identity/credentials.go:177-387 | any of the three calls: the cached identity has a refresh token, a success returns what is cached, a failure leaves the cache alone, a fresh identity costs no request, and the requests are a beginning of the call's plan (password key, session, server time and code for Identity, the code for SubmitSteamGuardCode, nothing for WaitForConfirmation) with polls behind the whole of it alone |
| AuthFlow.SucceedsIff | identity/credentials.go:177-387 | exactly when each of the three calls succeeds |
| AuthFlow.CachedReturned | identity/credentials.go:190-192 | an identity that has not expired is returned by each of the three calls, without a request |
| AuthFlow.ExpiredPolls | identity/credentials.go:177-387 | without one, a success has carried out its plan and polled, and returns the tokens of the last answer with an hour to live |
| AuthFlow.PlanIs | identity/credentials.go:177-387 | the requests of each call before its polls, with the code type by priority and the code computed from the secret |
| AuthFlow.IdentityRefused | identity/credentials.go:314-350 | how far Identity gets before each of its failures |
| AuthFlow.CodeRefused | identity/credentials.go:194-202 | a refused code ends the call before any poll |
| AuthFlow.SessionRefused | identity/credentials.go:178-185 | a missing session and one that allows no type of the right kind are refused before anything else |
| AuthFlow.RunKeeps | identity/credentials.go:177-387 | every call of every run of calls on one provider keeps these promises, starting from the cache the call before it left |
| AuthFlow.CredentialsIdentityProvider.PollForTokens | identity/credentials.go:202-227 | the endless loop returns the tokens or error of the specified polling and makes that many polls |
| AuthFlow.CredentialsIdentityProvider.SubmitSteamGuardCode | identity/credentials.go:177-240 | result, cache and requests are those of the specified call |
| AuthFlow.CredentialsIdentityProvider.WaitForConfirmation | identity/credentials.go:254-308 | the same, without a submission |
| AuthFlow.CredentialsIdentityProvider.FetchIdentity | identity/credentials.go:314-387 | the same for Identity, with the code computed from the shared secret and the server's time |

## Left out

- ProtobufRoundTrip: requires an encoded header below 4 GiB, because the length field holds 32 bits; protobuf encodings stay below 2 GiB.
- LogOnAnswered: requires an encoded request header below 4 GiB, for the same reason.
- ExtendedBoundary: excludes negative EMsgs, which NegativeMisread treats, and the EMsgs of StandardMisread.
- SplitsIff: its second half requires a body below 4 GiB, where the source's comparison of lengths as 32-bit numbers does not wrap.
- UnzipsIrrelevant: decompression can make a message longer, so the recursion has no measure of its own; the functions take a bound on nested compressed levels, and the error NestedTooDeep at that bound is not in the source.
- SessionKeeps: packets, writes and closes by the application interleave between packets, not inside the handling of one.
- Send: one call at a time on the object; OverlappingSends and SendSchedules treat the three writes of overlapping calls on values, under one key and without write errors. The marshalling of a body to protobuf and its error are outside.
- Run: nothing else happens to the object while its loop handles a packet.
- HandleClientLogOnResponse: a missing heartbeat interval, a nil dereference in the source, and one that is not positive, a panic of the ticker's goroutine, end the process there and are modelled as errors that change nothing; what the source still does before the goroutine panics is not modelled.
- StartHeartbeat: asks for a positive interval, which its caller checks in the model; the ticker loop and its heartbeat messages are not modelled; since the loop reads the field again at every turn, nothing is claimed about how many loops are alive.
- PrintHeader: the defaults are stored in the header's own protobuf value; a protobuf value shared between two headers is not modelled.
- UnmarshalJSON: works on parsed JSON values, not on JSON text.
- FetchIdentity: parsing the password key and encrypting with it is one step that works or not, and the two readings of the clock for creation and expiry are one.
- PollForTokens: a call that never returns is not modelled; the context is done after the given turns.
- Pkcs7Pad writes into spare capacity of the caller's slice when it has any; the model returns a new sequence.
- Close: the error of closing the socket.
- Deadlines, contexts, write errors and the errors of a closed socket, which Send and Read turn into a quiet end while disconnecting.
- Failures of the random source when a packet is sent; on their own the encryption functions report them.
- Events for debugging, which may be dropped, and the texts of errors.
- The internals of AES, HMAC, SHA-1, RSA, CRC-32, gzip, protobuf, base64 and JSON.
- The mutex of the credentials provider: its calls are made one at a time.
- The choice of a server in client/connection.go, which takes the last server in sorted order rather than the one of lowest load that the overview describes.
- The web API and its transports, the generated language files, the command line tools and the example programs: no logic worth proving.
- crypto/verify_signature.go, crypto/public-key.go, crypto/generate_session_key.go, totp/device_id.go and client/login.go: thin wrappers or constants.
