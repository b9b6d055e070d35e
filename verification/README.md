# A model of the hub's operating-system layer

This project models, in Dafny, the four parts of the smart-home hub's operating-system layer whose correctness
rests on more than reading one function, and proves what they promise.

- **AES-128 with CBC and CTR.** The block transformations work in place on sixteen bytes of a buffer, as the
  C code does. `GaloisField`, `LinearForms`, `AesColumns` and `AesSbox` hold the field and its tables, `AesBlock`
  the cipher on values, `AesRounds` says what it does byte by byte, `Aes` and `AesKeys` are the code, `AesGrids` and
  `AesVectors` the worked examples of the standard, `BlockModes` the modes for any block cipher and `AesModes` the
  code of the modes.
- **The serial protocol of the Bluetooth programmer.** `Crc16`, `CrcCode`, `CrcOrder` and `CrcVector` are the
  checksum, `Base64`, `Base64Bits`, `Base64Code`, `Base64Scan` and `Base64Decoder` the text encoding and its two-pass
  decoder, `BleFrame` and `Ble` the frames, the lines and the code that sends and waits for them.
- **The D-Bus object server, its client and the watch dispatcher.** `GdbusObjects` describes every operation of
  the server as a step from state to state; `GdbusServer` and `GdbusClient` are the code. `GdbusCore`, `GdbusTree`,
  `GdbusRuns` and `GdbusMirror` prove what every run keeps, `GdbusHeld` measures server and client by what the
  callers hold, `GdbusLists` and `GdbusOwn` do so for the lists of interfaces and the server's own, `GdbusUnseen` says
  what is put on the bus, `GdbusPhases` and `GdbusLost` what the client has and misses,
  `GdbusManaged` is the reply to GetManagedObjects, and `GdbusSession` puts server and client together.
  `WatchPass` and `Watch` are the dispatch of one signal to callbacks that add and remove watches while it runs,
  `WatchDelete` is the deletion of listeners that it has emptied, and `WatchMessage` a whole message.
- **The firmware installer and the WiFi scan.** `FwRootfs`, `FwInstall` and `FwRuns` are the two-partition
  install with power that may be lost at any byte, of the boot index too. `WifiText`, `WifiScan`, `WifiPages`,
  `WifiPager` and `Gatt` are the printer of scan results, the pager that cuts them up again and the characteristic
  they are read through; `WifiReader`, `JsonReader` and `WifiJson` read the pages back.

`Lists`, `Decimals` and `Wrappers` hold what several of them use.

Main results, hardest first:

- InvCipher undoes Cipher for every block and every round-key array, by retracing the rounds, on top of
  the shortcut column mixing being the field's matrix product (`AesBlock.InvCipherUndoesCipher`,
  `AesColumns.MixAndInvMixAreInverse`). Which cipher it is, is said for every byte of every round and of the key
  schedule by its indices (`AesRounds.MiddleByte`, `AesRounds.LastByte`, `AesKeys.ScheduleFollows`), and worked out
  for the examples of the standard (`AesVectors.ExpandedKey`, `AesVectors.Encrypted`).
- In every legal run of registrations, removals, idle callbacks and flushes, references, waiting list and object
  tree agree with what the calls alone say is held (`GdbusHeld.LifetimesInEveryRun`), down to the order of every
  list of interfaces and the server's own (`GdbusLists.ListsInEveryRun`, `GdbusLists.BuiltinsInEveryRun`), an
  interface is named on the
  bus exactly if it is held when its object is looked at (`GdbusUnseen.SeenInEveryRun`), and the client has exactly
  what the calls alone say it has: all that is held but for names registered again while their removal waited
  (`GdbusPhases.ViewInEveryRun`, `GdbusPhases.MirrorExactIff`, `GdbusSession.Session`).
- The CRC is a polynomial remainder, detects every burst of at most sixteen bits (`Crc16.BurstDetected`), and any
  two flipped bits unless they are a multiple of 32767 apart, the order of x (`CrcOrder.TwoBitsEscapeIff`).
- The two-pass base64 decoder accepts exactly the well-formed texts and decodes the stripped text, bit by bit as
  RFC 4648 has it (`Base64Scan.FirstPass`, `Base64Decoder.DecodeBuffer`, `Base64Bits.DecodedBits`).
- A pass over callbacks that change the list they are called from runs exactly the right ones, once and in
  order (`WatchPass.RunsUnlessRemoved`, `WatchPass.SurvivorsOfPass`, `Watch.Listener.Dispatch`).
- No run of installs, wherever the power cuts them, writes the partition the hub runs from or gives the other its
  index (`FwRuns.RunsAreSafe`, `FwRuns.CutIsLess`).
- Whatever the names of the networks, the pages of a scan hold its entries, each once and in order, and are JSON
  that says of each network what the radio did (`WifiReader.PagesRead`, `WifiJson.PagesAreJson`, `Gatt.ScanAndRead`).

Where the code does not keep what one would expect, the project proves exactly when it does:

- a flush loses an interface removed and added again since it was announced, unless it was the only one of its
  object (`GdbusPhases.MirrorExactIff`, `GdbusLost.ReaddedInEveryRun`, `GdbusLost.LostInARun`);
- a response of more than one line is never received (`Ble.ResponseReceivedIffOneLine`);
- two CTR calls equal one only at block boundaries (`AesModes.AesCtrSplitsExactly`, `AesModes.EveryKeySplitsWrong`);
- the installer overwrites the running partition when the indices leave it no choice (`FwInstall.SelectTarget`,
  `FwInstall.NoIndexNoChoice`);
- an install loses a boot index exactly if its power fails just after it has emptied it
  (`FwRuns.IndicesStayPresentIff`, `FwRuns.LosesAnIndex`);
- a client reading a value in pieces that divide its length never ends (`Gatt.LongReadIff`);
- the deletion of emptied listeners ends only for at most one of them; with more it comes back to the second, even
  after freeing it (`WatchDelete.RevisitsFreedIff`, `WatchMessage.FilterFaultsIff`, `WatchMessage.TwoLeave`);
- a callback that removes its own watch and then asks to go has it removed twice (`Watch.Listener.Dispatch`,
  `WatchMessage.RemovesItself`).

Reading notes. Paths below are relative to the repository. Buffers that C code changes in place are arrays or
fields, lists are sequences, and a loop in the code is a loop here; each such method is proved against a function
or predicate on values. Integers are unbounded unless a bound is stated; bytes and machine words are bit-vectors.
Foreign calls are parameters: the serial line is a sequence of bytes and pauses, the time left is a number of
lines, the power left is a number of bytes, a callback is what it does to the list, the stored scan is a text.

An interface of an object is identified by its name: the server refuses a second registration of a name, so
pointer and name mean the same, and `GdbusCore.ObjectOk` carries the fact that no name occurs twice.

## Model

| member | source | states |
|---|---|---|
| `GaloisField.XTimeAdds` | meta-iris/recipes-core/iris-lib/files/aes.c:321-324 | xtime is linear: doubling a sum is the sum of the doubles |
| `GaloisField.MultiplyIsFieldProduct` | meta-iris/recipes-core/iris-lib/files/aes.c:356-361 | the Multiply macro is the product in GF(2^8) for every x and every y below 32, which is all the macro looks at |
| `GaloisField.ProductIsRemainder` | meta-iris/recipes-core/iris-lib/files/aes.c:321-324 | the field product used as reference is the remainder of the polynomial product modulo x^8+x^4+x^3+x+1 (FIPS 197, section 4.2) |
| `GaloisField.DivisionUnique` | meta-iris/recipes-core/iris-lib/files/aes.c:321-324 | that remainder is the only one, so the reference fixes the product |
| `AesColumns.MixIsMatrixProduct` | meta-iris/recipes-core/iris-lib/files/aes.c:327-340 | the Tmp/Tm shortcut computes the matrix product of FIPS 197, section 5.1.3, for every column |
| `AesColumns.InvMixIsMatrixProduct` | meta-iris/recipes-core/iris-lib/files/aes.c:368-384 | InvMixColumns computes the matrix product of FIPS 197, section 5.3.3, for every column |
| `AesColumns.MixAndInvMixAreInverse` | meta-iris/recipes-core/iris-lib/files/aes.c:327-384 | the two column transformations undo each other, in both orders, on every column |
| `AesSbox.InvSboxUndoesSbox` | meta-iris/recipes-core/iris-lib/files/aes.c:101-136 | looking a byte up in sbox and then in rsbox gives it back |
| `AesSbox.SboxUndoesInvSbox` | meta-iris/recipes-core/iris-lib/files/aes.c:101-136 | and the other way round |
| `AesSbox.SboxIsAffineOfInverse` | meta-iris/recipes-core/iris-lib/files/aes.c:101-118 | every entry of sbox is the affine image of the multiplicative inverse in GF(2^8) (FIPS 197, section 5.1.1) |
| `AesBlock.ShiftRowsListed` | meta-iris/recipes-core/iris-lib/files/aes.c:293-319 | where each of the sixteen bytes comes from |
| `AesBlock.InvShiftRowsListed` | meta-iris/recipes-core/iris-lib/files/aes.c:401-427 | where each of the sixteen bytes comes from on the way back |
| `AesBlock.SubBytesUndone` | meta-iris/recipes-core/iris-lib/files/aes.c:278-288 | substitution and its inverse cancel in both orders on every block |
| `AesBlock.ShiftRowsUndone` | meta-iris/recipes-core/iris-lib/files/aes.c:293-319 | the row shifts cancel in both orders on every block |
| `AesBlock.MixColumnsUndone` | meta-iris/recipes-core/iris-lib/files/aes.c:327-384 | the column mixes cancel in both orders on every block |
| `AesBlock.AddRoundKeyUndone` | meta-iris/recipes-core/iris-lib/files/aes.c:264-274 | adding the same round key twice changes nothing |
| `AesBlock.DownRetracesUp` | meta-iris/recipes-core/iris-lib/files/aes.c:431-479 | after n rounds from the far end the inverse loop is at the state the forward loop had, for every block, every 176-byte array and every round |
| `AesBlock.InvCipherUndoesCipher` | meta-iris/recipes-core/iris-lib/files/aes.c:431-479 | InvCipher after Cipher is the identity, for every block and every 176-byte array, expanded from a key or not |
| `AesBlock.UpRetracesDown` | meta-iris/recipes-core/iris-lib/files/aes.c:431-479 | the forward loop retraces the inverse one |
| `AesBlock.CipherUndoesInvCipher` | meta-iris/recipes-core/iris-lib/files/aes.c:431-479 | Cipher after InvCipher is the identity |
| `Aes.Substitute` | meta-iris/recipes-core/iris-lib/files/aes.c:278-288 | the double loop replaces each of the sixteen bytes by its table entry and touches nothing around them |
| `Aes.SubBytes` | meta-iris/recipes-core/iris-lib/files/aes.c:278-288 | in place, the block becomes SubBytes of it; the bytes around it are unchanged |
| `Aes.InvSubBytes` | meta-iris/recipes-core/iris-lib/files/aes.c:389-399 | in place, the block becomes InvSubBytes of it |
| `Aes.AddRoundKey` | meta-iris/recipes-core/iris-lib/files/aes.c:264-274 | in place, each byte is combined with byte 16*round+i of the round keys |
| `Aes.ShiftRows` | meta-iris/recipes-core/iris-lib/files/aes.c:293-319 | the four-way rotations through one temporary give exactly the shifted rows |
| `Aes.InvShiftRows` | meta-iris/recipes-core/iris-lib/files/aes.c:401-427 | the rotations the other way give exactly the inverse |
| `Aes.MixColumn` | meta-iris/recipes-core/iris-lib/files/aes.c:327-340 | the sequence of updates through Tmp, Tm and t equals Mix of the four old bytes |
| `Aes.MixColumns` | meta-iris/recipes-core/iris-lib/files/aes.c:327-340 | in place, every column is mixed from its old bytes |
| `Aes.InvMixColumns` | meta-iris/recipes-core/iris-lib/files/aes.c:368-384 | in place, every column is mixed back |
| `Aes.Cipher` | meta-iris/recipes-core/iris-lib/files/aes.c:431-454 | the loop in place computes the cipher of the block, at any offset of any buffer; AesRounds says what that is byte by byte, AesVectors works it out for the block of FIPS 197, appendix B |
| `Aes.InvCipher` | meta-iris/recipes-core/iris-lib/files/aes.c:456-479 | the downward loop in place computes the inverse cipher: the one inverse of the cipher so fixed |
| `AesKeys.RconDoubles` | meta-iris/recipes-core/iris-lib/files/aes.c:140-141 | the table starts at one and each entry is the double of the one before it in GF(2^8) |
| `AesRounds.OpeningByte` | meta-iris/recipes-core/iris-lib/files/aes.c:436-436 | before the first round each byte is combined with the same byte of the first sixteen of the round keys |
| `AesRounds.MixRow` | meta-iris/recipes-core/iris-lib/files/aes.c:327-340 | row r of a mixed column is row r of the matrix 2 3 1 1, 1 2 3 1, 1 1 2 3, 3 1 1 2 times the column, in the field |
| `AesRounds.MiddleByte` | meta-iris/recipes-core/iris-lib/files/aes.c:438-446 | for every block, round-key array, round 1 to 9, row r and column c: byte 4c+r is the sum over j of entry r, j of the matrix times the S-box value of row j of column c+j of the state before, and byte 16n+4c+r of the round keys |
| `AesRounds.LastByte` | meta-iris/recipes-core/iris-lib/files/aes.c:448-453 | byte 4c+r of the ciphertext is the S-box value of row r of column c+r of the state before the last round, and byte 160+4c+r of the round keys: no mixing |
| `AesRounds.LastRoundIsLocal` | meta-iris/recipes-core/iris-lib/files/aes.c:448-453 | two ciphertexts under one key agree in row r of column c if and only if the states before the last round agree in row r of column c+r |
| `AesRounds.MiddleRoundSpreads` | meta-iris/recipes-core/iris-lib/files/aes.c:438-446 | where two states agree on a diagonal but perhaps in one row, the four bytes a middle round makes of it all agree if that row does, and all differ if it does not |
| `AesKeys.ScheduleFollows` | meta-iris/recipes-core/iris-lib/files/aes.c:173-244 | the 176 bytes by their indices: the first sixteen are the key; word i is the word four before and the word before, which at multiples of four is turned by one byte, sent through the S-box and has Rcon of i/4 in its first byte |
| `AesVectors.ExpandedKey` | meta-iris/recipes-core/iris-lib/files/aes.c:173-244 | the key of FIPS 197, appendix A.1, expands to the 44 words listed there |
| `AesVectors.Encrypted` | meta-iris/recipes-core/iris-lib/files/aes.c:431-454 | the block of FIPS 197, appendix B, goes through the ten states listed there, each worked out from the one before, to the ciphertext 3925841d 02dc09fb dc118597 196a0b32 |
| `AesVectors.Decrypted` | meta-iris/recipes-core/iris-lib/files/aes.c:456-479 | and InvCipher takes that ciphertext back |
| `AesKeys.TempOf` | meta-iris/recipes-core/iris-lib/files/aes.c:190-224 | the temporary word: the word itself, or at every fourth word its bytes 1, 2, 3, 0 sent through the S-box, with Rcon of i/4 in the first |
| `AesKeys.KeyExpansion` | meta-iris/recipes-core/iris-lib/files/aes.c:173-244 | the loop fills all 176 bytes with the key schedule of FIPS 197, section 5.2, stated by byte index as in ScheduleFollows |
| `AesKeys.WordBefore` | meta-iris/recipes-core/iris-lib/files/aes.c:173-244 | a word of the schedule is determined by the next four: the schedule can be run backwards |
| `AesKeys.RoundKeyDeterminesKey` | meta-iris/recipes-core/iris-lib/files/aes.c:173-244 | two keys whose schedules agree in any four consecutive words are equal |
| `AesKeys.SchedulesDiffer` | meta-iris/recipes-core/iris-lib/files/aes.c:173-244 | two keys whose schedules share one round key are equal |
| `AesKeys.ScheduleUnique` | meta-iris/recipes-core/iris-lib/files/aes.c:173-244 | a key has one schedule |
| `BlockModes.CbcRoundTrip` | meta-iris/recipes-core/iris-lib/files/aes.c:519-548 | decrypting what was encrypted from the same vector gives the text back, for any number of whole blocks |
| `BlockModes.CbcEncryptSplits` | meta-iris/recipes-core/iris-lib/files/aes.c:519-533 | encrypting a followed by b is encrypting a, then b from the vector a leaves |
| `BlockModes.CbcDecryptIsLocal` | meta-iris/recipes-core/iris-lib/files/aes.c:535-548 | plaintext block n depends only on ciphertext blocks n-1 and n |
| `BlockModes.CbcDecryptBytes` | meta-iris/recipes-core/iris-lib/files/aes.c:535-548 | by the byte: byte i of plaintext block n is byte i of ciphertext block n deciphered and byte i of the block before, or of the vector |
| `BlockModes.CbcEncryptBlocks` | meta-iris/recipes-core/iris-lib/files/aes.c:519-533 | ciphertext block n is the encryption of a block whose byte i is byte i of plaintext block n and byte i of the ciphertext block before, or of the vector |
| `BlockModes.IncrementAddsOne` | meta-iris/recipes-core/iris-lib/files/aes.c:572-582 | the carry loop adds one to the vector read big-endian, modulo 256 to the number of bytes |
| `BlockModes.NumberInjective` | meta-iris/recipes-core/iris-lib/files/aes.c:572-582 | a vector is determined by that number |
| `BlockModes.CounterAdds` | meta-iris/recipes-core/iris-lib/files/aes.c:557-588 | k increments add k, modulo 256 to the number of bytes |
| `BlockModes.CtrBytes` | meta-iris/recipes-core/iris-lib/files/aes.c:557-588 | byte i is combined with byte i%16 of the encryption of the block whose number is that of the vector plus i/16, modulo 256^16 |
| `BlockModes.CtrTwiceIsIdentity` | meta-iris/recipes-core/iris-lib/files/aes.c:557-588 | applying the mode twice from the same vector is the identity, for every length |
| `BlockModes.CtrSplitsAtBlocks` | meta-iris/recipes-core/iris-lib/files/aes.c:557-588 | cutting a text at a block boundary and going on from the vector the first part leaves gives the same result |
| `BlockModes.CtrSplitInside` | meta-iris/recipes-core/iris-lib/files/aes.c:557-588 | for any cipher, a cut inside a block gives the same result only if two different places of the key stream agree: the rest of a key-stream block is dropped between calls |
| `AesModes.AesCbcRoundTrip` | meta-iris/recipes-core/iris-lib/files/aes.c:519-548 | the CBC round trip for AES under every round-key array |
| `AesModes.AesCtrSplitsExactly` | meta-iris/recipes-core/iris-lib/files/aes.c:557-588 | two calls of AES counter mode equal one, whatever the round keys, if and only if the first covers whole blocks or the second nothing |
| `AesModes.EveryKeySplitsWrong` | meta-iris/recipes-core/iris-lib/files/aes.c:557-588 | for any round keys, so for those of any key, and any two cuts inside a block there is a vector for which one of them changes the result |
| `AesModes.Context.constructor` | meta-iris/recipes-core/iris-lib/files/aes.c:246-259 | the context holds the schedule of the key and the vector |
| `AesModes.Context.SetIv` | meta-iris/recipes-core/iris-lib/files/aes.c:256-259 | replaces the vector |
| `AesModes.Context.XorWithIv` | meta-iris/recipes-core/iris-lib/files/aes.c:510-517 | combines a block with the vector in place |
| `AesModes.Context.CbcEncryptBuffer` | meta-iris/recipes-core/iris-lib/files/aes.c:519-533 | the pointer-chained loop computes CBC of the buffer in place and leaves the last ciphertext block as vector |
| `AesModes.Context.CbcDecryptBuffer` | meta-iris/recipes-core/iris-lib/files/aes.c:535-548 | the loop computes CBC decryption in place and leaves the last block of the old ciphertext as vector |
| `AesModes.Context.IncrementIv` | meta-iris/recipes-core/iris-lib/files/aes.c:572-582 | the carry loop in place is Increment |
| `AesModes.Context.NextStreamBlock` | meta-iris/recipes-core/iris-lib/files/aes.c:565-584 | the key-stream block is the cipher of the vector, which then moves on by one |
| `AesModes.Context.CtrXcryptBuffer` | meta-iris/recipes-core/iris-lib/files/aes.c:557-588 | byte i is combined with byte i%16 of the cipher of vector + i/16, and the vector ends at vector + ceil(length/16) |
| `AesModes.CbcThereAndBack` | meta-iris/recipes-core/iris-lib/files/aes.c:519-548 | with two contexts for one key and vector, decrypting the encrypted buffer in place restores it, and both contexts end with the same vector |
| `AesModes.CtrThereAndBack` | meta-iris/recipes-core/iris-lib/files/aes.c:557-588 | the same for the CTR operation applied twice, for every length |
| `Crc16.FeedAdds` | meta-iris/recipes-core/ble-utils/files/ble_mcuboot_prog.c:116-141 | the bit loop is linear: feeding a sum to a sum gives the sum |
| `Crc16.RegisterIsRemainder` | meta-iris/recipes-core/ble-utils/files/ble_mcuboot_prog.c:116-141 | the register is the remainder of the bits, read as a polynomial, by x^16+x^12+x^5+1 |
| `Crc16.RemainderUnique` | meta-iris/recipes-core/ble-utils/files/ble_mcuboot_prog.c:116-141 | quotient and remainder are unique, so this fixes the register |
| `Crc16.NonzeroStays` | meta-iris/recipes-core/ble-utils/files/ble_mcuboot_prog.c:116-141 | zeros never bring a register back to zero |
| `Crc16.BurstDetected` | meta-iris/recipes-core/ble-utils/files/ble_mcuboot_prog.c:116-141 | two messages that differ within 16 consecutive bits, anywhere, end in different registers, however many zeros follow |
| `Crc16.OddErrorDetected` | meta-iris/recipes-core/ble-utils/files/ble_mcuboot_prog.c:116-141 | two messages that differ in an odd number of bits have different CRCs |
| `Crc16.AppendedCrcLeavesZero` | meta-iris/recipes-core/ble-utils/files/ble_mcuboot_prog.c:116-141 | a message followed by its CRC has CRC zero |
| `CrcCode.WordStepIsStep` | meta-iris/recipes-core/ble-utils/files/ble_mcuboot_prog.c:125-137 | one round of shift, or-in and conditional xor on the 16-bit word is one step of the register |
| `CrcCode.Crc` | meta-iris/recipes-core/ble-utils/files/ble_mcuboot_prog.c:116-141 | the nested loops, with or without padding, leave the register of the message |
| `CrcCode.CrcOfIsTheCrc` | meta-iris/recipes-core/ble-utils/files/ble_mcuboot_prog.c:116-141 | a word is the CRC of a buffer exactly when it is CrcOf |
| `CrcCode.BytesDetectBurst` | meta-iris/recipes-core/ble-utils/files/ble_mcuboot_prog.c:116-141 | the burst property for byte buffers and the words computed |
| `CrcCode.BytesDetectOdd` | meta-iris/recipes-core/ble-utils/files/ble_mcuboot_prog.c:116-141 | the parity property for byte buffers |
| `CrcCode.AppendedCrcChecks` | meta-iris/recipes-core/ble-utils/files/ble_mcuboot_prog.c:209-212 | appending the CRC, high byte first, makes the padded CRC zero |
| `CrcCode.CheckPassesOnlyForCrc` | meta-iris/recipes-core/ble-utils/files/ble_mcuboot_prog.c:325-333 | the receiver's check passes for a buffer and two more bytes if and only if those are its CRC |
| `CrcOrder.PowerOfSum` | meta-iris/recipes-core/ble-utils/files/ble_mcuboot_prog.c:116-141 | feeding zeros to the register is multiplying it by a power of x, by Horner's rule |
| `CrcOrder.WordTimesHolds` | meta-iris/recipes-core/ble-utils/files/ble_mcuboot_prog.c:116-141 | the same product on 16-bit words |
| `CrcOrder.OrderOfX` | meta-iris/recipes-core/ble-utils/files/ble_mcuboot_prog.c:116-141 | a power of x is one modulo the generator if and only if its exponent is a multiple of 32767 |
| `CrcOrder.TwoBitsEscapeIff` | meta-iris/recipes-core/ble-utils/files/ble_mcuboot_prog.c:116-141 | two flipped bits leave the register unchanged if and only if they are a multiple of 32767 apart, wherever they are and however many zeros follow |
| `CrcOrder.BytesDetectTwo` | meta-iris/recipes-core/ble-utils/files/ble_mcuboot_prog.c:116-141 | so any two flipped bits of a buffer of less than 4096 bytes change its CRC; a frame has at most 381 |
| `CrcVector.CheckValue` | meta-iris/recipes-core/ble-utils/files/ble_mcuboot_prog.c:116-141 | the padded CRC of the figures 1 to 9 is 0x31c3, the check value of CRC-16/XMODEM |
| `Base64Bits.WrittenAs` | meta-iris/recipes-core/ble-utils/files/base64.c:28-36 | value v is written as character v of the 64 of RFC 4648, table 1 |
| `Base64Bits.DigitsAreAlphabet` | meta-iris/recipes-core/ble-utils/files/base64.c:38-52 | the bytes read as values below 64 are those 64 characters and no others |
| `Base64Bits.EncodedBits` | meta-iris/recipes-core/ble-utils/files/base64.c:86-114 | for every input: bit k of the bytes, the most significant first, is bit k%6 of the value of character k/6 |
| `Base64Bits.EncodedEnd` | meta-iris/recipes-core/ble-utils/files/base64.c:98-114 | behind the last bit the last character has zeros, and what is left of its group is pads |
| `Base64Bits.DecodedBits` | meta-iris/recipes-core/ble-utils/files/base64.c:190-213 | for every well padded text: bit k of what is decoded is bit k%6 of the value of symbol k/6 |
| `Base64.EncodedLength` | meta-iris/recipes-core/ble-utils/files/base64.c:72-84 | the encoder writes 4*ceil(n/3) characters |
| `Base64.RoundTrip` | meta-iris/recipes-core/ble-utils/files/base64.c:60-216 | decoding what was encoded gives the bytes back, for every input |
| `Base64.DecodedLength` | meta-iris/recipes-core/ble-utils/files/base64.c:190-213 | a text of 4k+r symbols with p pads decodes to min(3k, 3k+r-p) bytes |
| `Base64.DecodeSplits` | meta-iris/recipes-core/ble-utils/files/base64.c:190-211 | texts can be cut at multiples of four symbols and decoded piece by piece |
| `Base64.DecodeUnfinished` | meta-iris/recipes-core/ble-utils/files/base64.c:190-211 | symbols that finish no group of four add nothing |
| `Base64.PadsOfLastGroup` | meta-iris/recipes-core/ble-utils/files/base64.c:190-211 | counting pads from the start of the text gives the right number of bytes for the last group |
| `Base64Code.EncodeSplits` | meta-iris/recipes-core/ble-utils/files/base64.c:88-97 | texts can be encoded three bytes at a time |
| `Base64Code.WriteGroups` | meta-iris/recipes-core/ble-utils/files/base64.c:86-114 | the encoding loop and the last group write exactly the encoding, nothing behind it |
| `Base64Code.EncodeBuffer` | meta-iris/recipes-core/ble-utils/files/base64.c:60-119 | success if and only if there is room, else the size wanted, capped at the largest size, and nothing written; on success the characters, whose bits are those of the input, the zeros and pads, and a terminator, the rest of the buffer unchanged |
| `Base64Scan.StripAppend` | meta-iris/recipes-core/ble-utils/files/base64.c:131-171 | taking white space out of two parts and joining them is taking it out of the whole |
| `Base64Scan.PlainTextAccepted` | meta-iris/recipes-core/ble-utils/files/base64.c:131-171 | a well-padded text without white space is accepted as it stands |
| `Base64Scan.WellPaddedNext` | meta-iris/recipes-core/ble-utils/files/base64.c:158-168 | exactly when one more symbol is allowed |
| `Base64Scan.CheckSymbol` | meta-iris/recipes-core/ble-utils/files/base64.c:158-168 | the three checks of a symbol |
| `Base64Scan.CheckByte` | meta-iris/recipes-core/ble-utils/files/base64.c:145-170 | the checks of one byte behind any number of spaces keep the count right or prove the text bad |
| `Base64Scan.FirstPass` | meta-iris/recipes-core/ble-utils/files/base64.c:131-171 | it accepts a text if and only if its white space is where it may be and its symbols are well padded, and counts symbols and pads of the stripped text |
| `Base64Scan.LineEnds` | meta-iris/recipes-core/ble-utils/files/base64.c:132-151 | a line feed between symbols, alone or behind a carriage return or a space, is passed over |
| `Base64Scan.LoneBlank` | meta-iris/recipes-core/ble-utils/files/base64.c:135-164 | a carriage return or a space alone before a symbol makes the text invalid |
| `Base64Scan.SizeIsEnough` | meta-iris/recipes-core/ble-utils/files/base64.c:178-183 | the size computed without overflow is 3k+r-p, is not negative, covers what is written, and is exact if and only if p >= r |
| `Base64Decoder.AccumulatedBytes` | meta-iris/recipes-core/ble-utils/files/base64.c:197-211 | whatever was in the 32-bit accumulator before, after four symbols its low bytes are the group's |
| `Base64Decoder.FinishGroup` | meta-iris/recipes-core/ble-utils/files/base64.c:197-211 | at the fourth symbol as many bytes are due as the pad counter says |
| `Base64Decoder.SecondPass` | meta-iris/recipes-core/ble-utils/files/base64.c:190-213 | the writing loop decodes the stripped text and leaves the rest of the buffer alone |
| `Base64Decoder.DecodeBuffer` | meta-iris/recipes-core/ble-utils/files/base64.c:124-216 | every outcome: invalid if and only if not accepted, out of space with the size wanted, or the decoded stripped text with its length, each bit of it that of its symbol; nothing written on failure |
| `Base64Decoder.EncodedDecodesBack` | meta-iris/recipes-core/ble-utils/files/base64.c:60-216 | the encoder's output is accepted and decoded back, and the size asked for is exactly the original length |
| `BleFrame.FrameBytes` | meta-iris/recipes-core/ble-utils/files/ble_mcuboot_prog.c:200-212 | a frame is its length of two bytes, high byte first, which counts body and CRC, the body, and the CRC, high byte first |
| `BleFrame.FrameRoundTrip` | meta-iris/recipes-core/ble-utils/files/ble_mcuboot_prog.c:200-212 | length, body and CRC taken apart give body and CRC with the announced length and a passing check |
| `BleFrame.LinesDecode` | meta-iris/recipes-core/ble-utils/files/ble_mcuboot_prog.c:220-256 | exactly the first line carries the start marker, every line is at most 127 bytes with its line feed, every text is a multiple of four, and decoding line by line gives what the whole text decodes to |
| `BleFrame.LinesHoldText` | meta-iris/recipes-core/ble-utils/files/ble_mcuboot_prog.c:220-256 | bytes 6 and 9 begin the first line, 4 and 20 every other; every line but the last has 124 characters, and together they are the text |
| `BleFrame.TransmissionRoundTrip` | meta-iris/recipes-core/ble-utils/files/ble_mcuboot_prog.c:193-258 | every body comes back from its lines |
| `BleFrame.OneLineReceived` | meta-iris/recipes-core/ble-utils/files/ble_mcuboot_prog.c:282-333 | start marker, base64 of the frame and one more byte are read as body and CRC, with a passing check |
| `BleFrame.ReturnDropped` | meta-iris/recipes-core/ble-utils/files/ble_mcuboot_prog.c:278-288 | a carriage return before a line is dropped, but counts towards a full buffer |
| `BleFrame.ReceivedIffOneLine` | meta-iris/recipes-core/ble-utils/files/ble_mcuboot_prog.c:261-334 | a response cut as requests are cut is received if and only if it fits one line; otherwise none of its lines is a message |
| `BleFrame.OwnLinesNotReceived` | meta-iris/recipes-core/ble-utils/files/ble_mcuboot_prog.c:297-300 | lines without that one more byte lose their last group: the sender's own lines are never received |
| `Ble.NextLineReads` | meta-iris/recipes-core/ble-utils/files/ble_mcuboot_prog.c:166-182 | a line without line feed, shorter than the buffer, is read off the wire as it was written |
| `Ble.ListenToWire` | meta-iris/recipes-core/ble-utils/files/ble_mcuboot_prog.c:261-340 | off the wire the receiver finds the first message among the lines put on it |
| `Ble.ResponseReceivedIffOneLine` | meta-iris/recipes-core/ble-utils/files/ble_mcuboot_prog.c:261-340 | the one-line condition from the body to the bytes on the wire and back |
| `Ble.Link.BuildFrame` | meta-iris/recipes-core/ble-utils/files/ble_mcuboot_prog.c:200-212 | the buffer has room if and only if the body is at most 508 bytes long, and then holds its frame |
| `Ble.Link.WriteLines` | meta-iris/recipes-core/ble-utils/files/ble_mcuboot_prog.c:220-256 | the chunk loop writes the lines of the text |
| `Ble.Link.Transmit` | meta-iris/recipes-core/ble-utils/files/ble_mcuboot_prog.c:193-258 | for a body of at most 377 bytes, and no other, the lines of the encoded frame are on the wire; a longer one is refused with nothing written, or beyond 508 bytes outgrows the buffer |
| `Ble.Link.GetLine` | meta-iris/recipes-core/ble-utils/files/ble_mcuboot_prog.c:166-182 | bytes up to a line feed, a full buffer, or nothing when the read gives up |
| `Ble.Link.HandleText` | meta-iris/recipes-core/ble-utils/files/ble_mcuboot_prog.c:297-334 | decoding one line's text and checking its length |
| `Ble.Link.HandleLine` | meta-iris/recipes-core/ble-utils/files/ble_mcuboot_prog.c:277-334 | one line: skipped, or a message left in the buffer, with the CRC verdict |
| `Ble.Link.GetMsg` | meta-iris/recipes-core/ble-utils/files/ble_mcuboot_prog.c:261-340 | the first message of the lines there is time for; a bad CRC is reported and the message returned all the same |
| `GdbusCore.ViewAnnounced` | meta-iris/recipes-core/bluez-dbus/files/client.c:931-1047 | what processing one object does to the client's proxies, name by name |
| `GdbusCore.AddedCore` | meta-iris/recipes-core/bluez-dbus/files/object.c:1183-1235 | adding an interface keeps the waiting list and the client's view in step |
| `GdbusCore.RemovedCore` | meta-iris/recipes-core/bluez-dbus/files/object.c:654-694 | so does removing one, announced or not |
| `GdbusCore.ProcessedExactIff` | meta-iris/recipes-core/bluez-dbus/files/object.c:1002-1021 | for a client that knows nothing stale: processing an object leaves it with exactly the object's interfaces if and only if no announced name was removed and added again and nothing announced was missing before |
| `GdbusCore.ProcessedNotStale` | meta-iris/recipes-core/bluez-dbus/files/object.c:1002-1021 | processing an object never leaves the client with something the object has not |
| `GdbusCore.FlushHere` | meta-iris/recipes-core/bluez-dbus/files/object.c:1478-1491 | a flush processes each waiting object once, as it stands |
| `GdbusCore.FlushElsewhere` | meta-iris/recipes-core/bluez-dbus/files/object.c:1478-1491 | and no other, for the server and for the client |
| `GdbusCore.FlushAnnounces` | meta-iris/recipes-core/bluez-dbus/files/object.c:1478-1491 | a flush sends the signals of the objects that wait, in the order in which they have waited |
| `GdbusCore.FlushPublishesIff` | meta-iris/recipes-core/bluez-dbus/files/object.c:1478-1491 | from any state of a legal run: a flush makes the client's proxies the server's interfaces if and only if no object has such a name or had one missing |
| `GdbusTree.AdoptNew` | meta-iris/recipes-core/bluez-dbus/files/object.c:696-744 | a new object is entered once, below its nearest registered ancestor, and nothing else moves |
| `GdbusTree.AdoptNothing` | meta-iris/recipes-core/bluez-dbus/files/object.c:696-744 | on a well-nested path there is nothing to repair |
| `GdbusTree.CreatedNested` | meta-iris/recipes-core/bluez-dbus/files/object.c:696-744 | registering a parent before its children keeps the tree well nested |
| `GdbusTree.DeletedNested` | meta-iris/recipes-core/bluez-dbus/files/object.c:1023-1044 | so does removing children before their parent |
| `GdbusRuns.AddFull` | meta-iris/recipes-core/bluez-dbus/files/object.c:1183-1235 | an added interface pays for one reference |
| `GdbusRuns.RemoveFull` | meta-iris/recipes-core/bluez-dbus/files/object.c:654-694 | a removed one leaves one owed |
| `GdbusRuns.RefNew` | meta-iris/recipes-core/bluez-dbus/files/object.c:1237-1272 | a new object has one reference, its server interface, its place in the tree and its place on the waiting list |
| `GdbusRuns.UnrefDestroys` | meta-iris/recipes-core/bluez-dbus/files/object.c:1274-1296 | the last reference removes the object; what it still had to announce is announced, and the client is left without it |
| `GdbusMirror.RegisterFull` | meta-iris/recipes-core/bluez-dbus/files/object.c:1339-1374 | a registration, accepted or refused, keeps references, tree, waiting list and client in step |
| `GdbusMirror.UnregisterFull` | meta-iris/recipes-core/bluez-dbus/files/object.c:1376-1400 | so does a removal |
| `GdbusMirror.FlushFull` | meta-iris/recipes-core/bluez-dbus/files/object.c:1478-1491 | so does a flush, after which nothing waits |
| `GdbusMirror.IdleFull` | meta-iris/recipes-core/bluez-dbus/files/object.c:1002-1021 | so does the idle callback of one object |
| `GdbusMirror.StartFull` | meta-iris/recipes-core/bluez-dbus/files/object.c:1807-1821 | they are in step once the object manager is attached |
| `GdbusHeld.StepHolds` | meta-iris/recipes-core/bluez-dbus/files/object.c:1339-1491 | each call does to the server's interfaces what it does to the set held, counted from the calls alone, and is answered by it |
| `GdbusHeld.LifetimesInEveryRun` | meta-iris/recipes-core/bluez-dbus/files/object.c:1237-1400 | in every legal run, with held the registrations made and not removed: an object's interfaces are those held at its path and the built-in ones, its reference count is their number, it is in the table if and only if there are any, and it waits at most once and exactly when it is marked |
| `GdbusHeld.AnswersInEveryRun` | meta-iris/recipes-core/bluez-dbus/files/object.c:1339-1400 | after every legal run a registration is accepted if and only if it is usable and not held, and a removal finds its interface if and only if it is held |
| `GdbusLists.ListsInEveryRun` | meta-iris/recipes-core/bluez-dbus/files/object.c:1183-1400 | in every legal run the interface list of every object is, name by name and in order, the one the calls alone make: Introspectable first, then each accepted name, Properties behind the first that came with properties, without those removed |
| `GdbusLists.PropertiesIffGiven` | meta-iris/recipes-core/bluez-dbus/files/object.c:1358-1368 | from the calls alone: Properties is in that list if and only if a registration with properties was accepted there and something has been held there ever since |
| `GdbusLists.BuiltinsInEveryRun` | meta-iris/recipes-core/bluez-dbus/files/object.c:1237-1400 | so in every legal run every object has Introspectable first, and Properties if and only if a registration with properties was accepted at its path and something has been held there ever since |
| `GdbusOwn.OwnToldInEveryRun` | meta-iris/recipes-core/bluez-dbus/files/object.c:654-1235 | in every legal run, whenever nothing waits, the bus has announced Introspectable and Properties of exactly the objects that have them, but for the manager |
| `GdbusHeld.NothingStaleInEveryRun` | meta-iris/recipes-core/bluez-dbus/files/object.c:1002-1400 | whenever nothing waits, the client has no proxy for anything that is not held, even after names removed and registered again |
| `GdbusHeld.MirrorInEveryRun` | meta-iris/recipes-core/bluez-dbus/files/object.c:1002-1400 | in every legal run without such names, whenever nothing waits, the client's proxies are exactly what is held, but for the manager's own path |
| `GdbusUnseen.ProcessHistory` | meta-iris/recipes-core/bluez-dbus/files/object.c:1002-1016 | processing an object puts a name on the bus for the first time exactly if the object then has it |
| `GdbusUnseen.SeenIffHeldWhenTold` | meta-iris/recipes-core/bluez-dbus/files/object.c:671-680 | from any state in which the client has not been told of an interface, over any legal run: some signal names it if and only if it is held at some flush or idle call of its object |
| `GdbusUnseen.SeenInEveryRun` | meta-iris/recipes-core/bluez-dbus/files/object.c:671-680 | so from the start, by the calls alone: what comes and goes between two flushes is never seen |
| `GdbusUnseen.NeverSeen` | meta-iris/recipes-core/bluez-dbus/files/object.c:671-680 | an interface registered, removed and then flushed, on a new object or an old one, is in no signal sent since |
| `GdbusPhases.ProcessTracks` | meta-iris/recipes-core/bluez-dbus/files/object.c:1002-1021 | processing an object settles each of its interfaces: seen if it was seen or waited to be added, unless its removal waits |
| `GdbusPhases.ViewInEveryRun` | meta-iris/recipes-core/bluez-dbus/files/object.c:1002-1400 | in every legal run, at every point of it, the client has a proxy for an interface if and only if the calls alone say so: registering adds, removing takes the addition back or waits, and a flush, an idle call or the last removal at the path settles |
| `GdbusPhases.KnownInEveryRun` | meta-iris/recipes-core/bluez-dbus/files/object.c:1002-1400 | in every legal run, whenever nothing waits, the client has exactly what is held, not at the manager's path, and whose last registration did not find its own removal waiting |
| `GdbusPhases.MirrorExactIff` | meta-iris/recipes-core/bluez-dbus/files/object.c:1002-1400 | so its proxies are exactly what is held if and only if nothing that is held was registered like that |
| `GdbusLost.ReaddedIsLostIff` | meta-iris/recipes-core/bluez-dbus/files/object.c:1008-1016 | an announced interface is removed, registered again and flushed: the server has it, and the client has it if and only if it was the only registration at its path |
| `GdbusLost.ReaddedInEveryRun` | meta-iris/recipes-core/bluez-dbus/files/object.c:1002-1400 | after every legal run, for whatever is held, flushed, removed, registered again and flushed: these calls are allowed, it is still held, and the client lacks it if and only if something else is held at the same path |
| `GdbusLost.LostInARun` | meta-iris/recipes-core/bluez-dbus/files/object.c:1008-1016 | a legal run of six calls after which nothing waits, the server has an interface and the client lacks it |
| `GdbusManaged.ListedOnce` | meta-iris/recipes-core/bluez-dbus/files/object.c:1116-1130 | the walk over the tree lists no object twice |
| `GdbusManaged.ManagedObjects` | meta-iris/recipes-core/bluez-dbus/files/object.c:1132-1166 | GetManagedObjects lists every registered object but the manager, each once |
| `GdbusManaged.LateClientIsExact` | meta-iris/recipes-core/bluez-dbus/files/object.c:1132-1166 | a client without proxies that hears the flush before the reply, then the reply, has exactly the server's interfaces, whatever was waiting |
| `GdbusServer.ObjectServer.constructor` | meta-iris/recipes-core/bluez-dbus/files/object.c:1807-1821 | the server with its object manager |
| `GdbusServer.ObjectServer.AddPending` | meta-iris/recipes-core/bluez-dbus/files/object.c:636-652 | an object is put on the waiting list unless it is there |
| `GdbusServer.ObjectServer.RemovePending` | meta-iris/recipes-core/bluez-dbus/files/object.c:992-1000 | and taken off it |
| `GdbusServer.ObjectServer.AddInterface` | meta-iris/recipes-core/bluez-dbus/files/object.c:1183-1235 | the interface joins the object and, below a parent, its announcements |
| `GdbusServer.ObjectServer.RemoveInterface` | meta-iris/recipes-core/bluez-dbus/files/object.c:654-694 | it leaves; unannounced it leaves no trace, announced it joins the removals |
| `GdbusServer.ObjectServer.EmitAdded` | meta-iris/recipes-core/bluez-dbus/files/object.c:559-596 | one signal with every added name, none for the manager itself |
| `GdbusServer.ObjectServer.EmitRemoved` | meta-iris/recipes-core/bluez-dbus/files/object.c:961-990 | one signal with every removed name |
| `GdbusServer.ObjectServer.ProcessChanges` | meta-iris/recipes-core/bluez-dbus/files/object.c:1002-1021 | off the waiting list, additions before removals |
| `GdbusServer.ObjectServer.Flush` | meta-iris/recipes-core/bluez-dbus/files/object.c:1478-1491 | the loop processes the whole list |
| `GdbusServer.ObjectServer.InvalidateParent` | meta-iris/recipes-core/bluez-dbus/files/object.c:696-744 | the recursion enters the object below its nearest ancestor |
| `GdbusServer.ObjectServer.ObjectRef` | meta-iris/recipes-core/bluez-dbus/files/object.c:1237-1272 | one more reference, or a new object |
| `GdbusServer.ObjectServer.Unregistered` | meta-iris/recipes-core/bluez-dbus/files/object.c:1023-1044 | an object that goes leaves its parent's list, announces what is left and hands on its children |
| `GdbusServer.ObjectServer.ObjectUnref` | meta-iris/recipes-core/bluez-dbus/files/object.c:1274-1296 | one reference less; at zero the built-in interfaces go and the object with them |
| `GdbusServer.ObjectServer.Register` | meta-iris/recipes-core/bluez-dbus/files/object.c:1339-1374 | refused when the name is taken or there is nothing to register, otherwise accepted, with Properties behind the first name that has properties; GdbusLists has what this comes to in every run |
| `GdbusServer.ObjectServer.Unregister` | meta-iris/recipes-core/bluez-dbus/files/object.c:1376-1400 | false when object or interface is unknown, otherwise removed |
| `GdbusClient.Client.Lookup` | meta-iris/recipes-core/bluez-dbus/files/client.c:343-358 | the first proxy for path and interface, if there is one |
| `GdbusClient.Client.ParseProperties` | meta-iris/recipes-core/bluez-dbus/files/client.c:931-958 | one more proxy unless built-in or known |
| `GdbusClient.Client.ProxyRemove` | meta-iris/recipes-core/bluez-dbus/files/client.c:454-471 | one proxy less, if it was there |
| `GdbusClient.Client.InterfacesAdded` | meta-iris/recipes-core/bluez-dbus/files/client.c:960-1011 | the loop over the names |
| `GdbusClient.Client.InterfacesRemoved` | meta-iris/recipes-core/bluez-dbus/files/client.c:1013-1047 | the loop over the names |
| `GdbusClient.Client.Follow` | meta-iris/recipes-core/bluez-dbus/files/client.c:988-1047 | the proxies after any sequence of signals are the view of it, without duplicates |
| `GdbusSession.Perform` | meta-iris/recipes-core/bluez-dbus/files/object.c:1339-1491 | each call of the code is one step of the run and keeps everything in step |
| `GdbusSession.Serve` | meta-iris/recipes-core/bluez-dbus/files/object.c:1339-1491 | the code over any legal run of calls reaches the state of the run |
| `GdbusSession.Session` | meta-iris/recipes-core/bluez-dbus/files/client.c:931-1047 | server and client together: after any legal run and a flush the client's list is exactly what the calls keep, and all that is held if no name was registered while its removal waited |
| `WatchPass.RunsUnlessRemoved` | meta-iris/recipes-core/bluez-dbus/files/watch.c:398-425 | of the watches present at the start exactly those run that no earlier one that ran has removed |
| `WatchPass.RunsInOrder` | meta-iris/recipes-core/bluez-dbus/files/watch.c:398-425 | they run in list order, each once |
| `WatchPass.SurvivorsOfPass` | meta-iris/recipes-core/bluez-dbus/files/watch.c:398-425 | afterwards the list holds, once each, those that ran, stay and were not removed, and those ids that some action of the callbacks gave out and no later action removed, in the order of the callbacks that ran, each behind the watches it added |
| `WatchPass.OrderOfPass` | meta-iris/recipes-core/bluez-dbus/files/watch.c:398-425 | that order, and how many ids were given out, from the callbacks that ran and what they do |
| `WatchPass.PassOverGone` | meta-iris/recipes-core/bluez-dbus/files/watch.c:398-425 | watches that are gone may as well not be there |
| `Watch.Listener.AddCallback` | meta-iris/recipes-core/bluez-dbus/files/watch.c:320-345 | a new id; while locked the watch waits behind those that had their turn |
| `Watch.Listener.RemoveCallback` | meta-iris/recipes-core/bluez-dbus/files/watch.c:366-396 | out of both lists; the listener goes with its last watch unless locked |
| `Watch.Listener.RemoveWatch` | meta-iris/recipes-core/bluez-dbus/files/watch.c:788-808 | found or not, by id |
| `Watch.Listener.SignalFilter` | meta-iris/recipes-core/bluez-dbus/files/watch.c:398-425 | the loop ends and is the pass, for every behaviour of the callbacks; it uses a freed watch if and only if a callback that ran removes its own and asks to go |
| `Watch.Listener.Dispatch` | meta-iris/recipes-core/bluez-dbus/files/watch.c:554-562 | lock, pass, swap and unlock: the list is what the pass leaves, with the same condition |
| `WatchDelete.DeleteListeners` | meta-iris/recipes-core/bluez-dbus/files/watch.c:572-586 | the deletion loop, for any number of rounds: test of the callbacks, removal, freeing, and always on to the head's successor |
| `WatchDelete.DeletesTheOne` | meta-iris/recipes-core/bluez-dbus/files/watch.c:572-586 | with at most one emptied listener it ends, and the list is the old one without it if it is still empty |
| `WatchDelete.DeletionEndsIff` | meta-iris/recipes-core/bluez-dbus/files/watch.c:572-586 | it ends if and only if one message emptied at most one listener |
| `WatchDelete.RevisitsFreedIff` | meta-iris/recipes-core/bluez-dbus/files/watch.c:572-586 | it visits a listener it has freed if and only if two or more were emptied and the second is still empty, and it never frees the third |
| `WatchMessage.DispatchAll` | meta-iris/recipes-core/bluez-dbus/files/watch.c:527-567 | the first loop: each listener in turn, with one count of ids, and the list of those left without a watch, the last first |
| `WatchMessage.Filter` | meta-iris/recipes-core/bluez-dbus/files/watch.c:509-588 | a whole message: dispatch, then deletion of what it has emptied |
| `WatchMessage.FilterFaultsIff` | meta-iris/recipes-core/bluez-dbus/files/watch.c:509-588 | the deletion visits a listener it has freed if and only if the message leaves two or more without a watch |
| `WatchMessage.TwoLeave` | meta-iris/recipes-core/bluez-dbus/files/watch.c:509-588 | two listeners with one watch each, that asks to go: it happens in the third round |
| `WatchMessage.RemovesItself` | meta-iris/recipes-core/bluez-dbus/files/watch.c:398-425 | a watch that removes itself and asks to go is used after it was freed |
| `FwInstall.SelectTarget` | meta-iris/recipes-core/iris-utils/files/fwinstall.c:258-315 | the target is not the running partition if and only if the condition on indices and running partition holds, and then it gets the running index plus one; if it is the running one it gets its index plus one when both indices are the same, and else zero |
| `FwInstall.OverwritesRunning` | meta-iris/recipes-core/iris-utils/files/fwinstall.c:258-740 | the target is the running partition if and only if that condition fails; the archive replaces the target if the power lasts, and the other partition is untouched |
| `FwInstall.NoIndexNoChoice` | meta-iris/recipes-core/iris-utils/files/fwinstall.c:258-315 | so it is for a hub that runs from the first partition and finds neither index |
| `FwRootfs.SameBefore` | meta-iris/recipes-core/iris-utils/files/fwinstall.c:497-542 | before the first differing block device and file are the same |
| `FwRootfs.DifferenceAt` | meta-iris/recipes-core/iris-utils/files/fwinstall.c:497-542 | writing begins at the start of the block of 1024 bytes that holds the first byte that differs |
| `FwRootfs.NoDifference` | meta-iris/recipes-core/iris-utils/files/fwinstall.c:497-542 | and nothing is written if and only if the device begins with the file |
| `FwRootfs.Write` | meta-iris/recipes-core/iris-utils/files/fwinstall.c:534-538 | as many bytes as fit and as there is power for |
| `FwRootfs.Copy` | meta-iris/recipes-core/iris-utils/files/fwinstall.c:497-542 | it succeeds if and only if the device is long enough and the power lasts for the file from its first differing block on; then the device is the file and its own old tail; cut short, every byte is old or new |
| `FwRootfs.Verify` | meta-iris/recipes-core/iris-utils/files/fwinstall.c:545-582 | zero if and only if the device begins with the file |
| `FwInstall.Partition.PutKernel` | meta-iris/recipes-core/iris-utils/files/fwinstall.c:410-438 | an equal file is left alone; any other is emptied and filled as far as the power lasts, with the power left stated |
| `FwInstall.Partition.PutTree` | meta-iris/recipes-core/iris-utils/files/fwinstall.c:442-472 | the same for the device tree |
| `FwInstall.Partition.PutRootfs` | meta-iris/recipes-core/iris-utils/files/fwinstall.c:474-604 | copy and verify; the verification never fails after a copy that did not |
| `FwInstall.Partition.PutIndex` | meta-iris/recipes-core/iris-utils/files/fwinstall.c:730-740 | emptied, then written byte by byte: as much of the line as the power lasts for |
| `FwInstall.Partition.InstallTo` | meta-iris/recipes-core/iris-utils/files/fwinstall.c:410-740 | by cost and power: the index file is the old one if the root file system does not fit or the power ends before it, else as much of the new line as the power left lasts for, and changes only when everything else is in place |
| `FwInstall.Install` | meta-iris/recipes-core/iris-utils/files/fwinstall.c:258-740 | wherever it stops, the other partition is untouched and the target becomes what InstallTo makes of it |
| `Decimals.DecimalRead` | meta-iris/recipes-core/iris-utils/files/fwinstall.c:258-268 | what printf wrote for a number, scanf reads back |
| `Decimals.CutRead` | meta-iris/recipes-core/iris-utils/files/fwinstall.c:730-740 | cut inside its digits, a line reads as at most a tenth of its number |
| `FwRuns.CutIsLess` | meta-iris/recipes-core/iris-utils/files/fwinstall.c:730-740 | so an index line cut anywhere after its first digit reads as the new index or as less than the running partition's |
| `FwRuns.InstallSafe` | meta-iris/recipes-core/iris-utils/files/fwinstall.c:258-740 | from different indices with the running one present an install targets the other partition, keeps the running one and keeps the indices different: the other becomes the old, the new, or one below the running one |
| `FwRuns.RunsAreSafe` | meta-iris/recipes-core/iris-utils/files/fwinstall.c:258-740 | so in every run of finished, failed and interrupted installs and restarts |
| `FwRuns.LosesIndexIff` | meta-iris/recipes-core/iris-utils/files/fwinstall.c:730-740 | from a hub with both indices, a step leaves both readable if and only if it is not an install that fits and whose power is exactly its cost and one more |
| `FwRuns.IndicesStayPresentIff` | meta-iris/recipes-core/iris-utils/files/fwinstall.c:730-740 | both indices are there throughout a run if and only if no install in it is such a one |
| `FwRuns.LosesAnIndex` | meta-iris/recipes-core/iris-utils/files/fwinstall.c:730-740 | a run that loses an index |
| `FwRuns.IndexComesBack` | meta-iris/recipes-core/iris-utils/files/fwinstall.c:258-740 | the next install that has the power to finish brings it back |
| `FwRuns.IndicesGrowSlowly` | meta-iris/recipes-core/iris-utils/files/fwinstall.c:305-315 | indices grow by at most one an install |
| `WifiScan.EscapeRoundTrip` | meta-iris/recipes-core/iris-utils/files/wifi_scan.c:62-68 | whatever the name of a network, a JSON reader gets it back and goes on behind the closing quote |
| `WifiScan.SecurityTold` | meta-iris/recipes-core/iris-utils/files/wifi_scan.c:71-82 | WPA2 is told if there is WPA2, else WPA, else WEP, and None exactly for an empty list |
| `WifiJson.EntryReads` | meta-iris/recipes-core/iris-utils/files/wifi_scan.c:62-84 | whatever the network, a reader of JSON finds in its entry an object with the name, the security, the channel and the signal, each under its own key, and goes on behind it |
| `WifiScan.EntryIsOk` | meta-iris/recipes-core/iris-utils/files/wifi_scan.c:62-84 | an entry begins with the key, ends with a brace and holds no other key, for every name |
| `WifiScan.EntryFits` | meta-iris/recipes-core/iris-utils/files/wifi_scan.c:62-84 | names of at most 32 bytes, channels of at most three digits and strengths up to 100 give entries of at most 127 characters |
| `WifiScan.EscapeInto` | meta-iris/recipes-core/iris-utils/files/wifi_scan.c:62-68 | the escaping loop writes the escaped name, and has the room for it if and only if that is at most 64 characters long |
| `WifiScan.Printer.Print` | meta-iris/recipes-core/iris-utils/files/wifi_scan.c:35-92 | hidden names are left out, the others are appended behind a comma where one is needed, if they fit |
| `WifiScan.Scan` | meta-iris/recipes-core/iris-utils/files/wifi_scan.c:123-275 | if and only if every name printed fits, the output is the head, the entries with commas and the end, with one key for each entry |
| `WifiText.FindFirst` | meta-iris/recipes-core/ble-utils/files/wifi_prov.c:403-403 | the first key found is the first entry |
| `WifiText.FindSecond` | meta-iris/recipes-core/ble-utils/files/wifi_prov.c:404-405 | the key found after it is the next entry |
| `WifiText.OneKeyPerEntry` | meta-iris/recipes-core/ble-utils/files/wifi_prov.c:371-377 | counting keys counts entries |
| `WifiPager.TakeEntry` | meta-iris/recipes-core/ble-utils/files/wifi_prov.c:403-409 | the search back from the next key ends at the entry's own brace; what is cut out is the entry |
| `WifiPages.PagesCover` | meta-iris/recipes-core/ble-utils/files/wifi_prov.c:311-439 | a cycle has one page for no entries and ceil(n/2) for n; each shows its two entries, the last what is left, one or two entries alone come under the stored text's own head, and the pages together hold all entries in order |
| `WifiReader.PageRead` | meta-iris/recipes-core/ble-utils/files/wifi_prov.c:311-439 | a reader that knows a page only as text, and cuts it at the keys and the closing braces before them, gets the entries of page k, and sees the mark that there is more exactly when page k is not the last |
| `WifiReader.PagesRead` | meta-iris/recipes-core/ble-utils/files/wifi_prov.c:311-439 | reading all pages so gives every entry once and in order |
| `WifiJson.PagesAreJson` | meta-iris/recipes-core/ble-utils/files/wifi_prov.c:311-439 | every page is a JSON text: an object with the records of its two networks, and the member more exactly when it is not the last; all pages together have the records of the networks shown, in order |
| `WifiPager.FullPageText` | meta-iris/recipes-core/ble-utils/files/wifi_prov.c:397-422 | a page of two entries fits its buffer, is marked, and is read back as those two |
| `WifiPager.LastPageFits` | meta-iris/recipes-core/ble-utils/files/wifi_prov.c:393-396 | so does the last |
| `WifiPager.Pager.FullPage` | meta-iris/recipes-core/ble-utils/files/wifi_prov.c:398-423 | the next two entries are handed out on a marked page that reads back as them, and the pointer is left behind them |
| `WifiPager.Pager.ClosePage` | meta-iris/recipes-core/ble-utils/files/wifi_prov.c:393-396 | what is left is handed out on a page without the mark that reads back as it |
| `WifiPager.Pager.Update` | meta-iris/recipes-core/ble-utils/files/wifi_prov.c:311-439 | from the initial state the first page of the stored list, else the next page of the cycle; an internal read returns the whole text and restarts the cycle |
| `Gatt.Characteristic.ReadValue` | meta-iris/recipes-core/bluez-dbus/files/gatt-service.c:470-508 | only an offset of zero moves the pager on; any other returns part of the same value |
| `Gatt.Characteristic.GetValue` | meta-iris/recipes-core/bluez-dbus/files/gatt-service.c:262-281 | an internal read leaves the cached value alone and the pager at its start |
| `Gatt.ReadCycle` | meta-iris/recipes-core/bluez-dbus/files/gatt-service.c:470-508 | reads at offset zero give the pages of the stored list, each once and in order, and end |
| `Gatt.UsualFit` | meta-iris/recipes-core/iris-utils/files/wifi_scan.c:62-84 | scans of such networks fit every buffer on the way |
| `Gatt.ScanAndRead` | meta-iris/recipes-core/ble-utils/files/wifi_prov.c:311-439 | from any list of such networks, through printer, file, pager and characteristic, a client reads pages that give back every entry, and as JSON the name, security, channel and signal of every network shown, in order, with the mark on all pages but the last |
| `Gatt.ReadsPrefix` | meta-iris/recipes-core/bluez-dbus/files/gatt-service.c:238-260 | as long as a client reads inside the value it has a prefix of it |
| `Gatt.NeverFinishes` | meta-iris/recipes-core/bluez-dbus/files/gatt-service.c:244-250 | when the pieces divide the length the client never ends |
| `Gatt.LongReadIff` | meta-iris/recipes-core/bluez-dbus/files/gatt-service.c:238-260 | reading in pieces ends with exactly the value if and only if it is empty or its length is not a multiple of the piece |

## Left out

- Serial ports, files, mounts, sockets, LEDs, watchdogs and shell commands: foreign I/O.
- The boot loader image, its installation and its choice of a partition: `FwRuns` takes a restart into any partition whose index can be read.
- FwInstall.SelectTarget: takes the running partition as an input: that the kernel command line names it by a substring search is not modelled.
- FwInstall.Partition.PutKernel: leaves out permissions, ownership and the comparison after the copy, which cannot fail on an ideal file system.
- FwInstall.Partition.PutTree: leaves out the same.
- Radio firmware, the archive, its checksums and the lock file of the installer: they would add only easy members.
- An index beyond 2^31 - 1: `FwRuns.IndicesGrowSlowly` bounds how many installs that takes.
- Ble.Link.HandleLine: a line that is only a marker makes the code decode 2^32 - 1 bytes; the model names that outcome Overread and does not follow it.
- Ble.Link.Transmit: a body longer than 508 bytes outgrows the sender's own buffer; the model names that outcome Overrun and does not follow it.
- Ble.Link.BuildFrame: the same.
- CBOR, the management protocol above the frames and the progress of an upload.
- AES-192, AES-256 and ECB: compiled out, or a single call of the cipher.
- PropertiesChanged signals and their batching, introspection, method dispatch, security and experimental flags beyond whether there is something to register.
- Destroy callbacks and property getters that call back into the server.
- GdbusHeld.LifetimesInEveryRun: is about legal runs: parents registered before and removed after their children, the manager attached once and kept, the built-in interfaces never registered or removed by a caller.
- GdbusHeld.NothingStaleInEveryRun: is about the same runs, and so are GdbusHeld.AnswersInEveryRun, GdbusUnseen.SeenInEveryRun and GdbusPhases.ViewInEveryRun.
- GdbusLists.ListsInEveryRun: is about the same runs, and so are GdbusLists.BuiltinsInEveryRun and GdbusOwn.OwnToldInEveryRun.
- JsonReader: reads whole numbers only, and of the escapes in a string only those of one character that stand for themselves, which is all the printer writes.
- GdbusHeld.MirrorInEveryRun: is about those of them in which no name is registered again while its removal waits; GdbusPhases.MirrorExactIff has the exact condition for all of them.
- A connection that goes away, proxies made without a signal, and the client's property tables.
- Matching a message to listeners, the name-owner watches and their filter, and messages dispatched from within a callback.
- Watch.Listener.AddCallback: ids do not wrap around at 2^32.
- Watch.Listener.RemoveCallback: a match rule that cannot be removed is not modelled.
- Watch.Listener.SignalFilter: a callback that removes its own watch and asks to go has it removed a second time; the model records that and goes on as if the second removal did nothing.
- Watch.Listener.Dispatch: the same.
- WatchMessage.Filter: callbacks act on their own listener only, so none gives another its watches back.
- WatchDelete.DeleteListeners: a visit to a freed listener is recorded and not followed; listeners that watch a name owner, whose freeing removes a watch elsewhere, are not modelled.
- Reading cells out of the scan command's output, the long form of an entry, and statistics of the radio.
- WifiScan.EscapeInto: a name whose escaped form is longer than the 64 characters there is room for is reported and not followed.
- WifiScan.Printer.Print: the same.
- WifiScan.Scan: the same.
- WifiPager.Pager.Update: texts the printer did not write, or with entries longer than 127 characters, are outside its precondition.
- Gatt.Characteristic.ReadValue: the same.
- Gatt.Characteristic.GetValue: the same.
- Gatt.ReadCycle: the same.
- Gatt.ScanAndRead: takes names of at most 32 bytes, channels of at most three digits and strengths up to 100, as radios report them.
- AesModes.AesCtrSplitsExactly: ranges over all arrays of round keys, not over those that a key expands to; AesModes.EveryKeySplitsWrong is about each of those.
- Writing characteristics, the other characteristics and their validation.
