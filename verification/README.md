# Verified models of the utilities' cores

A Dafny model of the parts of this collection of POSIX utilities that carry the most state: the LZW
codec behind `compress`, the three archive readers of `pax`, `cksum`, the base64 mode of `uuencode`,
the merge of `sort -m`, the ordering test of `tsort`, `split -b` and `comm`. Each program is
modelled twice. A class with the source's fields, or a method with the source's loop, follows the
code branch by branch; a function states what it computes. The method's contract ties the two
together, and the laws are proved of the function, for all inputs and all runs.

Check everything with `dafny verify dfyconfig.toml` (Dafny 4.11).

- **compress** (`compress/zopen.cc`). `ZSpec` has the encoder and the decoder as functions of their
  states. `ZSim` proves that after every code the decoder is at most one entry behind, and that both
  sides change width together; `ZPack`, `Bits` and `ZStream` that the packed groups spell the codes,
  with padding after forced flushes; `ZEncode` and `ZDecode` follow whole runs of each side, and
  `ZRoundTrip` composes them. `Shifts` ties the masks and shifts of machine words to the arithmetic
  used. `ZHash` proves the double-probed table a finite map, by the primality of 69001. `ZWriter` and
  `ZReader` are the stream objects over arrays, `ZCodec` runs one against the other, and `ZStack`
  bounds the reader's stack. `ZGreedy` proves that the writer always sends the longest match, and
  `ZCheck` gives the block check, the widths and small files in numbers.
- **cksum** (`cksum/`). `Gf2` is the algebra of polynomials over GF(2), `CrcTable`, `CrcWord` and
  `CrcByte` tie the 256-entry table and the 32-bit register to it, `Cksum` has the loops and proves
  them against the definition of the cksum utility in IEEE Std 1003.1, Shell and Utilities, chapter 4.
- **pax** (`pax/zip.cc`, `pax/cpio.cc`, `pax/ustar.cc`). `ZipSpec`, `CpioSpec` and `UstarSpec` are
  machines fed by the byte or the record; the calls to `pax_ops` form a trace in which adjacent
  pieces of one file's data are joined. The `Run` modules prove that buffer boundaries do not
  matter, the `Records` and `RoundTrip` modules which inputs are accepted and what calls they give,
  the `Reader` modules that the resumable loops refine the machines. The `Layout` modules write
  headers field by field from the structures of the sources, prove that the readers take the fields
  back, and say what is accepted and what refused in those terms; `ZipRefused` has the errors of the
  ZIP reader. `ZipCrc` proves the checksum of ZIP members a polynomial remainder, so that a damaged
  member is found.
- **uuencode -m** (`uuencode/uuencode.cc`). `Base64` is the encoding of section 4 of RFC 4648 with the
  line length of the program, and its inverse; `Uuencode` the spill buffer and the output buffer.
- **sort -m** (`Sort`, `SortSpec`), **tsort** (`Tsort`, `TsortSpec`), **split -b** (`Split`,
  `Suffix`) and **comm** (`Comm`).

## Findings

Where the code does less than its comments or its users expect, the model keeps the code, and a lemma
states exactly when the law holds.

- `compress_zopen` never stores the mode, so `zs_mode` is 0 when `compress_zclose` tests it
  (compress/zopen.cc:694-720, :332), and the last code is not written. `ZRoundTrip.RoundTrip` shows
  that the file reads back if and only if the mode is recorded and the input is not empty;
  `ZRoundTrip.ModeNeverRecorded` is an input that is lost. `ZCodec.WriteThenRead` uses an opener that
  records the mode.
- `cpio_hdr_name` compares the whole stored name (pax/cpio.cc:135), while cpio counts the NUL behind the
  name in `c_namesize`. `CpioRoundTrip.TrailerSeen` says when the end is seen;
  `CpioRoundTrip.NulTrailerIsAFile` what becomes of a trailer with its NUL.
- `seen_first_block` is never set (pax/ustar.cc:67, :244), so the ustar reader never ends a file:
  `UstarRun.NeverEnds`.
- `data_blocks` and `data_bytes` are 32 bits wide, while a ustar size may have 36 (pax/ustar.cc:194-198).
  Sizes of 2^32 and more unbalance the two counters: `UstarRun.AlwaysMatch` says exactly for which sizes,
  `UstarRun.FirstMismatch` is one. They lose no data (`UstarRun.OctalIsWhole`).
- `octal_str` gives -1 for a field it can not read, and the test for a negative value is never true of an
  unsigned field (pax/ustar.cc:133, pax/cpio.cc:90). A ustar file with such a size loses its data:
  `UstarRun.DeliveredIsSize`, `UstarRun.UnreadableSize`. In a cpio archive it swallows the rest:
  `CpioRoundTrip.RestIsOneMember`.
- In the ZIP reader a byte skipped behind a member's data is not taken off `data_bytes`
  (pax/zip.cc:634-643), so a member with bytes left would swallow the rest: `ZipRefused.SkipsTheRest`.
  Stored members leave none.
- `MergeFile` does not initialise `have_line` (sort/sort.cc:84-105); the model starts with no line held.
- `item_precedes` does not remember where it has been and gives up on cycles (tsort/tsort.cc:160-181):
  `TsortSpec.FindsNoPath` and `TsortSpec.FindsPath` say exactly when it answers. `compare_items`
  answers 1 both ways for unrelated tokens (tsort/tsort.cc:183-196): `TsortSpec.ContradictsItself`,
  `TsortSpec.BothBehind`. Chains of 4000000 pairs are too long for it: `TsortSpec.ChainLimit`.
- `push_outbuf` flushes but does not compare a string's length with the buffer's
  (uuencode/uuencode.cc:103-115). Only the header line can be longer: `Uuencode.HeaderFits`.
- `execute_split` returns failure whether or not the split succeeded (split/split.cc:360):
  `Split.ExecuteSplit`.

## Model

| member | source | states |
|---|---|---|
| `ZCodec.WriteThenRead` | compress/zopen.cc:239-556 | For every maxbits the opener accepts, every cut of a non-empty input into write calls and every list of positive read sizes, the reader object reads from the file the writer object closed exactly the first bytes of the input, as many as were asked for |
| `ZCodec.ReadMore` | compress/zopen.cc:458-556 | One more read of n > 0 bytes delivers the next n bytes of the input, or all that is left |
| `ZCodec.ReadAll` | compress/zopen.cc:458-556 | Reads of any positive sizes join up to a prefix of the input of their total size |
| `ZRoundTrip.RoundTrip` | compress/zopen.cc:326-348 | For every input, cut and maxbits, reading the closed file gives the input back if and only if the input is not empty and the stream recorded mode 'w' |
| `ZRoundTrip.ReadFinished` | compress/zopen.cc:326-348 | A file closed with the final code reads back as the whole input |
| `ZRoundTrip.ReadUnfinished` | compress/zopen.cc:326-348 | A file closed without it reads back as a proper prefix of the input |
| `ZRoundTrip.ReadFiled` | compress/zopen.cc:371-450 | Whatever codes were sent, in any state of the buffer, come back once the last partial group is flushed |
| `ZRoundTrip.ReadPending` | compress/zopen.cc:439-448 | The codes of the last partial group are read, and no phantom code after them |
| `ZRoundTrip.ModeNeverRecorded` | compress/zopen.cc:684-721 | With the mode letter the opener leaves in the stream, the one-byte input "A" is lost |
| `ZCheck.BlockCheck` | compress/zopen.cc:623-649 | At a check with n bytes out and ratio r kept so far, up to 0x7fffff bytes of input: the table stays exactly if 256 times the input is at least (r + 1) * n, and then a greater ratio, that of 256 times the input to n rounded down, is kept; else CLEAR is sent, the table is empty and the ratio 0. Either way the next check is 10000 bytes on |
| `ZCheck.BlockCheckLong` | compress/zopen.cc:623-649 | Beyond 0x7fffff bytes the input is divided by a 256th of the bytes out, and fewer than 256 bytes out count as the largest int |
| `ZCheck.NoCheck` | compress/zopen.cc:310-321 | Otherwise a miss sends the code and changes nothing else but the table, which takes the pair under the next number while it has room |
| `ZCheck.InputLength` | compress/zopen.cc:271-289 | in_count is the length of the input, however it was cut |
| `ZCheck.Begun` | compress/zopen.cc:256-285 | The values a stream starts with, and its header |
| `ZCheck.WidthAfter` | compress/zopen.cc:416-438 | The width goes up when the next number does not fit it, by one bit; only a width of maxbits holds one number more than its largest; CLEAR goes back to 9 |
| `ZCheck.OneByteFile` | compress/zopen.cc:239-348 | The file for one byte, byte for byte |
| `ZCheck.ThreeByteFile` | compress/zopen.cc:239-348 | The file for three equal bytes, whose second code is 257 |
| `ZCheck.Refused` | compress/zopen.cc:480-494 | A file is refused if its first bytes are not 1F 9D, there is no third, or that asks for more than 16 bits |
| `ZGreedy.LongestMatch` | compress/zopen.cc:287-322 | After any input the codes sent, once flushed, read back as all of it but its end w, which is the string of the current code; and if the next byte c makes the writer send that code, no string of the table begins with w and c: the code sent is that of the longest string the rest of the input begins with |
| `ZGreedy.OneNumber` | compress/zopen.cc:310-316 | No string has two numbers |
| `ZGreedy.NowhereElse` | compress/zopen.cc:290-309 | A pair that is not in the table means that its string is not in the table either, nor the beginning of any entry |
| `ZEncode.TrackRun` | compress/zopen.cc:239-324 | In every run of the writer, the groups filed, the codes pending and the current string together stand for the input so far, and a decoder fed the codes is at most one entry behind |
| `ZEncode.TrackEmit` | compress/zopen.cc:310-321 | The code about to be sent is legal for the decoder, fits the width, and sending it files everything consumed |
| `ZEncode.TrackMissClear` | compress/zopen.cc:623-649 | A block check that clears sends CLEAR, and both tables start over together |
| `ZEncode.WriteConcat` | compress/zopen.cc:239-324 | Two writes do what one write of both pieces does |
| `ZSim.EmitLegal` | compress/zopen.cc:524-535 | The code the writer sends is one the reader knows, or is exactly free_ent, the entry still pending; either way it expands to the writer's current string |
| `ZSim.EmitCatchUp` | compress/zopen.cc:416-438 | After one code the reader's table is the writer's as it was when the code was sent, and both sides agree whether the width changes |
| `ZSim.SimHit` | compress/zopen.cc:290-309 | A hit makes the current string longer and sends nothing |
| `ZSim.SimMiss` | compress/zopen.cc:310-321 | A miss leaves the reader one entry behind, that entry being the old string and the byte that missed |
| `ZSim.SimClear` | compress/zopen.cc:623-649 | A miss that clears leaves both tables empty and in step |
| `ZStream.FiledPut` | compress/zopen.cc:371-450 | Sending any legal code keeps the file a schedule of groups the reader will read whole, under width bumps and clears |
| `ZStream.FiledOut` | compress/zopen.cc:401-438 | The code that completes a buffer, or forces a flush, makes the buffer a group of the file; the padding of a forced flush is part of it |
| `ZStream.BufferPut` | compress/zopen.cc:380-400 | Storing a code makes the buffer spell one code more |
| `ZPack.PutBitsVal` | compress/zopen.cc:380-400 | Read as a number, the buffer keeps its low bits and has the code on top of them |
| `ZPack.GetBitsVal` | compress/zopen.cc:597-620 | What is loaded is the n-bit field at that bit offset of the buffer read as a number |
| `Bits.FieldAt` | compress/zopen.cc:597-620 | The i-th n-bit field of a number whose low fields spell a list of codes is the i-th code, whatever lies above |
| `ZDecode.CodeInBuffer` | compress/zopen.cc:597-620 | From a buffer that spells a list of codes the i-th load gives the i-th code |
| `ZDecode.ReadGroups` | compress/zopen.cc:565-621 | All the groups filed come back code for code; padding after a forced flush is skipped |
| `ZDecode.ReadTail` | compress/zopen.cc:565-621 | The partial group at the end yields its codes and then end of file |
| `ZDecode.ReadFile` | compress/zopen.cc:480-501 | Header, groups and tail of a file are read as such, for any tail |
| `ZStack.StackBound` | compress/zopen.cc:195-197 | On every stream of codes an encoder can send, no code stands for more than 2^maxbits bytes, and behind the 65536 suffixes the 8 * 69001 bytes of htab have room for them |
| `Shifts.StoreAtLow` | compress/zopen.cc:365-388 | With the entries of lmask and rmask, the word of masks, shift and or that is stored is the number ZPack stores, for the bit places 0 to 3 |
| `Shifts.StoreAtHigh` | compress/zopen.cc:365-388 | And for the places 4 to 7 |
| `Shifts.LowByte` | compress/zopen.cc:392-399 | The low byte of a word and its shift by eight are its remainder and quotient by 256 |
| `Shifts.LoadedWord` | compress/zopen.cc:606-617 | Or-ing a byte above bits that are there adds it, for shifts by 1 to 4 (LoadedFrom5, LoadedFrom9 and LoadedFrom13 for 5 to 16) |
| `Shifts.ChunksAre` | uuencode/uuencode.cc:138-146 | The shifts, masks and ors of encode_chunk are the quotients, remainders and sums of the model |
| `Shifts.LastChunksAre` | uuencode/uuencode.cc:163-172 | Those of finalize_base64 too |
| `ZHash.HsizePrime` | compress/zopen.cc:82 | 69001 has no divisor but 1 and itself |
| `ZHash.SecondProbe` | compress/zopen.cc:298-302 | The slot looked at after slot i is 2i modulo 69001, after slot 0 the last one |
| `ZHash.ProbeInjective` | compress/zopen.cc:298-304 | The secondary probe does not come back to a slot before it has seen all of them |
| `ZHash.FcodeInjective` | compress/zopen.cc:287-289 | Two different pairs have different table keys |
| `ZHash.SearchEnds` | compress/zopen.cc:290-309 | A search ends: at the slot of the key if the pair was inserted since the last clear, else at an empty slot |
| `ZHash.InsertIsRight` | compress/zopen.cc:310-316 | Filling the empty slot a missed search ended on adds exactly that pair to the map, and disturbs no other search |
| `ZWriter.HashTable.Search` | compress/zopen.cc:290-309 | The probing loop ends; it hits if and only if the pair is in the map, at the slot that holds its code |
| `ZWriter.HashTable.Fill` | compress/zopen.cc:315-316 | The table then refines the map with the pair added |
| `ZWriter.HashTable.ClHash` | compress/zopen.cc:651-681 | Every slot is empty, and the map too |
| `ZWriter.BitWriter.StoreCode` | compress/zopen.cc:380-400 | The bits of the code are put at the bit offset and the bits below it kept, in arithmetic (`Shifts` ties it to the masks and shifts of the source) |
| `ZWriter.BitWriter.PutCode` | compress/zopen.cc:380-411 | A code is stored, and a buffer of eight codes written out and counted |
| `ZWriter.BitWriter.ChangeCodeWidth` | compress/zopen.cc:416-438 | The partly filled buffer is written whole, counted, and the width becomes the next one or 9 |
| `ZWriter.BitWriter.Output` | compress/zopen.cc:370-450 | The output side follows the packing function, for codes and for end of input; bytes_out stays the length of the file |
| `ZWriter.Compressor.ClBlock` | compress/zopen.cc:623-649 | The block check of the specification, whose numbers `ZCheck` gives: the better ratio is kept, or the table emptied and CLEAR sent |
| `ZWriter.Compressor.Miss` | compress/zopen.cc:310-321 | Code sent, new string begun, entry made while there is room, block check at a checkpoint |
| `ZWriter.Compressor.Extend` | compress/zopen.cc:290-321 | The longer string if the table has it, else the miss |
| `ZWriter.Compressor.ZWrite` | compress/zopen.cc:239-324 | A write of any length, empty ones too, moves the stream as the encoder function does, and consumes all of it |
| `ZWriter.Compressor.ZClose` | compress/zopen.cc:326-348 | The closed file is that of the encoder function for the mode recorded in the stream |
| `ZWriter.Compressor.constructor` | compress/zopen.cc:684-721 | The opener leaves the mode 0 and takes maxbits 0 for 16 |
| `ZReader.BitReader.GetCode` | compress/zopen.cc:565-621 | The next code of the file and the width it has, or -1 at end of file |
| `ZReader.BitReader.LoadCode` | compress/zopen.cc:597-620 | The field at the bit offset is loaded, in arithmetic |
| `ZReader.StringTable.Expand` | compress/zopen.cc:531-535 | The prefix chain of a code ends, and leaves the string of the code on the stack, first byte on top |
| `ZReader.StringTable.AddEntry` | compress/zopen.cc:545-549 | The new entry stands for the previous string and the first byte of the new one; no other changes |
| `ZReader.DecNext` | compress/zopen.cc:545-552 | After a data code its string is that of a code of the table |
| `ZReader.Decompressor.PushString` | compress/zopen.cc:524-535 | The string of the code is on the stack, also of the code not yet in the table |
| `ZReader.Decompressor.NextCode` | compress/zopen.cc:512-522 | One data code is taken, past a CLEAR if there is one, and what is left to deliver is its string and the rest |
| `ZReader.Decompressor.Deliver` | compress/zopen.cc:538-552 | Bytes come off the stack in order until it is empty or the caller has enough; the entry is made when it is empty |
| `ZReader.Decompressor.ZRead` | compress/zopen.cc:458-556 | A read delivers exactly the next bytes of what remains, as many as asked or all; the rest remains; a bad header gives -1 |
| `Gf2.RemainderIsDivision` | cksum/cksum.cc:47-58 | A polynomial of degree below 32 is the remainder of a message times x^32 modulo the generator if and only if bit-by-bit division leaves it |
| `Gf2.RemainderUnique` | cksum/cksum.cc:47-58 | There is only one remainder |
| `Gf2.DivideAllLinear` | cksum/cksum.cc:47-58 | Division is linear over GF(2) in register and message |
| `Gf2.Ahead` | cksum/cksum.cc:53-54 | n bits change a register as they change a clear one after meeting its top n bits, which is why a table works |
| `Gf2.BlockInjective` | cksum/cksum.cc:47-58 | No two different blocks of at most 32 bits move a register to the same place |
| `Gf2.BurstShows` | cksum/cksum.cc:47-58 | Two bit strings that differ, and only inside 32 places, leave different remainders |
| `CrcTable.TableIsEightSteps` | cksum/cksum_crctab.h:5-58 | Every one of the 256 entries is what eight shift-register steps make of its index |
| `CrcWord.RegStep` | cksum/cksum.cc:53-54 | A step of the 32-bit shift register is a step of the polynomial division |
| `CrcByte.TableStep` | cksum/cksum.cc:53-54 | One table step, sign extension of the char included, divides by the eight bits of the byte |
| `Cksum.Updcrc` | cksum/cksum.cc:47-58 | The loop divides by all the bits of the buffer |
| `Cksum.Fincrc` | cksum/cksum.cc:60-72 | The length is divided in by minimal little-endian octets, and the result complemented |
| `Cksum.CksumFd` | cksum/cksum.cc:74-94 | However the stream is cut into reads, the result is the complement of the remainder of the message and its length octets, and the length; it fails if and only if a read fails before the end |
| `Cksum.CksumUnique` | cksum/cksum.cc:47-94 | A message has one checksum |
| `Cksum.OctetsSpell` | cksum/cksum.cc:60-72 | The octets spell the length, and there is no leading zero |
| `Cksum.LengthBehind` | cksum/cksum.cc:60-94 | What stands behind a message of fewer than 2^64 bytes is its length |
| `Cksum.EmptyCksum` | cksum/cksum.cc:60-94 | The checksum of an empty file is 4294967295 |
| `Cksum.BurstFound` | cksum/cksum.cc:47-72 | Messages of one length whose bits differ, and only within 32 consecutive places, have different checksums |
| `Cksum.FourBytesFound` | cksum/cksum.cc:47-72 | Messages that differ, and only inside four consecutive bytes, have different checksums |
| `ZipRun.FeedConcat` | pax/zip.cc:534-721 | Feeding two buffers one after the other is feeding them joined |
| `ZipRun.CutsDoNotMatter` | pax/zip.cc:534-721 | Any two partitions of an archive give the same trace, final state and error position |
| `ZipRun.FeedCopy` | pax/zip.cc:192-211 | A copy takes a block as it would take it byte by byte |
| `ZipRun.FeedStore` | pax/zip.cc:418-447 | So does stored data, its events merged and its checksum folded |
| `ZipRun.FeedTotal` | pax/zip.cc:534-721 | Without an error every byte is consumed; an error is inside what was fed |
| `ZipSpec.MoveRank` | pax/zip.cc:541-716 | Every turn that consumes nothing comes nearer to one that does, or stops the run |
| `ZipRecords.Conservation` | pax/zip.cc:418-447 | On any bytes, what was consumed is a list of sound records and the beginning of one more; each member's data is exactly the bytes behind its header, and the calls are those of the records so far |
| `ZipRoundTrip.ReadBack` | pax/zip.cc:534-721 | Every archive of sound records is read to its end with the calls of its records |
| `ZipRoundTrip.Accepted` | pax/zip.cc:534-721 | An archive is read to the end of a record without an error if and only if it is made of sound records; the calls are then theirs |
| `ZipRoundTrip.Grammar` | pax/zip.cc:343-447 | The calls of any run are a prefix of start, data, end, over and over |
| `ZipLayout.LocalRead` | pax/zip.cc:80-91 | From a local header written field by field in the order of the structure, all field values, the reader takes each field back |
| `ZipLayout.CentralRead` | pax/zip.cc:99-116 | What is skipped behind a directory entry so written is as long as its name, extra and comment lengths together |
| `ZipLayout.EndRead` | pax/zip.cc:118-126 | And behind the end record as its comment length |
| `ZipLayout.ExtrasRead` | pax/zip.cc:345-398 | A list of extra entries written field by field, and up to three more bytes, is accepted; tags 0x000D, 0x7855 and 0x5455 set times and owners as their structures say, the times only with bit 0 of the flags, later entries win |
| `ZipLayout.ExtrasWritten` | pax/zip.cc:345-398 | Every extra field that is accepted is such a list |
| `ZipLayout.WrittenIsRead` | pax/zip.cc:534-721 | Every archive written from its structures, lengths and checksums right, is read to its end with its members' starts, data and ends |
| `ZipLayout.ReadIsWritten` | pax/zip.cc:534-721 | Bytes are read to the end of a record without an error if and only if they can be so written |
| `ZipRefused.BadSignature` | pax/zip.cc:552-569 | Behind a good archive four bytes that are no signature give PXE_GARBAGE there, and no call |
| `ZipRefused.BadMethod` | pax/zip.cc:322-333 | A method other than 0 and 8 gives PXE_MISC_ERR behind the header, and no call |
| `ZipRefused.BadExtra` | pax/zip.cc:345-398 | An extra field that is no list of entries gives PXE_GARBAGE, and no call |
| `ZipRefused.Compressed` | pax/zip.cc:343-416 | A file of method 8 is announced, and its compressed size is left to inflate |
| `ZipRefused.BadChecksum` | pax/zip.cc:418-447 | Stored data with another checksum is delivered, and then PXE_GARBAGE; the file does not end |
| `ZipRefused.DamageFound` | pax/zip.cc:418-447 | A good member whose data were changed, only inside four consecutive bytes, ends in PXE_GARBAGE |
| `ZipRefused.SkipsTheRest` | pax/zip.cc:634-643 | With bytes left behind a member's data every byte to come is skipped, and nothing else changes |
| `ZipCrc.ByteDivides` | pax/zip.cc:428 | A byte step of zlib's crc32 divides by the eight bits of the byte, the low bit first, modulo the generator of cksum |
| `ZipCrc.CrcIsRemainder` | pax/zip.cc:428 | The checksum of any data is the complement of what division by the generator leaves of it, from a register of ones |
| `ZipCrc.BurstFound` | pax/zip.cc:428-441 | Data that differ only within 32 consecutive bits have different checksums |
| `ZipCrc.FourBytesFound` | pax/zip.cc:428-441 | So any change inside four consecutive bytes is found |
| `ZipReader.ZipReader.SchedDo` | pax/zip.cc:192-211 | A scheduled copy takes what the buffer has of what it needs, and goes on to its next state when it has all |
| `ZipReader.ZipReader.SkipDo` | pax/zip.cc:192-211 | A scheduled skip likewise, with no destination |
| `ZipReader.ZipReader.FileHdrEnd` | pax/zip.cc:307-341 | The file's description and length are those of the header; a method other than 0 and 8 is an error |
| `ZipReader.ScanExtra` | pax/zip.cc:345-398 | The loop over the extra field applies its entries in order, and rejects one that is longer than what is left |
| `ZipReader.ZipReader.FlushHdr` | pax/zip.cc:343-416 | The extra field is applied and the start of the file announced, or it is an error |
| `ZipReader.ZipReader.StoredData` | pax/zip.cc:418-447 | Data is announced, folded into the checksum and counted; at its end a checksum other than the header's is an error |
| `ZipReader.ZipReader.SkipTurn` | pax/zip.cc:634-643 | With data_bytes above 0 one byte is swallowed and nothing else changes, data_bytes included; else the descriptor or the end follows |
| `ZipReader.ZipReader.Turn` | pax/zip.cc:541-716 | One turn of the switch takes n bytes, leaves the run's outcome the same, and if n is 0 comes nearer to a turn that takes some |
| `ZipReader.ZipReader.Input` | pax/zip.cc:534-721 | The loop terminates, and does to the reader's state and trace what feeding the buffer byte by byte does |
| `ZipReader.ReadArchive` | pax/main.cc:425-450 | Over any buffers the error and the trace are those of the archive fed whole |
| `CpioRun.CutsDoNotMatter` | pax/cpio.cc:149-253 | Any two partitions give the same trace, final state and error position |
| `CpioSpec.MoveRank` | pax/cpio.cc:155-248 | Every turn that consumes nothing comes nearer to one that does |
| `CpioRecords.Conservation` | pax/cpio.cc:149-253 | On any bytes, what was consumed is whole members and the beginning of one more, or the trailer; each member's data is exactly the c_filesize bytes behind its name |
| `CpioRoundTrip.ReadBack` | pax/cpio.cc:149-253 | Every archive of sound members is read to its end with the calls of its members |
| `CpioRoundTrip.Accepted` | pax/cpio.cc:149-253 | An archive is read to the end of a member, with neither error nor trailer, if and only if it is made of sound members; the calls are then theirs |
| `CpioRoundTrip.TrailerSeen` | pax/cpio.cc:131-141 | The end is seen if and only if sound members are followed by a header whose stored name is TRAILER!!! and nothing else |
| `CpioRoundTrip.NulTrailerIsAFile` | pax/cpio.cc:131-141 | A trailer that counts the NUL in c_namesize is announced as a file, and does not end the archive |
| `CpioRoundTrip.UnreadableSize` | pax/cpio.cc:89-122 | A c_filesize that can not be read is taken for 2^64 - 1 |
| `CpioRoundTrip.RestIsOneMember` | pax/cpio.cc:89-253 | All that follows such a header and its name is given out as the data of that one member |
| `CpioLayout.Read` | pax/cpio.cc:94-127 | From a header written field by field in the order of the structure the reader takes each field back; it is accepted if and only if the time is not negative and the name has 0 to 4096 bytes |
| `CpioLayout.WrittenIsRead` | pax/cpio.cc:149-253 | Every archive written from its fields is read to its end with its members' calls |
| `CpioLayout.ReadIsWritten` | pax/cpio.cc:149-253 | Bytes are read to the end of a member without an error or a trailer if and only if they can be so written |
| `CpioLayout.Trailer` | pax/cpio.cc:131-141 | A good header with the ten-byte name TRAILER!!! ends the archive, without an error and without a call |
| `CpioLayout.BadHeader` | pax/cpio.cc:94-127 | 76 bytes that are no good header give PXE_GARBAGE, and no call |
| `CpioRoundTrip.Grammar` | pax/cpio.cc:149-253 | The calls of any run come as start, data if any, end |
| `CpioReader.CpioReader.Hdr` | pax/cpio.cc:94-127 | The fields are read in the source's order, with the wrap-around of the unsigned ones; a bad magic, time or name length is an error |
| `CpioReader.CpioReader.Turn` | pax/cpio.cc:155-248 | One turn takes n bytes, leaves the run's outcome the same, and if n is 0 comes nearer to a turn that takes some |
| `CpioReader.CpioReader.Input` | pax/cpio.cc:149-253 | The loop terminates, and does what feeding the buffer byte by byte does; after the trailer it reports all as consumed |
| `CpioReader.ReadArchive` | pax/main.cc:425-450 | Over any buffers the error and the trace are those of the archive fed whole |
| `UstarRun.CutsDoNotMatter` | pax/ustar.cc:259-282 | Any two partitions into buffers of whole records give the same run |
| `UstarRun.PartRecord` | pax/ustar.cc:259-282 | A buffer that ends inside a record is PXE_TRUNCATED exactly if the run has not stopped before |
| `UstarRun.MemberDelivered` | pax/ustar.cc:194-231 | A regular file's header and its records give one start and, if there are records, the file's data: the first bytes of the records, the padding dropped |
| `UstarRun.DeliveredIsSize` | pax/ustar.cc:194-202 | Those are all the bytes of the file if and only if the number of its records is below 2^32 |
| `UstarRun.OctalIsWhole` | pax/ustar.cc:194-202 | Every size that twelve octal digits can spell is delivered whole |
| `UstarRun.UnreadableSize` | pax/ustar.cc:131-202 | A regular file whose size field can not be read is accepted with size 2^64 - 1, and no record of it is taken as data |
| `UstarRun.FirstMismatch` | pax/ustar.cc:194-202 | A file of exactly 2^32 bytes gets the counters 2^23 and 0, which do not agree |
| `UstarRun.HeaderMatches` | pax/ustar.cc:194-202 | After a regular file's header data_blocks is data_bytes / 512 rounded up if and only if the size divided by 2^32 is a multiple of 512 |
| `UstarRun.AlwaysMatch` | pax/ustar.cc:194-231 | In every state of a run from the start that holds if and only if it holds of the size of every regular file the run meets |
| `UstarRun.BelowFits` | pax/ustar.cc:194-231 | In particular if those sizes are below 2^32 |
| `UstarRun.LastInRecord` | pax/ustar.cc:210-231 | Whatever the headers say, the last record of a member has between 1 and 512 bytes of data, so it is not read past its end |
| `UstarRun.NeverEnds` | pax/ustar.cc:233-257 | No run makes a file_end call: seen_first_block stays false |
| `UstarRecords.Conservation` | pax/ustar.cc:233-282 | On any bytes, the records consumed are whole members and the first of one more, or the record of zeros; the calls are theirs, with the data that has come so far |
| `UstarRecords.ReadBack` | pax/ustar.cc:233-282 | An archive of sound members is read to its end with the calls of its members |
| `UstarRecords.Accepted` | pax/ustar.cc:233-282 | The input is taken to the end of a member without an error if and only if it is made of sound members; the calls are then theirs |
| `UstarRecords.EndSeen` | pax/ustar.cc:249-253 | The archive ends if and only if sound members are followed by a record of zeros |
| `UstarRecords.Grammar` | pax/ustar.cc:210-257 | The calls of any run are starts, each with at most one stretch of data behind it |
| `UstarLayout.Accepts` | pax/ustar.cc:95-175 | A record is accepted as a header if and only if its checksum field is the sum of its other bytes and of eight blanks, the time is not negative, the type is one of 0 to 7, and in the new format the device numbers are not negative |
| `UstarLayout.StrIs` | pax/ustar.cc:123-127 | A string ends before the first NUL of its field, or with the field |
| `UstarLayout.SignedIs` | pax/ustar.cc:132-135 | A device number is the field's number cut to a signed 32-bit one |
| `UstarLayout.FieldsRead` | pax/ustar.cc:46-63 | The fields come back from a record written from them in the order of the structure |
| `UstarLayout.Read` | pax/ustar.cc:137-205 | The description of the file, field for field, for both formats: owner, mode, type, names, prefix, sizes |
| `UstarLayout.HeaderTaken` | pax/ustar.cc:137-205 | After a good header the file described is the current one and announced, and data_blocks and data_bytes are the records and bytes of its data modulo 2^32, or 0 if it is not a regular file |
| `UstarLayout.WrittenIsRead` | pax/ustar.cc:233-282 | Every archive written from its fields is read to its end, each member's data without the padding |
| `UstarLayout.ReadIsWritten` | pax/ustar.cc:233-282 | Bytes are taken to the end of a member without an error if and only if they can be so written |
| `UstarLayout.BadHeader` | pax/ustar.cc:143-205 | A record that is neither zeros nor a good header gives PXE_GARBAGE, and no call |
| `UstarLayout.ZeroRecord` | pax/ustar.cc:250-254 | A record of zeros behind whole members ends the archive, and no call |
| `UstarReader.UstarReader.HdrCksum` | pax/ustar.cc:95-121 | The header passes if and only if its checksum field is the sum of the bytes before it, of eight blanks, and of the bytes behind it |
| `UstarReader.UstarReader.HdrRec` | pax/ustar.cc:137-205 | The header is checked, described and announced, and the counters set, in the widths of the source |
| `UstarReader.UstarReader.DataRec` | pax/ustar.cc:210-231 | A data record is announced whole, the last one of a member as far as it is data |
| `UstarReader.UstarReader.Input` | pax/ustar.cc:259-282 | The loop does to the reader's state and trace what feeding the records does |
| `Base64.RoundTrip` | uuencode/uuencode.cc:130-178 | Decoding the text, newlines removed, gives the data back, for every input |
| `Base64.StripWrapped` | uuencode/uuencode.cc:117-157 | The text without its newlines is the encoding of the data |
| `Base64.LineText` | uuencode/uuencode.cc:117-157 | A line of 45 bytes is 60 characters, one of fewer at most 60, and none holds a newline |
| `Base64.Vectors` | uuencode/uuencode.cc:130-178 | The test vectors of RFC 4648, section 10 |
| `Base64.Alphabet` | uuencode/uuencode.cc:74-82 | The 64 symbols are A to Z, a to z, 0 to 9, + and / |
| `Base64.FullLine` | uuencode/uuencode.cc:117-157 | Line k of the text, newline included, is at characters 61k to 61k + 60 and encodes bytes 45k to 45k + 44 |
| `Base64.LastLine` | uuencode/uuencode.cc:187-196 | The last line encodes what is left, and is there even if that is nothing |
| `Uuencode.TextIsWrapped` | uuencode/uuencode.cc:187-233 | Whatever the pieces, what comes out is the encoding of the whole, in lines |
| `Uuencode.FourSymbols` | uuencode/uuencode.cc:130-150 | The symbols are the four base64 digits of three bytes, in the alphabet of RFC 4648, section 4 |
| `Uuencode.LastSymbols` | uuencode/uuencode.cc:159-178 | One or two bytes left over give the padded group of RFC 4648, section 4 |
| `Uuencode.Encoder.PushOutbuf` | uuencode/uuencode.cc:103-115 | The text grows by the string, whenever the buffer is flushed |
| `Uuencode.Encoder.EncodeChunk` | uuencode/uuencode.cc:130-157 | A group is appended, and a newline after fifteen of them |
| `Uuencode.Encoder.PushBytes` | uuencode/uuencode.cc:204-233 | A read of any length does what its bytes one by one do; one or two are left in the spill buffer |
| `Uuencode.Encoder.FlushLastLine` | uuencode/uuencode.cc:187-196 | What is in the spill buffer comes out padded, then a newline |
| `Uuencode.HeaderFits` | uuencode/uuencode.cc:235-248 | The header line fits the output buffer if and only if the name has at most 4078 characters, and is then "begin-base64", the mode, the name and a newline; of a longer one snprintf keeps 4115 characters |
| `Uuencode.DoEncode` | uuencode/uuencode.cc:250-288 | For every way of cutting the input into reads the output is "begin-base64", the mode, the name, the encoding in lines, and "====" |
| `SortSpec.NextIsFirstLeast` | sort/sort.cc:166-176 | The line chosen is the first of the least |
| `SortSpec.MergePermutes` | sort/sort.cc:212-233 | The merge is a permutation of all the lines |
| `SortSpec.MergeIsStableSort` | sort/sort.cc:125-233 | Merging sorted files gives the stable sort of all their lines under line_compare: sorted, equal lines in the order of files and of lines in a file |
| `SortSpec.MergeRises` | sort/sort.cc:125-233 | Without -r: if in every file no line collates before an earlier one, the same holds of the merge, and lines for which strcoll gives 0 come in the order of files and of lines in a file |
| `SortSpec.MergeFalls` | sort/sort.cc:125-233 | With -r: the same with no line collating behind an earlier one; equal lines still come in the order of the files |
| `SortSpec.NextInStrcoll` | sort/sort.cc:125-176 | The line chosen is the first of those that collate lowest, with -r highest |
| `SortSpec.FilesKeepTheirOrder` | sort/sort.cc:212-233 | Sorted or not, the lines of each file come out in their order, and all of them |
| `Sort.MergeModeInput` | sort/sort.cc:143-164 | A file that has a line holds its next one; false if there is none |
| `Sort.Merger.EraseAll` | sort/sort.cc:201-207 | Erasing the listed places from the back leaves exactly the files that have a line, in order |
| `Sort.Merger.MergeModeInputMore` | sort/sort.cc:186-210 | Afterwards every file left holds a line, and no line is lost |
| `Sort.Merger.MergeModeNextIdx` | sort/sort.cc:166-176 | The index chosen is that of the specification |
| `Sort.Merger.MergeModePostWalk` | sort/sort.cc:212-233 | The loop terminates, and prints the merge |
| `Sort.SortMerge` | sort/sort.cc:135-233 | sort -m prints the merge of its files |
| `TsortSpec.Decides` | tsort/tsort.cc:160-181 | Whenever item_precedes returns, its answer is whether a path of one or more recorded pairs leads from a to b, cycles and pairs of equal tokens included |
| `TsortSpec.FindsNoPath` | tsort/tsort.cc:160-181 | For some limit it answers no if and only if b can not be reached and no cycle of two or more tokens can be reached from a |
| `TsortSpec.FindsPath` | tsort/tsort.cc:160-181 | For some limit it answers yes if and only if a path leads from a to b on which every pair recorded before the one taken joins a token to itself, or leads neither to b nor to a cycle |
| `TsortSpec.EnoughFuel` | tsort/tsort.cc:160-181 | Where no cycle can be reached, a limit computed from the number of pairs alone is enough for an answer |
| `TsortSpec.WalksAreShort` | tsort/tsort.cc:160-181 | A search that answers no has spent at least one call on each token of every walk |
| `TsortSpec.GivesUpOnCycles` | tsort/tsort.cc:160-181 | From a token on a cycle it never answers no, however high the limit |
| `TsortSpec.CompareDecides` | tsort/tsort.cc:183-196 | compare_items says "before" if and only if the tokens differ and the first leads to the second |
| `TsortSpec.ContradictsItself` | tsort/tsort.cc:183-196 | It gives the same answer both ways on two tokens if and only if neither leads to the other, or each does |
| `TsortSpec.CompareCases` | tsort/tsort.cc:183-196 | compare_items gives 0 for equal tokens, -1 or 1 for others, and gives up exactly if a search with a limit of 4000000 does |
| `TsortSpec.BothBehind` | tsort/tsort.cc:183-196 | Two pairs with no token in common are an example |
| `TsortSpec.ChainLimit` | tsort/tsort.cc:160-196 | On a chain of n pairs the first token is found to come before the last exactly if n is below 4000000; from there on the search gives up |
| `Tsort.TokensAre` | tsort/tsort.cc:133-156 | The tokens of a line are not empty, hold no blanks, and hold all the rest of the line in order |
| `Tsort.WordFirst` | tsort/tsort.cc:133-156 | A run without blanks before a blank or the end of the line is one token |
| `Tsort.BlankFirst` | tsort/tsort.cc:139-140 | A blank in front is passed over |
| `Tsort.Spaces` | tsort/tsort.cc:139-144 | The blanks are the six of the C locale |
| `Tsort.Tsort.AddToken` | tsort/tsort.cc:82-108 | The place returned holds the token's characters, and no string is in the dictionary twice: places are equal if and only if the characters are |
| `Tsort.Tsort.PushToken` | tsort/tsort.cc:117-131 | A token completes the pair begun, or waits |
| `Tsort.Tsort.ProcessLine` | tsort/tsort.cc:133-156 | The tokens of the line are pushed, in order |
| `Tsort.Tsort.ItemPrecedes` | tsort/tsort.cc:160-181 | The loop with its shared counter computes the search of the specification, and counts as it does |
| `Tsort.ReadFile` | tsort/tsort.cc:233-236 | The recorded pairs spell the tokens of the file, two by two; an odd one is left waiting |
| `Suffix.IncrCounts` | split/split.cc:157-176 | incr_suffix takes k in base 26 to k + 1, and says so when there is none |
| `Suffix.ValueOf` | split/split.cc:157-176 | The suffix of k spells k |
| `Suffix.LaterIsLater` | split/split.cc:157-176 | Later pieces have lexicographically later names |
| `Suffix.TwoLetters` | split/split.cc:157-176 | aa, ab, az, ba and zz are the names 0, 1, 25, 26 and 675 of 676 |
| `Split.Splitter.IncrSuffix` | split/split.cc:157-176 | The loop over the letters computes that increment |
| `Split.Splitter.OpenOutput` | split/split.cc:178-203 | A new piece has the next name; it fails exactly when all names are in use |
| `Split.Splitter.IncrOutput` | split/split.cc:224-235 | The piece is closed when it has its size |
| `Split.Splitter.OutputBytes` | split/split.cc:237-268 | The pieces grow by the buffer; on failure by a proper prefix of it |
| `Split.SplitBytes` | split/split.cc:270-308 | The pieces make up the input, all but the last have the size asked for, the k-th name ends in k in base 26; it fails if and only if more than 26^len pieces are needed |
| `Split.ExecuteSplit` | split/split.cc:324-361 | The status is EXIT_FAILURE also when every byte has been written; pieces and names are those of split_bytes either way |
| `Comm.LeadsCount` | comm/comm.cc:218-224 | Before a column stand as many tabs as columns to its left are shown |
| `Comm.ShownInColumn` | comm/comm.cc:69-94 | Nothing is shown of a suppressed column; any other line stands behind one tab for each column to its left that is shown |
| `Comm.PrintedInColumns` | comm/comm.cc:69-94 | What is printed is made of one such piece for each line, in order |
| `Comm.ColumnsSpell` | comm/comm.cc:113-163 | For any two files columns 1 and 3 spell the first and columns 2 and 3 the second |
| `Comm.ColumnsCount` | comm/comm.cc:113-163 | For sorted files column 3 holds each line as often as the file that has it less often, columns 1 and 2 what is left of each |
| `Comm.ColumnsSorted` | comm/comm.cc:113-163 | For sorted files the columns together are sorted |
| `Comm.LineOut` | comm/comm.cc:69-94 | Nothing if the column is suppressed, else the line behind 0, 1 or 2 tabs, as many as columns to its left are shown |
| `Comm.CompareFiles` | comm/comm.cc:96-172 | What is printed are the columns, each line in its own: one piece for each, with its tabs |

## Left out

- compress: `fwrite` and `fread` succeed and come up short only at end of file; the widths are those of LP64. The one struct is split into an output or input side, a table and the rest, and the unions that overlay the reader's tables on the writer's are separate arrays (`ZStack.StackBound` covers the room in `htab`).
- ZReader.BitReader.LoadCode: the source also fetches the byte behind the last one when it needs no bit of it; the model does not.
- ZReader.Decompressor.ZRead: files an encoder did not write are not covered (the source does not check codes above `free_ent`), nor headers without the block flag; nothing is promised about resuming a file that has a header and no code.
- compress: the count of codes `zs_out_count` is not modelled; nothing reads it.
- pax: `file_start`, `file_data` and `file_end` succeed. `pax_fi_clear` is a reset of the fields. `octal_str` is a parameter, any function of a field's bytes. The byte swaps for big-endian hosts, the block size and the archive's own file are not modelled.
- zip: `inflate` is not part of this model: the run stops when it meets data of method 8. `crc32` is modelled bit by bit, without zlib's tables. `mktime` is not applied; a time is kept as the date and time words of the header.
- UstarReader.UstarReader.HdrRec: a rejected header leaves `curfile` unchanged; the source has by then cleared it and filled part of it. No call is made with it.
- cksum: opening the file and printing the line; the size of the read buffer.
- Uuencode.DoEncode: a name of more than 4078 characters is excluded; read and write errors and the traditional mode, which patches a length byte through a pointer into the output buffer, are not modelled.
- sort: `std::sort` mode, the check mode and the key options; reading does not fail and lines fit the buffer of `fgets`. `strcoll` is any total preorder.
- tsort: `qsort`, and so the order of the output; lines do not contain NUL and `strndup` succeeds.
- Split.SplitBytes: opening, writing and closing pieces succeed and the input is read without error; splitting by lines is left out.
- comm: reading and writing succeed; `strcoll` is a total order in which lines that compare equal are the same.
- The other utilities: `expr`, `grep`, `diff` and those that are file-system, terminal or user-database plumbing; `head`, `uniq`, `wc`, `cmp`, `echo` and `expand` would only add easy members.
