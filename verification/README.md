# A model of Jade's DEFLATE codec, keychain and registration records

This project models three parts of the Jade firmware in Dafny and proves what they are for.

* **The DEFLATE codec of `libjade/miniz.c`**, compressor and decompressor, against the bit-level semantics of
  RFC 1951 (module `Deflate`). The compressor side runs from radix sort, in-place Huffman lengths, the length limit and
  canonical codes through the LZ code buffer, the ring dictionary with its hash chains and the lazy parser to the block
  writer and `tdefl_compress`. The decompressor side has the look-up tables with their overflow trees, the bit buffer,
  the output window and `tinfl_decompress`, a coroutine that may stop at any byte of input or output. The Adler-32 of
  RFC 1950 is there too. The portable code paths are modelled; the bit buffer is 32 or 64 bits wide.
* **The keychain of `main/keychain.c`** over the flash of `main/storage.c`: secrets in memory, an encrypted blob, a
  counter of attempts. Any flash operation may fail, take effect and still report failure, or lose power before it.
* **The registration records of `main/multisig.c` and `main/descriptor.c`.**

Code that works by changing arrays and struct fields is modelled by methods on arrays and classes, each proved against
a specification function or predicate; what the source promises is then proved of those.

## How the proofs fit together

* `Deflate.Inflate` reads bits as section 3.2 of RFC 1951 says. It is the only definition of what a stream means;
  compressor and decompressor are each proved against it and never against each other. `ThereAndBack.RoundTrip` puts
  the two results together.
* Compressor: `HuffmanTree`, `HuffmanOptimality`, `MinimumRedundancy`, `RadixSort`, `LengthLimit`, `LimitedCost` and
  `HuffTables` make the codes; `LzRecords`, `LzLayout`, `LzBuffer`, `BlockCodes`, `CodeLengths`, `CodeLengthPacker`,
  `BlockHeaders`, `BlockWriter`, `DynamicFit`, `FixedFit`, `BlockFlush`, `BlockEnd` write blocks; `Chains` and
  `Dictionary` find matches; `Parsing`, `OutputBuffer`, `Stream` and `Compressor` drive them.
* Decompressor: `CompleteCode` and `InflateTables` for the tables, `BitReader`, `HuffDecode` and `OutWindow` for the
  parts, `Resume`, `Points` and `Growth` for what is left to do at each point where it can stop, `Halting` and
  `BrokenOff` for how far any part of a stream takes it, `Inflater` for the coroutine, `Pieces` for whole runs and
  `LostCheck` for a call that loses its checksum.
* Keychain: `Vault` has the serialization and the laws of the cryptography, `Attempts` the operations as functions of
  the device's state and of what goes wrong, with the results about whole runs, `Lifetime` what becomes of a stored
  wallet while nothing goes wrong, and `Keychain` the classes whose methods compute those functions.
* Records: `Records`, `Multisig`, `Descriptor`.

## Findings

* **The attempt counter can be renewed while the old blob stays** (main/storage.c:444-451 writes the counter before the
  blob). `Attempts.FiveWrongKeys` is a run with five wrong keys in a row although three are allowed: power goes between
  counter and blob of an erase, and again between counter and blob of the store that follows. `Attempts.FreshIff` says
  exactly when a store cannot lose the count: there is no blob in flash, or all attempts are left.
  `Attempts.RunSafe` proves the bound for every run whose stores begin like that.
* **A dynamic block always fits.** The fallback to the fixed codes at libjade/miniz.c:711-716 is never taken
  (`BlockFlush.TryJob`), and the marks of a sync or full flush always fit behind the block, so that the assertion at
  libjade/miniz.c:742 holds (`BlockEnd.WriteBlock`). The reason is that the length limit costs at most one 270th of a
  bit for every symbol written and every code (`LimitedCost.LimitCosts`).
* **The checksum misses what a failing call put out.** `tinfl_decompress` does not carry its checksum over the bytes of
  a call that ends in `FAILED_CANNOT_MAKE_PROGRESS` (libjade/miniz.c:1853), although such a call may be followed by
  others. `LostCheck.ByteUnchecked` is such a call: of a stream of seven bytes the first six are offered, with no more
  announced; a byte comes out, and the checksum is still that of none. The contract of `Inflater.Inflater.Decompress`
  says when that happens, in terms known before the call: with `Checks` the checksum covers what comes out whatever
  room there is, without it a call with room enough puts out bytes that are never checked.
  `Inflater.Inflater.ChecksOfStream` says what `Checks` is for a stream: more input is announced, or there is all that
  the stream's end needs, or nothing comes out of what there is.
* **Some streams that are none are decompressed all the same.** The tables accept a code with at most one symbol
  (libjade/miniz.c:1561) and decode bits that it has no code for; with a ring, a distance beyond the output is not
  refused (libjade/miniz.c:1740); and the length symbols 286 and 287 stand for a match of nothing
  (libjade/miniz.c:1401-1402). `Points.Astray` says that following the code leads to one of the first two places, and
  no stream does (`BrokenOff.NotAstray`). For all others the contract of `Inflater.Inflater.Decompress` says exactly
  what comes out, malformed ones included, and that `Done` is said of a stream only, or of one with such a length
  symbol. Without a ring a distance of nothing or beyond the output always fails (`BrokenOff.FarBreaks`).
* **Some matches are never found.** The end of a hash chain is marked by zero, and places are kept in 16 bits, so that a
  place that is a multiple of 65536 ends the chain of all later ones with its hash (libjade/miniz.c:869-870).
  `Dictionary.Dictionary.FindMatch` finds nothing where the nearest such place is one (`Chains.NoChain`), and else the
  longest match among all places nearer than that, as far as the probes reach.
* **The descriptor reader can leave its buffers.** `MIN_DESCRIPTOR_BYTES_LEN` (main/descriptor.c:24) does not count the
  HMAC that main/descriptor.c:582-586 cuts off the end (`Descriptor.NineBytes`); the loop at main/descriptor.c:615 takes
  up to 255 values where there is room for 15 (`Descriptor.SixteenValues`); and the length checks admit strings as long
  as their buffers, behind which a terminator is written (`Descriptor.FullScript`). `Descriptor.StraysIff` says exactly
  when: with fewer than 32 bytes, or with an authentic record that has something without its place. Of the last kind
  `descriptor_to_bytes` itself writes those with full strings, and no others (`Descriptor.RecordBack`).
* **A multisig registration that is not sane loads.** `multisig_load_from_storage` sets a message for data that fail its
  last checks but returns true (main/multisig.c:391-398, `Multisig.LoadFromStorage`). No registration that
  `multisig_data_to_bytes` wrote for a multisig variant is of that kind (`Multisig.WrittenIsListed`).

## Model

| member | source | states |
|---|---|---|
| `CanonicalCode.PrefixFree` | libjade/miniz.c:311-327 | for any valid code lengths, no canonical code begins another |
| `CanonicalCode.CodeFits` | libjade/miniz.c:311-327 | every code handed out is below two to the power of its length |
| `RadixSort.RadixSortSyms` | libjade/miniz.c:159-190 | the result is the stable sort of the symbols by 16-bit frequency, also when the pass over the high bytes is skipped |
| `RadixSort.StableSortPermutes` | libjade/miniz.c:159-190 | a stable sort is a permutation and in order |
| `MinimumRedundancy.BuildTree` | libjade/miniz.c:193-222 | the in-place first phase leaves the parents of a greedy merge of the sorted weights, whose root weighs their sum |
| `MinimumRedundancy.CalculateMinimumRedundancy` | libjade/miniz.c:193-246 | the lengths are optimal among all prefix codes, complete, non-increasing in weight order, and bounded by the Fibonacci growth of the weights |
| `HuffmanOptimality.TreeOptimal` | libjade/miniz.c:193-222 | no lengths within the Kraft inequality cost less than the depths of the greedy tree |
| `HuffmanTree.LeafWeights` | libjade/miniz.c:193-222 | a leaf's weight times the Fibonacci number after its depth is at most the total weight |
| `LengthLimit.EnforceMaxCodeSize` | libjade/miniz.c:253-275 | ends with as many codes, none longer than the limit, a Kraft sum of exactly one, nothing changed if nothing was too long, and only few codes lengthened |
| `LengthLimit.CanRepair` | libjade/miniz.c:265-273 | while the sum is too big there is a code at the limit and a shorter one to split |
| `LengthLimit.PushStep` | libjade/miniz.c:265-273 | after every repair, codes shorter than the shortest one lengthened so far are untouched |
| `LimitedCost.LimitedIsFew` | libjade/miniz.c:253-275 | in order of rank, from some position on no length changes, and those before it had few units of room |
| `LimitedCost.LimitCosts` | libjade/miniz.c:253-275 | the limit of 15 bits makes a text longer by at most one 270th of a bit for every symbol in it and every code |
| `HuffTables.HuffTable.OptimizeHuffmanTable` | libjade/miniz.c:277-328 | used symbols alone get lengths, rarer ones never shorter ones, the lengths are optimal when the total is too small for a code to be cut and nearly so otherwise, and the stored codes are the canonical ones reversed |
| `HuffTables.CheapNow` | libjade/miniz.c:287-309 | no rival prefix code over the same counts is cheaper, or cheaper than by the cost of the limit |
| `HuffTables.ReverseBits` | libjade/miniz.c:323-325 | the reversed code read from its lowest bit is the code read from its highest |
| `BitWriter.BitWriter.PutBits` | libjade/miniz.c:330-346 | the bits written so far grow by the value's bits; what does not fit is dropped and nothing else changes |
| `CodeLengthPacker.PackCodeSizes` | libjade/miniz.c:422-456 | the packed code lengths expand to the code lengths given, and every symbol used is counted |
| `CodeLengths.ReadsHeader` | libjade/miniz.c:462-481 | the bits of a header read back as the two codes announced, whatever follows |
| `CodeLengths.SwizzleInverse` | libjade/miniz.c:394 | the sending order of code lengths is a permutation with a known inverse |
| `BlockHeaders.BuildTables` | libjade/miniz.c:402-412 | both tables hold acceptable codes that cover the records and are nearly the cheapest for them |
| `LzRecords.ReadsRecord` | libjade/miniz.c:603-643 | a record's bits read back as what it stands for, whatever follows |
| `LzRecords.LengthTables` | libjade/miniz.c:616-621 | length symbol, base and extra bits give the match length back |
| `LzRecords.DistTables` | libjade/miniz.c:623-635 | distance symbol, base and extra bits give the distance back |
| `LzBuffer.LzBuffer.RecordLiteral` | libjade/miniz.c:898-910 | the buffer then stands for one literal more, also while a flag byte holds stale bits |
| `LzBuffer.LzBuffer.RecordMatch` | libjade/miniz.c:912-939 | the buffer then stands for one match more |
| `LzBuffer.TallyStep` | libjade/miniz.c:898-939 | the 16-bit counts are exactly how often the records need each symbol, and do not wrap |
| `LzLayout.SealStep` | libjade/miniz.c:677-678 | after the last flag byte is shifted down, the buffer replays to the records |
| `BlockCodes.CompressLzCodes` | libjade/miniz.c:603-648 | replaying the buffer writes the codes of exactly the recorded list and the end of the block |
| `BlockWriter.CompressStatic` | libjade/miniz.c:483-503 | the bits of the block are those of the fixed codes and mean the records |
| `BlockWriter.CompressDynamic` | libjade/miniz.c:396-481 | the block reads back as what its records stand for, and is not much longer than with the fixed codes |
| `BlockWriter.FixedComplete` | libjade/miniz.c:484-500 | the fixed codes of section 3.2.6 of RFC 1951 are complete |
| `DynamicFit.DynamicCompact` | libjade/miniz.c:396-481 | a dynamic block is bounded by the room its records take in the LZ code buffer |
| `DynamicFit.CheapBits` | libjade/miniz.c:402-412 | with its own codes a block takes at most the bits of the fixed codes, and the cost of the limit |
| `FixedFit.StaticLeavesRoom` | libjade/miniz.c:711-742 | whatever fits in the LZ code buffer fits in the output buffer with the fixed codes, with room for the marks of a flush |
| `FixedFit.DynamicLeavesRoom` | libjade/miniz.c:711-742 | and so it does with codes of its own |
| `BlockFlush.TryJob` | libjade/miniz.c:684-716 | the first try at a compressed block always succeeds: nothing of it is dropped, it means its records, and room for the marks of a flush is left |
| `BlockFlush.WriteBody` | libjade/miniz.c:682-716 | compressed or stored, the block says exactly what its records stand for and leaves room for the marks; it is stored if and only if that is asked for, or compression saves no byte, while the window holds the bytes; the fallback is never reached |
| `BlockFlush.ChosenShort` | libjade/miniz.c:690-709 | a block takes at most 41 bits more than its bytes, if the window holds them, and at most 56 more than its codes |
| `BlockEnd.WriteBlock` | libjade/miniz.c:662-745 | block and marks continue any stream, whatever came before what it refers to: from what it stood for to what it stands for with the records, ended by a last block; every flush ends at a whole byte; the output buffer is never full after it |
| `Chains.Rolls` | libjade/miniz.c:953-965 | the hash that rolls over the input is that of the last three bytes |
| `Chains.LinkedMore` | libjade/miniz.c:966-967 | one more place at the head of its chain keeps all chains: each place in the window leads to the last one before it with the same hash |
| `Chains.ChainEnds` | libjade/miniz.c:868-870 | where the chain ends or leaves the window, no match within reach has been missed |
| `Chains.EnoughSeen` | libjade/miniz.c:863-877 | nor when as many places have been seen as were to be |
| `Dictionary.Dictionary.FindMatch` | libjade/miniz.c:853-895 | a match returned lies within the window and equals the bytes at the lookahead; with a cleared hash table, no longer one begins at any of as many of the nearest places with the same hash as there are probes less one, none of them a multiple of 65536; and nothing is found where the nearest one is such a multiple |
| `Dictionary.Dictionary.Load` | libjade/miniz.c:951-991 | ring and mirrored tail hold the last bytes of the input, and the hash chains all their places |
| `Dictionary.Dictionary.Forget` | libjade/miniz.c:1149-1154 | after a full flush the window is empty: what came before can no longer be referred to |
| `Parsing.SaveMatch` | libjade/miniz.c:1019-1064 | a match put aside still stands for the next bytes of the input |
| `Parsing.NothingIgnored` | libjade/miniz.c:1026-1064 | a match found is recorded or put aside unless the one put aside is no shorter, which is given up for a longer one only; and the parser goes on by what it has recorded |
| `Compressor.Compressor.Search` | libjade/miniz.c:996-1026 | no match if blocks are to be stored, the longest run if runs alone are wanted, otherwise the longest match the probes reach; far ones of three bytes, filtered ones and those to the start of the ring are dropped |
| `Compressor.Compressor.ParseOne` | libjade/miniz.c:993-1068 | records and the match put aside account for every byte once, and are what `Parsing.LazyMove` makes of the longest match found |
| `Compressor.Compressor.CompressNormal` | libjade/miniz.c:941-1084 | the books stay balanced and the output stands for the input up to the last block |
| `Compressor.Compressor.Compress` | libjade/miniz.c:1107-1160 | for every sequence of calls, flushes and flags: when done, the output decompresses to exactly the input; after a sync or full flush that is all out, the output is whole bytes that stand for all the input, and what comes after a full flush decompresses by itself; which input was taken, which output given, when a call is refused, and that a call with room and with input or Finish leaves less to do |
| `Compressor.Compressor.AllOut` | libjade/miniz.c:1107-1160 | once everything is out, the format reads it as all of the input, and what came out after the last full flush as what came in after it |
| `Stream.AddBlock` | libjade/miniz.c:662-780 | a block behind a stream makes a stream for more |
| `Stream.PlayBehind` | libjade/miniz.c:1149-1154 | records that do not reach back beyond what they begin with stand for the same whatever comes before it |
| `OutputBuffer.BehindAll` | libjade/miniz.c:718-740 | at a whole byte, what is out up to a full flush and what is out since stand for all the input together |
| `CompleteCode.DecodesAll` | libjade/miniz.c:1549-1564 | with a complete code every bit string of 15 bits begins with a code |
| `InflateTables.BuildTable` | libjade/miniz.c:1539-1604 | the tables are accepted if and only if the lengths make a code, and then every entry leads where its bits do |
| `InflateTables.RoomForNode` | libjade/miniz.c:1583-1603 | there is always room for another node among twice as many slots as symbols |
| `InflateTables.LookupDecodes` | libjade/miniz.c:1355-1387 | bits that begin with a symbol's code look up to that symbol and its length |
| `InflateTables.LookupDecodesAll` | libjade/miniz.c:1355-1387 | with a complete code, any bits look up to the one symbol whose code they begin with |
| `BitReader.BitReader.AddByte` | libjade/miniz.c:1277-1295 | bit buffer and unread bytes remain the part of the stream still to be decoded |
| `BitReader.BitReader.PutBack` | libjade/miniz.c:1837-1847 | whole bytes read ahead in this call go back, with nothing else changed |
| `HuffDecode.Fill` | libjade/miniz.c:1324-1347 | reading stops as soon as the buffer holds all of a code or 15 bits, or when the input ends within a code |
| `HuffDecode.HuffDecode` | libjade/miniz.c:1355-1387 | the symbol returned is the one the remaining stream begins with, and exactly its bits are taken; without enough input nothing is lost |
| `HuffDecode.NoneInTree` | libjade/miniz.c:1324-1387 | where the tables yield something for bits that begin no code, those bits begin none however they go on |
| `OutWindow.OutWindow.CopyFast` | libjade/miniz.c:1785-1800 | copying three bytes at a time gives the overlapping copy of the format |
| `OutWindow.ShowsNew` | libjade/miniz.c:1843-1852 | the bytes between the old and the new place in the buffer are what has come out |
| `Points.WantsTooMuch` | libjade/miniz.c:1277-1347 | where more bits are wanted than the stream has left, the stream is none |
| `Points.CopyAll` | libjade/miniz.c:1744-1800 | a whole match leads to the next symbol with the result unchanged |
| `Points.GoneAstray` | libjade/miniz.c:1561-1740 | where there is no saying how the code goes on, all the bits of the stream lead to such a place |
| `Growth.RestGrows` | libjade/miniz.c:1399-1829 | from every point on, the result begins with what has been put out |
| `Growth.RestLonger` | libjade/miniz.c:1646-1753 | where more room is asked for there is a byte to be put out |
| `BrokenOff.HaltsAtEnd` | libjade/miniz.c:1435-1829 | from any point, without its last j bytes a stream comes to its end if and only if those are not part of it, with all of its output, and otherwise stops for want of input |
| `BrokenOff.UptoEnd` | libjade/miniz.c:1435-1829 | the first n bytes of a stream reach its end if and only if there are as many of them as the format takes |
| `BrokenOff.NotAstray` | libjade/miniz.c:1561-1740 | no stream leads to where there is no saying how the code goes on |
| `BrokenOff.FarBreaks` | libjade/miniz.c:1739-1743 | without a ring, bits with a match that reaches back too far or nowhere lead to a failure |
| `BrokenOff.EndIsWhole` | libjade/miniz.c:1435-1829 | what comes to its end with no length symbol foreign to the format is a stream |
| `Inflater.Inflater.StepHead` | libjade/miniz.c:1457-1525 | the three bits of a block's head lead to the point its type calls for, without changing the result |
| `Inflater.Inflater.StepRepeat` | libjade/miniz.c:1619-1632 | repeated code lengths stay within their array, and complete ones become both tables or a failure |
| `Inflater.Inflater.FastSymbols` | libjade/miniz.c:1652-1714 | two symbols decoded with read-ahead have the effect of the slow path |
| `Inflater.Inflater.StartCopy` | libjade/miniz.c:1739-1800 | without a ring, a distance too far back or of nothing fails; any other match is copied at once or byte by byte to the same result |
| `Inflater.Inflater.StepEnd` | libjade/miniz.c:1806-1815 | at the end of a valid stream nothing is left in the bit buffer |
| `Inflater.Inflater.Run` | libjade/miniz.c:1435-1829 | a call ends, at a point where input or room is really wanted, at the end or at a failure |
| `Inflater.Inflater.Decompress` | libjade/miniz.c:1399-1883 | for every stream that does not go astray: a call puts out all that its input yields or as much as there is room for, Done, Failed and the wants are said exactly when that is so, and Done only of a stream or of one with a foreign length symbol; for a valid one it never fails, Done means all of the format's output with exactly its bytes consumed; no whole byte is held back when it ends; and exactly when the checksum covers what comes out |
| `Inflater.Inflater.ChecksOfStream` | libjade/miniz.c:1853 | for a valid stream the checksum covers what a call puts out, whatever room there is, if and only if more input is announced, or there is all that its end needs, or nothing comes out |
| `LostCheck.ByteUnchecked` | libjade/miniz.c:1837-1853 | a call that puts out a byte and leaves the checksum that of none |
| `Pieces.DecompressInPieces` | libjade/miniz.c:1399-1883 | in whatever pieces input is offered and output taken, run after run gives the same output, consumption and checksum, those of the format |
| `ThereAndBack.CompressInPieces` | libjade/miniz.c:1107-1160 | in whatever pieces data are offered and output taken, with whatever flushes, it comes to an end and the output stands for all the data |
| `ThereAndBack.CompressApart` | libjade/miniz.c:1137-1160 | what comes out after a full flush is a stream of its own for the data that came after it, and both parts together are one for all the data |
| `ThereAndBack.ReadBack` | libjade/miniz.c:1107-1160 | what a finished compressor put out decompresses in any pieces to its input |
| `ThereAndBack.RoundTrip` | libjade/miniz.c:1107-1160 | any data, with any flags and flushes, cut in any way on both ways, come back, with their checksum and to the last byte of the stream |
| `Adler.LateRemainder` | libjade/miniz.c:1853-1879 | taking the remainder late gives the checksum of RFC 1950, which takes it after every byte |
| `Adler.Abc` | libjade/miniz.c:1853-1879 | the checksum of the bytes of "abc" is 0x024D0127 |
| `Adler.NoOverflow` | libjade/miniz.c:1858-1874 | the sums of 5552 bytes fit in 32 bits |
| `Adler.Update` | libjade/miniz.c:1853-1879 | for every length, the checksum carried on is that of the bytes so far and these |
| `Vault.OpenSeal` | main/keychain.c:412-463 | the key it was sealed with opens a blob of the expected length |
| `Vault.SealLayout` | main/keychain.c:412-438 | a blob is the iv, what is encrypted with it, and the HMAC of both, byte by byte |
| `Vault.Open` | main/keychain.c:441-463 | nothing opens whose last 32 bytes are not the HMAC of the others, and what opens is what the rest decrypts to |
| `Vault.OnlyRightKeyOpens` | main/keychain.c:441-463 | if the HMAC tells keys apart, no other key opens it |
| `Vault.SerializeBack` | main/keychain.c:383-409 | the keys come back from their bytes without the seed |
| `Vault.SerializedLayout` | main/keychain.c:383-409 | the bytes are the serialized key, 32 big-endian numbers of two bytes, and the unblinding key |
| `Vault.LoadStored` | main/keychain.c:558-572 | what is stored loads as entropy or as keys, told apart by length alone, never as both |
| `Vault.PathBack` | main/wallet.c:534-562 | the service path comes back from its bytes |
| `Vault.PlainIsLawful` | main/keychain.c:412-463 | the laws assumed of the cryptography can all be kept at once |
| `Attempts.RunSafe` | main/keychain.c:495-534 | over any run, with any failures and power losses: no more wrong keys in a row than attempts, if every store begins with no blob or with all attempts left |
| `Attempts.StoreSafeIff` | main/storage.c:444-451 | a store keeps to the attempts, whatever comes, if and only if there is no blob or no wrong key was tried on it |
| `Attempts.FreshIff` | main/keychain.c:537-586 | what a caller can see before a store tells exactly that |
| `Attempts.FiveWrongKeys` | main/storage.c:444-465 | a run with five wrong keys in a row |
| `Attempts.UsedUp` | main/keychain.c:495-518 | once no attempts are left, no key is checked before something is stored again |
| `Attempts.StoreThenLoad` | main/keychain.c:537-635 | after a store, and anything done with memory alone, the key restores what was stored as soon as power is on and memory holds nothing: after a clear as well as after switching off and on |
| `Attempts.ReencryptThenLoad` | main/keychain.c:637-673 | after a re-encryption the new key loads what the old one would have |
| `Attempts.WrongKeyGetsNothing` | main/keychain.c:495-534 | another key loads nothing and changes no secret |
| `Lifetime.StoreWorks` | main/keychain.c:537-586 | with power on and no failure a store succeeds, and leaves all attempts and the payload sealed under the key |
| `Lifetime.RightKey` | main/keychain.c:530-533 | the right key gets the payload and leaves all attempts |
| `Lifetime.WrongKey` | main/keychain.c:519-528 | a wrong key costs one attempt, and with the last of them counter, blob and the note of it are gone |
| `Lifetime.DamagedBlob` | main/keychain.c:504-518 | a blob that is missing or too long is erased, one too short restarts the device, and without attempts all is erased |
| `Lifetime.EraseWorks` | main/keychain.c:679-684 | an erase leaves neither counter nor blob nor a note of one |
| `Lifetime.ReencryptWorks` | main/keychain.c:637-673 | with the right key a re-encryption succeeds and leaves the payload under the new key with all attempts |
| `Lifetime.KeysSurvive` | main/keychain.c:537-635 | keys taken over, stored and loaded after switching off and on are the same without the seed |
| `Lifetime.EntropySurvives` | main/keychain.c:537-635 | so is entropy, which takes precedence over keys |
| `Lifetime.WalletStays` | main/keychain.c:495-534 | over any run of loads, clears and switching off and on: a stored wallet is there, with the attempts left that the wrong keys in a row have not used, if and only if three wrong keys in a row have never come; otherwise nothing is left of it |
| `Lifetime.RightKeyAlways` | main/keychain.c:588-635 | loaded with the right key however often, it is always restored |
| `Lifetime.GoneForGood` | main/keychain.c:495-518 | once erased, with whatever failures, nothing is checked, loaded or there before another store |
| `Lifetime.EraseIsForGood` | main/keychain.c:679-684 | and so it is after an erase in which nothing fails |
| `Keychain.Keychain.LoadAndDecryptBlob` | main/keychain.c:495-534 | state and result are those of `Attempts.LoadBlob` |
| `Keychain.Keychain.Store` | main/keychain.c:537-586 | state and result are those of `Attempts.Store` |
| `Keychain.Keychain.Load` | main/keychain.c:588-635 | state and result are those of `Attempts.Load` |
| `Keychain.Keychain.Reencrypt` | main/keychain.c:637-673 | state and result are those of `Attempts.Reencrypt` |
| `Keychain.Keychain.EraseEncrypted` | main/keychain.c:679-684 | state is that of `Attempts.EraseEncrypted` |
| `Keychain.Flash.DecrementCounter` | main/storage.c:467-482 | the lower count is in flash before the attempt, or everything is erased |
| `Keychain.Flash.SetEncryptedBlob` | main/storage.c:444-451 | the counter is renewed first, then the blob replaced |
| `Keychain.DoAll` | main/keychain.c:495-714 | any list of operations takes the device where `Attempts.Run` says |
| `Multisig.MultisigDataToBytes` | main/multisig.c:21-125 | fills exactly the macro length with the record, and fails exactly for a bad xpub, a path that is a string, or a failing HMAC |
| `Multisig.MultisigDataFromBytes` | main/multisig.c:280-363 | reads what `Multisig.ReadRecord` says of any bytes |
| `Multisig.RecordBack` | main/multisig.c:21-363 | what is written reads back, every field and signer; each key is what the library derives of the signer's stored xpub along its path, or that xpub where there is no path, and where the library derives none the record is refused |
| `Multisig.OldRecordBack` | main/multisig.c:129-150 | records of versions 0 to 2 read back with the defaults of what they lack |
| `Multisig.Refused` | main/multisig.c:291-310 | a record whose last 32 bytes are not the HMAC of the others is refused, and so is one of a version above 3 |
| `Multisig.OnlyWritten` | main/multisig.c:280-363 | whatever loads as a version 3 record is, byte by byte, what writing the data and signers read from it gives |
| `Multisig.OnlyOldWritten` | main/multisig.c:129-150 | whatever loads as an older record is its fields and keys, one after the other |
| `Multisig.Layout` | main/multisig.c:40-125 | the bytes of a record of one signer, one by one |
| `Multisig.SignerBack` | main/multisig.c:155-266 | a signer's bytes read back as the signer, whatever follows, with the key that the library derives of the xpub along the path |
| `Multisig.GetValidRecordNames` | main/multisig.c:530-560 | the names of the records that load and are of the script type asked for, in order, are at the front |
| `Multisig.KeptAre` | main/multisig.c:547-558 | every name is kept as often as it was there if it is listed, and not at all if it is not |
| `Multisig.OneTypeEach` | main/multisig.c:522-526 | every multisig variant is of exactly one of the two script types, and no other variant is of either |
| `Multisig.WrittenIsListed` | main/multisig.c:365-560 | a record that was written is listed for the script type of its variant alone, and loads with its data |
| `Descriptor.DescriptorToBytes` | main/descriptor.c:527-573 | fills exactly the macro length with the record |
| `Descriptor.DescriptorFromBytes` | main/descriptor.c:575-640 | of any bytes that its assertion admits, loads, refuses, halts or leaves its buffers as `Descriptor.ReadRecord` says |
| `Descriptor.RecordBack` | main/descriptor.c:527-640 | a record with no string longer than its buffer reads back whole if and only if every string is shorter and there are at most 15 values, and otherwise the reader leaves its buffers |
| `Descriptor.RefusedUnless` | main/descriptor.c:581-594 | a record whose last 32 bytes are not the HMAC of the others is refused, and so is one of a version above 0 |
| `Descriptor.LoadsIff` | main/descriptor.c:575-640 | bytes load as given data if and only if they end in the HMAC of the others, which are exactly what those data are written as, and all of them have their place |
| `Descriptor.Layout` | main/descriptor.c:527-573 | the bytes of a record of one value, one by one |
| `Descriptor.StraysIff` | main/descriptor.c:575-640 | exactly when the reader leaves its buffers: with fewer bytes than an HMAC has, or with an authentic record of something that does not fit |
| `Descriptor.NineBytes` | main/descriptor.c:24 | nine bytes pass the assertion, and the reader leaves them |
| `Descriptor.SixteenValues` | main/descriptor.c:615 | an authentic record of sixteen empty values makes the reader leave its buffers |
| `Descriptor.FullScript` | main/descriptor.c:600-607 | so does one with a script as long as its buffer, which is written |
| `Descriptor.StringValuesLen` | main/descriptor.c:513-524 | the length is that of all keys and values |

## Left out

- The zlib header and trailer of the decompressor (libjade/miniz.c:1442-1453, 1817-1828): raw streams only, as the compressor writes them; the checksum at the end of a call is modelled.
- `tdefl_init` with a callback for the output, null pointers and sizes (libjade/miniz.c:1086-1135, 1162-1196): the compressor always has the caller's buffer.
- The unaligned and 64-bit variants (libjade/miniz.c:507-601, 800-851, 1759-1783) are not compiled with the default macros.
- How small the output becomes as a whole, and when a block is closed before its buffer is full (libjade/miniz.c:1070-1079): the single choices are modelled, and the results hold wherever blocks end.
- With `TDEFL_NONDETERMINISTIC_PARSING_FLAG` the hash table holds anything: nothing is said then about which matches are found.
- Inflater.Inflater.Decompress: in ring mode the ring has at least 32768 bytes and is the same in every call, as libjade/miniz.h:518 asks, and whether there is a ring is the same in every call; what a smaller ring or a change does is not modelled.
- Inflater.Inflater.Decompress: of a stream that goes astray (`Points.Astray`: bits that begin no code, or in a ring a distance beyond the output) it says only that the call ends and what its output and input were.
- The cryptography, base58, BIP32 derivation and serialization are functions with laws (`Vault.Lawful`, `Vault.TellsKeys`, `Multisig.Lawful58`); that an HMAC tells keys apart is an idealization used only where a row says so.
- The random iv of an encryption is a parameter.
- The flash's own journalling: an operation has its effect or not, whatever it reports; it is never half done.
- `keychain_userdata`, the key flags and the setting of the network restriction (main/keychain.c:78-110, 212-231): they do not touch the blob or the counter.
- Keys as C structs hold fields derived from others; `Vault.ExtKey` has what is serialized.
- Multisig.MultisigDataFromBytes: that the source reads on beyond the end of an authentic record whose signers end too early (main/multisig.c:180-265) is not modelled, only that it then refuses it.
- Descriptor.DescriptorFromBytes: what is read and written outside of a buffer is not modelled, only that it comes to that; a terminator behind a full string is counted as outside, although it falls into the next field.
- `descriptor_search_for_script`, address and script generation, `multisig_get_pubkeys`, validation and export: wrappers of library calls, or easy members.
