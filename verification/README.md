# Trident IoT SDK: verified models of its tools and drivers

A Dafny project that models five parts of the repository and proves what they are for.

* **Intel HEX files.** `HexText`, `HexRecord`, `HexLoader`, `HexPrinter`, `HexRuns` and `HexFile` model the record format, the loader with its running extended address, and the two printers that `IntelHexFile` keeps: one over a map of blocks, one over a map of bytes. `HexExample` has the text of one file character by character. `MemoryImage` relates the two maps and shows when merging and patching keep them the same image. `HexRoundTrip` and `HexSaveLoad` show when a saved file loads back to the same image, and that one load and save normalises a file. `TokensPatch` carries this through to the patched output, and shows that the key text written by `public_key_json.py` is parsed back to the key.
* **ISP serial frames.** `Crc16` treats the CRC as a 16-bit shift register and shows which errors it detects: every burst of up to sixteen bits, every odd number of wrong bits, and, by `Crc16Period`, two wrong bits unless their distance is a multiple of 32767. `IspFrame` models frame construction and a receiver, and shows that a stream of frames is received as exactly the messages that were sent, and which wrong bytes on the wire it notices.
* **T32CM11 drivers.** `SpiTransmit` is the interrupt-driven SPI transmitter. `PinManager` and `PinClients` are the GPIO manager and the six drivers that reserve pins from it; `PinCalls` shows what single calls grant, leave and take away, `PinLeaks` which calls lose a pin for good, `PinAnswers` what each init answers, and `PinDrivers` are the calls as they run. `PackedRegisters` shows that the packed pin registers behave as 32 independent records. `Rtc` keeps the two event modes of the clock apart, and `RtcEvents` follows each event through every call. `AdcConversion` bounds the error of the fixed-point conversion.
* **Schedule store.** `ScheduleStore` shows that the per-user files, edited by read-modify-write, behave as a map from (user, type, slot) to schedule, with a cursor over the occupied slots.
* **Signed update container.** `OtaImage` models alignment, trailer, header and signature extraction, and a reader that recovers payload and signature.

Objects that the source updates in place are classes. Where runs are proved to keep an invariant, it is the object's `Valid()`; each method is proved against a function on values, says when it keeps the invariant and what its caller gets, and the results over several calls are lemmas about those functions. `Wrappers` and `Ascending` hold what several modules share.

## Where the code and its purpose differ

Each of these is proved, with the exact condition under which the code does what it is for and an input for which it does not.

* A block whose chunks run past a 64 KiB boundary is not loaded back, because the block printer looks at the extended address once for each block (`HexRoundTrip.LoadPrintedExact`, `HexSaveLoad.PageCrossingExample`).
* A patch that is shorter than the block at its own start truncates that block in the saved file (`MemoryImage.UpdateExact`, `HexSaveLoad.ShorterPatchTruncates`, `HexSaveLoad.TruncationExample`).
* Where data records overlap, a later record with a lower start wins in the byte view and loses in the saved file (`HexLoader.LoadAgreesExactly`, `HexLoader.OverlapExample`), and such a file may need two passes to be normalised (`HexSaveLoad.SaveLoadSave`).
* The start address of a loaded file is not written back (`HexSaveLoad.StartAddressExact`, `HexSaveLoad.StartAddressExample`).
* Stripping spaces and `0x` prefixes from a token value takes away any zero before an x, also inside a word and across a space (`TokensPatch.WordPrefixesExact`, `TokensPatch.InnerPrefixExample`).
* The SPI refill loop has an eight-bit index, so a request of more than 255 bytes hangs in the seventh interrupt (`SpiTransmit.RequestEndsExactly`, `SpiTransmit.LongRequestExample`); the busy check fails after the counter of started requests wraps, and a buffer request then loses what was pending while a single byte overtakes it (`SpiTransmit.BusyExactly`, `SpiTransmit.WrappedRequestExact`, `SpiTransmit.WrappedByteExact`, `SpiTransmit.WrapExample`, `SpiTransmit.OvertakeExample`); a transmit-only request refused for its buffer has switched receiving off (`SpiTransmit.RefusalExact`, `SpiTransmit.RefusalExample`).
* Dual-mode SPI init reports success without checking or reserving pins (`PinCalls.DualModeExact`, `PinCalls.DualModeExample`); an SPI uninit releases extra chip selects that init never reserved, and I2C, UART and GPIO uninit release pins without looking at their flag (`PinClients.UninitExact`, `PinCalls.ExtraSelectExample`, `PinCalls.SecondUninitExample`); UART and SPI inits that fail late keep their pins for good (`PinCalls.FailedInitExact`, `PinCalls.LeakIsForever`, `PinCalls.UartLeakExample`, `PinCalls.SpiLeakExample`), and a second I2C or UART init with other pins loses the first ones (`PinLeaks.ReservedIsOwned`, `PinLeaks.SecondInitExample`).
* The manager's bound test is off by one: pin 32 reaches past its table (`PinManager.PastTableExactly`).
* Setting the interrupt behaviour, or an init that fails on its own combo event, leaves a combo event set up with its interrupt off (`RtcEvents.ComboFate`, `RtcEvents.SilencedExample`), and unit events likewise, those behind the trigger at which an init stops included (`RtcEvents.UnitFate`, `RtcEvents.MutedExample`); a unit trigger call that is refused has cancelled a combo event (`RtcEvents.RefusedExact`, `RtcEvents.RefusedExample`).
* The ADC conversion divides by zero when the calibrated readings are less than a hundred apart (`AdcConversion.DividesByZeroExactly`, `AdcConversion.NarrowExample`), and its 32-bit product overflows for wide ranges (`AdcConversion.OverflowExact`, `AdcConversion.WideExample`).
* A get of schedule slot 0 for a user without schedules of that type reads before the array (`ScheduleStore.GetFirstExact`, `ScheduleStore.GetFirstExample`); modifying does not ask whether the user exists, and erasing all schedules of one type for a user that does not exist takes the other type along (`ScheduleStore.EraseAllSparesExactly`, `ScheduleStore.EraseAllExample`).
* A signature integer with a leading zero octet is encoded in fewer than 32 octets, and is then extracted wrongly (`OtaImage.ExtractKeyExact`, `OtaImage.ShortIntegerExample`).

## Model

| member | source | states |
|---|---|---|
| HexText.ParseFormat | tridentiot-sdk/tools/cmake/intel_hex_utils.py:27-54 | parsing the digits that the `{:02X}`/`{:04X}` formats print gives the number back, for every number and width |
| HexText.BytesRoundTrip | tridentiot-sdk/tools/cmake/intel_hex_utils.py:30-53 | `bytes.fromhex` of the printed data digits is the data |
| HexText.DigitsAre | tridentiot-sdk/tools/cmake/intel_hex_utils.py:27-36 | the sixteen digits have their values, in upper and in lower case, and the printer uses the upper-case ones |
| HexText.ParseLower | tridentiot-sdk/tools/cmake/intel_hex_utils.py:27-34 | a number parses to the same value in lower case |
| HexText.ToBytesLower | tridentiot-sdk/tools/cmake/intel_hex_utils.py:30-30 | so do the data digits of a line |
| HexText.ReadJoined | tridentiot-sdk/tools/cmake/intel_hex_utils.py:225-229 | reading back the written lines gives each line with its line end, whatever it holds |
| HexText.SpacesAre | tridentiot-sdk/tools/cmake/intel_hex_utils.py:22-22 | the characters that stripping takes away, by number |
| HexRecord.FromLineOf | tridentiot-sdk/tools/cmake/intel_hex_utils.py:19-41 | a line of framed octets parses exactly when they sum to zero modulo 256, and then to the record they spell; a line end changes nothing |
| HexRecord.EncodedSumsToZero | tridentiot-sdk/tools/cmake/intel_hex_utils.py:43-47 | all octets of a printed record, checksum included, sum to zero modulo 256 |
| HexRecord.RecordRoundTrip | tridentiot-sdk/tools/cmake/intel_hex_utils.py:19-54 | parsing a printed record, with or without its line end, gives the record |
| HexRecord.AlteredOctetRejected | tridentiot-sdk/tools/cmake/intel_hex_utils.py:34-39 | changing any one octet after the byte count (address, type, data or checksum) makes the parser reject the line |
| HexRecord.FromLineLower | tridentiot-sdk/tools/cmake/intel_hex_utils.py:19-41 | a line in lower case gives the same record, or the same error |
| HexLoader.StripTwice | tridentiot-sdk/tools/cmake/intel_hex_utils.py:22-22 | stripping a line that the loader has already stripped changes nothing, so skipping a line before parsing it is the same as failing to parse it |
| HexLoader.ApplyDataAt | tridentiot-sdk/tools/cmake/intel_hex_utils.py:86-93 | a data record's octets land at consecutive addresses from the extended base, without wrapping at a 64 KiB page |
| HexLoader.ApplyAllDone | tridentiot-sdk/tools/cmake/intel_hex_utils.py:99-100 | nothing after an End of File record has any effect |
| HexLoader.KindsDecide | tridentiot-sdk/tools/cmake/intel_hex_utils.py:86-109 | the record types by number: 0 stores data, 1 ends, 2 and 4 set the extended address by sixteens and by 64 KiB, 5 sets the start address, any other is ignored |
| HexLoader.BigEndianFour | tridentiot-sdk/tools/cmake/intel_hex_utils.py:102-109 | address fields are read high octet first |
| HexLoader.LoadLower | tridentiot-sdk/tools/cmake/intel_hex_utils.py:70-113 | a file in lower case loads to the same contents |
| HexLoader.LoadIsCoherent | tridentiot-sdk/tools/cmake/intel_hex_utils.py:86-97 | when no data record overlaps a block stored before it, both views after loading hold the same image in disjoint non-empty blocks, whatever other lines there are |
| HexLoader.LoadedViews | tridentiot-sdk/tools/cmake/intel_hex_utils.py:86-97 | both views after loading, in terms of the blocks that the records store one after the other |
| HexLoader.LoadAgreesExactly | tridentiot-sdk/tools/cmake/intel_hex_utils.py:86-97 | for any records, overlapping or not, loading leaves both views the same image exactly when the records keep the order of the starts: where the last block to write an address is not the kept block with the greatest start, the latter has the same byte |
| HexLoader.OverlapExample | tridentiot-sdk/tools/cmake/intel_hex_utils.py:86-97 | a record at address 1 followed by a longer one at address 0 is such a case |
| HexFile.IntelHexFile.StoreBytes | tridentiot-sdk/tools/cmake/intel_hex_utils.py:90-93 | the byte loop stores the bytes at consecutive addresses |
| HexFile.IntelHexFile.LoadRecord | tridentiot-sdk/tools/cmake/intel_hex_utils.py:86-109 | one record changes byte map, block map, base and start address as its type says |
| HexFile.IntelHexFile.Load | tridentiot-sdk/tools/cmake/intel_hex_utils.py:70-113 | loading a text, on top of what the object holds, applies the records of its lines up to the End of File record and skips the lines that do not parse |
| HexFile.LoadStops | tridentiot-sdk/tools/cmake/intel_hex_utils.py:99-100 | leaving the loop at the End of File record gives the same as reading every line |
| MemoryImage.WriteAt | tridentiot-sdk/tools/cmake/intel_hex_utils.py:128-129 | reading an address after storing bytes: the stored byte inside the range, the old one outside |
| MemoryImage.FlattenTop | tridentiot-sdk/tools/cmake/intel_hex_utils.py:138-149 | among overlapping blocks the one that starts last, and is printed last, decides the byte |
| MemoryImage.FlattenDomain | tridentiot-sdk/tools/cmake/intel_hex_utils.py:138-149 | an address is in the byte view exactly when some block holds it |
| MemoryImage.MergeExact | tridentiot-sdk/tools/cmake/intel_hex_utils.py:115-123 | for disjoint block maps, updating one with the other updates the byte view exactly when every replaced byte is covered and every later-starting kept block agrees |
| MemoryImage.UpdateExact | tridentiot-sdk/tools/cmake/intel_hex_utils.py:125-132 | the same for one block put in at an address |
| MemoryImage.ViewsAgreeExactly | tridentiot-sdk/tools/cmake/intel_hex_utils.py:125-132 | storing any blocks one after the other gives two views of the same image exactly when the order of the starts does not contradict the order of the storing |
| MemoryImage.ItemsOfBlockMap | tridentiot-sdk/tools/cmake/intel_hex_utils.py:138-141 | listing the map of an ascending block list in key order gives the list back |
| Ascending.Sorted | tridentiot-sdk/tools/cmake/intel_hex_utils.py:138-138 | `sorted` of a key set is strictly ascending and lists exactly the keys |
| Ascending.SortedUnique | tridentiot-sdk/tools/cmake/intel_hex_utils.py:170-170 | there is only one ascending listing of a key set, so both printers see the same order |
| HexPrinter.RecordsOfText | tridentiot-sdk/tools/cmake/intel_hex_utils.py:225-229 | a text of printed records is read back as exactly those records |
| HexPrinter.LoadPrinted | tridentiot-sdk/tools/cmake/intel_hex_utils.py:134-165 | whatever the blocks, overlapping or crossing pages, loading their printed records stores exactly the chunks, each at its page base plus low sixteen address bits |
| HexPrinter.PrintedStores | tridentiot-sdk/tools/cmake/intel_hex_utils.py:134-165 | the printed records store exactly the placed chunks, in order, so printing the same records means placing the same chunks |
| HexRoundTrip.BaseIsPage | tridentiot-sdk/tools/cmake/intel_hex_utils.py:143-153 | for ascending blocks below 2^32 the base in force while a block is loaded is its own page |
| HexRoundTrip.LoadPrintedInPage | tridentiot-sdk/tools/cmake/intel_hex_utils.py:134-165 | ascending blocks whose chunks stay in their page load back byte for byte, overlaps included |
| HexRoundTrip.LoadPrintedExact | tridentiot-sdk/tools/cmake/intel_hex_utils.py:134-165 | for disjoint non-empty blocks the reload is exact if and only if every chunk starts in the page where its block starts, below 2^32 |
| HexRoundTrip.PrintIsFixedPoint | tridentiot-sdk/tools/cmake/intel_hex_utils.py:134-165 | for non-empty blocks in their pages, overlapping or not, printing, loading and printing again gives the same records exactly when every block starts behind the start of the last chunk of each block before it |
| HexRoundTrip.SecondPrintIsFixedPoint | tridentiot-sdk/tools/cmake/intel_hex_utils.py:134-165 | the second printing is a fixed point in any case |
| HexRuns.RunProgress | tridentiot-sdk/tools/cmake/intel_hex_utils.py:188-206 | every run takes at least one address, so the grouping loop always advances |
| HexRuns.RunsAreRuns | tridentiot-sdk/tools/cmake/intel_hex_utils.py:188-206 | every run is a slice of the map of at most sixteen bytes inside one 64 KiB page |
| HexRuns.BytePrinterExact | tridentiot-sdk/tools/cmake/intel_hex_utils.py:167-206 | byte printer then loader is the identity on exactly the maps with every address below 2^32 |
| HexRuns.PrintersAgree | tridentiot-sdk/tools/cmake/intel_hex_utils.py:134-206 | for blocks in their pages and the byte map they flatten to, both printers' records load to the same image |
| HexFile.IntelHexFile.Emit | tridentiot-sdk/tools/cmake/intel_hex_utils.py:153-153 | appending a record's line |
| HexFile.IntelHexFile.EmitPage | tridentiot-sdk/tools/cmake/intel_hex_utils.py:146-154 | an Extended Linear Address line exactly when the page changes and is not page zero |
| HexFile.IntelHexFile.EmitChunks | tridentiot-sdk/tools/cmake/intel_hex_utils.py:156-163 | the chunk loop prints the block in pieces of sixteen, the last one shorter |
| HexFile.IntelHexFile.MemoryBlockLines | tridentiot-sdk/tools/cmake/intel_hex_utils.py:134-165 | the block printer's lines are those of the printed records of the blocks in address order |
| HexFile.IntelHexFile.GatherRun | tridentiot-sdk/tools/cmake/intel_hex_utils.py:190-199 | the inner loop gathers the longest run allowed from its first address |
| HexFile.IntelHexFile.EmitRun | tridentiot-sdk/tools/cmake/intel_hex_utils.py:175-204 | one turn of the outer loop: page line if due, one record for the run |
| HexFile.IntelHexFile.RunLines | tridentiot-sdk/tools/cmake/intel_hex_utils.py:167-206 | the outer loop prints all runs of the sorted addresses |
| HexFile.IntelHexFile.IndividualByteLines | tridentiot-sdk/tools/cmake/intel_hex_utils.py:167-206 | the byte printer's lines are those of the printed records of all runs |
| HexFile.IntelHexFile.Save | tridentiot-sdk/tools/cmake/intel_hex_utils.py:208-229 | nothing for an empty object, else block form when there are blocks and byte form otherwise, then the End of File record |
| HexFile.IntelHexFile.MergeWith | tridentiot-sdk/tools/cmake/intel_hex_utils.py:115-123 | the other file wins at every address it holds; if both files had agreeing views in disjoint blocks, the merged views agree exactly when the block maps conserve the image |
| HexFile.IntelHexFile.AddDataAtAddress | tridentiot-sdk/tools/cmake/intel_hex_utils.py:125-132 | the bytes go to the byte map and, whole, to the block map; for agreeing views in disjoint blocks they still agree exactly when the block map conserves the image |
| HexFile.IntelHexFile.SetMemory | tridentiot-sdk/tools/cmake/intel_hex_utils.py:235-242 | the block map is taken over and the byte map rebuilt from it in dictionary order, the later block winning |
| HexSaveLoad.SaveLoadExact | tridentiot-sdk/tools/cmake/intel_hex_utils.py:70-165 | for a coherent file with blocks, loading the saved text gives back its bytes if and only if every block stays in its page below 2^32 |
| HexSaveLoad.SaveLoadBytesExact | tridentiot-sdk/tools/cmake/intel_hex_utils.py:70-229 | for a file without blocks, if and only if every address is below 2^32 |
| HexSaveLoad.SaveLoadSave | tridentiot-sdk/tools/cmake/intel_hex_utils.py:70-165 | for any non-empty blocks in their pages, overlapping or not, saving what was loaded from a saved text writes the same text exactly when the chunks are in order, as those of disjoint blocks always are |
| HexSaveLoad.SaveLoadAgrees | tridentiot-sdk/tools/cmake/intel_hex_utils.py:70-165 | for any blocks in their pages, loading the saved text gives back the byte view if and only if the two views agree |
| HexSaveLoad.SecondPassNormalises | tridentiot-sdk/tools/cmake/intel_hex_utils.py:70-165 | the second load and save repeats the first in any case |
| HexSaveLoad.LoadSaveNormalises | tridentiot-sdk/tools/cmake/intel_hex_utils.py:70-229 | for any text whose blocks stay in their pages: the first save keeps the bytes exactly when the records keep the order of the starts, the next load and save repeats it exactly when the chunks are in order, and the one after that in any case |
| HexSaveLoad.ClearTextNormalises | tridentiot-sdk/tools/cmake/intel_hex_utils.py:70-229 | data records that do not overlap meet both conditions |
| HexSaveLoad.ShorterPatchTruncates | tridentiot-sdk/tools/cmake/intel_hex_utils.py:125-132 | a patch shorter than the block at its own start loses the rest of that block from the saved file while the byte map still has it |
| HexSaveLoad.TruncationExample | tridentiot-sdk/tools/cmake/intel_hex_utils.py:125-132 | a two-byte file whose first byte is patched is such a case |
| HexSaveLoad.StartAddressExact | tridentiot-sdk/tools/cmake/intel_hex_utils.py:70-229 | a save writes no start address, so it survives a save and a load exactly when it is zero |
| HexSaveLoad.StartAddressExample | tridentiot-sdk/tools/cmake/intel_hex_utils.py:70-229 | a two-byte file with start address five loses it |
| HexSaveLoad.PageCrossingExample | tridentiot-sdk/tools/cmake/intel_hex_utils.py:134-165 | a block of 32 bytes at 0xFFF0 is not loaded back as it was |
| HexExample.SavedTextExample | tridentiot-sdk/tools/cmake/intel_hex_utils.py:134-229 | the text of a one-byte file above the first page, character by character |
| TokensPatch.KeyTextRoundTrip | tridentiot-sdk/tools/cmake/public_key_json.py:18-20 | parsing as hex the key text that the JSON writer prints gives the key bytes, for every byte string |
| TokensPatch.StrippedExactly | tridentiot-sdk/tools/cmake/tokens_patch.py:85-90 | removing the prefixes leaves a text alone exactly when no zero in it stands before an x |
| TokensPatch.WordPrefixesExact | tridentiot-sdk/tools/cmake/tokens_patch.py:85-90 | dropping spaces and prefixes leaves the words of a value, each less one prefix in front, exactly when no zero stands before an x elsewhere, be it across spaces |
| TokensPatch.PrefixedRoundTrip | tridentiot-sdk/tools/cmake/tokens_patch.py:85-90 | bytes printed as words that each carry their own prefix are parsed to the bytes |
| TokensPatch.InnerPrefixExample | tridentiot-sdk/tools/cmake/tokens_patch.py:85-90 | the values 10x5 and 10 x5 are not refused but read as the byte 0x15 |
| TokensPatch.AsciiExact | tridentiot-sdk/tools/cmake/tokens_patch.py:99-101 | an ASCII token has one byte for each character and is refused exactly when some character is not ASCII |
| TokensPatch.IntTokenExact | tridentiot-sdk/tools/cmake/tokens_patch.py:92-97 | a decimal number is one byte up to 255 and refused above |
| TokensPatch.SignedIntToken | tridentiot-sdk/tools/cmake/tokens_patch.py:92-97 | a plus sign changes nothing, and with a minus sign only zero is accepted |
| TokensPatch.HexIntParsed | tridentiot-sdk/tools/cmake/tokens_patch.py:75-77 | an address or size printed in hex with its prefix is read back |
| TokensPatch.LowerHexIntParsed | tridentiot-sdk/framework/common/tokens/generator/token_json_gen.py:271-275 | so is one in lower case, as the token generator writes them |
| TokensPatch.HexIntLower | tridentiot-sdk/tools/cmake/tokens_patch.py:75-77 | the case of the digits and of the prefix does not matter |
| TokensPatch.TokenAddressExample | tridentiot-sdk/tools/tokens/T32CZ20B_mfg_token_def.json:15-15 | the token address 0x100fe02a is read as that number |
| TokensPatch.HexValueLower | tridentiot-sdk/tools/cmake/tokens_patch.py:85-90 | a hex value in lower case gives the same bytes, and one with a capital X is refused |
| TokensPatch.DefinitionResolves | tridentiot-sdk/tools/cmake/tokens_patch.py:65-80 | address and size of a definition are what its two texts say: the value goes to the address if it is not longer than the size |
| TokensPatch.OtherKindRefused | tridentiot-sdk/tools/cmake/tokens_patch.py:103-105 | a value type that is none of the three is refused |
| TokensPatch.ResolvedInOrder | tridentiot-sdk/tools/cmake/tokens_patch.py:173-188 | every value that has a definition gives one block, its own, in file order |
| TokensPatch.RejectedExactly | tridentiot-sdk/tools/cmake/tokens_patch.py:173-188 | a run is rejected exactly when some token that has a definition does not resolve (address, size, value, or value longer than the size) |
| TokensPatch.PatchMultipleTokens | tridentiot-sdk/tools/cmake/tokens_patch.py:159-210 | the loop patches the resolved tokens in order, skips undefined names, writes nothing after an error, is rejected exactly when some defined token does not resolve, and else writes a file unless it patched nothing |
| TokensPatch.PatchHexFile | tridentiot-sdk/tools/cmake/tokens_patch.py:117-156 | the single patch, refused exactly for a token value longer than the token, and else written |
| TokensPatch.PatchedLoadsExactly | tridentiot-sdk/tools/cmake/tokens_patch.py:159-210 | for disjoint tokens and blocks in their pages, loading the patched output gives the token bytes over the original image exactly when the block maps conserve it |
| TokensPatch.PatchedLoadsAlways | tridentiot-sdk/tools/cmake/tokens_patch.py:159-210 | for any tokens, overlapping or not, over any file whose views agree, with blocks in their pages: loading the patched output gives the token bytes over the original image exactly when the tokens keep the order of the starts |
| TokensPatch.FittingConserves | tridentiot-sdk/tools/cmake/tokens_patch.py:159-210 | tokens that keep clear of every block or replace one of equal start and length meet that condition |
| TokensPatch.PatchedBytes | tridentiot-sdk/tools/cmake/tokens_patch.py:159-210 | for such tokens every token byte is at its address and every other address holds its original byte, or none |
| Crc16.CalculateCrc16 | tridentiot-sdk/z-wave/tools/isp_tool.py:81-91 | the nested loops compute the specified remainder |
| Crc16.FeedBytesIsBits | tridentiot-sdk/z-wave/tools/isp_tool.py:84-90 | the byte-wise form equals feeding the message's bits one by one, most significant first |
| Crc16.FeedBitsInjective | tridentiot-sdk/z-wave/tools/isp_tool.py:86-90 | two different register values stay different whatever equal bits follow |
| Crc16.BurstDetected | tridentiot-sdk/z-wave/tools/isp_tool.py:81-91 | any change confined to sixteen consecutive bits, at any bit position, changes the remainder |
| Crc16.OddDetected | tridentiot-sdk/z-wave/tools/isp_tool.py:81-91 | any odd number of changed bits changes the remainder |
| Crc16.ErrorsDetected | tridentiot-sdk/z-wave/tools/isp_tool.py:81-91 | both results for messages as byte strings |
| Crc16.AdjacentBytesDetected | tridentiot-sdk/z-wave/tools/isp_tool.py:81-91 | two messages that differ only within two adjacent bytes have different CRCs |
| Crc16.ResidueExact | tridentiot-sdk/z-wave/tools/isp_tool.py:118-119 | the remainder of a message and two more bytes is zero exactly when those are its big-endian CRC |
| Crc16.CheckValue | tridentiot-sdk/z-wave/tools/isp_tool.py:81-91 | the CRC of the text 123456789 is 0x29B1, the check value of CRC-16/CCITT-FALSE |
| Crc16Period.PeriodExact | tridentiot-sdk/z-wave/tools/isp_tool.py:86-90 | the shifted register returns after multiples of 32767 steps and never sooner |
| Crc16Period.TwoBitsExact | tridentiot-sdk/z-wave/tools/isp_tool.py:81-91 | two wrong bits go unnoticed exactly when their distance is a multiple of 32767 |
| Crc16Period.TwoBitsDetected | tridentiot-sdk/z-wave/tools/isp_tool.py:81-91 | the same for messages of bytes; up to 4095 bytes any two wrong bits are detected |
| IspFrame.ChecksumCloses | tridentiot-sdk/z-wave/tools/isp_tool.py:59-63 | adding the checksum to the summed bytes gives 255 modulo 256 |
| IspFrame.LengthBigEndian | tridentiot-sdk/z-wave/tools/isp_tool.py:113-114 | the two length bytes are the command length, high byte first |
| IspFrame.CalculateChecksum | tridentiot-sdk/z-wave/tools/isp_tool.py:59-63 | the loop computes the complement of the byte sum |
| IspFrame.EncodeIspCmd | tridentiot-sdk/z-wave/tools/isp_tool.py:94-109 | the loop escapes every byte but the first and wraps the result in END bytes |
| IspFrame.CreateIspFrame | tridentiot-sdk/z-wave/tools/isp_tool.py:112-121 | header, checksum, command, CRC and stuffing; a sequence number above 255 or a command of 65536 bytes or more is an error |
| IspFrame.FrameExample | tridentiot-sdk/z-wave/tools/isp_tool.py:112-121 | the octets of one frame whose command is the two bytes that need an escape |
| IspFrame.StuffHidesEnd | tridentiot-sdk/z-wave/tools/isp_tool.py:97-104 | no END byte is left inside a stuffed frame |
| IspFrame.UnstuffExactly | tridentiot-sdk/z-wave/tools/isp_tool.py:97-104 | un-stuffing succeeds on exactly the stuffed strings and inverts the stuffing |
| IspFrame.ParsePlain | tridentiot-sdk/z-wave/tools/isp_tool.py:112-120 | a receiver that verifies header, checksum, length and CRC accepts every built frame and reads its sequence number and command |
| IspFrame.FrameReceived | tridentiot-sdk/z-wave/tools/isp_tool.py:94-121 | in front of any further bytes, a frame is split off and received as its message |
| IspFrame.StreamDecodes | tridentiot-sdk/z-wave/tools/isp_tool.py:94-121 | from the frames of any messages, one after the other, the receiver gets exactly those messages in order |
| IspFrame.CorruptedRejected | tridentiot-sdk/z-wave/tools/isp_tool.py:112-120 | a frame that, before stuffing, is changed within sixteen consecutive bits, or in an odd number of bits, is not accepted as any message |
| IspFrame.WireByteRejected | tridentiot-sdk/z-wave/tools/isp_tool.py:94-121 | one ordinary byte on the wire that arrives as another ordinary byte makes the frame rejected, wherever it stands |
| IspFrame.CutRejected | tridentiot-sdk/z-wave/tools/isp_tool.py:94-121 | where a byte on the wire arrives as END, the part of the frame in front of it is rejected |
| IspFrame.WrongLengthRejected | tridentiot-sdk/z-wave/tools/isp_tool.py:112-120 | with its first four bytes as sent, a frame of a wrong number of bytes is rejected |
| IspFrame.AnyWireByteRejected | tridentiot-sdk/z-wave/tools/isp_tool.py:94-121 | any one byte of the wire form, escape pairs included, that arrives as another: as END it cuts the frame and the part in front is rejected, as anything else the frame is rejected, unless an ESC came or went within the first four bytes of the frame |
| IspFrame.ErrorStaysInFrame | tridentiot-sdk/z-wave/tools/isp_tool.py:94-121 | such a frame is received as one rejected piece, and whatever follows it is received as without the error |
| SpiTransmit.Driver.constructor | tridentiot-sdk/framework/hal/T32CM11/tr_hal_spi.c:497-506 | the transmit state after init: idle, nothing remaining, both counters zero, and the invariant holds |
| SpiTransmit.Driver.CheckReadyForTx | tridentiot-sdk/framework/hal/T32CM11/tr_hal_spi.c:78-106 | under the invariant, and unless the counter has wrapped, the check changes nothing and answers busy exactly while a request is active |
| SpiTransmit.Driver.RawTxOneByte | tridentiot-sdk/framework/hal/T32CM11/tr_hal_spi.c:979-1039 | each verdict of the one-byte call by its own condition, and its whole new state: an accepted call selects exactly the peripheral of the given index, sets AUX control, flag and counter, a refused one none of these; the invariant is kept, and the byte joins what was written and pending exactly if it was accepted |
| SpiTransmit.Driver.CopyToBuffer | tridentiot-sdk/framework/hal/T32CM11/tr_hal_spi.c:1109-1111 | the request is copied to the start of the saved buffer |
| SpiTransmit.Driver.RawTxBuffer | tridentiot-sdk/framework/hal/T32CM11/tr_hal_spi.c:1045-1156 | the same for the buffer call, with its two buffer verdicts; it switches receiving off before those can fail |
| SpiTransmit.Driver.StartTransmit | tridentiot-sdk/framework/hal/T32CM11/tr_hal_spi.c:1093-1153 | copy, chip select, active flag and counter, the first FIFO filling, sent and remaining |
| SpiTransmit.Driver.WriteFifo | tridentiot-sdk/framework/hal/T32CM11/tr_hal_spi.c:1130-1135 | the loop writes the first bytes in order |
| SpiTransmit.Driver.TxMoreBytes | tridentiot-sdk/framework/hal/T32CM11/tr_hal_spi.c:2164-2208 | the refill writes the next bytes of the buffer and moves the counters, unless its loop would never end |
| SpiTransmit.Driver.HandleTxEmpty | tridentiot-sdk/framework/hal/T32CM11/tr_hal_spi.c:1886-1920 | refill while bytes remain, else go idle, count the request as finished and restore the AUX control; the selected peripheral stays, and written and pending bytes stay the same sequence |
| SpiTransmit.SelectedBit | tridentiot-sdk/framework/hal/T32CM11/T32CM11_spi.h:369-372 | on a controller the peripheral register then holds the bit of the index, and no other |
| SpiTransmit.TxBufferVerdict | tridentiot-sdk/framework/hal/T32CM11/tr_hal_spi.c:1045-1106 | the verdicts of the buffer call, each by its own condition |
| SpiTransmit.RefillStops | tridentiot-sdk/framework/hal/T32CM11/tr_hal_spi.c:2195-2199 | the loop with the eight-bit index reaches its end exactly when the end is at most 255 |
| SpiTransmit.HangsExactly | tridentiot-sdk/framework/hal/T32CM11/tr_hal_spi.c:2195-2199 | a refill hangs exactly when its loop index never reaches the end |
| SpiTransmit.BusyExactly | tridentiot-sdk/framework/hal/T32CM11/tr_hal_spi.c:92-103 | an active transmitter refuses requests exactly while the counter of started requests has not just wrapped to zero |
| SpiTransmit.StepConserves | tridentiot-sdk/framework/hal/T32CM11/tr_hal_spi.c:979-1156 | every call and interrupt keeps started one ahead of finished while active, writes at most 32 bytes, and conserves written plus pending plus newly accepted bytes |
| SpiTransmit.RunConserves | tridentiot-sdk/framework/hal/T32CM11/tr_hal_spi.c:979-1156 | over every run, of whatever length, of short requests and interrupts, in which no request is made at a counter wrapped to zero under an active one: what was written followed by what is pending is exactly what was accepted, in order and once each, and no interrupt hangs |
| SpiTransmit.FewNeverWrap | tridentiot-sdk/framework/hal/T32CM11/tr_hal_spi.c:1115-1125 | fewer than 2^32 events never wrap the counter |
| SpiTransmit.WrappedRequestExact | tridentiot-sdk/framework/hal/T32CM11/tr_hal_spi.c:92-103 | a buffer request that slips past the busy check at the wrapped counter loses exactly what was pending, so it conserves the bytes exactly when nothing was |
| SpiTransmit.WrappedByteExact | tridentiot-sdk/framework/hal/T32CM11/tr_hal_spi.c:979-1039 | a single byte that slips past it loses nothing but is written in front of what is pending, so it conserves the order exactly when all of that is the same byte |
| SpiTransmit.OvertakeExample | tridentiot-sdk/framework/hal/T32CM11/tr_hal_spi.c:979-1039 | at the wrapped counter a request of 33 bytes leaves one pending, and the byte sent next overtakes it |
| SpiTransmit.WrapExample | tridentiot-sdk/framework/hal/T32CM11/tr_hal_spi.c:92-103 | after 2^32 - 1 finished requests from init the next one leaves the busy check open |
| SpiTransmit.RequestRuns | tridentiot-sdk/framework/hal/T32CM11/tr_hal_spi.c:1886-1925 | after k interrupts exactly the first 32(k+1) bytes are written, sent plus remaining is the request, and the transmitter goes idle with the last FIFO filling and not before |
| SpiTransmit.RequestEndsExactly | tridentiot-sdk/framework/hal/T32CM11/tr_hal_spi.c:2164-2208 | an accepted request ends exactly when it has at most 255 bytes; a longer one hangs in the seventh interrupt |
| SpiTransmit.LongRequestExample | tridentiot-sdk/framework/hal/T32CM11/tr_hal_spi.c:2164-2208 | a request of 256 bytes is accepted after init and hangs in the seventh interrupt |
| SpiTransmit.RefusalExact | tridentiot-sdk/framework/hal/T32CM11/tr_hal_spi.c:1081-1106 | a refused request leaves the driver as it was, except exactly when it is refused for its buffer without wanting to receive, or the busy check clears the flag of a wrapped request |
| SpiTransmit.SuppressionStays | tridentiot-sdk/framework/hal/T32CM11/tr_hal_spi.c:1097-1106 | receiving then stays off until the transmitter goes idle: no call that wants to receive, and no refill, touches the AUX control |
| SpiTransmit.RefusalExample | tridentiot-sdk/framework/hal/T32CM11/tr_hal_spi.c:1081-1106 | a refused request of 33 bytes makes the next request, which wants to receive, run with receiving off |
| PinManager.Manager.Init | tridentiot-sdk/framework/hal/T32CM11/tr_hal_gpio.c:1470-1503 | filling the table on first use does not change what it says |
| PinManager.Manager.ReserveGpio | tridentiot-sdk/framework/hal/T32CM11/tr_hal_gpio.c:1509-1539 | verdict and new table of a reservation by number, pin 32 reaching past the table: no other pin changes, and the missing pins stay the only unavailable ones exactly unless a pin is reserved as unavailable |
| PinManager.Manager.ReleaseGpio | tridentiot-sdk/framework/hal/T32CM11/tr_hal_gpio.c:1545-1567 | verdict and new table of a release by number, pin 32 reaching past the table: no other pin changes, and it succeeds exactly for the pins that are brought out |
| PinManager.Manager.CheckGpio | tridentiot-sdk/framework/hal/T32CM11/tr_hal_gpio.c:1573-1589 | verdict of a check, which changes nothing; pin 32 passes the bound test and reaches past the table |
| PinManager.PastTableExactly | tridentiot-sdk/framework/hal/T32CM11/tr_hal_gpio.c:1509-1589 | of all pins exactly pin 32 passes the bound tests and reaches past the table, whether it is checked, released or, with a tag the manager takes, reserved |
| PinManager.InitialExact | tridentiot-sdk/framework/hal/T32CM11/tr_hal_gpio.c:1479-1499 | before any reservation exactly the 22 pins that are brought out are free |
| PinManager.ReserveAllShape | tridentiot-sdk/framework/hal/T32CM11/tr_hal_gpio.c:1509-1539 | reservations never make a missing pin available nor any other pin unavailable |
| PinManager.ReleaseReserved | tridentiot-sdk/framework/hal/T32CM11/tr_hal_gpio.c:1509-1567 | releasing what was reserved while free gives the table back |
| PinDrivers.Drivers.SetStandardPins | tridentiot-sdk/framework/hal/T32CM11/tr_hal_spi.c:1611-1698 | pins are checked for validity and use before the first is reserved, then all four are reserved |
| PinDrivers.Drivers.SpiInit | tridentiot-sdk/framework/hal/T32CM11/tr_hal_spi.c:219-553 | outcome (by the driver's own table of pins and order of checks) and state of an SPI init, the late DMA failure and the dual-mode gap included; success in normal mode gives it exactly the named pins, all free before, a failure leaves everything as it was unless late, and the invariant is kept outside dual mode |
| PinDrivers.Drivers.SpiUninit | tridentiot-sdk/framework/hal/T32CM11/tr_hal_spi.c:561-643 | four pins and the extra chip selects are freed when initialised; the invariant is kept exactly when none of them belongs to another driver |
| PinDrivers.Drivers.I2cInit | tridentiot-sdk/framework/hal/T32CM11/tr_hal_i2c.c:40-285 | outcome and state of an I2C init, which does not look at its flag; success gives it exactly the named pins, a failure leaves everything as it was |
| PinDrivers.Drivers.I2cUninit | tridentiot-sdk/framework/hal/T32CM11/tr_hal_i2c.c:292-331 | exactly the saved pins are freed, whether or not the driver is initialised; the invariant is kept exactly when none of them belongs to another driver |
| PinDrivers.Drivers.UartInit | tridentiot-sdk/framework/hal/T32CM11/tr_hal_uart.c:197-489 | outcome and state of a UART init: success gives it exactly the named pins, and a failure leaves everything as it was unless TX and RX were reserved before the flow control pins were looked at |
| PinDrivers.Drivers.UartUninit | tridentiot-sdk/framework/hal/T32CM11/tr_hal_uart.c:498-524 | exactly the saved pins are freed even when the status complains; the invariant is kept exactly when none of them belongs to another driver; an id behind the last UART reaches past the settings |
| PinDrivers.Drivers.PwmInit | tridentiot-sdk/framework/hal/T32CM11/tr_hal_pwm.c:43-391 | outcome and state of a PWM init: success gives it exactly its pin, a failure leaves everything as it was |
| PinDrivers.Drivers.PwmUninit | tridentiot-sdk/framework/hal/T32CM11/tr_hal_pwm.c:397-427 | exactly its pin is freed when initialised; an id behind the last PWM reaches past the flags |
| PinDrivers.Drivers.AdcInit | tridentiot-sdk/framework/hal/T32CM11/tr_hal_adc.c:42-642 | outcome and state of an ADC init with its optional second pin: success gives it exactly the named pins, a failure leaves everything as it was |
| PinDrivers.Drivers.AdcUninit | tridentiot-sdk/framework/hal/T32CM11/tr_hal_adc.c:665-710 | exactly its pins are freed when initialised |
| PinDrivers.Drivers.GpioInit | tridentiot-sdk/framework/hal/T32CM11/tr_hal_gpio.c:122-215 | outcome and state of a plain GPIO init, pin 32 included: success gives it exactly its pin, a failure leaves everything as it was |
| PinDrivers.Drivers.GpioUninit | tridentiot-sdk/framework/hal/T32CM11/tr_hal_gpio.c:227-257 | the pin is freed whoever holds it; the invariant is kept exactly when that is no other driver |
| PinAnswers.InitAnswersSo | tridentiot-sdk/framework/hal/T32CM11/tr_hal_spi.c:219-553 | what every init of the six drivers answers: which pins each takes, by number, and which check decides first, a busy pin being told by its tag |
| PinAnswers.TagsAre | tridentiot-sdk/framework/hal/T32CM11/tr_hal_gpio.c:1479-1499 | the tags and the number of pins by value |
| PinClients.InitKeeps | tridentiot-sdk/framework/hal/T32CM11/tr_hal_uart.c:301-380 | every init call, successful or not, keeps each initialised driver's pins reserved for it alone, SPI in dual mode excepted |
| PinCalls.DualModeExact | tridentiot-sdk/framework/hal/T32CM11/tr_hal_spi.c:310-314 | a dual-mode init keeps that exactly when its pins happen to be marked for SPI and belong to nobody |
| PinCalls.DualModeExample | tridentiot-sdk/framework/hal/T32CM11/tr_hal_spi.c:310-314 | after reset it records pins that stay available |
| PinClients.UninitExact | tridentiot-sdk/framework/hal/T32CM11/tr_hal_spi.c:590-622 | an uninit call keeps it exactly when it releases no pin of another initialised driver |
| PinCalls.SecondUninitExample | tridentiot-sdk/framework/hal/T32CM11/tr_hal_i2c.c:292-331 | after reset, a second I2C uninit frees the pin that a PWM was given in between |
| PinCalls.ExtraSelectExample | tridentiot-sdk/framework/hal/T32CM11/tr_hal_spi.c:590-622 | an SPI uninit frees an extra chip select that a PWM was given meanwhile |
| PinClients.PinsOwnedOnce | tridentiot-sdk/framework/hal/T32CM11/tr_hal_gpio.c:1470-1589 | over every disciplined run from reset no pin is recorded by two initialised drivers, each recorded pin carries its driver's tag, and the missing pins are never given out |
| PinCalls.SharedPinRefused | tridentiot-sdk/framework/hal/T32CM11/tr_hal_gpio.c:1531-1534 | two requests that name a common pin cannot both succeed, whatever the drivers |
| PinCalls.InitUninit | tridentiot-sdk/framework/hal/T32CM11/tr_hal_spi.c:1611-1698 | a successful init followed by its uninit leaves the pin table as it was, for every driver |
| PinCalls.InitGrants | tridentiot-sdk/framework/hal/T32CM11/tr_hal_spi.c:1611-1698 | a successful init of any driver gives it exactly the pins it names, all of them free before, and changes no other pin and no other driver |
| PinCalls.UninitFrees | tridentiot-sdk/framework/hal/T32CM11/tr_hal_spi.c:590-622 | an uninit frees exactly the pins it releases, missing pins excepted |
| PinCalls.FailedInitExact | tridentiot-sdk/framework/hal/T32CM11/tr_hal_uart.c:334-356 | a failed init of any of the six drivers leaves everything as it was, with exactly two exceptions: a UART init past its TX and RX checks with flow control, and an SPI init past its pin checks |
| PinCalls.FailedInitLeaks | tridentiot-sdk/framework/hal/T32CM11/tr_hal_uart.c:334-356 | in those cases every such pin stays reserved under the tag of a driver that does not own it |
| PinCalls.LeakIsForever | tridentiot-sdk/framework/hal/T32CM11/tr_hal_uart.c:334-356 | over every disciplined run that follows, no driver can ever have such a pin |
| PinLeaks.StepExact | tridentiot-sdk/framework/hal/T32CM11/tr_hal_uart.c:301-478 | where every reserved pin has an owner, a call of a disciplined program keeps it so exactly when it is an uninit, an init that fails before it has reserved anything, or a successful init of a driver that was not initialised |
| PinLeaks.ReservedIsOwned | tridentiot-sdk/framework/hal/T32CM11/tr_hal_uart.c:301-478 | over every disciplined run from reset the reserved pins are exactly those of the initialised drivers if and only if every call of the run was one of these |
| PinLeaks.SecondInitExample | tridentiot-sdk/framework/hal/T32CM11/tr_hal_i2c.c:221-285 | two I2C inits after reset, the second with the other pins, both succeed, and the first pins stay reserved for I2C and belong to nobody |
| PinCalls.UartLeakExample | tridentiot-sdk/framework/hal/T32CM11/tr_hal_uart.c:334-356 | after reset, a UART init with an unusable flow control pin keeps pins 4 and 5 |
| PinCalls.SpiLeakExample | tridentiot-sdk/framework/hal/T32CM11/tr_hal_spi.c:463-475 | after reset, an SPI init without its DMA buffers keeps pins 6 to 9 |
| PackedRegisters.PutPinIsUpdate | tridentiot-sdk/framework/hal/T32CM11/tr_hal_gpio.c:1148-1175 | a packed write is an update of a map from pins to values |
| PackedRegisters.FourStands | tridentiot-sdk/framework/hal/T32CM11/tr_hal_gpio.c:555-577 | a written value stands in the four bits of its pin, eight pins to a register from the lowest bits up |
| PackedRegisters.TwoStands | tridentiot-sdk/framework/hal/T32CM11/tr_hal_gpio.c:762-782 | or in two bits, sixteen pins to a register |
| PackedRegisters.FourBitsAre | tridentiot-sdk/framework/hal/T32CM11/tr_hal_gpio.c:556-557 | the masks of the eight places |
| PackedRegisters.TwoBitsAre | tridentiot-sdk/framework/hal/T32CM11/tr_hal_gpio.c:763-764 | the masks of the sixteen places |
| PackedRegisters.SystemControl.SetMode | tridentiot-sdk/framework/hal/T32CM11/tr_hal_gpio.c:1134-1178 | the verdict by pin and value, the pin's four bits in its register, and every getter of every other pin answering as before |
| PackedRegisters.SystemControl.SetPullMode | tridentiot-sdk/framework/hal/T32CM11/tr_hal_gpio.c:542-586 | the same for a pin's pull |
| PackedRegisters.SystemControl.SetFour | tridentiot-sdk/framework/hal/T32CM11/tr_hal_gpio.c:562-583 | after the read, clear, shift, merge and write back of a four-bit value the pin reads as the value and each of the other 31 pins as before |
| PackedRegisters.SystemControl.SetDriveStrength | tridentiot-sdk/framework/hal/T32CM11/tr_hal_gpio.c:747-791 | the same for a pin's two bits of drive strength |
| PackedRegisters.SystemControl.SetTwo | tridentiot-sdk/framework/hal/T32CM11/tr_hal_gpio.c:769-788 | the same for a two-bit value |
| PackedRegisters.SystemControl.SetWakeMode | tridentiot-sdk/framework/hal/T32CM11/tr_hal_gpio.c:838-872 | the same for a pin's wake mode: its bit in the two wake registers by mode, no other bit changed; two registers that share no pin still share none |
| PackedRegisters.SetRefines | tridentiot-sdk/framework/hal/T32CM11/tr_hal_gpio.c:542-872 | a set call changes the named setting of the named pin and nothing else that any getter shows |
| PackedRegisters.RunRefines | tridentiot-sdk/framework/hal/T32CM11/tr_hal_gpio.c:747-903 | over every sequence of calls each getter answers the pin's own last accepted value |
| PackedRegisters.WakeExclusive | tridentiot-sdk/framework/hal/T32CM11/tr_hal_gpio.c:838-872 | from wake registers that share no pin, none is ever shared |
| PackedRegisters.NeverBoth | tridentiot-sdk/framework/hal/T32CM11/tr_hal_gpio.c:878-903 | no pin is ever found in both wake registers |
| Rtc.BcdRoundTrip | tridentiot-sdk/framework/hal/T32CM11/tr_hal_rtc.c:140-168 | converting to BCD and back gives the last two decimal digits, and the register value is BCD |
| Rtc.BcdOnto | tridentiot-sdk/framework/hal/T32CM11/tr_hal_rtc.c:140-168 | every BCD register value is what some number converts to |
| Rtc.CalendarExact | tridentiot-sdk/framework/hal/T32CM11/tr_hal_rtc.c:75-132 | exactly the Gregorian dates from 2000 to 2099 are accepted |
| Rtc.DateTimeRoundTrip | tridentiot-sdk/framework/hal/T32CM11/tr_hal_rtc.c:445-615 | date and time are set, and read back as set, exactly when both are valid; otherwise nothing changes |
| Rtc.Clock.SetClockTime | tridentiot-sdk/framework/hal/T32CM11/tr_hal_rtc.c:377-401 | accepted exactly when valid, the first wrong field deciding the verdict; then the time is read back, the date stays and the load register gets one write of 1; a refused call changes nothing, and the event modes stay apart |
| Rtc.Clock.SetClockDate | tridentiot-sdk/framework/hal/T32CM11/tr_hal_rtc.c:409-434 | the same for a Gregorian date from 2000 to 2099 |
| Rtc.Clock.SetClock | tridentiot-sdk/framework/hal/T32CM11/tr_hal_rtc.c:445-482 | both are read back, with one write of 1 to the load register, if both are valid, else nothing is written and the first wrong field decides the verdict |
| Rtc.Clock.SetClockDivisor | tridentiot-sdk/framework/hal/T32CM11/tr_hal_rtc.c:701-718 | the divisor is written, and 4 to the load register |
| Rtc.Clock.SetBehavior | tridentiot-sdk/framework/hal/T32CM11/tr_hal_rtc.c:502-540 | accepted exactly for priorities 1 to 7; then every interrupt is off, and nothing is loaded |
| Rtc.Clock.SetTimeTrigger | tridentiot-sdk/framework/hal/T32CM11/tr_hal_rtc.c:725-972 | the verdict by unit and range; an accepted call writes the unit's register and interrupt, read back as asked, and 2 to the load register; the other units keep theirs unless a combo event was cancelled, and the event modes stay apart |
| Rtc.Clock.SetComboTrigger | tridentiot-sdk/framework/hal/T32CM11/tr_hal_rtc.c:981-1156 | the first covered value out of range decides the verdict; an accepted event stands in the registers as BCD values, flag and zeros, with only the combined interrupt and one write of 2 to the load register; a refused one changes nothing |
| Rtc.Clock.LastUnit | tridentiot-sdk/framework/hal/T32CM11/tr_hal_rtc.c:1000-1075 | the nested checks find the first value out of range and the last unit the event covers |
| Rtc.Clock.InitClock | tridentiot-sdk/framework/hal/T32CM11/tr_hal_rtc.c:187-357 | status and state of init; the load register gets one write of 7 on success and none otherwise, and the load gate is open again on every way out |
| Rtc.Clock.SetAllUnits | tridentiot-sdk/framework/hal/T32CM11/tr_hal_rtc.c:266-328 | the six unit triggers in order, until one fails |
| Rtc.UnitTriggerSets | tridentiot-sdk/framework/hal/T32CM11/tr_hal_rtc.c:753-963 | a unit trigger call is accepted exactly for a unit and value in range, sets its own register and interrupt, readable again, and touches other units exactly by cancelling a combo event |
| Rtc.StepKeeps | tridentiot-sdk/framework/hal/T32CM11/tr_hal_rtc.c:187-357 | every call keeps the two event modes apart and leaves the load gate open |
| Rtc.ModesExclude | tridentiot-sdk/framework/hal/T32CM11/tr_hal_rtc.c:725-1156 | in every reachable state the combined and a unit interrupt are never enabled together, the combo flag stands only in combo mode, and then the registers are BCD values, one flag unless the event ends on years, and zeros |
| Rtc.ComboReadable | tridentiot-sdk/framework/hal/T32CM11/tr_hal_rtc.c:1077-1136 | the covered values of a combo event can be read back from the six registers |
| Rtc.ComboMeets | tridentiot-sdk/framework/hal/T32CM11/tr_hal_rtc.c:981-1136 | the verdict of a combo call and the six registers it leaves, by value |
| Rtc.RangesAre | tridentiot-sdk/framework/hal/T32CM11/tr_hal_rtc.c:753-900 | the range of each unit by number, and the error that tells of it |
| RtcEvents.RefusedExact | tridentiot-sdk/framework/hal/T32CM11/tr_hal_rtc.c:187-357 | a refused call leaves everything as it was, with exactly two exceptions: a unit trigger call that meets a combo event has cancelled it, an init past its time and date checks has set them and gone on to the events as far as they were accepted |
| RtcEvents.LoadsExact | tridentiot-sdk/framework/hal/T32CM11/T32CM11_rtc.h:282-284 | every call writes the load register exactly once if it is accepted and the gate is open, with 1 for time and date, 2 for events, 4 for the divisor, and init 7; interrupt settings and refused calls write nothing |
| RtcEvents.InitAnswersSo | tridentiot-sdk/framework/hal/T32CM11/tr_hal_rtc.c:187-357 | what init answers: conflict, time, date, priority, combo event or the first unit trigger that is wrong, in this order |
| RtcEvents.InitEvents | tridentiot-sdk/framework/hal/T32CM11/tr_hal_rtc.c:187-357 | what an init past its time and date checks makes of the events: a bad priority leaves them, a bad combo event leaves the registers without any interrupt, and unit triggers are set as asked up to the first that is refused, the units behind keeping their registers but not their interrupts |
| RtcEvents.RefusedExample | tridentiot-sdk/framework/hal/T32CM11/tr_hal_rtc.c:731-748 | from reset, a combo event is cancelled by a trigger for a unit that does not exist |
| RtcEvents.ComboFate | tridentiot-sdk/framework/hal/T32CM11/tr_hal_rtc.c:187-357 | an armed combo event is cancelled by exactly the unit trigger calls and the inits that reach theirs, and left set up with its interrupt off by exactly the accepted interrupt settings and the inits that then fail on their own combo event |
| RtcEvents.SilencedExample | tridentiot-sdk/framework/hal/T32CM11/tr_hal_rtc.c:502-540 | from reset, a combo event followed by new interrupt settings stands in the registers with its interrupt off |
| RtcEvents.UnitFate | tridentiot-sdk/framework/hal/T32CM11/tr_hal_rtc.c:187-540 | a unit event keeps its interrupt until it is ended (switched off, or replaced by a combo event) or left in its register with the interrupt off (new interrupt settings, or an init that stops before it comes to the unit or does not know the trigger), each by exactly these calls |
| RtcEvents.MutedExample | tridentiot-sdk/framework/hal/T32CM11/tr_hal_rtc.c:502-540 | from reset, an event on every second followed by new interrupt settings stands in its register with its interrupt off |
| Rtc.InitLoadsOnce | tridentiot-sdk/framework/hal/T32CM11/tr_hal_rtc.c:187-357 | a successful init writes the load register once, a failing one not at all |
| AdcConversion.DividesByZeroExactly | tridentiot-sdk/framework/hal/T32CM11/tr_hal_adc.c:763-798 | the conversion divides by zero exactly for readings inside a span below one hundred |
| AdcConversion.NarrowExample | tridentiot-sdk/framework/hal/T32CM11/tr_hal_adc.c:763-798 | a calibration from 0 to 99 and the reading 50 |
| AdcConversion.OverflowExact | tridentiot-sdk/framework/hal/T32CM11/tr_hal_adc.c:785-794 | the 32-bit product spoils the result exactly when it does not fit |
| AdcConversion.WideExample | tridentiot-sdk/framework/hal/T32CM11/tr_hal_adc.c:785-794 | a range of fifty volts and a reading at 90 percent |
| AdcConversion.ConvertIsAbove | tridentiot-sdk/framework/hal/T32CM11/tr_hal_adc.c:763-798 | under sensible settings nothing overflows and the result is the low voltage plus the interpolated part |
| AdcConversion.ConvertMonotone | tridentiot-sdk/framework/hal/T32CM11/tr_hal_adc.c:763-798 | the voltage rises with the reading and never leaves the calibrated range |
| AdcConversion.ErrorBound | tridentiot-sdk/framework/hal/T32CM11/tr_hal_adc.c:778-794 | inside the range the result exceeds exact interpolation by at most U/q and falls short of it by less than U/q + U/100 + 1 |
| ScheduleStore.GetNextSlot | app/database/schedules/src/app_schedules.c:576-600 | the loop answers the specified next slot |
| ScheduleStore.NextSlotIsLeast | app/database/schedules/src/app_schedules.c:576-600 | the next slot is the least occupied one above the current, 0 if there is none |
| ScheduleStore.CursorEnumerates | app/database/schedules/src/app_schedules.c:562-600 | from slot 0 the cursor visits exactly the occupied slots, each once, in increasing order |
| ScheduleStore.ApplyKeeps | app/database/schedules/src/app_schedules.c:444-531 | every operation keeps each file's shape and every unoccupied slot all zeros |
| ScheduleStore.ApplyRefines | app/database/schedules/src/app_schedules.c:344-531 | each operation has exactly the effect of its map counterpart on every user, type and slot, and on every user's state |
| ScheduleStore.RunRefines | app/database/schedules/src/app_schedules.c:344-695 | over every run the files stand for that map |
| ScheduleStore.LastWriteWins | app/database/schedules/src/app_schedules.c:497-527 | a schedule written and not touched again, by an erase of its own type or slot or of a user that does not exist, is the one that is stored |
| ScheduleStore.ModifyAnyoneExactly | app/database/schedules/src/app_schedules.c:503-528 | a modify takes effect exactly for a user number that has a file, whether or not the user exists |
| ScheduleStore.EraseAllSparesExactly | app/database/schedules/src/app_schedules.c:466-477 | erasing all schedules of one type leaves the other type alone exactly if the user exists or had none |
| ScheduleStore.EraseAllExample | app/database/schedules/src/app_schedules.c:466-477 | a daily schedule of a user that does not exist goes with its year day schedules |
| ScheduleStore.GetFinds | app/database/schedules/src/app_schedules.c:387-424 | a get of a valid slot answers the stored schedule or zeros, and the least occupied slot above it |
| ScheduleStore.GetFirstExact | app/database/schedules/src/app_schedules.c:401-402 | a get of slot 0 answers for the first occupied slot, and reads outside the array exactly when there is none |
| ScheduleStore.GetFirstExample | app/database/schedules/src/app_schedules.c:401-402 | after a reset a get of slot 0 reads outside the array |
| ScheduleStore.ResetIsEmpty | app/database/schedules/src/app_schedules.c:162-168 | after a reset no user has a schedule or scheduling switched on |
| ScheduleStore.Database.ResetSchedules | app/database/schedules/src/app_schedules.c:162-168 | the loop leaves no schedule and no scheduling switched on for any user, and puts the files in shape whatever they held |
| ScheduleStore.Database.WriteBack | app/database/database_common.h:65-73 | what was written for a user, who need not have had a file, is read back, and no other user's file changes |
| ScheduleStore.Database.GetScheduleState | app/database/schedules/src/app_schedules.c:310-325 | the state of an existing user |
| ScheduleStore.Database.SetScheduleState | app/database/schedules/src/app_schedules.c:344-364 | exactly the state of an existing user with a file changes, and no schedule; the write is skipped when the state is already that |
| ScheduleStore.Database.GetScheduleData | app/database/schedules/src/app_schedules.c:387-424 | each verdict by its own condition; else the stored schedule or zeros of the slot, or for slot 0 of the first slot with a schedule, and the least slot above it |
| ScheduleStore.Database.SetScheduleData | app/database/schedules/src/app_schedules.c:444-531 | in terms of the stored schedules: an erase of slot 0 takes exactly the type of that user (all of it for a user that does not exist), an erase or a modify changes exactly its slot, a modify also switches scheduling on; the answer is the least slot above with a schedule; any other call changes nothing |
| ScheduleStore.Database.EraseAllOf | app/database/schedules/src/app_schedules.c:466-477 | no schedule of the type is left, and nothing else changes; for a user that does not exist the whole file is zeros |
| ScheduleStore.Database.EraseOne | app/database/schedules/src/app_schedules.c:479-502 | exactly the slot of an existing user is free afterwards, and the next slot with a schedule is answered |
| ScheduleStore.Database.ModifyOne | app/database/schedules/src/app_schedules.c:503-528 | exactly the slot holds the schedule and scheduling is on, whether or not the user exists, and the next slot with a schedule is answered |
| ScheduleStore.Database.UserChanged | app/database/schedules/src/app_schedules.c:679-695 | a deleted user has no schedule and no scheduling switched on, and no other user changes |
| OtaImage.Align | tridentiot-sdk/z-wave/tools/ota_image_generate.py:24-34 | less than a page of 0xFF is appended, after which the length is a multiple of the page size |
| OtaImage.LittleRoundTrip | tridentiot-sdk/z-wave/tools/ota_image_generate.py:172-172 | a length written little-endian is read back |
| OtaImage.SignedRecovers | tridentiot-sdk/z-wave/tools/ota_image_generate.py:266-271 | for every payload length, mark, length and signature fill the last page of the file, and payload and signature are recovered from it |
| OtaImage.ExtractKeyExact | tridentiot-sdk/z-wave/tools/ota_image_generate.py:36-56 | the signature is extracted correctly exactly when both DER integers have 32 octets, or 33 with the leading zero |
| OtaImage.ShortIntegerExample | tridentiot-sdk/z-wave/tools/ota_image_generate.py:36-56 | an integer of 31 octets |
| OtaImage.GenerateContainer | tridentiot-sdk/z-wave/tools/ota_image_generate.py:266-308 | a file comes out exactly when every number fits its field and the signature can be taken apart; for a full-size signature its every byte is determined |
| OtaImage.HeaderReads | tridentiot-sdk/z-wave/tools/ota_image_generate.py:286-307 | the header field by field: system information, CRC-32, start address 0x8000 and end address, option, uncompressed length, initial vector |
| OtaImage.SignedLayout | tridentiot-sdk/z-wave/tools/ota_image_generate.py:266-271 | payload, 0xFF up to a page, then a page with mark, length, signature and 0xFF |
| OtaImage.WrittenExactly | tridentiot-sdk/z-wave/tools/ota_image_generate.py:266-307 | which inputs give a file |
| OtaImage.FromLittleFour | tridentiot-sdk/z-wave/tools/ota_image_generate.py:290-300 | numbers are read low octet first |
| OtaImage.ContainerRecovers | tridentiot-sdk/z-wave/tools/ota_image_generate.py:266-308 | for every payload and full-size signature the file holds the header fields, the payload, padding, mark, length and reversed signature at their places and nothing else, and payload and signature are recovered from its last page |

## Left out

- HEX digits are parsed strictly: the signs, underscores and blanks that Python's `int(s, 16)` and `bytes.fromhex` also accept are errors in the model. White space means the ASCII characters. Line ends are those left by text mode, where a carriage return has already become a line feed.
- HEX files are texts and saves are texts: opening, encoding errors, temporary files and moving the result are not modelled, and neither are the JSON files behind the token definitions.
- HexSaveLoad.SaveLoadSave: stated for non-empty blocks in their pages; `HexSaveLoad.SaveLoadExact` covers page crossings of disjoint blocks.
- TokensPatch.PatchedLoadsExactly: stated for tokens whose ranges and starts are distinct; any others are covered by `TokensPatch.PatchedLoadsAlways`. Both are for blocks that stay in their pages.
- CRC-8 of the ISP tool: the same register argument at half the width; the frames do not contain it unless a command puts it there.
- IspFrame.CorruptedRejected: speaks of the frame before stuffing; `IspFrame.AnyWireByteRejected` is about single bytes on the wire, and several wrong bytes there are not covered.
- IspFrame.AnyWireByteRejected: where an ESC comes or goes within the first four bytes of a frame, other bytes move into the length field; that case is left open. So is the part behind an END that cuts a frame: it is text of the command, and nothing keeps a command from holding a frame.
- ISP commands, the serial port, retries and the handshake. The receiver is not in the repository; it is the reference that the frames are proved decodable by.
- SpiTransmit.Driver.TxMoreBytes: a refill loop that would never end is reported as hung instead of being run.
- SPI receive paths, DMA transfers, quad mode and `clear_tx_busy`; each API call is atomic with respect to the interrupt. The range check of the SPI number is not repeated, an object standing for one SPI.
- PinClients.PinsOwnedOnce: for programs in which every uninit follows that driver's own successful init and SPI runs in normal mode with one chip select; the exact conditions for single calls are separate lemmas. `tr_hal_spi_set_addl_cs_pins` is not modelled.
- PinLeaks.ReservedIsOwned: for the same programs.
- PinManager.Manager.CheckGpio: what stands in memory behind the table is not modelled; the access itself is the answer `OutOfBounds`, and nothing is written. The same holds for uninit calls whose id lies behind the UARTs or PWMs.
- Driver settings that do not concern pins are one flag in a request; hardware registers behind the drivers, clocks and interrupt controllers are not modelled.
- Per-pin settings with one bit of one register and no packing (direction, output, open drain, debounce) and interrupt callbacks.
- The clock's ticking, its interrupt handler and callback.
- AdcConversion.ErrorBound: for calibrations at least a hundred readings wide, with rising voltages and a range whose hundredfold fits in 32 bits.
- ScheduleStore.Database.WriteBack: follows the documented contract of `app_nvm`, as reads do; the body shown issues a write for a read. A write that the memory refuses is not modelled.
- Schedule validation, the commands around the store, the keys of other file areas, and the erase for all targets, which only queues an event. The February rule of `is_time_stamp_valid` tests the year the wrong way round and is not part of this model.
- Schedules have at least one slot of each type; slots given to modify and erase are valid, as the source's own notes require.
- Compression, encryption, signing and the CRC-32 are inputs of `OtaImage`; the length that a signed binary carries at offset 40, the header of unsigned images, and the search for the system information are left out.
