# RawSource 2.6x core, modelled in Dafny

RawSource is an AviSynth 2.6 source filter that serves frames of raw, header-less video files or of YUV4MPEG2 streams. This project models its core and proves properties of the model:

- **YUV4MPEG2 header parsers.** The newer `parse_y4m` and the legacy `RawSource::ParseHeader` walk the stream header's tag line (W, H, I, F, C) and locate the first `FRAME` line. They are modelled as one shared pure scan (`Y4mHeader.Parse`) and two imperative parsers proved equal to it. The constructor's colour-code switch is modelled too.
- **Pixel-type registry.** A cascade of case-insensitive name tests fixes the colour space, the plane or byte order (`mapping`) and the count of used slots (`mapcnt`).
- **Checkpoint descriptor parsers.** `set_rawindex` and the legacy parse turn a descriptor into a list of `(frame, byte offset)` checkpoints. The descriptor is a `frame:offset` string or the name of an index file.
- **Index builder.** It extrapolates the checkpoints into one byte offset per frame. Each frame is tagged `K` (at a checkpoint), `D` (one frame delta on) or `B` (a repeated checkpoint distance, the "big delta", extrapolated).
- **Frame layout code.** This covers the legacy `GetFrame` and the four writers of `write_frame.cpp`. They read one frame's bytes from the file into the pitched planes of the destination frame in one of four layouts: straight copy, plane after plane, per-pixel byte reorder, or NV12/NV21 chroma de-interleaving.

Files:

| file | module | contents |
|---|---|---|
| `common.dfy` | `Common` | results, bytes, zero-padded file reads, the raw file handle (`RawFile`: seek and read) |
| `scanf.dfy` | `Scanf` | the `sscanf` conversions the parsers use (`%d`, `%u`, `%i`, `%s`) |
| `checkpoints.dfy` | `Checkpoints` | `strtok` tokens, checkpoint entries, `set_rawindex` and the legacy parse |
| `pixel_types.dfy` | `PixelTypes` | the registry cascade, the colour-code switch |
| `y4m_header.dfy` | `Y4mHeader` | the tag scan, `parse_y4m` and `ParseHeader` |
| `index_builder.dfy` | `IndexBuilder` | the frame count and the index loop, with its properties |
| `write_frame.dfy` | `WriteFrame` | planes and frames, `write_packed`, `write_planar`, `write_packed_reorder`, `write_NV420` |
| `get_frame.dfy` | `GetFrame` | the legacy `GetFrame` and its four row loops |

Modelling choices:

- The file is a byte sequence with a position. A read past its end delivers fewer bytes, or none. Because every reader clears its scratch buffer first, the missing bytes come out as 0 (`ZeroPadded`).
- A destination plane is a two-dimensional array whose columns past the row size are the pitch padding.
- Errors the source throws become `Err` with the source's message.
- Integers are unbounded. `%u` wrap-around is modelled by `Wrap32`. The `int` product of the big delta is kept exact in the index loop; its 32-bit form `BigStepOffsetAsWritten` is modelled beside it (see Left out and Findings). The `(int)` cast of the seek result is modelled by `GetFrame.SeekFailed`.
- The source's `rawindex` array becomes a `seq` of checkpoints. In the legacy parse it is an `array`. The index is an `array` of entries.

## Model

| member | source | states |
|---|---|---|
| Common.ZeroPadded | src/rawsource26.cpp:419-421 | a cleared-then-read buffer holds the file's bytes at the position, 0 past the end of the file |
| Common.ByteAt | src/rawsource26.cpp:419-420 | a byte read from the file is 0 unless its position lies inside the file |
| Common.ZeroPaddedSplit | src/write_frame.cpp:15-29 | reading m then n bytes gives the same bytes as one read of m + n |
| Common.Available | src/rawsource26.cpp:420 | a read delivers at most the requested count, and nothing at or past the end of the file |
| Common.Zero | src/write_frame.cpp:17 | `memset` clears exactly the first n bytes of the buffer |
| Common.RawFile.Seek | src/rawsource26.cpp:411 | `_lseeki64` succeeds exactly for a non-negative offset and returns it; then reads start there, else the position is unchanged (the test on the result is GetFrame.SeekFailed) |
| Common.RawFile.Read | src/rawsource26.cpp:420 | `_read` copies the available bytes from the file position into the buffer, advances by that count, and leaves the rest of the buffer alone |
| Common.RawFile.ZeroAndRead | src/rawsource26.cpp:419-420 | memset plus read leaves the zero-padded file bytes in the buffer, and the next read starts n bytes on even after a short read |
| Scanf.SkipSpaces | src/utils.cpp:35 | the conversion skips exactly the leading white space |
| Scanf.DigitEnd | src/utils.cpp:137 | the digit run ends at the first non-digit of the base, every byte before it being a digit |
| Scanf.AutoBaseAt | src/utils.cpp:138 | `%i` reads base 16 after `0x`, base 8 after `0`, else base 10 |
| Scanf.ScanInt | src/utils.cpp:137-138 | a conversion that succeeds ends past its last digit inside the buffer, and is negative exactly when a '-' precedes a non-zero value |
| Scanf.Wrap32 | src/utils.cpp:55 | `%u` stores a 32-bit value equal to the number whenever it fits |
| Scanf.TokenEnd | src/utils.cpp:62 | a `%s` word runs to the first white space or NUL |
| Scanf.ScanWord | src/utils.cpp:62 | `%s` yields a non-empty word with no white space, or fails |
| Scanf.DecimalIgnoresLeadingZero | src/rawsource26.cpp:301-302 | `%d` reads "010" as ten |
| Scanf.AutoBaseReadsOctal | src/utils.cpp:138 | `%i` reads "010" as eight: a new-style descriptor's leading-zero offsets are octal |
| Scanf.AutoBaseReadsHex | src/utils.cpp:138 | `%i` reads "0x1F" as 31 |
| Scanf.SignAfterSpace | src/utils.cpp:137 | the sign is read after white space, so " -7" is minus seven |
| Scanf.NoDigitNoNumber | src/utils.cpp:132-137 | without a digit nothing is stored, so the variable keeps its -1 |
| Scanf.UnsignedWrapsNegative | src/utils.cpp:55 | `%u` of "-1" stores 4294967295 |
| Scanf.DigitsValue | src/utils.cpp:137 | the value of a run of j - i digits of the base is below the base to the power j - i |
| Scanf.DecimalString | src/rawsource26.cpp:41 | the printed form of a non-negative number, as `%d` prints it, which ScanIntRoundTrip reads back: a non-empty run of decimal digits with no leading zero |
| Scanf.SignedDecimal | src/rawsource26.cpp:41 | the printed form of any number, as `%d` prints it, which ScanIntRoundTrip reads back: non-empty, starting with '-' exactly for a negative number |
| Scanf.DecimalDigitsValue | src/utils.cpp:35 | the digits of a number's decimal form have that number as their value |
| Scanf.DigitEndOfRun | src/utils.cpp:35 | a run of digits followed by a non-digit ends exactly there |
| Scanf.DecimalRunAt | src/utils.cpp:35 | a number's decimal form followed by a non-digit is a digit run that ends after it and has that value |
| Scanf.ScanIntReadsUnsigned | src/utils.cpp:35 | `%d` at the decimal form of n reads n and ends right after it |
| Scanf.ScanIntReadsNegative | src/utils.cpp:35 | `%d` at '-' and the decimal form of a positive n reads minus n and ends right after it |
| Scanf.ScanIntReadsDecimal | src/utils.cpp:35 | `%d` at the printed form of any number reads that number and ends right after it |
| Scanf.ScanIntRoundTrip | src/utils.cpp:35 | round trip: `%d` reads back the printed form of every number when no digit follows it |
| Scanf.TokenEndOfRun | src/utils.cpp:62 | a run of bytes that are neither white space nor NUL ends at the first white space, NUL or the end of the buffer |
| Scanf.ScanWordReads | src/utils.cpp:62 | `%s` at a non-empty word followed by white space, a NUL or the end reads exactly that word |
| Checkpoints.CStr | src/utils.cpp:118-120 | the file text as a C string: the longest NUL-free prefix |
| Checkpoints.RunEnd | src/utils.cpp:129-131 | a token runs to the next space or newline |
| Checkpoints.TokensFrom | src/utils.cpp:129-131 | the tokens from a position on: at most one per remaining byte, and none exactly when only spaces and newlines remain |
| Checkpoints.Tokens | src/utils.cpp:128-131 | `strtok` yields no token exactly when the text holds only spaces and newlines |
| Checkpoints.TokensAreSeparatorFree | src/utils.cpp:128-131 | every `strtok` token is non-empty and holds no separator |
| Checkpoints.NextToken | src/utils.cpp:129-131 | one `strtok` call returns the next token and the rest of the token list, or none when the text is exhausted |
| Checkpoints.IndexOfColon | src/utils.cpp:134 | `strchr` finds the first ':' or reports there is none |
| Checkpoints.Entry | src/utils.cpp:132-142 | a token yields a checkpoint only with a ':' and both numbers non-negative |
| Checkpoints.Entries | src/utils.cpp:129-143 | the loop stores at most one checkpoint per token |
| Checkpoints.EntriesCons | src/utils.cpp:132-142 | the checkpoints of a token list are the first token's entry followed by those of the rest, or none at all when the first token is invalid |
| Checkpoints.EntriesShift | src/utils.cpp:129-143 | storing a valid token moves its checkpoint from the entries still to come to the end of the stored ones, so stored plus pending stays the same list |
| Checkpoints.DescriptorText | src/utils.cpp:113-125 | a descriptor with a '.' names an index file: it fails with "Cannot open indexfile." exactly when the file cannot be opened, and otherwise the text is a NUL-free prefix of the file's contents; without a '.' the text is the descriptor itself |
| Checkpoints.EntriesAreLongestValidPrefix | src/utils.cpp:129-143 | the checkpoints are the entries of the tokens in input order up to the first invalid token, which is what stopped the loop |
| Checkpoints.EntriesAreValid | src/utils.cpp:140-142 | every stored checkpoint has a non-negative frame and offset |
| Checkpoints.RawindexSpec | src/utils.cpp:101-148 | an accepted list is non-empty and starts at frame 0; an error is one of the two messages |
| Checkpoints.DescriptorAcceptance | src/utils.cpp:127-146 | a readable descriptor is accepted exactly when its first token is a frame-0 checkpoint, and then checkpoint i is token i's entry |
| Checkpoints.UnreadableIndexFile | src/utils.cpp:114-116 | a descriptor naming an index file that cannot be opened fails with "Cannot open indexfile." |
| Checkpoints.ParseEntries | src/utils.cpp:127-143 | the `strtok` loop yields exactly the entries of the token prefix |
| Checkpoints.SetRawindex | src/utils.cpp:101-148 | `set_rawindex` returns the specification's checkpoints or its error: `%i` offsets, two synthetic checkpoints for the empty descriptor |
| Checkpoints.StoreEntries | src/rawsource26.cpp:294-310 | the legacy loop leaves the entries of the token prefix in the table's first `p_ri` slots |
| Checkpoints.Store | src/rawsource26.cpp:306-308 | storing at `p_ri` extends the stored prefix by one checkpoint |
| Checkpoints.LegacyRawindex | src/rawsource26.cpp:271-316 | the legacy parse accepts exactly what the specification accepts with `%d` offsets and the same message; `rimax` indexes the last stored checkpoint |
| PixelTypes.LowerStr | src/rawsource26.cpp:104 | the lower-case form keeps the length and lowers each character |
| PixelTypes.StrIEqIsLowerEquality | src/rawsource26.cpp:104-238 | `stricmp` equality is equality of lower-case forms, both ways |
| PixelTypes.Format | src/rawsource26.cpp:104-238 | the format a branch assigns uses one to four slots of its mapping, and its colour space is planar exactly for the planar branches (10 on) |
| PixelTypes.Cascade | src/rawsource26.cpp:104-242 | no branch matches exactly when the lower-case name is not a supported key; a match is one of the 22 branches and never the second `I444` test |
| PixelTypes.Lookup | src/rawsource26.cpp:104-242 | the lookup fails with "Invalid pixel type" exactly when the lower-case name is not a supported key; otherwise the format uses one to four slots |
| PixelTypes.CascadeKey | src/rawsource26.cpp:104-238 | a matched branch is one of the 22 branches |
| PixelTypes.UnmatchedKeyIsUnsupported | src/rawsource26.cpp:239-242 | a name no branch matches is none of the supported names |
| PixelTypes.UnsupportedKeyIsUnmatched | src/rawsource26.cpp:104-242 | a name other than the supported ones matches no branch |
| PixelTypes.UnknownNameIsRejected | src/rawsource26.cpp:239-242 | "Invalid pixel type" is thrown exactly when the name is none of the supported ones in any letter case |
| PixelTypes.LookupIsCaseInsensitive | src/rawsource26.cpp:104-238 | names equal up to case get the same format |
| PixelTypes.DuplicateI444Unreachable | src/rawsource26.cpp:180-185 | the second `I444` branch is dead code |
| PixelTypes.RgbaFormatWellFormed | src/rawsource26.cpp:104-131 | the 32-bit RGB branches assign a byte permutation of the 4-byte pixel |
| PixelTypes.PackedFormatWellFormed | src/rawsource26.cpp:132-167 | the 24-bit RGB and YUY2 branches assign byte permutations |
| PixelTypes.PlanarFormatWellFormed | src/rawsource26.cpp:168-238 | the planar branches assign distinct plane identifiers starting with Y, and an NV format still names both chroma planes |
| PixelTypes.RegistryWellFormed | src/rawsource26.cpp:104-238 | every accepted name gets a well-formed format |
| PixelTypes.PlaneOrderOfYVKey | src/rawsource26.cpp:168-222 | a planar key starting "yv" orders the planes Y, V, U |
| PixelTypes.PlaneOrderOfIKey | src/rawsource26.cpp:174-216 | a planar key starting "i" orders the planes Y, U, V |
| PixelTypes.PlaneOrderFollowsName | src/rawsource26.cpp:168-222 | YV… names order the planes Y, V, U and I… names order them Y, U, V |
| PixelTypes.ApplyHeaderCode | src/rawsource26.cpp:42-68 | the switch on the parser's code fails exactly for -1 and -2; a colour code overwrites the first four characters and keeps the tail; any other code keeps the name |
| PixelTypes.HeaderCodeName | src/rawsource26.cpp:42-68 | the switch names a pixel type exactly for the codes 4444, 444, 422, 411, 420 and 8, and every name it writes has four characters |
| PixelTypes.CanonicalHeaderName | src/rawsource26.cpp:42-68 | the corrected switch: a colour code replaces the whole name |
| PixelTypes.NoKeyStartsAY | src/rawsource26.cpp:104-238 | no branch tests a name that starts with "ay" |
| PixelTypes.AlphaHeaderIsRejected | src/rawsource26.cpp:43-44 | a `444alpha` header always ends in "Invalid pixel type", as written and corrected |
| PixelTypes.HeaderCodeKeepsTail | src/rawsource26.cpp:55-56 | under a 4:2:0 header "YV411" becomes "I4201", which is rejected, while the corrected switch gives "I420" |
| PixelTypes.I4201IsRejected | src/rawsource26.cpp:239-242 | "I4201" is not a registered name |
| PixelTypes.KeyedLookup | src/rawsource26.cpp:104-242 | a lookup is decided by the name's lower-case key |
| Y4mHeader.ColorTagCode | src/utils.cpp:63-77 | a colour word is known exactly when it starts with 444, 422, 411, 420 or mono, and its code names a pixel type |
| Y4mHeader.ColorTagExamples | src/utils.cpp:63-74 | "420jpeg" is 4:2:0, "444alpha" wins over "444", and "mon" is unknown |
| Y4mHeader.IntOr | src/utils.cpp:35-40 | `%d` into a variable stores the number read, and leaves the old value when no number is read |
| Y4mHeader.ScanRate | src/utils.cpp:55 | `%u:%u` keeps both parts when no number is read; the numerator is the first number modulo 2^32; the denominator changes only when a ':' and a second number follow, and is then that number modulo 2^32 |
| Y4mHeader.SeeWidth | src/utils.cpp:33-36 | a " W" tag moves two bytes on and sets the width to the number `%d` reads, or keeps it when none is read; it never stops the scan; any other text leaves the cursor unchanged |
| Y4mHeader.SeeHeight | src/utils.cpp:38-41 | a " H" tag moves two bytes on and sets the height to the number `%d` reads, or keeps it when none is read; it never stops the scan; any other text leaves the cursor unchanged |
| Y4mHeader.SeeInterlace | src/utils.cpp:43-51 | an " I" tag moves two bytes on; it stops the scan exactly when the next byte is 'm'; 't' and 'b' set top or bottom field first, and any other byte keeps the tags |
| Y4mHeader.SeeRate | src/utils.cpp:53-58 | an " F" tag moves two bytes on and stores the pair `%u:%u` reads; it stops the scan as a bad frame rate exactly when a part is zero, and otherwise hands the pair to `SetFPS` |
| Y4mHeader.SeeColor | src/utils.cpp:60-78 | a " C" tag moves two bytes on and stores the word `%s` reads; it stops the scan exactly when the word is unknown, and otherwise sets the word's colour code |
| Y4mHeader.Step | src/utils.cpp:32-79 | one pass of the loop body advances the position or stops the scan; a rate already set stays set when it does not stop |
| Y4mHeader.ScanTags | src/utils.cpp:32-79 | the loop ends at a newline or the end of the buffer unless a tag stopped it, and a rate set before stays set |
| Y4mHeader.SkipRun | src/utils.cpp:32-79 | bytes that are neither a space nor a newline start no tag, so the loop passes over them |
| Y4mHeader.StepThenRun | src/utils.cpp:32-79 | one pass of the loop body followed by bytes that start no tag lets the loop continue after them |
| Y4mHeader.WidthPass | src/utils.cpp:33-36 | one pass over " W" and a number sets the width and stops one byte into the number |
| Y4mHeader.WidthTagStep | src/utils.cpp:33-36 | the loop reads " W" and a number as the width and continues after the number |
| Y4mHeader.HeightPass | src/utils.cpp:38-41 | one pass over " H" and a number sets the height and stops one byte into the number |
| Y4mHeader.HeightTagStep | src/utils.cpp:38-41 | the loop reads " H" and a number as the height and continues after the number |
| Y4mHeader.RateSeen | src/utils.cpp:53-58 | an " F" tag whose two parts are non-zero stores them and hands them to `SetFPS` without stopping |
| Y4mHeader.RatePass | src/utils.cpp:53-58 | one pass over an accepted " F" tag moves one byte into its numerator |
| Y4mHeader.RateTagStep | src/utils.cpp:53-58 | the loop reads an " F" tag with non-zero parts as the rate and continues after it |
| Y4mHeader.ColorPass | src/utils.cpp:60-78 | one pass over " C" and a known word stores the word and its colour code |
| Y4mHeader.ColorTagStep | src/utils.cpp:60-78 | the loop reads " C" and a known word as the colour and continues after the word |
| Y4mHeader.NumberChars | src/utils.cpp:35 | a tag followed by a number's decimal form and a non-digit: `%d` after the tag reads the number, and its bytes are digits |
| Y4mHeader.ReadWidthTag | src/utils.cpp:33-36 | the text " W" and a width's decimal form sets the width, and the loop continues after it |
| Y4mHeader.ReadHeightTag | src/utils.cpp:38-41 | the text " H" and a height's decimal form sets the height, and the loop continues after it |
| Y4mHeader.ScanRateReads | src/utils.cpp:55 | `%u:%u` over two numbers below 2^32 separated by ':' reads exactly those two |
| Y4mHeader.RateChars | src/utils.cpp:53-55 | the text " F" and a number's decimal form is an F tag whose numerator `%u` reads as that number |
| Y4mHeader.ColonChars | src/utils.cpp:55 | the text ':' and a number's decimal form gives the denominator that number |
| Y4mHeader.ReadRateTag | src/utils.cpp:53-58 | the text " F", n, ':' and d with both parts non-zero and below 2^32 sets the rate to n/d, and the loop continues after it |
| Y4mHeader.ColorChars | src/utils.cpp:60-62 | the text " C" and a word ended by white space, a NUL or the end is a C tag whose `%s` word is that word |
| Y4mHeader.ReadColorTag | src/utils.cpp:60-78 | the text " C" and a known colour word sets the word and its code, and the loop continues after it |
| Y4mHeader.ReadTagLine | src/utils.cpp:32-79 | the magic followed by the tag line "W H F C" reaches the line's end with exactly the four values set |
| Y4mHeader.LineStops | src/utils.cpp:32 | the loop ends at a newline without changing anything |
| Y4mHeader.InterlacedStops | src/utils.cpp:43-45 | the text " Im" ends the scan as unsupported, keeping the tags read so far |
| Y4mHeader.LineEnd | src/utils.cpp:91 | the FRAME line runs to the first newline or the end of the buffer |
| Y4mHeader.Conclude | src/utils.cpp:81-94 | after the loop the outcome is unsupported exactly when mixed interlacing stopped it; a header exactly when nothing stopped it, all four values are non-zero and "FRAME" follows the newline, with the two offsets that locate the frame data; otherwise a header error; always with the tags the loop read |
| Y4mHeader.Parse | src/utils.cpp:6-97 | there is no header exactly when the buffer does not start with the magic; the header is unsupported exactly when the magic matched and mixed interlacing stopped the scan |
| Y4mHeader.FrameLineAccepts | src/utils.cpp:81-94 | a newline then "FRAME" and a newline after a complete tag set gives a header whose frame data follows that FRAME line |
| Y4mHeader.FrameLineRejects | src/utils.cpp:85 | a newline not followed by "FRAME" is a header error |
| Y4mHeader.ParseAfterMagic | src/utils.cpp:20-94 | once the magic matched, the parse is the outcome of the checks after the loop |
| Y4mHeader.WellFormedHeaderIsAccepted | src/utils.cpp:6-97 | converse of ParsedHeaderIsComplete: a header of the form "YUV4MPEG2 W H F C", newline, FRAME line, with non-zero values below 2^32 and a known colour word, is accepted with exactly those values and the offsets of the frame data |
| Y4mHeader.MixedInterlacingIsUnsupported | src/utils.cpp:43-45 | "Im" after the size is unsupported; the legacy parser returns -2 and `parse_y4m` throws the unsupported message |
| Y4mHeader.MissingRateIsHeaderError | src/utils.cpp:81 | a tag line without an F tag is a header error in both parsers |
| Y4mHeader.MissingFrameLineIsHeaderError | src/utils.cpp:85 | a complete tag line not followed by "FRAME" is a header error in both parsers |
| Y4mHeader.ParsedHeaderIsComplete | src/utils.cpp:81-94 | an accepted header has a width, a height and a rate with both parts non-zero and set; "FRAME" follows the tag line's newline; the frame data starts right after the FRAME line (the converse is WellFormedHeaderIsAccepted) |
| Y4mHeader.ConcludedHeaderIsComplete | src/utils.cpp:81-94 | the same for any finished scan that keeps the scan's invariant |
| Y4mHeader.FrameLineAt | src/utils.cpp:85 | a matched "FRAME" lies inside the buffer |
| Y4mHeader.ScanTagLine | src/utils.cpp:32-79 | the imperative tag loop computes the tag scan |
| Y4mHeader.FindLineEnd | src/utils.cpp:91 | the imperative loop finds the FRAME line's end |
| Y4mHeader.FinishHeader | src/utils.cpp:81-94 | the checks after the loop give the specified outcome and offsets |
| Y4mHeader.SetVideoInfo | src/utils.cpp:35-57 | `vi` gets the width and height read, and the last rate and field order set |
| Y4mHeader.PixelTypeName | src/utils.cpp:26 | the name left in the buffer has four characters |
| Y4mHeader.MagicLength | src/utils.cpp:20 | a buffer that holds the magic has at least nine characters |
| Y4mHeader.CopyName | src/utils.cpp:26 | `strcpy` of a four-character name rewrites the first five characters and nothing else |
| Y4mHeader.ParseY4m | src/utils.cpp:6-97 | `parse_y4m` returns false without the magic and changes nothing; otherwise it throws the outcome's error or returns its offsets; the buffer starts with the pixel type's name and `vi` holds what the scan read, also on error |
| Y4mHeader.Y4mResult | src/utils.cpp:20-96 | `parse_y4m` returns false exactly without the magic, throws exactly on a failure, with the unsupported or the header-error message, and otherwise returns the two offsets |
| Y4mHeader.LegacySource.ParseHeader | src/rawsource26.cpp:477-561 | returns 0, -1, -2 or the colour code (420 by default) as the scan decides; the offsets change only on success |
| Y4mHeader.LegacyCode | src/rawsource26.cpp:477-560 | `ParseHeader` returns 0 without the magic, -2 when unsupported, -1 on a header error, and otherwise the colour code, 420 by default |
| Y4mHeader.ParsersAgree | src/rawsource26.cpp:477-561 | on the 128-byte buffer the two parsers agree on no header, unsupported and header error, and otherwise name the same pixel type up to case |
| Y4mHeader.ColorCodeNamed | src/rawsource26.cpp:523-534 | every colour code is distinct from 0, -1 and -2 and names a four-letter type, equal to itself up to case |
| Y4mHeader.DefaultNameMatches | src/rawsource26.cpp:484 | the defaults "i420" and "I420" are the same name up to case |
| Y4mHeader.LegacyHeaderPixelType | src/rawsource26.cpp:40-68 | the constructor fails exactly for a width over 4096 (with its message) or codes -1 and -2, else applies the code switch |
| IndexBuilder.MaxFrame | src/rawsource26.cpp:246-249 | there is a frame count exactly when the file holds one frame; it is the number of whole frames; else "File too small for even one frame." |
| IndexBuilder.FrameSize | src/rawsource26.cpp:244 | the frame size is width times height times bits per pixel, shifted right by three |
| IndexBuilder.Init | src/rawsource26.cpp:319-328 | the loop starts at frame 0 on the first checkpoint, typed K |
| IndexBuilder.Advance | src/rawsource26.cpp:332-335 | the cursor moves on by at most one checkpoint and never past the last |
| IndexBuilder.Place | src/rawsource26.cpp:336-350 | placing a frame moves to the next frame and keeps the cursor and both deltas |
| IndexBuilder.Retune | src/rawsource26.cpp:352-371 | the new delta is the old one or the gap at the cursor; the big frame step is the old one, zero, or two equal gaps in a row |
| IndexBuilder.Step | src/rawsource26.cpp:329-374 | one iteration moves exactly one frame on and keeps the cursor in the table |
| IndexBuilder.Iterate | src/rawsource26.cpp:329-374 | after n iterations the loop is at frame n |
| IndexBuilder.EntriesGrow | src/rawsource26.cpp:330 | each iteration appends the current frame's slot |
| IndexBuilder.InsideFileGrows | src/rawsource26.cpp:329 | a slot stored under the loop guard keeps every frame inside the file |
| IndexBuilder.Store | src/rawsource26.cpp:330-349 | frame n's offset goes into slot n and the next frame's type into slot n + 1 |
| IndexBuilder.BuildIndex | src/rawsource26.cpp:318-375 | every stored slot is its frame's entry; every stored frame lies inside the file; the loop stopped at maxframe or at the first frame past the end of the file |
| IndexBuilder.EntriesAt | src/rawsource26.cpp:330 | slot k is frame k's entry |
| IndexBuilder.EntryAt | src/rawsource26.cpp:319-328 | frame 0's entry is the first checkpoint's offset, typed K |
| IndexBuilder.Entries | src/rawsource26.cpp:330 | the first n slots, slot k being frame k's entry |
| IndexBuilder.SingleStep | src/rawsource26.cpp:329-374 | with only the frame-0 checkpoint, one iteration moves one frame size on as a delta |
| IndexBuilder.SingleCheckpointIsLinear | src/rawsource26.cpp:325-348 | with only the frame-0 checkpoint, frame n lies n frame sizes on, typed D |
| IndexBuilder.PairStep | src/rawsource26.cpp:329-374 | over checkpoints at frames 0 and 1, one iteration gives frame 1 at the second checkpoint and later frames one stride on |
| IndexBuilder.PairIsLinear | src/rawsource26.cpp:343-354 | over checkpoints at frames 0 and 1, frame n lies n - 1 strides after the second |
| IndexBuilder.UnindexedFramesAreEvenlySpaced | src/utils.cpp:106-110 | without a descriptor, frame n lies n strides of FRAME line plus frame after the header; frames 0 and 1 are K, later ones D |
| IndexBuilder.CursorStep | src/rawsource26.cpp:329-374 | one iteration keeps the cursor invariant over ascending checkpoints without repeated gaps |
| IndexBuilder.CursorInvariant | src/rawsource26.cpp:329-374 | the cursor invariant holds at every frame after frame 0 |
| IndexBuilder.CheckpointsAreKeyFrames | src/rawsource26.cpp:343-345 | over ascending checkpoints without repeated gaps, a checkpoint's frame is K at the checkpoint's offset, and a K frame is a checkpoint's |
| IndexBuilder.KeyFramesSitAtCheckpoints | src/rawsource26.cpp:343-345 | any K frame after frame 0 is the cursor's checkpoint at its offset |
| IndexBuilder.PeriodsAreMultiples | src/rawsource26.cpp:338 | k big steps of P after frame P are frame P + kP |
| IndexBuilder.ExtrapolatingStep | src/rawsource26.cpp:338-350 | past the middle of an evenly spaced triple, one iteration is one delta on, or the next big step at a multiple of P |
| IndexBuilder.TracksBeforeMiddle | src/rawsource26.cpp:329-374 | up to the middle checkpoint each iteration keeps the frame-by-frame description |
| IndexBuilder.TracksAfterMiddle | src/rawsource26.cpp:329-374 | after the middle checkpoint each iteration keeps the frame-by-frame description |
| IndexBuilder.IterateKeeps | src/rawsource26.cpp:329-374 | a property the start has and every iteration keeps holds at every frame |
| IndexBuilder.PeriodsUnique | src/rawsource26.cpp:338 | a frame is whole periods plus a remainder in one way only |
| IndexBuilder.TrackedFrame | src/rawsource26.cpp:338-350 | the tracked state at frame P + kP + r is k big steps and r deltas on |
| IndexBuilder.TracksIsKept | src/rawsource26.cpp:329-374 | every iteration over an evenly spaced triple keeps the description |
| IndexBuilder.TracksEveryFrame | src/rawsource26.cpp:329-374 | the description holds at every frame |
| IndexBuilder.BigDeltaIsExtrapolated | src/rawsource26.cpp:338-341 | with checkpoints at 0, P and 2P, frame P + kP + r lies k big deltas past the middle checkpoint and r frame sizes on, typed B exactly when r is 0 |
| IndexBuilder.CursorMovesAtMostOne | src/rawsource26.cpp:332-335 | the cursor moves exactly when a checkpoint before the last has been reached, and a move restarts the big step count |
| IndexBuilder.BigStepFires | src/rawsource26.cpp:338-341 | a frame is B exactly when it is a whole number of big frame steps after the checkpoint behind the cursor, and then it lies that many big deltas on |
| IndexBuilder.FrameSnapsToCheckpoint | src/rawsource26.cpp:342-349 | a frame that is the cursor's checkpoint and not B is K at its offset; D exactly otherwise, one delta on |
| IndexBuilder.DeltasAreRetuned | src/rawsource26.cpp:352-371 | each case of the retune: gap 1 sets the delta, equal gaps set the big delta, a shorter gap or a reached checkpoint clears it, and otherwise both are kept |
| IndexBuilder.WrapInt32 | src/rawsource26.cpp:339 | the 32-bit product is the exact one modulo 2^32, in range, and unchanged when it fits |
| IndexBuilder.BigStepOffset | src/rawsource26.cpp:339 | the exact big step position: the checkpoint itself at zero steps, and never before it |
| IndexBuilder.BigStepOffsetAsWritten | src/rawsource26.cpp:339 | the position with the 32-bit product: within the `int` range of the checkpoint, and equal to the exact position modulo 2^32 |
| IndexBuilder.BigDeltaIsExtrapolatedAsWritten | src/rawsource26.cpp:338-341 | while the product fits 32 bits the as-written position is where the loop puts the frame |
| IndexBuilder.WrappedBigStepAtFrame725 | src/rawsource26.cpp:338-341 | the 1920x1080 4:2:0 clip with checkpoints every 25 frames: frame 725 is B at byte 2255040000, while the as-written product puts it at -2039927296 |
| IndexBuilder.BigStepOffsetAgreesWhileProductFits | src/rawsource26.cpp:339 | the big step offset as written is exact exactly while the product fits 32 bits |
| IndexBuilder.BigStepOffsetWrapsAt28Steps | src/rawsource26.cpp:339 | a 1920x1080 4:2:0 clip with checkpoints every 25 frames gets big step 28 at a negative offset, while step 27 is exact |
| IndexBuilder.BigStepsAreEvenlySpaced | src/rawsource26.cpp:339-340 | each further big step lands one big delta further on |
| WriteFrame.Plane.constructor | src/write_frame.cpp:11-14 | a plane has its row size, height and pitch |
| WriteFrame.Frame.PlaneOf | src/write_frame.cpp:24-26 | `GetWritePtr` names one of the three planes |
| WriteFrame.DistinctPlanes | src/write_frame.cpp:24-26 | distinct plane identifiers name distinct planes |
| WriteFrame.RowStartIsProduct | src/write_frame.cpp:35-36 | row r starts r row widths in |
| WriteFrame.RowStartMonotone | src/write_frame.cpp:35-36 | later rows start later |
| WriteFrame.RowStartBound | src/write_frame.cpp:87-94 | row r of h rows ends within the h rows |
| WriteFrame.RowsFitIn | src/write_frame.cpp:15-19 | the rows fit a buffer of width times height bytes |
| WriteFrame.FileRow | src/write_frame.cpp:68-71 | row r of a frame read is r rows on in the file, 0 past its end |
| WriteFrame.PaddedCell | src/write_frame.cpp:68-71 | a byte of a one-read buffer is the matching byte of its file row |
| WriteFrame.PaddedRow | src/write_frame.cpp:83-93 | a row of a one-read buffer is its file row |
| WriteFrame.CopyRow | src/rawsource26.cpp:421 | `memcpy` fills the row's first n bytes and changes nothing else |
| WriteFrame.BitBlt | src/write_frame.cpp:19 | `BitBlt` copies each buffer row into the plane's picture area and leaves the rest alone |
| WriteFrame.ReadPlane | src/write_frame.cpp:52-55 | one plane read whole and copied holds its file rows, and the pitch padding is kept |
| WriteFrame.ReadNamedPlane | src/write_frame.cpp:52-55 | reading the next named plane whole extends the read prefix by that plane and leaves the planes already read holding their bytes |
| WriteFrame.WritePacked | src/write_frame.cpp:60-72 | `write_packed`'s plane holds the frame's file rows and the next read follows the frame |
| WriteFrame.WritePlanar | src/write_frame.cpp:42-57 | each named plane holds the file bytes that follow the planes before it; a plane the order does not name keeps every byte, and no padding changes |
| WriteFrame.GroupsFit | src/write_frame.cpp:88 | the whole groups of a row fit in the row |
| WriteFrame.Permute | src/write_frame.cpp:89-91 | byte k of a permuted group is byte `order[k]` of the group |
| WriteFrame.PermuteByIdentity | src/write_frame.cpp:89-91 | the identity order leaves a group unchanged |
| WriteFrame.ReorderedGroups | src/write_frame.cpp:88-92 | the first n reordered groups span n group widths |
| WriteFrame.Reordered | src/write_frame.cpp:88-92 | the reordered row is the row's whole groups, so no longer than the row |
| WriteFrame.ReorderedGroupsAt | src/write_frame.cpp:90 | byte k of group j of the reordered groups is byte `order[k]` of group j |
| WriteFrame.ReorderedAt | src/write_frame.cpp:90 | the same, of the whole reordered row |
| WriteFrame.IdentityGroups | src/write_frame.cpp:88-92 | with the identity order the groups are copied unchanged |
| WriteFrame.ReorderedByIdentity | src/write_frame.cpp:88-92 | with the identity order the reorder is a straight copy of the whole groups |
| WriteFrame.WholeGroupsAreKept | src/write_frame.cpp:88 | a row of whole groups is reordered in full |
| WriteFrame.WholeGroupCount | src/write_frame.cpp:88 | n whole groups are n groups |
| WriteFrame.GroupOfByte | src/write_frame.cpp:88-90 | each byte of the whole groups is byte k of some group j |
| WriteFrame.InverseAt | src/write_frame.cpp:88-92 | reordering by an order and then by its inverse gives back every byte of the whole groups |
| WriteFrame.ReorderedByInverse | src/write_frame.cpp:88-92 | round trip: reordering by the inverse order undoes the reorder on the row's whole groups |
| WriteFrame.PermuteGroup | src/write_frame.cpp:89-91 | the innermost loop writes one permuted group and nothing else |
| WriteFrame.ReorderedGroup | src/write_frame.cpp:88-91 | group j of the reordered row, cell by cell |
| WriteFrame.ReorderRow | src/write_frame.cpp:88-92 | one row's loops write exactly its reordered whole groups |
| WriteFrame.ReorderBufferedRow | src/write_frame.cpp:87-94 | buffer row i, from the one read, lands reordered in row i of the plane |
| WriteFrame.WritePackedReorder | src/write_frame.cpp:75-96 | every row holds its file row with the whole groups put in order; the trailing bytes and the padding are not written |
| WriteFrame.Evens | src/write_frame.cpp:32 | the first component of each pair |
| WriteFrame.Odds | src/write_frame.cpp:33 | the second component of each pair |
| WriteFrame.Interleave | src/write_frame.cpp:30-34 | two chroma rows put back into pairs |
| WriteFrame.SplitInterleave | src/write_frame.cpp:30-34 | de-interleaving recovers both interleaved rows |
| WriteFrame.InterleaveSplit | src/write_frame.cpp:30-34 | interleaving the two halves of an even-length row gives it back |
| WriteFrame.DeinterleaveRow | src/write_frame.cpp:31-34 | the inner loop splits one row's pairs between the two chroma planes and writes nothing else |
| WriteFrame.ChromaRow | src/write_frame.cpp:28-35 | chroma row r is the pairs one stride per row on, 0 past the end of the file |
| WriteFrame.HalfStrideFits | src/write_frame.cpp:21-35 | the as-written chroma rows fit the chroma read |
| WriteFrame.FullStrideFits | src/write_frame.cpp:21-35 | chroma rows a whole luma row apart fit the chroma read too |
| WriteFrame.MulLe | src/write_frame.cpp:15 | products grow monotonically with both factors |
| WriteFrame.SplitChroma | src/write_frame.cpp:28-38 | every chroma row of both planes holds its pairs' components, and nothing outside the written area changes |
| WriteFrame.WriteNV420 | src/write_frame.cpp:7-39 | as written: luma whole, then chroma row r taken from r times half the width into the chroma bytes |
| WriteFrame.WriteNV420Corrected | src/write_frame.cpp:7-39 | corrected: chroma row r taken from r luma rows into the chroma bytes, as NV12 stores it |
| WriteFrame.HalfStrideMisplacesChroma | src/write_frame.cpp:35 | for a 4x4 NV12 frame the as-written second chroma row is bytes 2-5 instead of 4-7 |
| WriteFrame.RowOf | src/write_frame.cpp:32-33 | the first n bytes of a plane row |
| WriteFrame.FullStrideRowsRoundTrip | src/write_frame.cpp:30-37 | at the full stride, the two chroma planes' rows interleaved again are the file's chroma row |
| GetFrame.SemiPlanarFormats | src/rawsource26.cpp:227-238 | NV12 and NV21 are planar with both chroma planes after Y |
| GetFrame.Nv12Lookup | src/rawsource26.cpp:227-232 | "NV12" selects its branch |
| GetFrame.Nv21Lookup | src/rawsource26.cpp:233-238 | "NV21" selects its branch |
| GetFrame.Nv12Format | src/rawsource26.cpp:414 | any case of NV12 or NV21 is registered with both chroma planes |
| GetFrame.LayoutOf | src/rawsource26.cpp:414-449 | the NV branch is taken exactly for NV12 and NV21 in any case; the plane-by-plane branch only for a planar format, the direct and reorder branches only for packed ones |
| GetFrame.LayoutIsSupplied | src/rawsource26.cpp:414-472 | the chosen branch gets what it indexes: two chroma planes, distinct plane names, or a byte order |
| GetFrame.KeyStartsWith | src/rawsource26.cpp:449 | `strnicmp` on a prefix compares the lower-case prefixes |
| GetFrame.StraightCopyKeys | src/rawsource26.cpp:449 | the registered keys starting bgr or yuy belong to the BGRA, BGR and YUY2 branches |
| GetFrame.IdentityFormats | src/rawsource26.cpp:111-148 | those branches keep the file's byte order |
| GetFrame.StraightCopyNamesKeepByteOrder | src/rawsource26.cpp:449-458 | every name the direct branch takes has the identity order |
| GetFrame.StraightCopyIsReorder | src/rawsource26.cpp:449-472 | the direct copy equals the reorder branch on every row of such a name |
| GetFrame.ReadRows | src/rawsource26.cpp:437-448 | a plane read row by row holds its file rows, as `write_planar`'s one read does, and the padding is kept |
| GetFrame.ReadNamedRows | src/rawsource26.cpp:437-448 | reading the next mapped plane row by row extends the read prefix by that plane and leaves the planes already read holding their bytes |
| GetFrame.ReadPlanes | src/rawsource26.cpp:437-448 | each plane in mapping order holds the file bytes that follow the planes before it; the planes the mapping does not name (the chroma planes of Y8) keep every byte, and no padding changes |
| GetFrame.ReadChromaRow | src/rawsource26.cpp:427-435 | one chroma read splits row i between the two chroma planes |
| GetFrame.ReadChromaRows | src/rawsource26.cpp:424-436 | the chroma loop leaves every chroma row of both planes with its components, one luma row apart in the file |
| GetFrame.ReadReorderedRow | src/rawsource26.cpp:463-471 | one row read on its own lands reordered |
| GetFrame.ReadReorderedRows | src/rawsource26.cpp:459-472 | every row holds its file row reordered, as `write_packed_reorder` leaves it |
| GetFrame.FillSemiPlanar | src/rawsource26.cpp:414-436 | the NV12/NV21 branch fills luma and both chroma planes and keeps the rest |
| GetFrame.FillPlaneByPlane | src/rawsource26.cpp:437-448 | the planar branch fills the named planes in mapping order and leaves the padding and every unnamed plane alone |
| GetFrame.FillStraight | src/rawsource26.cpp:449-458 | the direct branch copies rows as they are and leaves the chroma planes alone |
| GetFrame.FillReordered | src/rawsource26.cpp:459-472 | the reorder branch puts every row's pixel groups in order |
| GetFrame.SeekFailedIsLow32 | src/rawsource26.cpp:411 | the `(int)` cast of the seek result equals -1 exactly when its low 32 bits are all ones |
| GetFrame.SeekAsWrittenFails | src/rawsource26.cpp:411-412 | as written, the frame is skipped exactly when the seek fails or the offset's low 32 bits are all ones |
| GetFrame.CorrectedSeekFailsExactlyOnNegative | src/rawsource26.cpp:411-412 | corrected, the frame is skipped exactly when the seek fails |
| GetFrame.AllOnesSeekRejectedAsWritten | src/rawsource26.cpp:411-412 | a successful seek to 4294967295 is taken for a failure as written and not when corrected |
| GetFrame.UnindexedFrameAtAllOnes | src/utils.cpp:106-110 | without a descriptor, frame 42107522 of an 8x8 4:2:0 stream with a 51-byte header lies at byte 4294967295 |
| GetFrame.UnindexedFrameSkippedAsWritten | src/rawsource26.cpp:411-412 | that frame is returned blank as written, and read when corrected |
| GetFrame.RawSource.constructor | src/rawsource26.cpp:104-242 | the source keeps the registry's format for its name |
| GetFrame.RawSource.GetFrame | src/rawsource26.cpp:386-475 | when the seek result cast to `int` is -1 the frame is returned unchanged; otherwise the frame holds the file bytes from the indexed offset in the layout the name selects, and what that layout does not write is unchanged |

## Left out

- I/O and host calls become parameters or are left out. The file is a byte sequence. The index file's contents are an `Option` (`None` when it cannot be opened). The destination frame from `NewVideoFrame` is passed in. `_open`, `_filelengthi64` and the file-open errors at src/rawsource26.cpp:16-20 are not modelled.
- The debug overlay (`show`, `Subtitle`) at src/rawsource26.cpp:393-408 is left out because it calls into AviSynth.
- Plugin registration and `Create_RawSource` argument checks (src/rawsource26.cpp:568-598) are left out, as are `GetParity`, `GetAudio`, `SetCacheHints` and the destructor. None of them holds logic beyond a host call.
- The commented-out table at src/rawsource26.cpp:71-103 is not code.
- `SetFPS` stores the rate as given. AviSynth's reduction of the fraction is host code.
- The modern constructor that calls `parse_y4m`, `set_rawindex` and the `write_*` functions is not part of this model: it is not among the source files. The writers are modelled with their own contracts.
- Checkpoints.Entry: `sscanf("%d")` into a 32-bit `int` and the legacy `%d` into `num2` are read as unbounded integers. Out-of-range input is undefined behaviour in C.
- IndexBuilder.Retune: the `(int)` casts of checkpoint distances are assumed to lose nothing (`GapsFitInt32`). A distance of 2 GiB or more between neighbouring checkpoints is outside the model.
- IndexBuilder.MaxFrame: the `(int)` cast of the 64-bit quotient `filelen / framesize` (src/rawsource26.cpp:246) is not modelled; the frame count is the exact quotient. It differs only for files of 2^31 frames or more.
- IndexBuilder.FrameSize: `int` overflow of `width * height * bpp` is not modelled; frame sizes are exact.
- IndexBuilder.Place: the big step offset uses the exact product `BigStepOffset`. The source computes `big_delta * big_steps` in 32-bit `int` (src/rawsource26.cpp:339), which is `BigStepOffsetAsWritten`. The two agree while the product fits (IndexBuilder.BigDeltaIsExtrapolatedAsWritten) and differ from frame 725 of a 1080p clip on (IndexBuilder.WrappedBigStepAtFrame725).
- IndexBuilder.BuildIndex: stores the offsets Place computes, so the exact big step offsets; once the product leaves the `int` range the source stores the wrapped ones.
- IndexBuilder.BigDeltaIsExtrapolated: states the exact positions; the source's positions are these only while `big_delta * big_steps` fits 32 bits.
- IndexBuilder.BigStepFires: states the exact big delta positions, as for BigDeltaIsExtrapolated.
- Y4mHeader.SeeColor: `ctag` is a 9-byte buffer and `%s` does not bound the word, so a colour word of 9 or more characters overflows it. The model keeps the whole word.
- PixelTypes.ApplyHeaderCode: requires a pixel type of at least four characters. With a shorter one `strncpy` leaves no terminating NUL, and the name then runs into whatever follows in memory.
- Checkpoints.LegacyRawindex: the legacy index-file buffer is not NUL-terminated after `fread`. The model reads it as a C string of the file's contents. The table's capacity (`maxframe + 1` slots, unchecked in the source) is a precondition.
- GetFrame.RawSource.GetFrame: requires the scratch buffer to hold a row of each plane the chosen layout reads (`FitsBuffer`: the first plane, or the planes the mapping names). The source sizes `rawbuf` for the clip's own frames (src/rawsource26.cpp:253) and does not check this. Only for NV12/NV21 does it also require chroma planes with half the luma rows and half a luma row of pitch (`FitsNv12`). The memset of `vi.width` bytes is modelled as clearing exactly the bytes read, which gives the same copied bytes. `n` must index the built index; AviSynth clamps it. The seek test keeps the source's `(int)` cast (Findings), so a frame at a position whose low 32 bits are all ones is returned blank.
- GetFrame.FillSemiPlanar: requires `FitsNv12`; with smaller chroma planes the source writes past them (src/rawsource26.cpp:424-436).
- WriteFrame.WriteNV420: both chroma planes are stepped by the `order[1]` plane's pitch, so equal chroma pitches are a precondition.
- A `444alpha` header yields "AYUV", which has no registry entry, so it always ends in "Invalid pixel type" (PixelTypes.AlphaHeaderIsRejected). This is modelled as written.
- The frame-rate reads: the newer parser's `validate` throws inside the loop, and the legacy one returns -1; both are modelled as a stop of the scan.
- Memory-safety hazards (unchecked array sizes, buffer lengths) are preconditions rather than modelled behaviour.

## Findings

| source | as written | input that shows it | evidently intended | confidence | as-written member | corrected member |
|---|---|---|---|---|---|---|
| src/write_frame.cpp:35 | after halving `width`, the chroma loop advances the buffer by `width` (half a luma row) per chroma row, although each row consumes a whole luma row of interleaved pairs | a 4x4 NV12 frame with chroma bytes 0..7: row 1 of the first chroma plane comes out 2, 4 instead of 4, 6 | advance by a whole luma row (`width * 2` after the halving), as the legacy GetFrame does | high, not executed | WriteFrame.WriteNV420, WriteFrame.HalfStrideMisplacesChroma | WriteFrame.WriteNV420Corrected, WriteFrame.FullStrideRowsRoundTrip |
| src/rawsource26.cpp:55-56 | `strncpy(pix_type, "I420", 4)` overwrites only four characters and keeps the rest of the user's pixel type | pixel type "YV411" with a 4:2:0 header becomes "I4201", rejected as an invalid pixel type | the header's colour space replaces the whole name | medium, not executed | PixelTypes.ApplyHeaderCode, PixelTypes.HeaderCodeKeepsTail | PixelTypes.CanonicalHeaderName |
| src/rawsource26.cpp:339 | `big_delta * big_steps` is a product of two 32-bit `int`s, computed before it is widened for the 64-bit byte position | 1920x1080 4:2:0 frames with checkpoints every 25 frames: big delta 77760000, and the 28th big step (frame 725) wraps to -2039927296 instead of 2255040000 | the product computed in 64 bits | high, not executed | IndexBuilder.BigStepOffsetAsWritten, IndexBuilder.BigStepOffsetWrapsAt28Steps, IndexBuilder.WrappedBigStepAtFrame725 | IndexBuilder.BigStepOffset, IndexBuilder.BigStepsAreEvenlySpaced, IndexBuilder.BigDeltaIsExtrapolatedAsWritten |
| src/rawsource26.cpp:411 | the 64-bit position `_lseeki64` returns is cast to `int` before it is compared with -1, so a successful seek to a position whose low 32 bits are all ones counts as a failure | an 8x8 4:2:0 stream without an index, header 51 bytes, stride 102 bytes: frame 42107522 lies at byte 4294967295 and is returned blank | compare the 64-bit result with -1 | high, not executed | GetFrame.SeekFailed, GetFrame.SeekAsWrittenFails, GetFrame.UnindexedFrameSkippedAsWritten | GetFrame.SeekFailedCorrected, GetFrame.CorrectedSeekFailsExactlyOnNegative |
