# mml2midi in Dafny

mml2midi turns Music Macro Language text into a Standard MIDI File. It does this in four stages:

1. The **lexer** (`source/mml-lexer.c`) cuts the UTF-8 text into tokens. Tokens are note letters, commands, numbers, `+ - . ; [ ] : { }`, `@name` expansions and `!name` definitions.
2. The **parser** (`source/mml-parser.c`) turns the tokens into an event sequence. Events are notes, control commands and one End-of-Track per `;`. Along the way it unrolls `[body:break]n` loops, registers `!name{...}` macros and copies their bodies at each `@name`.
3. The **translator** (`source/mml-writer-midi.c`) walks the event sequence one track at a time, at most 16 tracks, one channel each. For each track it writes a tempo meta event, then note-on/note-off pairs under running status, then End of Track.
4. The **MIDI codec** (`extern/midi-codec/midi-parser.h`) and the **SMF writer** (`extern/midi-codec/midi-writer.h`) encode events and lay out the `MThd`/`MTrk` chunks. The writer patches each track's length and the header's track count after the fact.

The shared declarations, the growable array macros and the token and event types come from `source/mml2midi.h`.

Each C file is one Dafny module. The imperative code keeps its imperative form:

- a `DynArray` class for the `da_*` macros;
- a `Scanner` class for `mmlexer`;
- a `Parser` class for `parser_context`;
- a `TrackParser` class for `track_parser_t`;
- `Sink` and `Writer` classes for the output file and `midi_writer_t`;
- a `Context` class for `mml_context`.

Their loops are `while` loops with invariants. Every method is proved against a functional specification of the same routine, kept in its own module (`ParserSpec`, `Translator`) or next to it (`Lexer`, `MidiCodec`, `MidiWriter`). Properties of the whole pipeline are lemmas about those functions (`ParserProps`, `TranslatorProps`).

The modules, in dependency order:

| module | file | models |
|---|---|---|
| `Bytes` | bytes.dfy | `uint8_t`/`uint16_t`/`uint32_t` as subset types, explicit wrap-around, big-endian fields, C's `\|` |
| `Mml` | mml.dfy | `mml2midi.h`: `da_reserve`/`da_append`/`da_append_many`, `token_kind`, `token`, `mml_event` |
| `Lexer` | lexer.dfy | `mml-lexer.c` |
| `ParserSpec` | parser_spec.dfy | what each routine of `mml-parser.c` does, as functions over the token array |
| `MmlParser` | parser.dfy | `mml-parser.c` as a class over a token array and macro table |
| `ParserProps` | parser_props.dfy | loop unrolling, note/command fields, macro semantics, one End-of-Track per `;` |
| `MidiCodec` | midi_codec.dfy | `midi-parser.h`: VLQ, MIDI events, track events, the track reader |
| `MidiWriter` | midi_writer.dfy | `midi-writer.h` over a seekable byte sink |
| `Translator` | translator.dfy | `mml-writer-midi.c` as functions on a context value |
| `MmlWriterMidi` | context.dfy | `mml-writer-midi.c` as a class that mutates the context and drives the writer |
| `TranslatorProps` | translator_props.dfy | framing of every track, output-only-grows, a worked example `t120 o4 c4;` |

Modelling choices:

- **Aborts become values.** `abort()`, a failing `assert` and `__asm("int3")` become error values: an `Err`/`Abort` outcome, `ok == false` or `-1`.
- **Integers.** They are unbounded in Dafny, and every 32- and 64-bit wrap-around the C code performs is written out with `%`. This covers `loopi - 1` for a loop count of 0, `current_tick - last_tick`, `ctx->channel += 1` and the `int` octave.
- **Character classes.** The C `isspace`, `isdigit` and `isalnum` are taken in the "C" locale.
- **The output file is a `Sink`.** It is a byte sequence with a position. A write at the position either overwrites or extends the sequence, and a seek moves the position.

## Model

| member | source | states |
|---|---|---|
| Bytes.BE32RoundTrip | extern/midi-codec/midi-writer.h:63-77 | the four bytes `_mw_write_u32` stores read back, big-endian, as the value written |
| Bytes.BE16RoundTrip | extern/midi-codec/midi-writer.h:79-91 | the two bytes `_mw_write_u16` stores read back as the value written |
| Bytes.BE32Injective | extern/midi-codec/midi-writer.h:63-77 | any four bytes are the encoding of the number they spell, so the encoding is a bijection |
| Bytes.BE16Injective | extern/midi-codec/midi-writer.h:79-91 | the same for two-byte fields |
| Bytes.BitOrAtLeast | extern/midi-codec/midi-parser.h:144-145 | `|` never clears a bit: the result is at least either operand |
| Bytes.Or8 | extern/midi-codec/midi-parser.h:144-145 | the byte `|` that builds a status byte is at least either operand, and a kind shifted into the high nibble OR-ed with a channel below 16 is their sum |
| Bytes.BitOrDisjoint | extern/midi-codec/midi-parser.h:144-145 | OR-ing a value into bits a shift left clear is addition, so `kind << 4` OR-ed with the channel is `16*kind + channel` |
| Mml.GrowFromProperties | source/mml2midi.h:20 | doubling from a positive capacity reaches at least the need, overshoots by less than a factor of two, and keeps capacities of the form 32·2^k |
| Mml.ReservedProperties | source/mml2midi.h:14-23 | after `da_reserve` the capacity covers the request, never shrinks, is unchanged when already large enough and otherwise is 32·2^k |
| Mml.DynArray.constructor | source/mml2midi.h:101-105 | a zero-initialised sequence is empty with capacity 0 |
| Mml.DynArray.Reserve | source/mml2midi.h:14-23 | the capacity becomes the reserved capacity for the request and the items are untouched |
| Mml.DynArray.Append | source/mml2midi.h:25-30 | the items gain exactly the new item at the end, with capacity reserved for one more |
| Mml.DynArray.AppendMany | source/mml2midi.h:32-38 | the items gain exactly the given items, in order, at the end |
| Lexer.Utf8CharLen | source/mml-lexer.c:9-17 | a lead byte's sequence length is 1 to 4 and ASCII bytes have length 1 |
| Lexer.SkipSpace | source/mml-lexer.c:44-48 | the offset reached is the first non-space byte at or after the start, or the end, with only spaces skipped |
| Lexer.RunEnd | source/mml-lexer.c:90-137 | a run of identifier, definition-name or digit bytes stops at the first byte outside its class or at the end |
| Lexer.TokenAt | source/mml-lexer.c:60-143 | a byte that starts no token is reported there, and otherwise the token starts at the offset, is classified by its bytes, and the lexer moves past it |
| Lexer.NextToken | source/mml-lexer.c:50-144 | end of input after whitespace gives the empty EOF token, an unclassifiable byte after whitespace is an error at exactly that byte, otherwise the token follows only whitespace and agrees with its kind |
| Lexer.LexAllEndsWithEof | source/mml-lexer.c:146-173 | a successful token stream ends with exactly one EOF token and has no other, and a failure names an unclassifiable non-space byte inside the input |
| Lexer.LexAllLayout | source/mml-lexer.c:146-173 | the tokens are contiguous, increasing, separated only by whitespace and each agrees with its kind |
| Lexer.LexAllStep | source/mml-lexer.c:165-170 | one round of the tokenize loop either fails, ends with EOF, or prepends a token and strictly advances |
| Lexer.Scanner.constructor | source/mml-lexer.c:153-157 | a lexer starts at offset 0 over the given text and size |
| Lexer.Scanner.SkipWhitespace | source/mml-lexer.c:44-48 | the loop moves the offset to the point the whitespace specification names |
| Lexer.Scanner.ScanRun | source/mml-lexer.c:90-137 | the measured run length reaches exactly the end of the run |
| Lexer.Scanner.ReadNextToken | source/mml-lexer.c:50-144 | `read_next_token` returns the specified token or error and leaves the offset after the token |
| Lexer.Scanner.ReadTokenAt | source/mml-lexer.c:60-143 | the classification step returns the specified token and advances past it |
| Lexer.StrLen | source/mml-lexer.c:150 | `strlen` finds the first NUL byte |
| Lexer.Tokenize | source/mml-lexer.c:146-173 | `mml_tokenize` (length 0 meaning "up to the NUL") produces the whole specified token stream or the specified error |
| ParserSpec.StrToUnsigned | source/mml-parser.c:115-124 | `strtoul` into `unsigned` gives the decimal value when it fits in 32 bits and all ones when `strtoul` saturates |
| ParserSpec.DecimalValueBound | source/mml-parser.c:118-122 | n digits denote less than 10^n |
| ParserSpec.ShortNumbersExact | source/mml-parser.c:118-122 | numbers of up to nine digits are read exactly |
| ParserSpec.MacroLookupFirst | source/mml-parser.c:33-43 | `macro_search` fails exactly when no entry has the name, and otherwise returns the first entry with that name |
| ParserSpec.MacroLookupAppend | source/mml-parser.c:337-338 | registering a macro never changes an earlier hit (the first definition wins), and finds the new one only for a name not yet defined |
| ParserSpec.DotRun | source/mml-parser.c:126-134 | the dots counted are exactly the run of dot tokens, which the next token ends |
| ParserSpec.AfterAccidental | source/mml-parser.c:98-110 | at most one accidental is consumed and the index stays inside the token array |
| ParserSpec.AfterNumber | source/mml-parser.c:112-124 | an optional length number is consumed without leaving the token array |
| ParserSpec.ParseNoteF | source/mml-parser.c:90-151 | parsing a note never aborts and, when it matches, consumes at least the note token |
| ParserSpec.ParseCommandF | source/mml-parser.c:153-188 | parsing a command never aborts and, when it matches, consumes at least the command token |
| ParserSpec.ParseExpansionF | source/mml-parser.c:65-88 | a matched expansion consumes exactly its token |
| ParserSpec.ParseLoopF | source/mml-parser.c:192-271 | a matched loop consumes everything up to its count |
| ParserSpec.ParseLoopScanned | source/mml-parser.c:192-271 | once body and break part are scanned, the loop's outcome is decided by the closing `]` and count alone |
| ParserSpec.BreakScan | source/mml-parser.c:217-237 | a break part, when present, is scanned without leaving the token array |
| ParserSpec.LoopClose | source/mml-parser.c:239-268 | a closed loop consumes `]` and its count |
| ParserSpec.ParseActionF | source/mml-parser.c:273-282 | a matched action consumes at least one token |
| ParserSpec.ScanF | source/mml-parser.c:203-215 | a body scan stops exactly at a token that ends its scope (`]`/`:`, `]` or `}`, or EOF) |
| ParserSpec.ScanItem | source/mml-parser.c:203-215 | one action of a body scan keeps the stop property |
| ParserSpec.DefinitionAt | source/mml-parser.c:284-341 | a definition, when accepted, consumes its tokens through the closing brace |
| ParserSpec.DefinitionClose | source/mml-parser.c:320-338 | closing a definition consumes exactly one `}` |
| ParserSpec.ParseTrackF | source/mml-parser.c:343-365 | a track ends at `;` or EOF and consumes something unless it starts there |
| ParserSpec.TrackItem | source/mml-parser.c:346-364 | one item of a track advances and keeps the track's stop property |
| MmlParser.AppendUnrolled | source/mml-parser.c:263-268 | the unrolling loop appends exactly `body (break body)^(n-1)` where n-1 wraps, so a count of 0 gives 2^32-1 repetitions |
| MmlParser.AppendRound | source/mml-parser.c:265-266 | one round appends the body then the break part |
| MmlParser.Parser.constructor | source/mml-parser.c:376 | the parser starts at index 0 with an empty macro table |
| MmlParser.Parser.Advance | source/mml-parser.c:45-49 | returns the current token and moves one on |
| MmlParser.Parser.Expect | source/mml-parser.c:51-57 | consumes the token exactly when it has the kind, and reports which |
| MmlParser.Parser.MacroSearch | source/mml-parser.c:33-43 | the search loop returns the specified first match |
| MmlParser.Parser.ReadNumber | source/mml-parser.c:117-123 | the buffer copy and `strtoul` give the token's number |
| MmlParser.Parser.ReadAccidental | source/mml-parser.c:98-110 | `+` gives 1, `-` gives -1, anything else 0, consuming the sign only |
| MmlParser.Parser.ReadOptNumber | source/mml-parser.c:112-124 | reads a number when one follows and 0 otherwise |
| MmlParser.Parser.CountDots | source/mml-parser.c:126-134 | the loop counts the dot run, modulo 2^32, and skips it |
| MmlParser.Parser.ParseNote | source/mml-parser.c:90-151 | `parse_note` does what `ParseNoteF` says, to the index and the output |
| MmlParser.Parser.ParseCommand | source/mml-parser.c:153-188 | `parse_command` does what `ParseCommandF` says |
| MmlParser.Parser.ParseExpansion | source/mml-parser.c:65-88 | `parse_expansion` appends the macro body or aborts with the specified error |
| MmlParser.Parser.ScanActions | source/mml-parser.c:203-215 | the body loop appends exactly the scanned events and stops where the scan stops, or aborts with its error |
| MmlParser.Parser.ScanStep | source/mml-parser.c:205-214 | one round of a body loop advances and leaves the rest of the scan to the following rounds |
| MmlParser.Parser.ScanInto | source/mml-parser.c:198-201 | scanning into a fresh sequence leaves the parent untouched and collects the scan in the target |
| MmlParser.Parser.ParseLoop | source/mml-parser.c:192-271 | `parse_loop` does what its specification says, to the index and the parent sequence |
| MmlParser.Parser.LoopTail | source/mml-parser.c:217-270 | the part after the body finishes the loop as specified |
| MmlParser.Parser.ScanBreak | source/mml-parser.c:217-237 | the break part is collected into its own sequence exactly as specified |
| MmlParser.Parser.CloseLoop | source/mml-parser.c:239-268 | the `]` check, count read and unrolling append as specified or abort |
| MmlParser.Parser.ParseAction | source/mml-parser.c:273-282 | tries note, command, loop, expansion in that order, as specified |
| MmlParser.Parser.ParseDefinition | source/mml-parser.c:284-341 | outside a definition token nothing changes, otherwise the macro table and index become the specified ones or the parser aborts |
| MmlParser.Parser.DefinitionBody | source/mml-parser.c:303-340 | the body loop and close register the macro as specified |
| MmlParser.Parser.CloseDefinition | source/mml-parser.c:320-338 | the `}` check, then an empty body registers nothing and a non-empty one is appended to the table |
| MmlParser.Parser.ParseTrack | source/mml-parser.c:343-365 | `parse_track` appends the specified events and leaves the specified macro table |
| MmlParser.Parser.TrackStep | source/mml-parser.c:348-363 | one round of the track loop advances and defers the rest |
| MmlParser.Parser.ParseAll | source/mml-parser.c:378-392 | the top-level loop appends exactly the specified events or aborts with the error |
| MmlParser.Parser.TopLevelStep | source/mml-parser.c:380-391 | one round: `;` appends End of Track, anything else parses a track |
| MmlParser.MmlParse | source/mml-parser.c:367-395 | `mml_parse` appends the specified events, and fails with nothing appended when the first token is EOF |
| ParserProps.RepeatShift | source/mml-parser.c:263-268 | `(b·r)^k·b == b·(r·b)^k`, the reshaping that explains the unrolled layout |
| ParserProps.RepeatLength | source/mml-parser.c:263-268 | k repetitions are k times as long |
| ParserProps.UnrollShape | source/mml-parser.c:263-268 | a loop `[b:r]n` plays the body n times with the break part between repetitions, 2^32 times for n = 0, and its length follows |
| ParserProps.NoteFields | source/mml-parser.c:90-151 | a note is parsed exactly at a note token, into one event with its pitch byte, accidental, length (0 when absent), dot count, and no tie or chord link |
| ParserProps.CommandFields | source/mml-parser.c:153-188 | a command is parsed exactly at a command token, into one control event whose value is the following number or 0 |
| ParserProps.ExpansionCopiesFirst | source/mml-parser.c:65-88 | an expansion fails exactly for an undefined name and otherwise copies the body of the first macro with that name |
| ParserProps.DefinitionRegisters | source/mml-parser.c:284-338 | a definition succeeds exactly when the name is not empty, `{` follows and the body scan stops at `}`; it then resumes after the `}`, registers the scanned body under the name unless that body is empty (table unchanged), and never changes how an earlier name resolves |
| ParserProps.SemicolonsSkip | source/mml-parser.c:384-388 | stretches without `;` do not change the semicolon count ahead |
| ParserProps.UnrollNoEot | source/mml-parser.c:263-268 | unrolling bodies without End of Track adds none |
| ParserProps.RepeatNoEot | source/mml-parser.c:263-268 | repeating such a body adds none |
| ParserProps.NoteClean | source/mml-parser.c:90-151 | a note emits no End of Track and consumes no `;` |
| ParserProps.CommandClean | source/mml-parser.c:153-188 | the same for a command |
| ParserProps.ExpansionClean | source/mml-parser.c:65-88 | the same for an expansion, given macro bodies without End of Track |
| ParserProps.ActionClean | source/mml-parser.c:273-282 | the same for any action |
| ParserProps.LoopClean | source/mml-parser.c:192-271 | the same for a loop |
| ParserProps.LoopCloseClean | source/mml-parser.c:239-268 | the same for a loop's close and unrolling |
| ParserProps.BreakClean | source/mml-parser.c:217-237 | the same for a break part |
| ParserProps.BodyClean | source/mml-parser.c:203-215 | the same for a whole body scan |
| ParserProps.BodyItemClean | source/mml-parser.c:203-215 | the same for one item of a body scan |
| ParserProps.DefinitionClean | source/mml-parser.c:284-341 | definitions keep every macro body free of End of Track, consume no `;` and never fail with the empty-input error |
| ParserProps.TrackClean | source/mml-parser.c:343-365 | a track emits no End of Track, consumes no `;` and keeps the table clean |
| ParserProps.TrackItemClean | source/mml-parser.c:346-364 | the same for one track item |
| ParserProps.TopLevelEots | source/mml-parser.c:378-392 | the events from any point hold exactly as many End-of-Track events as there are `;` tokens ahead |
| ParserProps.TrackThenRestEots | source/mml-parser.c:378-392 | the same starting at a track |
| ParserProps.MmlParseEots | source/mml-parser.c:367-395 | the empty-input error happens exactly when the first token is EOF, and a parse has one End of Track per `;` |
| MidiCodec.Shl7 | extern/midi-codec/midi-parser.h:206 | the 32-bit `value << 7` leaves the low seven bits clear |
| MidiCodec.Shl7Exact | extern/midi-codec/midi-parser.h:206 | below 2^25 the shift loses nothing |
| MidiCodec.VlqBytes | extern/midi-codec/midi-parser.h:176-191 | a 32-bit value takes one to five VLQ bytes |
| MidiCodec.VlqShape | extern/midi-codec/midi-parser.h:176-191 | every VLQ byte but the last has the continuation bit, the length is the minimal one for the value, and 0 is `[0]` |
| MidiCodec.VlqFromFails | extern/midi-codec/midi-parser.h:203-215 | decoding from a position fails exactly when no byte before the fifth ends the number, else stops after the first byte without the high bit |
| MidiCodec.VlqDecodeFails | extern/midi-codec/midi-parser.h:193-216 | `midi_vlq_decode` fails exactly on empty input or five (or all available) continuation bytes |
| MidiCodec.VlqRoundTrip | extern/midi-codec/midi-parser.h:176-216 | decoding what the encoder wrote, with anything after it, gives back the value and its length |
| MidiCodec.VlqRoundTrip2 | extern/midi-codec/midi-parser.h:176-216 | the round trip for two-byte values |
| MidiCodec.VlqRoundTrip3 | extern/midi-codec/midi-parser.h:176-216 | the round trip for three-byte values |
| MidiCodec.VlqRoundTrip4 | extern/midi-codec/midi-parser.h:176-216 | the round trip for four-byte values |
| MidiCodec.VlqRoundTrip5 | extern/midi-codec/midi-parser.h:176-216 | the round trip for five-byte values |
| MidiCodec.VlqEncode | extern/midi-codec/midi-parser.h:176-191 | the encoder writes exactly the VLQ bytes at the position and nothing else |
| MidiCodec.VlqDecode | extern/midi-codec/midi-parser.h:193-216 | the decoding loop returns -1 or the specified value and byte count |
| MidiCodec.StatusByteValue | extern/midi-codec/midi-parser.h:142-147 | the status byte's high nibble is the kind and the low nibble the channel |
| MidiCodec.PitchBendBytes | extern/midi-codec/midi-parser.h:164-167 | the corrected pitch-bend encoding writes two 7-bit data bytes that spell any 14-bit value |
| MidiCodec.DataBytes | extern/midi-codec/midi-parser.h:149-170 | data bytes exist exactly for the seven channel-message kinds, two or one by kind |
| MidiCodec.EventBytes | extern/midi-codec/midi-parser.h:134-174 | a known kind encodes to its status byte (left out under running status) followed by its data bytes, and an unknown kind to nothing |
| MidiCodec.EventToBytes | extern/midi-codec/midi-parser.h:134-174 | `midi_event_to_bytes` returns -1 and writes nothing for an unknown kind, and otherwise writes exactly the encoding and returns its length |
| MidiCodec.PitchBendJoin | extern/midi-codec/midi-parser.h:254-294 | a 7-bit LSB and any MSB join into `lsb + 128*msb` |
| MidiCodec.DecodeData | extern/midi-codec/midi-parser.h:254-294 | reading data bytes fails exactly when a two-byte message is cut short, takes kind and channel from the status, and consumes no bytes for unknown kinds |
| MidiCodec.EventFromBytes | extern/midi-codec/midi-parser.h:254-294 | a decoded event consumes its status byte and stays within the input |
| MidiCodec.EventFromBytesRolling | extern/midi-codec/midi-parser.h:296-336 | a running-status decode stays within the input |
| MidiCodec.DataRoundTrip | extern/midi-codec/midi-parser.h:134-336 | decoding the data bytes of a canonical event under its own status into any previous event gives back the event, with the second union byte kept where the kind has one data byte |
| MidiCodec.Overlay | extern/midi-codec/midi-parser.h:277-281 | decoding into a previous event keeps kind, channel and first byte from the message, and the second byte from the previous event exactly for one-data-byte kinds; a previous event with the same second byte is overwritten exactly |
| MidiCodec.EventRoundTrip | extern/midi-codec/midi-parser.h:134-336 | both encodings (with status, and running status read back under the status) decode into any previous event as the canonical event with only the untouched union byte kept, consume exactly its bytes, and into a zeroed event give the event back exactly |
| MidiCodec.PitchBendSplit | extern/midi-codec/midi-parser.h:164-167 | the corrected encoding of a decoded pitch bend gives back its two data bytes |
| MidiCodec.DataBytesOfDecoded | extern/midi-codec/midi-parser.h:254-336 | decoding 7-bit data bytes yields a canonical event that re-encodes to exactly the bytes consumed |
| MidiCodec.EventBytesOfDecoded | extern/midi-codec/midi-parser.h:254-294 | the same for a whole event with its status byte, the round trip the other way |
| MidiCodec.BodyBytes | extern/midi-codec/midi-parser.h:229-249 | an event body has an encoding unless it is a MIDI event of unknown kind |
| MidiCodec.TrackEventBytes | extern/midi-codec/midi-parser.h:218-252 | a track event has an encoding exactly when its body does, and it starts with the delta's VLQ |
| MidiCodec.PayloadBytes | extern/midi-codec/midi-parser.h:232-248 | a meta or SysEx payload is its lead bytes, the VLQ length and that many data bytes |
| MidiCodec.TrackEventResultAsWrittenHidesError | extern/midi-codec/midi-parser.h:231 | as written, an unknown MIDI kind with delta 0 returns 0, which looks like success, although the event has no encoding |
| MidiCodec.TrackEventResultAsWrittenElsewhere | extern/midi-codec/midi-parser.h:218-252 | as written, the result matches the encoding length for every encodable event, and the defect only hides errors |
| MidiCodec.StorageSizeCounts | extern/midi-codec/midi-parser.h:95-132 | the storage size is the encoding length for MIDI and meta events and one more for SysEx (the F7 terminator it counts but the writer never writes) |
| MidiCodec.MidiStorageSize | extern/midi-codec/midi-parser.h:95-132 | for MIDI events, the size is the encoding length for known kinds and delta plus status for unknown ones |
| MidiCodec.LeadToBytes | extern/midi-codec/midi-parser.h:233-237 | writes the lead bytes and VLQ length at the position and nothing else |
| MidiCodec.PayloadToBytes | extern/midi-codec/midi-parser.h:232-248 | writes exactly the payload encoding at the position |
| MidiCodec.BodyToBytes | extern/midi-codec/midi-parser.h:229-249 | writes exactly the body's encoding or returns -1 |
| MidiCodec.TrackEventToBytes | extern/midi-codec/midi-parser.h:218-252 | corrected `track_event_to_bytes`: -1 for an unknown MIDI kind, otherwise exactly the encoding written and its length returned |
| MidiCodec.Int32Of | source/mml-writer-midi.c:167 | converting an `unsigned` to `int` gives the value in the `int` range that agrees with it modulo 2^32 |
| MidiCodec.TrackParser.constructor | extern/midi-codec/midi-parser.h:75-80 | a zero-initialised reader starts at index 0 with no running status |
| MidiCodec.TrackParser.Next | extern/midi-codec/midi-parser.h:338-405 | `track_event_next` into the caller's event returns, advances and updates running status as `NextF` specifies, decoding channel messages over the event's previous MIDI part |
| MidiCodec.TrackParser.ReadEvent | extern/midi-codec/midi-parser.h:356-400 | the dispatch after the delta follows `EventAt`: channel messages, with or without status, are decoded into the caller's previous event, SysEx and meta into their own fields |
| MidiCodec.TrackParser.ReadSysex | extern/midi-codec/midi-parser.h:365-375 | the SysEx branch follows the specification and keeps the running status |
| MidiCodec.TrackParser.ReadMeta | extern/midi-codec/midi-parser.h:376-388 | the meta branch follows the specification and keeps the running status |
| MidiCodec.DeltaAt | extern/midi-codec/midi-parser.h:338-355 | the reader decodes the delta written in front of an event and resumes right after it |
| MidiCodec.NextReadsMidi | extern/midi-codec/midi-parser.h:218-405 | the reader reads a written MIDI event back into any previous event, whatever the previous status, and records its status |
| MidiCodec.NextReadsRunningStatus | extern/midi-codec/midi-parser.h:218-405 | an event written without its status is read back into any previous event under the previous status |
| MidiCodec.MetaAtReads | extern/midi-codec/midi-parser.h:376-388 | the meta branch reads type, length and data back from a written meta payload |
| MidiCodec.MetaFieldsRead | extern/midi-codec/midi-parser.h:376-388 | the meta branch's result in terms of the bytes after `FF type` |
| MidiCodec.NextReadsMeta | extern/midi-codec/midi-parser.h:218-405 | a written meta event is read back with its delta, type and length, leaving the running status alone |
| MidiCodec.NextNeedsStatus | extern/midi-codec/midi-parser.h:389-400 | a data byte with no running status in effect is an error |
| MidiCodec.NextStatusOnlyFromStatusByte | extern/midi-codec/midi-parser.h:356-400 | for all inputs, the running status changes only to the explicit 0x80-0xEF status byte of the message just read, SysEx and meta leave it alone, and a channel message is read only under a channel status |
| MidiCodec.ProgramKeepsSecondByte | extern/midi-codec/midi-parser.h:277-281 | a Program Change read after Note-On `3C 64` keeps 0x64 in the union's second byte, and 0 when read into a zeroed event |
| MidiCodec.PitchBendAsWrittenMisread | extern/midi-codec/midi-parser.h:164-167 | as written, pitch bend 0x80 encodes as `80 01` and the package's own reader rejects it, while the corrected `00 01` reads back as 0x80 |
| MidiWriter.Header | extern/midi-codec/midi-writer.h:93-110 | the header chunk is 14 bytes |
| MidiWriter.Chunk | extern/midi-codec/midi-writer.h:112-166 | a track chunk is 8 bytes plus its body |
| MidiWriter.ReadChunksFront | extern/midi-codec/midi-writer.h:112-166 | a written chunk is read back, followed by whatever comes after it |
| MidiWriter.ReadChunksFrom | extern/midi-codec/midi-writer.h:112-166 | reading back a sequence of written chunks gives back the track bodies |
| MidiWriter.ChunksSame | extern/midi-codec/midi-writer.h:112-166 | the two ways of concatenating chunks agree |
| MidiWriter.ChunksFromAppend | extern/midi-codec/midi-writer.h:112-166 | adding a track adds its chunk at the end |
| MidiWriter.ReadSmfHeader | extern/midi-codec/midi-writer.h:93-110 | the header fields read back from a written header |
| MidiWriter.SmfRoundTrip | extern/midi-codec/midi-writer.h:93-178 | a finished file reads back as its format, track count modulo 2^16, tick division and track bodies |
| MidiWriter.Put | extern/midi-codec/midi-writer.h:74 | one byte written at a position overwrites or extends the file |
| MidiWriter.WriteAt | extern/midi-codec/midi-writer.h:74 | writing bytes at a position grows the file to cover them |
| MidiWriter.WriteAtEnd | extern/midi-codec/midi-writer.h:131 | writing at the end appends |
| MidiWriter.WriteAtInside | extern/midi-codec/midi-writer.h:151-155 | writing inside the file replaces exactly the bytes covered |
| MidiWriter.WriteAtThenWriteAt | extern/midi-codec/midi-writer.h:74 | two consecutive writes are one write of both |
| MidiWriter.Sink.constructor | extern/midi-codec/midi-writer.h:94 | the file starts empty at position 0 |
| MidiWriter.Sink.Write | extern/midi-codec/midi-writer.h:74 | `fwrite` stores at the position and advances it |
| MidiWriter.Sink.Seek | extern/midi-codec/midi-writer.h:151 | `fseek(SEEK_SET)` moves the position only |
| MidiWriter.OverwriteMiddle | extern/midi-codec/midi-writer.h:151-155 | overwriting a field of equal length keeps what surrounds it |
| MidiWriter.PatchTrackLength | extern/midi-codec/midi-writer.h:141-166 | patching the placeholder with the body length turns the open track into a proper chunk |
| MidiWriter.PatchFour | extern/midi-codec/midi-writer.h:151-155 | patching four bytes after the magic keeps magic and body |
| MidiWriter.PatchTrackCount | extern/midi-codec/midi-writer.h:168-178 | patching offset 10 sets the header's track count and nothing else |
| MidiWriter.ChunksAppend | extern/midi-codec/midi-writer.h:141-166 | closing a track adds its chunk at the end |
| MidiWriter.TrackEndOffsets | extern/midi-codec/midi-writer.h:149-153 | `track_offset - 4` is the length field and `i - track_offset` is the body length in 32-bit arithmetic |
| MidiWriter.BeginStep | extern/midi-codec/midi-writer.h:93-110 | beginning writes the 14-byte header with the track-count placeholder |
| MidiWriter.TrackBeginStep | extern/midi-codec/midi-writer.h:112-123 | beginning a track appends `MTrk` and the length placeholder |
| MidiWriter.AppendStep | extern/midi-codec/midi-writer.h:125-139 | appending at the end extends the open track's body |
| MidiWriter.AppendData | extern/midi-codec/midi-writer.h:125-139 | appending at the end extends the last part |
| MidiWriter.TrackEndStep | extern/midi-codec/midi-writer.h:141-166 | ending a track patches its length and it becomes the last closed track |
| MidiWriter.EndStep | extern/midi-codec/midi-writer.h:168-178 | ending patches the track count into the header and gives the finished file |
| MidiWriter.HeaderWrites | extern/midi-codec/midi-writer.h:103-107 | the five header writes together write the header |
| MidiWriter.FiveWrites | extern/midi-codec/midi-writer.h:103-107 | five consecutive writes are one write of their concatenation |
| MidiWriter.Writer.constructor | extern/midi-codec/midi-writer.h:11-24 | a zero-initialised writer has no file, offset 0 and no tracks |
| MidiWriter.Writer.WriteU32 | extern/midi-codec/midi-writer.h:63-77 | writes the big-endian bytes at the file position and adds 4 to the 32-bit offset |
| MidiWriter.Writer.WriteU16 | extern/midi-codec/midi-writer.h:79-91 | writes the two big-endian bytes and adds 2 to the offset |
| MidiWriter.Writer.WriteHeaderChunk | extern/midi-codec/midi-writer.h:103-107 | the five header writes put "MThd", length 6, the format, the placeholder count and the division at the offset and advance it by 14 |
| MidiWriter.Writer.Begin | extern/midi-codec/midi-writer.h:93-110 | an empty file gets the header, no tracks are open and the writer is between tracks |
| MidiWriter.Writer.TrackBegin | extern/midi-codec/midi-writer.h:112-123 | a track is opened with an empty body, 8 bytes on |
| MidiWriter.Writer.TrackAppend | extern/midi-codec/midi-writer.h:125-139 | returns -1 for length 0, and the body grows by exactly the first `len` bytes |
| MidiWriter.Writer.TrackEnd | extern/midi-codec/midi-writer.h:141-166 | the open body is added as the last track and the offset is restored |
| MidiWriter.Writer.End | extern/midi-codec/midi-writer.h:168-178 | the file becomes exactly the SMF file of the format, division and tracks written |
| Translator.ToLower | source/mml-writer-midi.c:18 | `tolower` maps exactly A-Z to a-z |
| Translator.PitchToMidiNote | source/mml-writer-midi.c:15-40 | a note is -1 exactly for letters other than a-g (of either case) and otherwise in 0..127 |
| Translator.BaseNoteTable | source/mml-writer-midi.c:18-32 | the letters c d e f g a b, either case, have the semitones 0 2 4 5 7 9 11 and `r` is a rest |
| Translator.PitchExact | source/mml-writer-midi.c:34-39 | inside the range the note is `(octave+1)*12 + base + accidental`, so `c` in octave 4 is 60 and `A4` is 69 |
| Translator.PitchClamps | source/mml-writer-midi.c:36-37 | out-of-range notes clamp to 0 or 127, and a sharp raises by at most one semitone |
| Translator.PitchEnharmonic | source/mml-writer-midi.c:23-34 | `e+` is `f`, `b+` is the next octave's `c`, and `c-` is the previous octave's `b` |
| Translator.DotSumBound | source/mml-writer-midi.c:52-56 | the halvings added by dots never exceed the base |
| Translator.DotSumSaturates | source/mml-writer-midi.c:52-56 | once the halving reaches 0, further dots add nothing |
| Translator.DottedRange | source/mml-writer-midi.c:49-58 | a dotted value lies between the base and strictly less than twice it |
| Translator.DurationRange | source/mml-writer-midi.c:42-59 | the duration is the dotted base `4*tpq/length`, at least the base and less than twice it |
| Translator.DurationExamples | source/mml-writer-midi.c:42-59 | at 480 ticks per quarter, a quarter is 480, an eighth 240, a whole 1920, and length 0 gives 0 |
| Translator.DottedExamples | source/mml-writer-midi.c:42-59 | a dotted quarter is 720 and a double-dotted one 840 |
| Translator.CalculateDuration | source/mml-writer-midi.c:42-59 | the dot loop computes the specified duration, in 32-bit arithmetic |
| Translator.TempoData | source/mml-writer-midi.c:94-98 | the tempo is three data bytes |
| Translator.TempoDataRoundTrip | source/mml-writer-midi.c:94-98 | the three big-endian bytes spell the tempo when it fits in 24 bits |
| Translator.MetaBytes | extern/midi-codec/midi-parser.h:232-240 | a meta event is its delta, `FF type`, VLQ length and data |
| Translator.TempoEventBytes | source/mml-writer-midi.c:91-116 | `write_tempo` produces delta, `FF 51 03` and the tempo bytes, at most 11 bytes |
| Translator.EndOfTrackBytes | source/mml-writer-midi.c:136-156 | `write_end_of_track` produces delta and `FF 2F 00`, at most 8 bytes |
| Translator.StatusKeyMatches | source/mml-writer-midi.c:122 | the status `write_midi` compares is the status byte the codec writes |
| Translator.WriteMidiRunningStatus | source/mml-writer-midi.c:118-134 | `write_midi` appends delta, the status only when it differs from the last, and the data bytes, records the status and changes nothing else |
| Translator.ControlF | source/mml-writer-midi.c:158-174 | a control changes only tempo, octave, velocity, default length and output, the output by at most one tempo event |
| Translator.ControlEffects | source/mml-writer-midi.c:158-174 | the six commands are the only ones that do not abort: `t` sets 60000000/arg and writes a tempo event, `o` sets the octave through `int` conversion, `v` sets arg mod 127, `l` sets the length, and `>`/`<` step the octave |
| Translator.RelengthedTrans | source/mml-writer-midi.c:228 | filling in default lengths composes |
| Translator.RelengthedTempoArgs | source/mml-writer-midi.c:228 | filling in note lengths keeps every tempo argument positive |
| Translator.CollectF | source/mml-writer-midi.c:212-233 | collecting a chord only moves forward, only fills in note lengths, and gathers at most one batch entry per note consumed |
| Translator.OnsF | source/mml-writer-midi.c:237-249 | the note-on loop adds at most 8 bytes per note and changes only output, status and active notes |
| Translator.OnsFStep | source/mml-writer-midi.c:237-249 | one round writes a note-on (delta only for the first) and marks it active exactly when it was not active |
| Translator.OffsF | source/mml-writer-midi.c:255-277 | the note-off loop adds at most 8 bytes per note and changes only output, status and active notes |
| Translator.OffsFStep | source/mml-writer-midi.c:258-277 | one round releases an untied note with velocity 0, the first one carrying the delta and setting the last tick |
| Translator.SoundF | source/mml-writer-midi.c:235-277 | sounding a batch adds at most 16 bytes per note and changes only output, status, active notes and the tick |
| Translator.BatchF | source/mml-writer-midi.c:207-277 | a note step moves on, writes at most 16 bytes per event consumed, keeps channel, tempo, octave, velocity and lengths, and only fills in lengths |
| Translator.Falses | source/mml-writer-midi.c:187 | the cleared active-note table has every note off |
| Translator.TrackF | source/mml-writer-midi.c:189-280 | the track loop moves on, writes at most 16 bytes per event, only fills in lengths and keeps channel and tick rate |
| Translator.TrackFAtEnd | source/mml-writer-midi.c:195-200 | an End of Track ends the track with success and the last tick |
| Translator.TrackFAtControl | source/mml-writer-midi.c:195-204 | a control either aborts the translation or continues from its effect |
| Translator.TrackFAtNote | source/mml-writer-midi.c:207-277 | a note continues from the batch step |
| Translator.ProcessTrackF | source/mml-writer-midi.c:182-281 | `process_track` has the track loop's properties from a cleared note table |
| Translator.OneTrackF | source/mml-writer-midi.c:306-319 | one track round consumes at least one event on the same channel |
| Translator.TracksF | source/mml-writer-midi.c:302-323 | the track loop adds at most one track per remaining channel |
| Translator.TracksFAtEnd | source/mml-writer-midi.c:304 | with all events consumed, the loop stops successfully |
| Translator.TracksFStep | source/mml-writer-midi.c:306-322 | one round writes a track, then stops on abort or at channel 16, or continues on the next channel |
| Translator.RelengthedChordLinks | source/mml-writer-midi.c:226-228 | filling in lengths keeps chord links absent |
| Translator.Translation | source/mml-writer-midi.c:283-327 | the translation writes at most 16 tracks and only fills in note lengths in the events |
| TranslatorProps.OnsFExtends | source/mml-writer-midi.c:237-249 | note-ons only append to the track |
| TranslatorProps.OffsFExtends | source/mml-writer-midi.c:258-277 | note-offs only append to the track |
| TranslatorProps.SoundFExtends | source/mml-writer-midi.c:235-277 | sounding a batch only appends |
| TranslatorProps.BatchFExtends | source/mml-writer-midi.c:207-277 | a note step only appends |
| TranslatorProps.TrackFExtends | source/mml-writer-midi.c:189-280 | the track loop only appends, so the initial tempo event stays first |
| TranslatorProps.TrackStartTempo | source/mml-writer-midi.c:306-314 | every track starts with `00 FF 51 03 07 A1 20`, the 500000 µs tempo |
| TranslatorProps.OneTrackFramed | source/mml-writer-midi.c:313-319 | every track written starts with the default tempo event and ends with End of Track |
| TranslatorProps.FramedAfterCons | source/mml-writer-midi.c:302-323 | framing of a track list extends by one framed track |
| TranslatorProps.TracksFFramed | source/mml-writer-midi.c:302-323 | every track the loop adds is framed |
| TranslatorProps.TranslationFramed | source/mml-writer-midi.c:283-327 | at most 16 tracks, each starting with the tempo event and ending with End of Track |
| TranslatorProps.TranslationEmpty | source/mml-writer-midi.c:302-304 | an empty event sequence gives a file with no tracks |
| TranslatorProps.TickDifference | source/mml-writer-midi.c:253-256 | after adding a step to the 64-bit tick, the 32-bit difference to the old tick is the step |
| TranslatorProps.RestStep | source/mml-writer-midi.c:207-253 | a rest writes nothing and only advances the tick by its duration |
| TranslatorProps.OnsOne | source/mml-writer-midi.c:237-249 | a single inactive note writes one note-on, with the status only if it changed |
| TranslatorProps.OffsOne | source/mml-writer-midi.c:258-277 | a single untied note writes one release with velocity 0 and sets the last tick |
| TranslatorProps.OffsRunning | source/mml-writer-midi.c:258-277 | under the channel's Note-On running status a single release is written as `delta note 00` alone |
| TranslatorProps.SoundOneSplit | source/mml-writer-midi.c:235-277 | a lone note's release comes `step` ticks after its Note-On, and the last written tick becomes the cursor at the Note-On |
| TranslatorProps.SoundOneOns | source/mml-writer-midi.c:235-256 | a single note's on and tick advance come before its release |
| TranslatorProps.SoundOne | source/mml-writer-midi.c:235-277 | a single note writes `delta status? note vel` and `step note 00` under running status and ends with the note inactive again |
| TranslatorProps.NoteStep | source/mml-writer-midi.c:212-233 | a plain note fills in its length and becomes a one-note batch of its duration |
| TranslatorProps.ExampleStart | source/mml-writer-midi.c:306-314 | the example's track opens with the default state and tempo event |
| TranslatorProps.ExampleTempoData | source/mml-writer-midi.c:163-165 | `t120` sets 500000 µs, whose tempo event is the default one |
| TranslatorProps.ExampleTempo | source/mml-writer-midi.c:163-165 | `t120` writes a second tempo event |
| TranslatorProps.ExampleOctave | source/mml-writer-midi.c:167 | `o4` changes nothing visible |
| TranslatorProps.ExampleNoteFields | extern/midi-codec/midi-parser.h:176-191 | 480 is VLQ `83 60` and 0 is `00` |
| TranslatorProps.ExampleEventsUpdate | source/mml-writer-midi.c:228 | the example's note already has a length |
| TranslatorProps.ExampleNoteBatch | source/mml-writer-midi.c:207-233 | `c4` in octave 4 at 480 ticks per quarter is a one-note batch of middle C for 480 ticks |
| TranslatorProps.SoundFirst | source/mml-writer-midi.c:235-277 | a note sounded from tick 0 with no running status is written as `00 90+ch note vel`, then `step note 00` |
| TranslatorProps.ExampleNoteSound | source/mml-writer-midi.c:235-277 | middle C at velocity 100 writes `00 90 3C 64` and `83 60 3C 00` |
| TranslatorProps.ExampleEnd | source/mml-writer-midi.c:189-205 | the rest of the example's track ends at tick 480 |
| TranslatorProps.ExampleProcess | source/mml-writer-midi.c:182-281 | `process_track` on the example returns last tick 480 |
| TranslatorProps.ExampleBytes | source/mml-writer-midi.c:318 | End of Track is written with delta 480, the absolute last tick |
| TranslatorProps.ExampleOneTrack | source/mml-writer-midi.c:306-319 | the example's single track has the expected bytes |
| TranslatorProps.TempoOctaveNoteTranslation | source/mml-writer-midi.c:283-327 | `t120 o4 c4;` translates to exactly one track of the expected bytes |
| MmlWriterMidi.WriteTempo | source/mml-writer-midi.c:91-116 | appends the tempo event's bytes to the open track and returns 0 |
| MmlWriterMidi.WriteEndOfTrack | source/mml-writer-midi.c:136-156 | appends the End-of-Track bytes to the open track and returns 0 |
| MmlWriterMidi.MidiBuffer | source/mml-writer-midi.c:121-127 | the 16-byte buffer holds the delta VLQ and the event's bytes, or -1 for an unknown kind |
| MmlWriterMidi.Context.constructor | source/mml-writer-midi.c:291-298 | the context starts as the initial context over the events |
| MmlWriterMidi.Context.WriteMidi | source/mml-writer-midi.c:118-134 | `write_midi` changes the context as specified and returns the bytes written, or -1 leaving it alone |
| MmlWriterMidi.Context.ProcessControl | source/mml-writer-midi.c:158-174 | `process_control` changes the context as specified, or reports the abort with the context unchanged |
| MmlWriterMidi.Context.Collect | source/mml-writer-midi.c:207-233 | the collection loop fills the batch array and moves on as specified |
| MmlWriterMidi.Context.WriteNoteOn | source/mml-writer-midi.c:242-247 | one note event is written and the note's active flag set |
| MmlWriterMidi.Context.Ons | source/mml-writer-midi.c:235-249 | the note-on loop does what `OnsF` says |
| MmlWriterMidi.Context.Offs | source/mml-writer-midi.c:255-277 | the note-off loop does what `OffsF` says and returns the last tick |
| MmlWriterMidi.Context.Sound | source/mml-writer-midi.c:235-277 | the batch is sounded as `SoundF` says |
| MmlWriterMidi.Context.ChordStep | source/mml-writer-midi.c:207-277 | one note step does what `BatchF` says |
| MmlWriterMidi.Context.ClearActive | source/mml-writer-midi.c:187 | the `memset` clears every active note and nothing else |
| MmlWriterMidi.Context.Event | source/mml-writer-midi.c:191-277 | one round of the track loop consumes an event and either continues the specified track or ends it with the specified result |
| MmlWriterMidi.Context.ProcessTrack | source/mml-writer-midi.c:182-281 | `process_track` changes the context as specified and returns the specified last tick |
| MmlWriterMidi.Context.OpenTrack | source/mml-writer-midi.c:306-314 | resets per-track state, opens a track and writes the default tempo |
| MmlWriterMidi.Context.CloseTrack | source/mml-writer-midi.c:318-319 | writes End of Track and closes the track as the last one written |
| MmlWriterMidi.Context.WriteTrack | source/mml-writer-midi.c:306-319 | one track is written as `OneTrackF` says and closed |
| MmlWriterMidi.Context.Pass | source/mml-writer-midi.c:302-323 | one round of the outer loop continues the specified translation or ends it |
| MmlWriterMidi.Context.WriteTracks | source/mml-writer-midi.c:302-323 | the outer loop writes exactly the specified tracks, or reports the abort |
| MmlWriterMidi.MmlWriteMidi | source/mml-writer-midi.c:283-327 | the file written is exactly the format-1, 480-tick SMF of the specified tracks, and an invalid control yields -1 |

## Left out

- The command-line driver (`source/mml2midi.c`) and the file reader (`source/mml-reader.c`) are not part of this model.
- `fopen`, `fclose`, `calloc`, `malloc`, `realloc` and `free` are left out, along with the NULL-argument checks. The output file is a `Sink` value, and an allocation cannot fail.
- `fwrite` and `fseek` failures are left out. Every write stores all its bytes and every seek succeeds, so the writer's error returns on I/O failure are not modelled.
- `read_next_token`'s `lexer == NULL` case is left out: the scanner always exists.
- Character classes are the "C" locale's. Other locales are left out.
- The lexer's `int3` on an unknown byte becomes an `Err` carrying the offset.
- The parser's `abort()` and `assert` become `ParseError` values. The messages they print to stderr are left out, and so is the "empty definition" warning.
- ParserSpec.Fits: the parser's token input must end in one EOF token and number tokens must have at most 31 digits. `Lexer.LexAllEndsWithEof` establishes the first (Lexer.LexAllLayout gives each token's class), but the lexer's output is not joined to this predicate by a lemma. Longer numbers overflow the parser's 32-byte buffer, so they are excluded.
- Macro bodies are allocated with `malloc` and never zeroed in `parse_definition`. The model treats them as empty sequences, which is what the code evidently relies on. The memory they leak is not modelled.
- `mml_event` in `source/mml2midi.h` has no `tie` or `chord_link` field, yet `source/mml-writer-midi.c` reads both. The model carries them as booleans that the parser always sets to false.
- MmlWriterMidi.MmlWriteMidi and the `Context` methods require `NoChordLinks`. Linked chords of more than 128 notes would overflow `batch[128]`, and the parser never produces chord links.
- MmlWriterMidi.MmlWriteMidi requires `TempoArgsPositive`, because `t` without a value divides by zero in `process_control`.
- MmlWriterMidi.MmlWriteMidi requires fewer than 0x0FFF_FF00 events. This keeps the writer's 32-bit file offset from wrapping; a file that large is not modelled.
- The `Context` methods carry the same requirement as a bound on the writer's offset.
- MmlWriterMidi.MmlWriteMidi requires an empty sink, which is what `fopen(..., "wb")` gives.
- MidiWriter.Writer.Begin requires an empty sink for the same reason.
- MmlWriterMidi.MmlWriteMidi returns -1 where the source calls `abort()` on an unknown control command. The file's contents at that point are not stated.
- The -1 paths of `write_tempo` and `write_end_of_track` cannot be taken, because meta events always encode. The model states that they return 0.
- `write_midi` ignores `mw_track_append`'s result; so does the model.
- MmlWriterMidi.MmlWriteMidi: the End-of-Track delta is `last_tick`, the absolute tick of the last event written rather than a difference. The model writes exactly that.
- `ctx_reset` (`source/mml-writer-midi.c:79-89`) is never called and is left out.
- Numbers read by `parse_note`, `parse_command` and `parse_loop` all go through `StrToUnsigned`. For values between 2^32 and 2^64 only the low 32 bits are kept, as the assignment to `unsigned` does.
- MidiCodec.StorageSizeCounts: the SysEx round trip is left out. The reader yields `length - 1` data bytes and the writer never writes the F7 it counts; the lemma states the size relation only.
- MidiCodec.TrackParser.Next covers MIDI, meta, SysEx and running-status events. Only MIDI and meta events have a write-then-read lemma.
- MidiCodec.TrackParser.Next is given the MIDI part of the caller's `track_event_t` as a value. After a SysEx or meta event the C union's bytes overlap their length and pointer fields; that byte layout is not modelled, and the caller passes whatever MIDI part it holds.
- MidiCodec.TrackParser.Next promises nothing about the caller's event on a -1 result; the C has already stored the delta there by then.
- MidiCodec.NextInBounds: `track_event_next` reads the byte after an `FF` without checking the length (`extern/midi-codec/midi-parser.h:378`). The model requires that byte to exist, so a buffer ending in `FF` is outside it.
- `midi_event_to_bytes` is modelled with the corrected pitch-bend encoding, and `track_event_to_bytes` with the corrected error result. The as-written versions are kept next to them; see Findings.
- The translator's integer fields are unbounded integers with explicit wrap-around. This covers `current_tick` as a 64-bit `size_t` and `octave` as an `int` converted to `uint8_t` when passed to `pitch_to_midi_note`. Overflow of the `int` octave through repeated `>` or `<` is not modelled.

## Findings

| source | as written | input that shows it | evidently intended | confidence | as-written member | corrected member |
|---|---|---|---|---|---|---|
| extern/midi-codec/midi-parser.h:231 | `return midi_event_to_bytes(...) + n` adds the VLQ length to a -1 failure result | a MIDI event of unknown kind (0) with delta 0: the result is -1 + 1 = 0, which looks like success | return -1 when the event cannot be encoded | high; not executed | MidiCodec.TrackEventResultAsWrittenHidesError | MidiCodec.TrackEventToBytes |
| extern/midi-codec/midi-parser.h:164-167 | the pitch-bend LSB is `pitch_bend` truncated to 8 bits, so bit 7 leaks into a data byte | pitch bend 0x80 is written as the data bytes `80 01`; sent under running status `E0` after delta 0, the package's own `track_event_next` reads `80` as a new status byte and fails | LSB `pitch_bend & 0x7F`, giving `00 01` | high; not executed | MidiCodec.PitchBendAsWrittenMisread | MidiCodec.EventRoundTrip |
