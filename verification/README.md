# Verification of the add-on tools' core logic

A Dafny model of the parts of the repository whose behaviour is not evident from reading one function, with
proofs of what they promise. `dafny verify dfyconfig.toml` checks all of it.

A byte of the original's strings is a `char` below 256. An exception or a failed library call is the value
`Throw` of `Result`. Code that works by changing things step by step is written as methods with loops and
classes with fields; each such method is proved equal to a function of its inputs or of the old state, and the
theorems are about those functions. Inductive proofs are spelled out: `{:induction false}` stands on the lemmas
that call themselves, and on a few others where Dafny's own induction would only cost time.

## What is modelled

- **JSON values, printer, parser** (`JsonValues`, `JsonPrinter`, `JsonParser`, `JsonScan`, `JsonRoundTrip`,
  `JsonWeight`, `ParsedValues`, `JsonExact`, `StringMeaning`, `NumberReading`): the ordered association list,
  the printer that indents every level of text again, and the parser that cuts containers into pieces with
  counters and parses the pieces again. The law `parse(get_repr(v)) == v` does not hold of all values.
  `JsonRoundTrip.Exact` says of which it does: containers are not empty, strings have no vertical tab or other
  unnamed control, and the brackets in strings close each other except in the last part of a container, where
  they do no harm as long as no comma is laid bare. `RoundTripExactly` proves that this is exactly right. The
  hard half is that no two wrong cuts ever make up for each other; the proof counts commas, which parsing
  never creates (`JsonWeight.ParsedWeight`), so a value that comes back whole leaves no comma to spare for a
  wrong cut. Strings and numbers are measured against RFC 8259 sections 6 and 7, both as printed and as read.
- **Item wizard** (`ItemWizard`): `item start`, `checkpoint` and `finish`, each reading the JSON file that the
  command before uploaded. The chain of print, parse, prepend, print, parse, prepend and fold is a map
  override whenever the two objects that are printed come back.
- **Minifier and obfuscator** (`Minifier`, `Obfuscator`, `Utf8`, `ObfuscatedText`, `PassOrder`): one an automaton,
  the other a quote matcher with UTF-8 decoding (RFC 3629) and `\u` escapes; their laws are stated against a
  decoder for RFC 8259 section 7 and against a lexer into literals and the text between them.
- **Streaming hash collector** (`HashPadding`, `PaddingBits`, `HashCollector`): buffering, length counter and
  padding over an arbitrary block function, in both byte orders (FIPS 180-4 section 5.1.1, RFC 1321 sections
  3.1 and 3.2).
- **Gateway client** (`GatewaySteps`, `GatewayClient`, `GatewayRuns`, `GatewayHistory`, `GatewayService`):
  frames, loop turns, the chunk timer, dispatch, closing and reconnecting as steps; the methods of the class
  take these steps, the theorems are about all runs of them, and the service loop that calls the methods makes
  such a run.
- **Traditional PKWARE cipher** (`ZipKeys`, `ZipCipher`, `CrcTables`): the keys in 64-bit words without
  masking and the checksum by table, as the code keeps them, against 32-bit keys and a checksum bit by bit,
  section 6.1 of PKWARE's APPNOTE.TXT; header and body encryption.
- **Deflate tally** (`DeflateTally`, `TreeTables`, `DeflateCodes`): the symbol buffer, the 16-bit frequency
  counters, and the constant tables against the codes of RFC 1951 section 3.2.5.
- **Archive tree** (`ArchiveTree`): a directory tree flattened into archive entries.
- **Help pages** (`HelpPages`): the custom ids of the paging buttons and what clicks on them do.

Where the code and its comments or the standards disagree, the model follows the code:

- Above U+FFFF the obfuscator forgets to subtract 0x10000 before it makes surrogates
  (generate_libs/obfuscator.cpp:42-48). `ObfuscationKeepsMeaning` and `MeaningKept` show exactly when that and
  the treatment of backslashes do no harm.
- The obfuscator's quote matching ignores backslashes (generate_libs/obfuscator.cpp:89), the minifier's does not.
- `hex_to_int` reads its digits from the last to the first (generate_libs/make_json.cpp:46), and `unescapify`
  drops every `\u` escape but high surrogates, without skipping its digits. `StringRoundTrip` shows which strings
  that spoils.
- `reconnect_init` clears the last sequence number (pilepoxyl/gateway.cpp:188), so a Resume carries the number of
  the last event on its own connection, and zero if there was none.

## Model

| member | source | states |
|---|---|---|
| JsonValues.JsonObject.At | generate_libs/make_json.cpp:11-18 | the place of the first member of that name, made at the end with a default value when there is none |
| JsonValues.PutIsMapUpdate | generate_libs/make_json.cpp:11-18 | assigning through `operator[]` updates the finite map that the list stands for, at that name only |
| JsonPrinter.IndentJson | generate_libs/make_json.cpp:20-28 | a tab after every line feed but one among the last two bytes |
| JsonPrinter.GetRepr | generate_libs/make_json.cpp:138-227 | the recursive printer computes the specified text for every value |
| JsonPrinter.PrintString | generate_libs/make_json.cpp:141-181 | the loop over a string builds the quoted, escaped string |
| JsonPrinter.ReprIsPretty | generate_libs/make_json.cpp:182-226 | indenting the text of every level again is the same as printing each value directly at its depth, for every value |
| JsonPrinter.TabbedPretty | generate_libs/make_json.cpp:20-28 | tabbing a text printed at one depth gives the text printed one deeper |
| JsonPrinter.MemberExample | generate_libs/make_json.cpp:191-206 | an object of one member, whatever its value, is a line break, a tab, the quoted name, a colon, a space, the value one tab further in, and a line break before the closing bracket |
| JsonPrinter.ListExample | generate_libs/make_json.cpp:182-222 | a list of a number and the three words, text for text |
| JsonPrinter.OtherWords | generate_libs/make_json.cpp:207-218 | a word that is none of the three prints as nothing |
| JsonParser.StripText | generate_libs/make_json.cpp:29-40 | the result is the input without the white space at its ends, and nothing else is removed |
| JsonParser.Unescapify | generate_libs/make_json.cpp:55-101 | the loop computes the decoding that the next three rows pin down, with the throw of `substr` past the end |
| StringMeaning.UnescapedExactly | generate_libs/make_json.cpp:55-101 | a string body that RFC 8259 section 7 gives a meaning is decoded to just that meaning if and only if no escape of it is a `\u` |
| StringMeaning.UnicodeEscapeRead | generate_libs/make_json.cpp:86-94 | what becomes of a `\u` escape: its digits stay, in front of them comes nothing, or a byte, or the call throws, as the reversed digits and the text behind them decide |
| StringMeaning.DigitLookup | generate_libs/make_json.cpp:41-54 | the digits of `hex_to_int` are those of its two strings |
| StringMeaning.WrittenExactly | generate_libs/make_json.cpp:141-181 | a JSON reader gets from a printed string its code points, if and only if it has no vertical tab and no null byte |
| JsonParser.Pieces | generate_libs/make_json.cpp:246-270 | every name or value text handed to a recursive call is strictly shorter than the stripped input, also when an escape swallows the closing byte, so that `parse` ends on every input |
| JsonParser.ParseText | generate_libs/make_json.cpp:234-329 | the parser with its loops, counters and recursion on cut-out texts computes `Parse`, and ends |
| NumberReading.NumeralRead | generate_libs/make_json.cpp:299-313 | every number of RFC 8259 section 6 is read as it should be: an integer by its range, with a throw outside 64 bits, any other as a double, with a throw from 2^1024 on |
| NumberReading.OtherRead | generate_libs/make_json.cpp:299-327 | any other text that is no string or container is one of the three words, or zero |
| JsonParser.ParseObject | generate_libs/make_json.cpp:242-273 | the object loop assigns the pieces to the object one after the other |
| JsonParser.ParseList | generate_libs/make_json.cpp:274-294 | the list loop collects the parsed pieces, an empty last one left out |
| JsonScan.QuietReads | generate_libs/make_json.cpp:246-270 | a stretch of text in which no colon or comma ends anything is copied whole, whatever follows it, and moves the counters by its own brackets and quotes |
| JsonScan.CutIsLighter | generate_libs/make_json.cpp:261-267 | a piece that ends inside a stretch of text lacks at least the weight of one comma |
| JsonScan.PiecesWeight | generate_libs/make_json.cpp:246-294 | the pieces and the commas between them weigh no more than the text |
| JsonRoundTrip.StringRoundTrip | generate_libs/make_json.cpp:55-181 | a string survives escaping and unescaping if and only if it has no vertical tab and no control printed as a `\u` escape |
| JsonRoundTrip.QuietPretty | generate_libs/make_json.cpp:253-267 | the scanner passes over the text of a value without a cut if and only if none of the value's commas lies at depth zero, counted with the brackets in its strings |
| JsonRoundTrip.PrettyCount | generate_libs/make_json.cpp:253-256 | the brackets counted over the text of a value are those in its strings and names: its containers close themselves |
| JsonRoundTrip.RoundTripBetween | generate_libs/make_json.cpp:138-329 | an exact value printed at any depth and put between any white space parses to itself |
| JsonRoundTrip.RoundTrip | generate_libs/make_json.cpp:138-329 | `parse(get_repr(v))` is v for every exact v, up to small long integers becoming integers and the later of two members of one name winning |
| JsonRoundTrip.GoodIsExact | generate_libs/make_json.cpp:234-329 | values whose strings have balanced brackets, with no bare commas in strings that are list elements, are exact |
| JsonWeight.ParsedWeight | generate_libs/make_json.cpp:234-329 | whatever the text, a parsed value has no more commas (and unnamed controls) than the text |
| JsonWeight.TightKeeps | generate_libs/make_json.cpp:242-273 | when no comma is lost, no member of an object replaces an earlier one |
| JsonExact.RoundTripExactly | generate_libs/make_json.cpp:138-329 | for values whose objects have distinct names, `parse(get_repr(v))` is v if and only if v is exact |
| JsonExact.UnchangedExactly | generate_libs/make_json.cpp:305-313 | and nothing at all changes if and only if, besides, no long integer is in the range of the short ones |
| JsonExact.LongName | generate_libs/make_json.cpp:257-260 | a name whose colon was missed is never read as the name it was |
| JsonExact.OpenBracketInString | generate_libs/make_json.cpp:253-264 | an open bracket in a string before the last member is a value that does not come back |
| JsonExact.CommaInElement | generate_libs/make_json.cpp:286-290 | so is a comma in a string that is an element of a list |
| ParsedValues.ParsedIsDistinct | generate_libs/make_json.cpp:234-329 | whatever the text, every object that `parse` builds has pairwise distinct names |
| ParsedValues.ParsedIsNormal | generate_libs/make_json.cpp:305-313 | whatever the text, no parsed long integer is in the range of the short ones |
| ParsedValues.EmptyObjectBack | generate_libs/make_json.cpp:191-206 | an empty object comes back as one member with no name and the value zero |
| ParsedValues.EmptyListBack | generate_libs/make_json.cpp:182-190 | an empty list comes back as a list of one zero |
| ParsedValues.OneElement | generate_libs/make_json.cpp:274-294 | between brackets, a text without marks is the one element of a list, no text is no element, and a comma behind it changes nothing but that |
| ItemWizard.ReduceOptions | pilepoxyl/httpapi.cpp:809-815 | the options in order, the later of two of one name winning |
| ItemWizard.ReducedIsLast | pilepoxyl/httpapi.cpp:809-815 | from the list of objects with a name, a value and whatever else in any order, every name gets the value given last |
| ItemWizard.Checkpoint | pilepoxyl/httpapi.cpp:262-285 | the members of the first file, then the options with the file option made, printed; or the notice about the file type |
| ItemWizard.Finish | pilepoxyl/httpapi.cpp:286-352 | the defaults with all members of the second file and then the options assigned in order |
| ItemWizard.NormIdempotent | generate_libs/make_json.cpp:305-313 | normalising a value, which is what a trip through print and parse does to exact ones, twice is normalising it once |
| JsonExact.SecondTrip | generate_libs/make_json.cpp:138-329 | for values whose objects have distinct names a second trip changes nothing more: the normalised value prints the same text, and comes back as it is if the value was exact |
| ItemWizard.CarriedBack | pilepoxyl/httpapi.cpp:257-271 | what the next command reads from an uploaded object that is empty or exact: its members normalised, or one with no name and the value zero |
| ItemWizard.RunIsOverlay | pilepoxyl/httpapi.cpp:253-352 | if both uploaded objects come back, the three commands in a row succeed and compute the defaults under the three option sets |
| ItemWizard.ChainIsOverride | pilepoxyl/httpapi.cpp:253-352 | then every name but the empty one has in the final table the value of the last step that names it, else its default |
| ItemWizard.GoodOptionsReturn | pilepoxyl/httpapi.cpp:253-285 | options whose strings have balanced brackets and no unnamed controls make objects that come back, wherever later options move them |
| ItemWizard.GoodChainIsOverride | pilepoxyl/httpapi.cpp:253-352 | so for such options the override holds whatever they are |
| ItemWizard.WizardIsOverride | pilepoxyl/httpapi.cpp:253-352 | the same from the options as they were given: for every name but the empty one the last step that gives it decides, with the value it gives last |
| ItemWizard.GoodWizardIsOverride | pilepoxyl/httpapi.cpp:253-352 | and so it is for all options of the first two steps whose strings have balanced brackets |
| Minifier.FindLiteralEnd | generate_libs/obfuscator.cpp:69-75 | the inner loop stops on the quote that closes the literal, escapes respected, or past the end if there is none |
| Minifier.Minify | generate_libs/obfuscator.cpp:56-87 | the input without white space outside literals and with literals byte for byte; a throw if and only if a literal is not closed |
| Minifier.Idempotent | generate_libs/obfuscator.cpp:56-87 | minifying twice is minifying once |
| Minifier.MinifiedRepr | generate_libs/make_json.cpp:138-227 | for every value, minifying the printed text gives the output of a compact printer: all layered indentation goes and nothing else |
| Obfuscator.UnicodeEscape | generate_libs/obfuscator.cpp:22-55 | the loop escapes the string unit by unit, a sequence cut short at the end included |
| Obfuscator.ObfuscateMain | generate_libs/obfuscator.cpp:88-102 | the search loop escapes what lies between one quote and the next, then minifies if asked |
| Obfuscator.PointIsScalar | generate_libs/obfuscator.cpp:3-21 | on valid UTF-8 of RFC 3629 section 3 the decoder finds the code point, and takes as many bytes as it has |
| Obfuscator.StrayByte | generate_libs/obfuscator.cpp:14-50 | a byte that is neither ASCII nor the lead of a sequence prints as the eight digits of a negative number |
| Utf8.Utf8Back | generate_libs/obfuscator.cpp:3-21 | every code point but the surrogates, encoded by the table of RFC 3629 section 3, is valid and decoded to itself |
| Utf8.Utf8Only | generate_libs/obfuscator.cpp:3-21 | and nothing else is valid |
| Utf8.CutSequence | generate_libs/obfuscator.cpp:22-55 | a sequence cut short by the end of the text is escaped as if null bytes followed |
| Utf8.PairOrNot | generate_libs/obfuscator.cpp:42-48 | to a JSON reader two `\u` escapes are one character if and only if they are a pair of surrogates of RFC 8259 section 7 |
| Obfuscator.EscapedMeaning | generate_libs/obfuscator.cpp:22-55 | an RFC 8259 decoder reads from the escapes of valid UTF-8 its code points, changed above U+FFFF in the way stated |
| Obfuscator.ReadAllIsIdentity | generate_libs/obfuscator.cpp:42-48 | what is read is what was written if and only if all code points are in the Basic Multilingual Plane |
| Obfuscator.MeaningKept | generate_libs/obfuscator.cpp:22-55 | the escapes of a literal's body mean what the body meant if and only if it has no backslash and no four-byte sequence |
| Obfuscator.CutLosesMeaning | generate_libs/obfuscator.cpp:89-95 | cutting a literal at its first escaped quote and escaping what comes before never gives what the literal meant |
| ObfuscatedText.UnlexLex | generate_libs/obfuscator.cpp:56-87 | lexing into literals and text between them, and joining again, gives the text |
| ObfuscatedText.MinifiedIsSqueezed | generate_libs/obfuscator.cpp:56-87 | minifying squeezes the text between literals and keeps the literals; it throws if and only if lexing fails |
| ObfuscatedText.QuoteMatchingExact | generate_libs/obfuscator.cpp:89-99 | obfuscation escapes each literal and nothing else if and only if no literal has an escaped quote in it |
| ObfuscatedText.ObfuscationKeepsMeaning | generate_libs/obfuscator.cpp:88-102 | for every text whose literals a JSON reader understands, escaped quotes included: text outside literals is unchanged, the literals are ASCII and each keeps its meaning, if and only if none has a backslash or a four-byte sequence |
| ObfuscatedText.QuoteFreeKeepsMeaning | generate_libs/obfuscator.cpp:88-102 | when no literal has an escaped quote in it, the text outside is unchanged even if a literal loses its meaning |
| Obfuscator.FourBytesLoseMeaning | generate_libs/obfuscator.cpp:42-48 | every literal of one four-byte sequence still reads, as something else |
| Obfuscator.SmileyLosesMeaning | generate_libs/obfuscator.cpp:42-48 | the bytes F0 9F 98 80, U+1F600, for example |
| ObfuscatedText.Commute | generate_libs/obfuscator.cpp:56-102 | obfuscating then minifying is minifying then obfuscating, when no literal has an escaped quote in it |
| PassOrder.CommuteExactly | generate_libs/obfuscator.cpp:56-102 | for every text with valid UTF-8 between quote and next quote the two orders give the same if and only if: with a quote left over, some literal is not closed; with none left over, all literals are closed and white space is in a literal exactly where the obfuscator takes it for a part of one |
| PassOrder.BrokenBodyAlike | generate_libs/obfuscator.cpp:22-55 | the bytes C3 20 E0 C0 C0 escape as they do without the space, so that for broken UTF-8 the condition is not needed |
| ObfuscatedText.EscapedQuoteBreaks | generate_libs/obfuscator.cpp:89-100 | a text with an escaped quote that minifies, and does not minify any more once obfuscated |
| HashPadding.PaddedLength | winext/include/crypto/md32_common.h:191-215 | padding ends on a block boundary, for every message and block size |
| HashPadding.PaddedSlack | winext/include/crypto/md32_common.h:196-204 | it adds room for mark and length, and less than a block more, so the zero bytes are the fewest |
| HashPadding.PaddedTail | winext/include/crypto/md32_common.h:191-215 | padding makes one block of the tail, or two exactly when mark and length do not fit |
| HashPadding.PaddedInjective | winext/include/crypto/md32_common.h:191-215 | messages of any length that pad alike are alike |
| PaddingBits.PaddedIsStandard | winext/include/crypto/md32_common.h:191-215 | in bits, the padding is that of FIPS 180-4 section 5.1.1: a one, the least number of zeros, the length in 64 bits, whose bytes come backwards for the little-endian functions |
| HashPadding.LengthFieldExact | winext/include/crypto/md32_common.h:207-213 | two padded messages end on the same length field if and only if their lengths agree modulo 2^61, in either byte order and whatever the block sizes |
| HashPadding.WordRoundTrip | winext/include/crypto/md32_common.h:98-122 | storing a word and loading it are inverse to each other, in both byte orders |
| HashPadding.CounterField | winext/include/crypto/md32_common.h:207-213 | the two counter words stored in byte order are the eight-byte length field |
| HashPadding.CounterAdds | winext/include/crypto/md32_common.h:138-143 | if the counter words held eight times the bytes so far modulo 2^64, they do after an update of any length, carry found by wrap-around included |
| HashCollector.Collector.Update | winext/include/crypto/md32_common.h:128-184 | after any update the buffer holds the message's unprocessed tail, the chaining value its whole blocks, the counter its length |
| HashCollector.Collector.Final | winext/include/crypto/md32_common.h:191-225 | the chaining value is the fold of the block function over the padded message |
| HashCollector.Digest | winext/include/crypto/md32_common.h:128-225 | for every way of cutting a message into updates, empty ones included, the result is that of the whole message at once |
| GatewayClient.Gateway.SayHello | pilepoxyl/gateway.cpp:29-105 | each callback makes its step on the whole state; returned is the opcode of a reconnect or invalid-session frame, the code in a close message, and zero in every other case |
| GatewayClient.Gateway.Turn | pilepoxyl/gateway.cpp:241-252 | a turn of the service loop hands the waiting payload over, and asks for the timer while a chunk is open |
| GatewayClient.Gateway.ChunkTimeout | pilepoxyl/gateway.cpp:332-342 | the timer delivers the buffer when a chunk is open and no payload waits |
| GatewayClient.Gateway.DetermineWhatToDo | pilepoxyl/gateway.cpp:264-330 | what is sent, and what becomes of session, sequence number and the permission to reconnect |
| GatewayClient.Gateway.LeaveLoop | pilepoxyl/gateway.cpp:235-262 | a new connection with an empty buffer, or the end when the client cannot reconnect |
| GatewayService.ConnectAndReceiveEvents | pilepoxyl/gateway.cpp:235-262 | calling the methods as the events come makes a run from the initial state: the session and all that was sent are what the history tells, with one frame a turn the bytes are conserved, the handshakes are in order if and only if all Hellos come in turn, and the loop ends only on leaving while the client cannot reconnect |
| GatewayRuns.StepConserves | pilepoxyl/gateway.cpp:69-95 | no step loses, doubles or reorders a byte: delivered texts, waiting payload and buffer are the bytes received, and the buffer is a whole number of full frames |
| GatewayRuns.RunConserves | pilepoxyl/gateway.cpp:235-262 | the same over every run with one frame a turn |
| GatewayRuns.MessagesDelivered | pilepoxyl/gateway.cpp:69-95 | on every timely schedule, what has been delivered, waits or is due to the timer is the messages completed, in order |
| GatewayRuns.TransmissionDelivered | pilepoxyl/gateway.cpp:69-95 | every list of messages, cut into 4096-byte frames and a shorter last one or the timer, is delivered exactly, with nothing left over |
| GatewayRuns.StepUntouched | pilepoxyl/gateway.cpp:43-68 | whatever the server does, a client that cannot reconnect has sent no handshake, unless its session was declared invalid for good or its token refused on this connection |
| GatewayRuns.HandshakesExactly | pilepoxyl/gateway.cpp:282-317 | over every run from every state, an Identify comes first or not at all at the end if and only if it did at the start and no Hello is handed over to a client that cannot reconnect and has sent a handshake before |
| GatewayRuns.RunEnds | pilepoxyl/gateway.cpp:235-262 | every run ends with leaving the loop of the first connection closed while the client cannot reconnect |
| GatewayRuns.HandshakeOrder | pilepoxyl/gateway.cpp:235-317 | over every run without a Hello on such a connection, at most one Identify is sent and only Resumes after it |
| GatewayHistory.SessionIsHistory | pilepoxyl/gateway.cpp:43-68 | over every run, across connections: the session id is that of the last READY, the number that of the last event since the last reconnect, the permission and the heartbeats are as the last happening that bears on them leaves them, and what was sent is the answer to each text handed over |
| GatewayHistory.ConnectionIsHistory | pilepoxyl/gateway.cpp:96-105 | over every run there is a connection unless the last one was lost, and the loop has been left if and only if it ended |
| GatewayHistory.ResumesCarryId | pilepoxyl/gateway.cpp:266-300 | every Resume answers a Hello and carries the id of the last READY before it |
| GatewayHistory.ControlFrames | pilepoxyl/gateway.cpp:56-68 | a frame with opcode 7 changes nothing, one with opcode 9 only the permission, and all others are data |
| ZipKeys.UpdateAgrees | generate_libs/minizip/headers/crypt.h:30-59 | the update without masks and by table agrees modulo 2^32 with the 32-bit one that computes the checksum bit by bit, for every table made of bit steps |
| ZipKeys.LookupIsSteps | generate_libs/minizip/headers/crypt.h:30-30 | the macro does eight bit steps on the checksum with the byte added in, for every word and byte |
| ZipKeys.KeyedAgrees | generate_libs/minizip/headers/crypt.h:49-75 | so do the keys after any bytes |
| ZipKeys.StreamAgrees | generate_libs/minizip/headers/crypt.h:35-44 | agreeing keys give the same keystream byte, and the product in it stays below 2^32 |
| ZipCipher.KeyState.InitKeys | generate_libs/minizip/headers/crypt.h:66-75 | the keys are those of the password up to its first null byte |
| ZipCipher.UpToNull | generate_libs/minizip/headers/crypt.h:71-74 | the bytes that count are those before the first null byte |
| ZipCipher.KeyState.Zencode | generate_libs/minizip/headers/crypt.h:80-81 | the byte under the keystream, the keys updated with the plain byte |
| ZipCipher.KeyState.Zdecode | generate_libs/minizip/headers/crypt.h:77-78 | the byte under the keystream, the keys updated with the byte decoded |
| ZipCipher.DecodeEncode | generate_libs/minizip/headers/crypt.h:77-81 | decoding what was encoded gives the text back and leaves the same keys, from any keys |
| ZipCipher.KeysInStep | generate_libs/minizip/headers/crypt.h:77-81 | encoder and decoder have the same keys after every byte |
| ZipCipher.PasswordCipherAgrees | generate_libs/minizip/headers/crypt.h:30-81 | for every password and text, the unmasked cipher from the keys that `init_keys` makes is the 32-bit one from its own |
| CrcTables.TableIsCrc | generate_libs/minizip/headers/crc32.h:5-57 | all 256 numbers of the table are what eight bit steps make of their index |
| CrcTables.CodeIsStandard | generate_libs/minizip/headers/crypt.h:30-81 | with this table the code enciphers as the standard does, for every password and text |
| ZipCipher.CryptHead | generate_libs/minizip/headers/crypt.h:91-130 | the twelve bytes written are the encoding of the plain header, nothing else in the buffer changes, and nothing at all when it is too short |
| ZipCipher.HeaderAndBodyBack | generate_libs/minizip/headers/crypt.h:91-130 | from the password a decoder gets the header and then the body; the header ends in bits 16-23 and 24-31 of the checksum, and its first ten bytes decode once more to the random ones |
| DeflateTally.DeflateState.TallyLit | generate_libs/minizip/headers/deflate.h:321-328 | three bytes are added to the buffer, one counter goes up modulo 2^16, and the result says whether the buffer is full |
| DeflateTally.DeflateState.TallyDist | generate_libs/minizip/headers/deflate.h:329-339 | the same for a match, with the counters of its length and its distance |
| DeflateCodes.TreesFit | generate_libs/minizip/headers/trees.h:73-116 | the two code tables, number by number, have the size that the tally needs and only codes below 30 and 29 |
| DeflateCodes.DCodeIsRange | generate_libs/minizip/headers/deflate.h:303-308 | the code that the tables give any distance is the one that stands for it, with its base and its extra bits in RFC 1951 section 3.2.5 |
| DeflateCodes.LCodeIsRange | generate_libs/minizip/headers/trees.h:102-121 | and the same for any match length, the longest one having a code to itself |
| DeflateCodes.ByteSymbol | generate_libs/minizip/headers/deflate.h:321-328 | a literal adds one to the counter of its own byte and to no other |
| DeflateCodes.LengthSymbol | generate_libs/minizip/headers/deflate.h:329-339 | a match adds one to the counter of 285 if it is the longest, else of 257 and its one length code in RFC 1951 section 3.2.5, and to no other |
| DeflateCodes.DistanceSymbol | generate_libs/minizip/headers/deflate.h:329-339 | and one to the counter of its one distance code, and to no other |
| DeflateTally.BufferIsTokens | generate_libs/minizip/headers/deflate.h:321-339 | the buffer decodes back to exactly the literals and matches tallied |
| DeflateTally.LiteralExact | generate_libs/minizip/headers/deflate.h:321-339 | from any block, a literal or length counter goes up by the uses of its code if and only if the sum is below 65536 |
| DeflateTally.DistanceExact | generate_libs/minizip/headers/deflate.h:329-339 | so does a distance counter |
| DeflateTally.TotalsGrow | generate_libs/minizip/headers/deflate.h:321-339 | when no counter wraps, the totals grow by the tokens and by the matches |
| DeflateTally.CountersCount | generate_libs/minizip/headers/deflate.h:321-339 | from the start of a block, whatever the end-of-block counter says, fewer than 65536 tokens wrap no counter |
| ArchiveTree.AddFilesToZip | generate_libs/file_management.cpp:106-127 | the recursion appends the specified entries to what the archive had |
| ArchiveTree.EntriesAreLeaves | generate_libs/file_management.cpp:106-127 | the entries are exactly the leaves in pre-order, each under its path |
| ArchiveTree.PathsAreDistinct | generate_libs/file_management.cpp:119-123 | all paths are pairwise distinct and none starts with a slash |
| ArchiveTree.ArchiveRoundTrip | generate_libs/file_management.cpp:106-127 | from the entries alone the tree is rebuilt, without its empty directories |
| HelpPages.MakeButtons | pilepoxyl/httpapi.cpp:817-852 | the ids and the disabled marks of the four buttons |
| HelpPages.ParseHpcid | pilepoxyl/httpapi.cpp:915-923 | the backward loop cuts at the last underscore, or gives the whole text and page one |
| HelpPages.AtoiReads | pilepoxyl/httpapi.cpp:919-919 | the page is the number that `atoi` reads: white space skipped, a sign taken, digits up to the first other byte |
| HelpPages.IdBack | pilepoxyl/httpapi.cpp:826-846 | the id printed for any topic, underscores included, and any page reads back as that topic and page |
| HelpPages.LabelsAreTrue | pilepoxyl/httpapi.cpp:536-560 | every enabled button on every page leads where its label says if and only if there are fewer than 2147483646 pages |
| HelpPages.DisabledExactly | pilepoxyl/httpapi.cpp:837-856 | a button is disabled if and only if what it promises is the current page or no page at all |
| HelpPages.AllReachedExactly | pilepoxyl/httpapi.cpp:536-560 | every page can be reached by clicks from the first if and only if there are at most 2147483646 |
| HelpPages.PagesStayInRange | pilepoxyl/httpapi.cpp:536-560 | over every run of clicks on enabled buttons the page stays between one and the last |

## Left out

- Commute: one direction only; `CommuteExactly` has both, for texts with valid UTF-8 between a quote and the next one. A broken sequence can take white space along as one of its bytes, and two texts can then escape alike by chance, as `BrokenBodyAlike` shows.
- RoundTrip: for objects with several members of one name only the direction from the condition to the law, because a wrongly parsed member can be replaced by a later one; `operator[]` never makes such objects, though the wizard's prepending can. `RoundTripExactly` has both directions for all others.
- RunIsOverlay: says nothing of options that make an uploaded object that is not exact, or that hold a double.
- HandshakeOrder: assumes that no Hello is dispatched after a session invalid for good or a refused token on the same connection; `HandshakesExactly` has both directions without that. Dispatch is prompt, and a payload is not given to two threads.
- MessagesDelivered: assumes one frame a turn of the service loop and that the timer fires only between messages, and before the next message after a full last frame.
- CountersCount: the state in which a block starts is set in trees.c, which is not part of this model; zero is required of all counters but that of the end-of-block code. `LiteralExact` and `DistanceExact` hold from any block.
- ParseText: `stod` throws here when a number rounds to one beyond the largest double; whether it also throws on numbers too close to zero depends on the library, and is not modelled.
- UnicodeEscapeRead: when the reversed digits are a high surrogate, a text that ends within the six bytes behind them is decided only for less than two bytes.
- Doubles: their text is printed by a stream and read by `stod`, which are not part of this model; a double stands for its printed text, and is outside the round-trip laws.
- The regular expressions for numbers and quotes are hand-written matchers; the limits of `std::regex` on long input are not modelled.
- Reading past the end of a string in `decode_utf8`, or of a close message shorter than its two-byte code, is modelled as null bytes.
- The item table's 68 defaults are a parameter; the item, entity and manifest writers, icon attachments and the check of an attachment's content type are not modelled (the last is a parameter).
- In the gateway the parser is an arbitrary total function of the text; its exceptions, data races inside a step, heartbeat threads, and the address to reconnect to are not modelled.
- The block function and the output format of the hash functions, and the bytes from `rand`, are parameters.
- The deflate loops that call the tally, Huffman trees and zip containers are not part of this model.
- Sockets, TLS, HTTP uploads and fetches, logging, files and UUIDs.
