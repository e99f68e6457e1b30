# Proofs about a camera recorder

The repository is a C++ program that keeps RTSP camera streams open, listens for alarms that
arrive as JSON objects over TCP, and records video around an alarm.  This project models its three
hardest parts in Dafny and proves what each of them is for:

* **The JSON library** (`json.h`, default flags).  A validating pass measures the input, one
  allocation is made, and an unchecked second pass fills it.  The two passes are written
  differently; they are proved to agree byte for byte, to accept exactly a grammar, and to be
  undone and redone by the two writers.
* **The alarm server** (`alarm_server.cpp`).  A brace counter that knows nothing of JSON cuts a TCP
  stream into texts.  It is proved to agree with the parser, to be independent of how the stream was
  chunked, and, end to end, to deliver exactly the alarms sent; `Routing.dfy` continues to the camera
  that is meant.
* **The recording session** (`recording_session.cpp`).  A buffer of packets with cached counters, five
  states, and file output outside the lock, used by several threads.  Its regions are methods of a
  class, proved against functions on values; the runs of the threads are all lists of steps of those
  functions, and invariants are proved of every run.  `Connection.dfy` does the same for the
  reconnecting loop that feeds it, and `CameraNode.dfy` puts the two together.

| file | what it holds |
|---|---|
| `JsonSyntax.dfy` | concrete syntax trees: the grammar, and the text of a tree in front of a continuation |
| `JsonScan.dfy` | the accepting scan as functions on suffixes; sound and complete for the grammar |
| `JsonDom.dfy` | decoded values, UTF-8, the sizes both passes count, and the records laid out in memory |
| `Wrappers.dfy` | a value that may be missing |
| `Numerals.dfy` | decimal and hexadecimal digits, read and written |
| `Bits.dfy` | shifts, masks, and and or as arithmetic |
| `JsonBits.dfy` | the bit arithmetic of escapes |
| `JsonParser.dfy` | `ParseState`: both passes, imperative |
| `JsonNumber.dfy` | the text both writers produce for a number, of any flags |
| `JsonText.dfy` | the text both writers produce, and what the parser makes of it |
| `JsonLines.dfy` | the layout of the written text, line by line |
| `JsonSpelling.dfy` | what is accepted and how it is read and written, character by character |
| `JsonWriter.dfy` | both writers, imperative |
| `AlarmFraming.dfy` | the brace scanner, frames, streams |
| `AddressText.dfy` | the number texts read and written with the C++ library |
| `AlarmServer.dfy` | events, the client thread, delivery end to end |
| `Routing.dfy` | address of a URL, the three indexes, lookup |
| `RecordingBuffer.dfy` | the pre-buffer as a value |
| `Recording.dfy` | `RecordingSession`: one method for each locked region |
| `RecordingRuns.dfy` | every interleaving of the threads |
| `RecordingRules.dfy` | what every reachable session does with a packet, an event, a loss, in plain numbers and contents |
| `RecordingThreads.dfy` | every run executed on the object |
| `Connection.dfy` | the connection loop |
| `CameraNode.dfy` | the connection loop and the alarms on one session |
| `CameraAlarms.dfy` | what a start, a stop and a loss do to a camera's session |

`dafny verify dfyconfig.toml` checks everything.

## The main results

1. `JsonScan.AcceptanceIsGrammar`: the validating pass accepts exactly a grammar, and reads every text in one way;
   `JsonSpelling.dfy` says character by character which texts these are and what they are read as.
2. `JsonParser.ParseState.Parse`: the two passes agree on every input: sizes, offsets, contents and bounds.
3. `JsonText.RoundTrip`, with `JsonWriter.WriteMinified` and `JsonWriter.WritePretty`: both writers fill their
   allocations exactly and are undone by the parser, exactly under the stated condition; `JsonText.ParsedRoundTrip` starts
   from what the parser returned, and `JsonLines.TextIsLaid` says how the text is laid out.
4. `AlarmFraming.FramingAgrees` and `AlarmFraming.ChunkInvariance`: the brace counter agrees with the grammar, and
   framing does not depend on chunking; `Routing.StreamIsRouted` and `Routing.ServeAndFind` take this from the received bytes
   to the cameras.
5. `RecordingRuns.RunIsSafe` and what follows from it: in every interleaving, files are closed once, recorded events are
   contiguous slices, every packet is freed once, the counters are right, and the bounds hold and are met;
   `RecordingThreads.ExecuteAll` says the same of the object, and `RecordingRules.dfy` what each packet, start, stop and loss does.
6. `RecordingBuffer.KeepSnoc` and `Recording.RecordingSession.PushPacket`: the in-place trimming with cached counters refines
   "the last groups of pictures".
7. `Connection.EveryRunIsProper`: the protocol and the pace of every run of the connection loop; `CameraNode.OutageIsSilent`
   and `CameraNode.BeginsApartWhen` say what that does to the session while the stream is away, `Connection.TurnIsTold` what every turn tells,
   `CameraAlarms.StartContinues` and `CameraAlarms.StartBegins` what an alarm does while it is there.

## How the code is rendered

* A C `char` is a Dafny `char`, a text a `string`; pointers into the input are indices, and what is
  unread is a suffix.  `size_t` and `uint64_t` counters are `nat`, so every subtraction is proved not
  to go below zero.  The 32-bit wrap of the surrogate formula and the byte swap are written out.
* The data area of the parser is an array with a cursor.  The records in front of it are byte counters
  with the record sizes of a 64-bit machine, and the records themselves are a datatype (`Dom`) that holds
  an index and a length where the C records hold a pointer and a length.  `Resolve` follows them.
* Where one C function was too long for one proof, its branches or the body of its loop became methods of
  their own; each keeps the order of the tests and updates of the source and names its place.
* A packet in the session is a handle: an optional pointer with copies of two fields, as in the source.  Moving or
  nulling empties it, and destroying it frees what it still holds; `freed` logs every call of `av_packet_free`.
* FFmpeg is a list of files with their packets and the number of trailers written to each.  Whether a file
  opens and whether a time limit is reached are parameters that may take any value at any step, as are
  the order of threads, the chunks received and the outcomes of the network.

## What the code does that its documentation does not say

* `json.h` takes a lone minus sign, behind blanks or not, as a value (`JsonScan.AcceptanceIsGrammar` states
  acceptance with that exception; `JsonScan.BracketedAcceptance` has none).  Inside strings it takes
  raw control characters other than NUL, TAB, CR and LF, which RFC 8259 forbids, and it refuses
  surrogate escapes that are not paired.
* On a number cut off behind its exponent letter the offset passes the end of the input by one
  (`json.h:1353-1355`); the scan calls this outcome `Over`.
* The writers copy a NUL of a decoded string into the text, which the parser refuses, and they print
  values nested deeper than the parser reads.  The round trip therefore holds exactly for NUL-free values
  nested at most 1000 deep (`JsonText.RoundTrip`, an equivalence).
* The repository's `README.md:114` promises at most `max_event_chunks` files for an event.  There is one more exactly when
  the last chunk allowed is rotated and the next file opens (`RecordingRuns.FilesPassLimitWhen`), which a packet asks for
  exactly when a limit of time or size is reached (`RecordingRuns.LastChunkRotatesWhen`); and each `continue_event` that comes between a packet filling the post-buffer and
  the finalization it asks for can add another (`RecordingRuns.ChunksAreBounded`, `RecordingRuns.ChunkBoundsAreMet`).
* The repository's `README.md:278` says that recordings always start and end on key frames.  An event that begins with
  buffered packets starts on one exactly when a group has been dropped since the last emergency or event, or the history
  since then starts with one (`RecordingRuns.StartsOnKeyWhen`).  An event that its post-buffer ends, ends on one if at least
  one is asked for (`RecordingRuns.EndsOnKey`).
* A file that does not open costs the rest of its event: nothing is recorded until the next one begins
  (`RecordingRuns.FailedOpenIsFinal`).
* Losing the stream before an event leaves the buffer as it is (`RecordingRules.LossKeepsBuffer`), so the next event may begin
  with packets from before the loss.
* Losing the stream stops the event, but an alarm that has already fetched the parameters of the stream can begin one
  afterwards, at most one, which records through the outage without a packet (`CameraNode.BeginsApartWhen`,
  `CameraNode.LateEventHappens`).
* The writers do not mend a number with an exponent right behind its point, which a flag lets the parser take
  (`JsonNumber.ExtendedIsWritten`); and the size pass counts nothing for a text that begins like infinity and is not
  (`JsonWriter.GetNumberSize`).
* A STOP that arrives while a file is being closed is lost (`RecordingRuns.FinalizingIsExclusive`).
* Raw bytes of a string are copied, so a string is UTF-8 after decoding exactly if its text was (`JsonDom.DecodingIsUtf8`).
* With a pre-buffer limit of zero the buffer is the last groups of pictures exactly while the history holds no key frame
  or ends with one (`RecordingRuns.BufferIsLastGroups`, `RecordingRuns.ZeroLimitKeepsMore`);
  with a negative one the trimming never ends (`RecordingBuffer.NegativeLimitNeverEnds`).
* A numeric `Channel` that is no `int` makes `std::stoi` throw out of the client thread, which ends the
  program; `AlarmServer.Handle` stops there, and `AlarmServer.FillTakesTheLast` says exactly when it happens.

## Model

| member | source | states |
|---|---|---|
| JsonScan.AcceptanceIsGrammar | json.h:2136-2149 | for every text and every document: the document is read from the text iff it is well formed (RFC 8259 with the deviations above, nesting at most 1000) and spells the text, or is a bare minus; so no text has two readings |
| JsonScan.BracketedAcceptance | json.h:1398-1501 | a text that starts with a bracket is accepted iff some well-formed document spells it |
| JsonSpelling.CharacterText | json.h:698-876 | a character between quotes is accepted, as itself, iff it is no quote, backslash, NUL, TAB, CR or LF |
| JsonSpelling.EscapeText | json.h:1580-1616 | each of the eight letters behind a backslash is read as its character, the solidus among them |
| JsonSpelling.EscapeRefused | json.h:753-768 | no other letter may stand there alone |
| JsonSpelling.UnicodeText | json.h:777-838 | four hexadecimal digits in either case are read as the UTF-8 form of the number they spell, and refused iff that is half a surrogate pair |
| JsonSpelling.PairText | json.h:777-838 | a high surrogate and the escape behind it are read as one character by the formula of RFC 8259, and refused iff the second is no low surrogate |
| JsonSpelling.CharacterShown | json.h:2951-2995 | the writers escape seven characters and no other |
| JsonSpelling.Words | json.h:1436-1490 | the three words are read as their values |
| JsonSpelling.BlankInFront | json.h:530-573 | four characters may stand in front of a value |
| JsonSpelling.BlankBehind | json.h:2136-2149 | the same four may stand behind it |
| JsonSpelling.IntegerText | json.h:1291-1315 | digits, with a minus or without, are a number iff no zero is followed by more |
| JsonSpelling.FractionText | json.h:1316-1334 | a point is accepted iff a digit follows |
| JsonSpelling.ExponentText | json.h:1336-1363 | an exponent is accepted iff it has a digit |
| JsonSpelling.NestedText | json.h:1089-1100 | n arrays inside one another are accepted iff n is at most 1000 |
| JsonScan.ItemsSound | json.h:698-876 | what is scanned as a string body is valid and spells the input consumed |
| JsonScan.ItemsComplete | json.h:698-876 | every valid string body in front of any continuation is scanned, and the continuation is left |
| JsonScan.NumSound | json.h:1175-1394 | a scanned number is valid and spells the input consumed, except for a lone minus at the end |
| JsonScan.NumComplete | json.h:1175-1394 | every valid number in front of anything that may follow a number is scanned whole |
| JsonScan.TreeSound | json.h:1398-1501 | a scanned value is valid at its depth and spells the input consumed |
| JsonScan.TreeComplete | json.h:1398-1501 | every valid value in front of a proper continuation is scanned, and the continuation is left |
| JsonDom.Utf8RoundTrip | json.h:1532-1578 | the encoding of every scalar value is read back, in front of anything, by a strict UTF-8 decoder |
| JsonDom.DecodingIsUtf8 | json.h:1507-1637 | for every valid string, raw bytes of any kind among its escapes: the bytes written are UTF-8 iff the string's text is; and they read as the code points of the raw runs with each escape's code point between them |
| JsonDom.ReadingSplits | json.h:1617-1620 | reading bytes as UTF-8 splits wherever a character starts, so raw runs and escapes are read independently |
| JsonDom.ResolveLayout | json.h:1507-2101 | wherever the payload of a tree stands in the data area, following the records laid out for that place gives the decoded value |
| JsonDom.LayoutInBounds | json.h:1507-2101 | every record of a layout stays inside a data area that holds the payload |
| JsonBits.TwoBytes | json.h:1542-1546 | the two or-ed and truncated bytes are the UTF-8 form |
| JsonBits.ThreeBytes | json.h:1568-1577 | the three or-ed and truncated bytes are the UTF-8 form |
| JsonBits.PairExceeds | json.h:1556-1558 | the surrogate formula exceeds the code point by exactly 2^32, because its offset wraps as a 32-bit word |
| JsonBits.FourBytes | json.h:1560-1567 | the four bytes written from the exceeding word are the UTF-8 form of the code point |
| JsonParser.ParseState.SkipWhitespace | json.h:530-573 | skips exactly the leading blanks and reports whether there were any |
| JsonParser.ParseState.SkipAllSkippables | json.h:647-691 | leaves the input at its first non-blank; an error iff nothing is left; past the end it does nothing |
| JsonParser.ParseState.HexadecimalValue | json.h:508-527 | succeeds iff there are no more digits than a word holds and all are hexadecimal, with the number they write |
| JsonParser.SpelledNumber | json.h:508-527 | that number is the one whose places are the digits, of the literal tables of both cases |
| Numerals.DigitWorth | json.h:508-527 | each digit of both tables is worth its position |
| Numerals.HexWhen | json.h:508-527 | no other character is a hexadecimal digit |
| JsonParser.ParseState.UnicodeEscape | json.h:777-838 | which escapes are refused, given a pending high surrogate, and the bytes added for the others |
| JsonParser.ParseState.GetStringSize | json.h:698-876 | an error iff the scan of the string fails; otherwise the input behind it, one record, and its decoded length plus one byte a surrogate pair and the NUL |
| JsonParser.ParseState.GetNumberSize | json.h:1175-1394 | agrees with the scan of numbers in all three outcomes and counts the text and its NUL |
| JsonParser.ParseState.GetKeySize | json.h:1028-1063 | agrees with the scan of a key with its colon |
| JsonParser.ParseState.PassComma | json.h:1132-1153 | goes on iff an item may follow, and then stands at it |
| JsonParser.ParseState.ArrayLoop | json.h:1114-1171 | an error iff the scan of the elements fails; otherwise the records and bytes of all of them |
| JsonParser.ParseState.GetArraySize | json.h:1089-1172 | the same for the array with its bracket, refused beyond the nesting limit |
| JsonParser.ParseState.ObjectLoop | json.h:976-1085 | the same for the members, with the offset one past the end iff a number was cut |
| JsonParser.ParseState.GetObjectSize | json.h:933-1086 | the same for the object with its brace |
| JsonParser.ParseState.GetMemberSize | json.h:1028-1069 | the same for one key and value |
| JsonParser.ParseState.GetValueSize | json.h:1398-1501 | the same for any value |
| JsonParser.ParseState.ParseString | json.h:1509-1637 | on an accepted string appends exactly the decoded bytes and a NUL, and returns where they stand |
| JsonParser.ParseState.PutPair | json.h:1552-1567 | appends the UTF-8 form of the completed pair |
| JsonParser.ParseState.PutUnicode | json.h:1540-1578 | appends the UTF-8 form of an escape, or keeps a high surrogate pending |
| JsonParser.ParseState.ParseNumber | json.h:1909-1998 | the loose scan copies exactly the number the strict scan accepted |
| JsonParser.ParseState.ParseKey | json.h:1641-1677 | appends the decoded key and stands behind the colon |
| JsonParser.ParseState.ArrayElements | json.h:1830-1893 | the records and payload of all elements, in order |
| JsonParser.ParseState.ParseArray | json.h:1819-1905 | the same for the array |
| JsonParser.ParseState.ObjectMembers | json.h:1706-1803 | the records and payload of all members, in order |
| JsonParser.ParseState.ParseObject | json.h:1682-1815 | the same for the object |
| JsonParser.ParseState.ParseValue | json.h:2003-2101 | the records advance by the value's size, the data area gets its payload, and the result is its layout |
| JsonParser.ParseState.Measure | json.h:2136-2149 | an error iff the text is refused; otherwise the exact sizes |
| JsonParser.ParseState.Parse | json.h:2103-2214 | accepted iff the grammar accepts; then following the records gives the decoded value, the records are used up exactly, the data area up to one byte a surrogate pair, every record stays in it, and the second pass stops where the value ends |
| JsonText.TreeShown | json.h:2997-3094 | the printed text of a value is the text of its canonical tree |
| JsonText.CanonValid | json.h:2997-3094 | the canonical tree is well formed if the value is NUL-free and not nested too deep |
| JsonText.CanonDecodes | json.h:2949-3094 | the canonical tree decodes to the value |
| JsonText.NulIsShown | json.h:2949-2995 | a value with a NUL in some string is printed with a NUL |
| JsonText.DecodedNesting | json.h:939-945 | an accepted value is nested no deeper than the limit |
| JsonNumber.NumberIsCopied | json.h:2768-2947 | no number of the default grammar, nor a lone minus, reaches a special branch of the number writer: it is copied as it is |
| JsonNumber.FoundWhen | json.h:2820-2836 | when the comparison with a literal takes it as found, whose last character need not match, and when it runs past its end |
| JsonNumber.ExtendedIsWritten | json.h:2768-2947 | every hexadecimal, infinite, not-a-number, signed or pointed text is counted as it is written, and written as a number of the default grammar iff no exponent stands right behind its point |
| JsonNumber.HexadecimalShown | json.h:2772-2808 | a hexadecimal number is written as the decimal form of the number its digits spell, or of the largest word |
| JsonNumber.InfinityShown | json.h:2820-2850 | infinity is written as 1.7976931348623158e308 with its minus |
| JsonNumber.NaNShown | json.h:2852-2874 | not-a-number is written as 0 |
| JsonNumber.UsualShown | json.h:2876-2946 | of any other number the plus goes, and a point without digits on one side gets a zero there |
| JsonText.RoundTrip | json.h:2216-2219 | for every value with default-grammar numbers and either writer's style, the printed text is read as that value iff the value is NUL-free and nested at most 1000 deep |
| JsonText.ParsedRoundTrip | json.h:2216-2219 | whatever text was accepted, its value may be written in either style, and is read back from that iff no string of it holds a NUL |
| JsonLines.TextIsLaid | json.h:3270-3436 | for every style and value: the text is its lines, brackets on lines of their own, items one deeper, a comma behind all but the last, and each line behind as many indents as it is deep |
| JsonLines.MinifiedIsUnspaced | json.h:2997-3094 | the minified text has a blank only where a string has a space |
| JsonWriter.GetStringSize | json.h:2652-2675 | the exact length of the printed string |
| JsonWriter.GetNumberSize | json.h:2528-2648 | the exact length of the number as written, through every branch; zero for a text that begins like infinity and is not |
| JsonWriter.MinifiedSize | json.h:2733-2761 | the exact length of the minified text |
| JsonWriter.PrettySize | json.h:3233-3264 | the exact length of the pretty text, at any depth and for any indent and newline |
| JsonWriter.WriteString | json.h:2951-2995 | appends the printed string |
| JsonWriter.WriteNumber | json.h:2768-2947 | appends the number as written, through every branch |
| JsonWriter.MinifiedValue | json.h:3059-3094 | appends the minified text |
| JsonWriter.PrettyValue | json.h:3399-3436 | appends the pretty text |
| JsonWriter.WriteMinified | json.h:3096-3135 | the allocation holds exactly the minified text and a NUL |
| JsonWriter.WritePretty | json.h:3438-3497 | the allocation holds exactly the pretty text and a NUL |
| JsonWriter.WriteThenParse | json.h:3096-3135 | writing and then parsing gives the value back iff it is NUL-free and nested at most 1000 deep |
| AlarmFraming.FindJsonEnd | alarm_server.cpp:189-202 | zero iff no balanced object is complete; otherwise the length of the first |
| AlarmFraming.FramingAgrees | alarm_server.cpp:189-202 | for every accepted text that begins with a brace and anything behind it, the brace counter ends where the parser's object ends; at the end of the text if that is a brace |
| AlarmFraming.TreePassed | alarm_server.cpp:193-200 | over any valid value inside an object the counter comes back to the depth and state it had |
| AlarmFraming.EndIsStable | alarm_server.cpp:189-202 | more input does not move an end once found |
| AlarmFraming.AlikeContinue | alarm_server.cpp:104-113 | leftovers that are alike, equal or both without a brace, give the same frames and alike leftovers with whatever follows |
| AlarmFraming.ChunkInvariance | alarm_server.cpp:102-117 | for all a and b: processing a, then appending b and going on, cuts the same frames as processing a and b at once, also through the overflow clear, and the leftovers behave alike |
| AlarmFraming.FeedIsWhole | alarm_server.cpp:85-97 | however a stream is chunked, its frames are those of the whole |
| AlarmFraming.StreamIsFramed | alarm_server.cpp:102-117 | a stream of accepted objects with brace-free bytes between them has exactly these objects as frames |
| AlarmFraming.BraceFreeIsKept | alarm_server.cpp:101-112 | bytes without a brace are kept up to 32768 of them, and then dropped |
| AlarmFraming.OpenIsKept | alarm_server.cpp:113-115 | an object that is not complete is kept from its brace on |
| AddressText.StoulReadsHex | alarm_server.cpp:156 | std::stoul reads back the eight-digit form of every word |
| AddressText.StoulReads | alarm_server.cpp:156 | std::stoul on digits in either case, whatever follows them: their number, or an exception if a long cannot hold it |
| AddressText.StoulSpelled | alarm_server.cpp:156 | the number std::stoul reads is the one whose places are the digits, in either case |
| AddressText.StoulUppercase | alarm_server.cpp:156 | case does not matter |
| AddressText.StoulForms | alarm_server.cpp:156 | blanks, a plus and a prefix in front change nothing, a minus negates the word |
| AddressText.StoiReads | alarm_server.cpp:139 | std::stoi reads the decimal form of every int, negative or not, whatever follows that is no digit, and throws on every other number |
| AddressText.WordIsLastEight | alarm_server.cpp:156 | of a longer number only the last eight digits matter to the 32-bit word |
| AddressText.SwapBytes | alarm_server.cpp:157-160 | the masks, shifts and ors of the source reverse the four bytes |
| AddressText.SwapReverses | alarm_server.cpp:157-172 | both spellings of the swapped word show the pairs of digits in reverse order |
| AddressText.SwapTwice | alarm_server.cpp:157-160 | swapping twice is the identity |
| AlarmServer.FillTakesTheLast | alarm_server.cpp:128-149 | for every list of members: an exception iff some numeric channel is no int; otherwise every field is the last member of its name with the right type |
| AlarmServer.LastTextAt | alarm_server.cpp:130-150 | the last text for a name is the one at the last position that has one |
| AlarmServer.LastChannelAt | alarm_server.cpp:138-139 | the same for the last numeric channel |
| AlarmServer.FindBrace | alarm_server.cpp:105-113 | the first brace, or the length if there is none |
| AlarmServer.AlarmClient.FillEvent | alarm_server.cpp:128-149 | reading the members out of the data area fills the event of the decoded members |
| AlarmServer.AlarmClient.HandleFrame | alarm_server.cpp:119-185 | one frame calls back with exactly the alarm its text denotes |
| AlarmServer.AlarmClient.ProcessBuffer | alarm_server.cpp:102-187 | calls back with the alarms of all complete frames in order and leaves the rest in the buffer |
| AlarmServer.AlarmClient.RunClient | alarm_server.cpp:85-97 | the same over any list of received chunks |
| AlarmServer.StreamIsDelivered | alarm_server.cpp:102-187 | end to end: a stream of accepted objects, cut in any way, calls back with the alarms among them, once each and in order, unless some channel throws |
| AlarmServer.ObjectIsDelivered | alarm_server.cpp:124-181 | an accepted object yields an event iff its last textual Type is Alarm, with the last member of each name |
| AlarmServer.AlarmFields | alarm_server.cpp:124-185 | the event of an alarm field by field: the last text of each name, empty without one, channel zero without one, a short address as it is |
| AlarmServer.ChannelArrives | alarm_server.cpp:138-139 | an alarm whose last channel is spelled as an int arrives on that channel; one beyond an int throws |
| AlarmServer.RefusedIsSkipped | alarm_server.cpp:119-123 | a text the parser refuses changes nothing |
| AlarmServer.WrittenIsDelivered | alarm_server.cpp:119-185 | an object printed by either writer is framed whole and delivered as the object it was |
| AlarmServer.ConvertSwaps | alarm_server.cpp:154-176 | for hexadecimal addresses of any length and case, whatever follows the digits: the last eight digits are replaced by their pairs in reverse order, in both spellings; short ones and ones beyond a long stay |
| AlarmServer.ConvertSpelled | alarm_server.cpp:153-172 | eight digits of either case, byte by byte, become these bytes in reverse order in upper-case digits, and in decimal with points |
| AlarmServer.ConvertUppercase | alarm_server.cpp:156 | the case of an address does not matter |
| AlarmServer.ConvertStays | alarm_server.cpp:174-176 | an address without digits stays as it is |
| Routing.PackBytes | config.cpp:53 | the shifted and or-ed bytes are the word of the quad |
| Routing.HostWordOf | config.cpp:51-53 | the host scan reads back every dotted quad, whatever non-digit follows |
| Routing.NumberRunsOver | config.cpp:51-53 | a number that is no byte runs over into the bytes before it, as a 32-bit word |
| Routing.KeysAgree | config.cpp:40-57 | for every URL with a dotted-quad host, optional user, and no later at sign: the hex key and the dotted key are those of the host |
| Routing.NoAddress | config.cpp:40-57 | a URL without a scheme, or whose host does not begin like a number, has the address zero |
| Routing.HexReadBack | utils.hpp:23-37 | the dotted form of a hex key is that of its word |
| Routing.IndexMeans | camera_manager.cpp:17-23 | a key is found iff it was entered, at its last entry |
| Routing.CameraManager.Initialize | camera_manager.cpp:17-23 | the three maps are the indexes of the cameras by serial number, hex key and dotted key |
| Routing.CameraManager.FindIdx | camera_manager.cpp:115-123 | about the cameras: the last one with the serial number, else the last at the hex address, else the last at the dotted address, else -1 |
| Routing.CameraManager.FindAll | camera_manager.cpp:48-54 | one such lookup for each event, in order |
| Routing.AlarmsAreRouted | camera_manager.cpp:115-123 | with pairwise distinct hosts, an alarm with an unknown serial goes to the camera at its sender's address, one with a known serial to the last camera with it |
| Routing.UnknownFindsNone | camera_manager.cpp:115-123 | an alarm that names no camera by serial number or address finds none |
| Routing.CamerasSendThemselves | alarm_server.cpp:156-164 | the address a camera sends for its own host is recognised as that host |
| Routing.SentIsDelivered | alarm_server.cpp:119-185 | the events delivered are the alarms sent, each with its address converted |
| Routing.StreamIsRouted | camera_manager.cpp:48-54 | from the received bytes to the cameras: however a stream of accepted objects is chunked, there is one lookup for each alarm sent, in order, and it finds the last camera with its serial number or else the camera at its sender's address |
| Routing.ServeAndFind | camera_manager.cpp:48-54 | the client thread and the lookups compute what that statement is about |
| RecordingBuffer.FromKeyMeans | recording_session.cpp:475-515 | the suffix kept starts at a key frame and holds exactly the last n of them |
| RecordingBuffer.DropGopKeeps | recording_session.cpp:475-515 | with one key frame too many, one drop leaves exactly the groups that should stay |
| RecordingBuffer.KeepSnoc | recording_session.cpp:419-431 | for a positive limit, trimming after every push is trimming the whole history once |
| RecordingBuffer.KeepSnocFailsAtZero | recording_session.cpp:419-431 | for the limit zero that is false |
| RecordingBuffer.LastGroupsSnoc | recording_session.cpp:419-431 | for every limit, what one push makes of the buffer as a function of the history |
| RecordingBuffer.ZeroKeepsWhen | recording_session.cpp:419-431 | for the limit zero the buffer is the last groups iff the history has no key frame or ends with one |
| RecordingBuffer.NegativeLimitNeverEnds | recording_session.cpp:429-431 | with a negative limit every buffer is soon empty and the loop's guard still holds |
| RecordingBuffer.FitBytesMeans | recording_session.cpp:448-459 | the emergency by bytes keeps the longest suffix that fits |
| RecordingBuffer.TrimBounds | recording_session.cpp:419-445 | after a push the buffer is a suffix within 50 MiB, 500 packets and the limit of key frames |
| RecordingBuffer.TrimMeans | recording_session.cpp:419-445 | what a push leaves of the groups kept: all up to 500 packets and 50 MiB; above 500 the latest 250; above 50 MiB the longest end within 25 MiB, cut to 250 only if it has more than 500 |
| RecordingBuffer.NoKeyDropsQuarter | recording_session.cpp:484-494 | without a key frame a quarter of the buffer is dropped, and at least one packet |
| Recording.RecordingSession.DropOldestGop | recording_session.cpp:475-515 | drops exactly the front that the step prescribes, and both counters stay right |
| Recording.RecordingSession.DropGops | recording_session.cpp:429-431 | the loop turns at most once and leaves the last groups |
| Recording.RecordingSession.EmergencyClear | recording_session.cpp:448-459 | leaves the longest suffix that fits, counters right |
| Recording.RecordingSession.EmergencyClearByCount | recording_session.cpp:462-473 | leaves the last packets, counters right |
| Recording.RecordingSession.Destroy | recording_session.hpp:62 | a handle frees the packet it still owns, and nothing else |
| Recording.RecordingSession.EraseFront | recording_session.cpp:496-499 | erasing handles frees their packets, once each |
| Recording.RecordingSession.ClearPreBuffer | recording_session.cpp:258-267 | clearing frees the packets still owned, and none whose pointer was set to null |
| Recording.RecordingSession.WritePacketToFile | recording_session.cpp:587-605 | a packet is freed once, after it was written if a file is open; a null pointer does nothing |
| Recording.RecordingSession.DrainPreBuffer | recording_session.cpp:258-269 | the buffer goes to the file and every packet of it is freed once |
| Recording.RecordingSession.AddToPreBuffer | recording_session.cpp:419-445 | the handle is moved into the buffer and comes back empty; the buffer is trimmed as prescribed, what leaves it is freed, counters right |
| Recording.RecordingSession.PushPacket | recording_session.cpp:21-97 | the new state and whether to finalize, for every state, size and time |
| Recording.RecordingSession.BeginFinalize | recording_session.cpp:104-147 | the first region of a finalization |
| Recording.RecordingSession.WriteTrailer | recording_session.cpp:197-206 | one more trailer on that file |
| Recording.RecordingSession.EndFinalize | recording_session.cpp:151-174 | the last region: rotation or the end of the event |
| Recording.RecordingSession.StartEvent | recording_session.cpp:220-272 | the new file gets the whole buffer, or all of it is freed; ignored during an event |
| Recording.RecordingSession.ContinueEvent | recording_session.cpp:274-301 | leaves POST_BUFFER for RECORDING and changes nothing else |
| Recording.RecordingSession.StopEvent | recording_session.cpp:303-327 | leaves RECORDING for POST_BUFFER and changes nothing else |
| Recording.RecordingSession.BeginForceStop | recording_session.cpp:329-354 | enters FINALIZING during an event; the byte counter it leaves alone is already zero |
| Recording.RecordingSession.EndForceStop | recording_session.cpp:360-366 | no file is open, back to PRE_BUFFER |
| Recording.RecordingSession.BeginShutdown | recording_session.cpp:373-390 | frees the buffer and leaves IDLE |
| Recording.RecordingSession.EndShutdown | recording_session.cpp:396-400 | no file is open |
| RecordingRuns.SafeKept | recording_session.cpp:21-403 | every enabled step of every thread keeps all the invariants |
| RecordingRuns.RunIsSafe | recording_session.cpp:21-403 | so does every run |
| RecordingRuns.ReachableIsSafe | recording_session.cpp:21-403 | every reachable state satisfies them |
| RecordingRuns.FinalizingIsExclusive | recording_session.cpp:104-218 | in FINALIZING nobody but the thread that entered it changes anything, and only its last region leaves |
| RecordingRuns.StateGraph | recording_session.cpp:104-403 | in every run, the state after each step of each thread; continuing and stopping touch neither file nor buffer |
| RecordingRuns.EventEndsWhen | recording_session.cpp:517-527 | after a stop, a packet asks for the end iff as many key frames as configured have been accepted since, and no earlier packet did |
| RecordingRuns.TakenFileStays | recording_session.cpp:182-206 | the file whose trailer is being written is still the open one and has none |
| RecordingRuns.FilesAreClosedOnce | recording_session.cpp:182-218 | no file gets two trailers, none but the open one lacks one, none is open in PRE_BUFFER or after shutdown |
| RecordingRuns.EventIsSlice | recording_session.cpp:587-605 | consecutive files of one event join to one slice of the accepted packets |
| RecordingRuns.RecordedSlices | recording_session.cpp:587-605 | in every run, what is recorded of an event over all its files is one contiguous slice in order, events do not overlap, files are numbered without a gap, an open file has everything accepted, whichever files fail to open |
| RecordingRuns.EventBeginsWithBuffer | recording_session.cpp:258-269 | an event whose first file opens begins with the whole buffer, which is the latest packets accepted |
| RecordingRuns.StartsOnKeyWhen | recording_session.cpp:258-269 | an event that begins with buffered packets begins with a key frame iff the history since the last emergency or event holds more key frames than the limit or begins with one; with the limit zero never |
| RecordingRuns.EndsOnKey | recording_session.cpp:517-527 | the packet that ends an event through its post-buffer is a key frame, if any is asked for, and the last of its file |
| RecordingRuns.FailedOpenIsFinal | recording_session.cpp:587-605 | in every run that goes on without an open file, no file gets anything until the next event begins |
| RecordingRuns.NothingToFinalize | recording_session.cpp:118-139 | a finalization without an open file returns at once, and ends the event only in POST_BUFFER |
| RecordingRuns.HistoryGrows | recording_session.cpp:21-97 | what was accepted and where files start never changes later |
| RecordingRuns.PacketsAreConserved | recording_session.hpp:57-67 | in every run a packet has been freed as often as it was pushed and is not buffered any more: never twice, and once by shutdown; what was written has been freed |
| RecordingRuns.CountersAreRight | recording_session.cpp:419-515 | in every run until shutdown the counters are sum and key frames of the buffer, within all bounds; during an event it is empty and both are zero |
| RecordingRuns.BufferIsLastGroups | recording_session.cpp:419-515 | for a positive limit the buffer is the last groups of what was pushed since the last emergency; for zero, iff that has no key frame or ends with one |
| RecordingRuns.ZeroLimitKeepsMore | recording_session.cpp:419-431 | with the limit zero, a run of two pushes whose buffer is not the last groups |
| RecordingRuns.ChunksAreBounded | recording_session.cpp:81-87 | chunk number and files of an event stay within the limit, one more, and the late continuations; without a limit of time or size, within one and the late continuations |
| RecordingRuns.FilesPassLimitWhen | recording_session.cpp:158-166 | for every reachable state and step: the event gets more files than the limit iff the last chunk allowed is rotated and the new file opens |
| RecordingRuns.LastChunkRotatesWhen | recording_session.cpp:73-88 | in the last chunk allowed a packet asks for that rotation iff a limit of time or size is reached, and the rotation passes the limit iff the file opens |
| RecordingRuns.RotatesWhen | recording_session.cpp:73-88 | in every reachable recording state an accepted packet asks for a rotation iff the number of chunks is not limited or below its limit, and the time limit is reached or the packets of the chunk reach the size limit |
| RecordingRuns.LimitIsPassedWhen | recording_session.cpp:158-166 | the chunk number passes the limit, one file later, iff a rotation begun at the limit ends, which takes a late continuation |
| RecordingRuns.ChunkBoundsAreMet | recording_session.cpp:73-88 | whenever chunks have a limit of time or size: for every positive limit on their number, every post-buffer and every n, a run with n late continuations reaches both bounds |
| RecordingRuns.ChunkSizeIsBounded | recording_session.cpp:79-87 | with a file open and the limit not reached, a chunk is below its size after every push, and never above it by a whole packet |
| RecordingRules.AbnormalIsDropped | recording_session.cpp:31-36 | in every reachable state a packet that is empty or above a mebibyte is freed and nothing else happens |
| RecordingRules.BufferedPush | recording_session.cpp:419-445 | any other joins the buffer before an event, of which the trimming leaves what `TrimMeans` says |
| RecordingRules.RecordedPush | recording_session.cpp:62-72 | while recording it goes to the end of the open file, if any, is freed, and counts for the chunk |
| RecordingRules.PostPush | recording_session.cpp:517-527 | in the post-buffer it goes there too, counts if it is a key frame, and asks for the end iff the count is reached |
| RecordingRules.StartMeans | recording_session.cpp:220-272 | a start outside an event: the next number, the first chunk, the buffer in the new file or freed |
| RecordingRules.StartIsIgnored | recording_session.cpp:225-230 | during an event a start does nothing |
| RecordingRules.ContinueMeans | recording_session.cpp:274-301 | the whole session after a continuation, in every state |
| RecordingRules.StopMeans | recording_session.cpp:303-327 | the whole session after a stop, in every state |
| RecordingRules.EventIsFinished | recording_session.cpp:104-174 | a finalization in the post-buffer closes the file with its trailer and ends the event |
| RecordingRules.ChunkIsRotated | recording_session.cpp:104-174 | one while recording closes the file, and the next chunk of the event begins empty, in a new file if that opens |
| RecordingRules.LossClosesFile | recording_session.cpp:329-366 | a forced stop during an event closes the file and ends the event |
| RecordingRules.LossKeepsBuffer | recording_session.cpp:329-354 | before an event it changes nothing |
| RecordingRules.ShutdownCloses | recording_session.cpp:373-400 | shutdown during an event closes the file |
| RecordingRules.HistorySteps | recording_session.cpp:21-403 | what the histories of pushed and accepted packets, late continuations and the last stop are, after every step |
| RecordingRules.ChunkSteps | recording_session.cpp:72-88 | the packets of a chunk are those accepted while recording since an event began or a chunk was rotated |
| RecordingRules.BufferHistoryGrows | recording_session.cpp:419-445 | the history of the buffer grows with every accepted packet for which 50 MiB and 500 packets are enough |
| RecordingRules.BufferHistoryStays | recording_session.cpp:21-403 | and no other step changes it but the start of an event and shutdown |
| RecordingThreads.Execute | recording_session.cpp:21-403 | the object takes every enabled step as the values do, and meets the precondition of the method it takes |
| RecordingThreads.ExecuteAll | recording_session.cpp:21-403 | for every run, a new session after its steps is what the run says |
| Connection.Stream.ReadFrames | rtsp_stream.cpp:175-228 | why reading ended and which packets were handed over, for every list of results |
| Connection.Stream.TurnRefused | rtsp_stream.cpp:114-146 | one turn that cannot open |
| Connection.Stream.TurnOpened | rtsp_stream.cpp:148-253 | one turn that can |
| Connection.Stream.Run | rtsp_stream.cpp:105-255 | the log of the whole loop |
| Connection.TurnIsTold | rtsp_stream.cpp:148-253 | for every list of frames and retries in front of any result that ends reading: one packet a frame, then the input and the flag are closed, and the loss is told iff the result was an interrupt or a failure and no stop came; an exit code tells none, a stop ends the loop |
| Connection.StoppedTurnIsTold | rtsp_stream.cpp:175-253 | the same if a stop is seen while reading |
| Connection.RefusalIsTold | rtsp_stream.cpp:114-146 | an attempt that fails tells the loss once and waits, doubling the wait up to its maximum, or gives up after as many attempts as allowed |
| Connection.TurnsSnoc | rtsp_stream.cpp:105-255 | the loop takes the attempts one by one until it is over |
| Connection.BackoffDoubles | rtsp_stream.cpp:143 | doubling under the maximum gives the next wait of the closed form |
| Connection.RunIsProper | rtsp_stream.cpp:105-255 | every run keeps the protocol and the pace from any proper state |
| Connection.EveryRunIsProper | rtsp_stream.cpp:105-255 | in every run found and lost strictly alternate beginning with found, the stream is alive at each found and each packet and not at each lost, its input is closed before; the k-th failure in a row waits min(base * 2^k, max), the first one base; giving up has its reason |
| Connection.NoPacketApart | rtsp_stream.cpp:105-255 | between a lost and a later packet there is a found |
| CameraNode.SoundKept | camera_node.cpp:53-110 | every step of the worker, the alarm thread and the stop keeps the invariants of the node |
| CameraNode.NodeRunsItsSession | camera_node.cpp:53-110 | every run of the node is a run of its session |
| CameraNode.OutageIsSilent | camera_node.cpp:53-60 | from a lost connection until the stream is opened again no packet is pushed and at most one event begins, none unless the alarm thread has fetched the parameters of the stream before |
| CameraNode.BeginsApartWhen | camera_node.cpp:83-109 | meanwhile a step begins an event iff it is that thread's call and the forced stop is over |
| CameraNode.RecordsApartWhen | camera_node.cpp:53-60 | once the forced stop is over, the session rests iff no event began late, and else records |
| CameraNode.LateEventHappens | camera_node.cpp:83-109 | a run in which that happens |
| CameraNode.LoopIsHeard | camera_node.cpp:12-24 | whatever the network does, some run of the node is told exactly what the connection loop tells |
| CameraAlarms.StartContinues | camera_node.cpp:83-98 | an alarm's start while the stream is live and the session records or is in the post-buffer: afterwards it records the same event, and the post-buffer count is gone |
| CameraAlarms.StartBegins | camera_node.cpp:99-109 | before an event, once the parameters are copied, it begins the next one, with the buffer in its first file |
| CameraAlarms.StartIsLate | camera_node.cpp:99-109 | while a file is being closed it changes nothing |
| CameraAlarms.StartWithoutParameters | camera_node.cpp:106-112 | nor without the parameters of the stream |
| CameraAlarms.StartIsIgnored | camera_node.cpp:83-87 | nor while the stream is not alive |
| CameraAlarms.StopIsTaken | camera_node.cpp:74-81 | a stop turns recording into the post-buffer, and does nothing in any other state |
| CameraAlarms.LossEndsEvent | camera_node.cpp:53-60 | a lost stream closes the file of the event, which is over then |
| CameraAlarms.ClosedIsDeaf | camera_node.cpp:47-60 | a stopped node takes no alarm and no loss, and shuts its session down |

## Left out

- Flags of `json.h` other than the default ones, with comments, unquoted keys and source locations.
- The error codes and error offsets that `json_parse_ex` reports, and a failing allocator.
- The writers on number texts that the size pass miscounts or on which a comparison runs past its literal: their methods ask for the others (`JsonNumber.Writable`), which all texts of every flag are (`JsonNumber.ExtendedIsWritten`).
- `json_extract_value` and the accessors of single values.
- Sockets, `accept`, receive errors and the watchdog: any list of chunks and any outcome of a read may occur.
- `std::stoi` and `sscanf` on numbers beyond `int` in a URL: the model computes with the number itself, modulo 2^32.
- Frame rate detection, time stamps, statistics, logging, codec parameters and the names of files, which are parameters.
- The save callback and the deletion of a file whose trailer failed.
- Reading the stream's parameters in two calls: `CameraNode.Fetch` succeeds where the second one may.
- A second call of shutdown, and steps of other threads during it: `camera_manager.cpp:34-43` joins them first.
- The failure results of `av_interleaved_write_frame`: a packet handed to the writer counts as recorded.
- The move assignment of a packet handle (`recording_session.hpp:68-75`), which no path of the session calls.
- The alarm queue, an unbounded queue that hands out events in the order they came; the timeouts of the monitor thread, scripts and macros, loading of the configuration.
