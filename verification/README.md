# KaSON in Dafny

KaSON reads JSON without building a tree: callbacks are shown slices of the input. It
holds three recognisers of one language (a recursive-descent scanner, an older state
machine that finds containers with two bracket counters, and a parser that is fed chunks
and keeps what is pending in a scratch buffer), a hash index of decoded keys, string and
number conversions, a schema printer and parser, and two document formatters. Its value
lies in these parts agreeing with each other, and that is what is proved here.

`dafny verify dfyconfig.toml` checks the whole project.

## How it is modelled

Bytes are integers below 256, a text is a sequence of bytes, a pointer into it is an index,
and an inclusive C range is a sequence, so the bit operations of the C code appear as
divisions and remainders; the 32-bit hash works on bit vectors. 64-bit magnitudes and the
writer's `size_t` length are bounded explicitly. A NUL-terminated input is its bytes up to
the first NUL.

The independent reference is `Grammar`: concrete syntax trees of sections 2 to 7 of RFC 8259
(with the UTF-8 of section 4 of RFC 3629) in which every byte of the text has its place, and
their printer. "JSON text" means "some well-formed tree prints it", and a text has only one.

What the C code updates in place is updated in place here: the stream, the scanner, the older
parser, the index, the accumulator, the writer and the unpacking context are classes, the
copying and formatting loops are methods over arrays. Each is tied by its `ensures` to a
function of its input, and the theorems are about those functions and the trees.

A callback is a function from all events so far to an answer, so every answer that may depend
on earlier events is covered. `Legacy.Internal.Next` turns the loop of the older parser inside
out: it runs up to the next call of the callback and returns. The schema code drives it that
way, so its callbacks are methods that change the unpacking context.

| files | what they cover |
|---|---|
| Bytes, JsonString, StringScan, Number, Grammar | bytes, strings, numbers, syntax trees and their readers |
| Events, Modes, Scanner, Actions | the scanner with its ENTER, CAPTURE, SKIP and BREAK protocol |
| StringAutomaton, StreamSpec, Stream, StreamChunks, StreamReads, StreamRefinement, StreamAgreement, StreamExact, StreamSound | the chunked parser |
| LegacySpec to LegacySound, LegacyShown, LegacyAgreement, Legacy | the older parser |
| Lookup, Selected | decoded keys and parsing with a table of keys |
| Convert, Accumulate, Decimals, Compare | numbers as integers and decimals, string order and copying |
| Writer, UnitText, JsonWriter | output modes, strings in memory, written strings and integers |
| Schemas, SchemaIndex, Pack, Packer, Unpack, Unpacker, UnpackSpec, NestedArrays, UnpackTrees, RoundTrip, RoundTripRuns | schemas |
| Format, FormatTrees, FormatPretty, FormatMeaning | the two formatters |

Where the code does something other than what one would expect, the condition is stated
exactly and for all inputs. The older parser's depth
limit counts only containers it enters (`LegacyTrees.Enters`) and it drops a byte behind a bare
root token (`LegacyAgreement.DropsByte`). The stream accepts texts that are not JSON
(`StreamAgreement.StreamAcceptsMore`), precisely those with a child container that is not
(`StreamSound.AcceptedIsJson`). What is stored for an array field is that of the array's own
elements unless the array begins and ends, without white space after its bracket, with an
element that is an array: the brackets at the ends of its text are then taken off once more. With
several elements the rest is refused (`[[1],[2]]`); a lone array takes the place of the outer one,
so `{"a":[[1]]}` is unpacked as `{"a":[1]}` (`UnpackTrees.ArrayStored` says this for every array,
`UnpackTrees.ArrayOfArrays` when an array of arrays is stored at all,
`UnpackTrees.NestedArrayStored` for that input). A packed object is unpacked again precisely when
its text lies within the older parser's limit (`RoundTrip.PackUnpack`), and there are objects that
pack beyond it (`RoundTripRuns.TooDeep`). The pretty printer leaves its array of brackets precisely
on values with more than MAX_NESTING of them, which JSON texts can have
(`FormatMeaning.PrettyTooDeep`).

## Model

| member | source | states |
|---|---|---|
| JsonString.StringNext | kason.c:207-309 | The decoding loops return the next scalar value of the recursive definition, in strict and in lax mode, with every malformed escape, surrogate or UTF-8 sequence an error. |
| JsonString.StringIsValid | kason.c:315-326 | A string body is valid exactly when some sequence of RFC 8259 characters prints it. |
| JsonString.CharOfNext | kason.c:207-309 | Whatever the strict decoder accepts is one character of the grammar, with that scalar value and that length. |
| JsonString.ReadBodyComplete | kason.c:2163-2195 | A printed string is read up to exactly its own closing quote, whatever follows. |
| Number.AutomatonIffNumber | kason.c:549-601 | The online automaton accepts exactly the numbers of section 6 of RFC 8259. |
| Number.IsValidNumber | kason.c:495-547 | The batch recogniser accepts exactly the same texts. |
| Number.ScanNumber | kason.c:2219-2259 | The scanner's number recogniser stops where the reader of the grammar stops. |
| Grammar.ReadDocumentIffJsonText | kason.c:2297-2494 | The reader that the scanner follows succeeds exactly on the texts some tree within the depth limit prints. |
| Grammar.Unambiguous | kason.c:2297-2494 | A text is printed by one tree only, so what is said of its tree is said of the text. |
| StringAutomaton.OnlineIsBatch | kason.c:1184-1311 | The byte-by-byte automaton inside containers ends neutral at a quote exactly on the bodies the batch validator and the grammar accept. |
| Scanner.Scan.Parse | kason.c:2475-2494 | For any callback: a JSON text gives the trace of its tree under that callback, and any other input is an error unless the callback stopped first. |
| Scanner.Scan.ScanContainer | kason.c:2297-2394 | One container from its bracket on: success, next position and events are those of the grammar's reader and of the tree's trace, for every action the callback takes. |
| Actions.TraceIsPruned | kason.c:2198-2212 | Under legal answers that never break, the log is the all-ENTER log without what lies in skipped and captured containers, with captured ends widened and counts kept. |
| Actions.ParseLegally | kason.c:2297-2494 | The result is the same for all such callbacks: success exactly on JSON texts; and the log is the pruned one. |
| Stream.Stream.Feed | kason.c:1419-1649 | One chunk moves the machine over exactly its bytes and appends its events; after a break, what was shown is what the machine begins with, and no earlier event broke; an error is the machine's error; a full buffer means that more is pending than scratch can hold; between chunks no pointer into a chunk is left. |
| Stream.Stream.FinishStream | kason.c:1651-1673 | The end of input succeeds exactly when the machine is complete or a bare root token can be committed. |
| Stream.Stream.PreserveDirect | kason.c:951-962 | Moving pending slices into scratch changes nothing of what is pending, and fails only when it does not fit. |
| Stream.Stream.OnContainer | kason.c:1262-1379 | A run of bytes inside a child container, with the bracket stack in scratch, is the machine's run, reported as one fragment. |
| StreamChunks.ParseChunks | kason.c:1419-1673 | Feeding chunks and finishing, for any callback: what is shown is what the machine reports of the concatenation, up to the first break; without a break the result is its verdict. |
| StreamChunks.ParseTwice | kason.c:1419-1673 | Chunking is invisible: two cuts of one input give the same result and, once fragments are joined, the same events, when scratch holds what is pending or has two bytes more than the input. |
| StreamChunks.AlwaysFits | kason.c:913-962 | Scratch with one byte more than the input can hold whatever becomes pending. |
| StreamRefinement.DocumentRuns | kason.c:1157-1182 | Every document is accepted with the events of its root's children, and scratch of its longest key with value or deepest child plus one suffices. |
| StreamAgreement.DocumentShown | kason.c:2297-2394 | What the scanner shows when the root's children are captured is, slice by slice, what the stream reports. |
| StreamAgreement.ParseBothWays | kason.c:1419-1673 | Both parsers on one input: what the scanner accepts the stream accepts, however it is cut, with the same keys, types, values and container bytes. |
| StreamAgreement.StreamAcceptsMore | kason.c:1322-1334 | The converse fails: `[[1 2]]` is accepted by the stream and is not JSON. |
| StreamExact.JsonIsFine | kason.c:1262-1379 | The containers passed through while reading a JSON text are JSON values one level below the limit. |
| StreamSound.AcceptedIsJson | kason.c:1419-1673 | For every accepted text: it is JSON exactly when every child container between its begin and end events is a JSON value at depth at most MAX_NESTING - 1. |
| StreamSound.ParseAndJudge | kason.c:1419-1673 | The same about the log of a real run in chunks. |
| Legacy.ParseInternal | kason.c:1675-2142 | For any callback, mode, depth and table: success and children are those of the byte-wise specification; the first break ends the calls, and what was shown is what an accepted text begins with. |
| Legacy.Internal.Next | kason.c:2040-2142 | The loop up to the next call of the callback loses and repeats nothing; the name and, for an object, the text of what is shown have been validated. |
| Legacy.SkipKeyword | kason.c:128-158 | The skipped bytes could neither delimit nor end the token. |
| Legacy.SkipNumberDigits | kason.c:118-126 | The skipped bytes are digits, and the last byte is left to the loop. |
| LegacyAgreement.DocumentParsed | kason.c:1675-2142 | A document is accepted exactly when the containers that are entered lie within the limit, and then its children are shown. |
| LegacyAgreement.AcceptsExactly | kason.c:1866-1874 | Exactly what is accepted: JSON texts within that limit, and bare root tokens behind which a comma or NUL is dropped. |
| LegacyAgreement.LimitsDifferByOne | kason.c:1684-1686 | The two depth limits differ by at most one level. |
| LegacyAgreement.ParsersAgree | kason.c:1675-2142 | On object and array roots, the scanner accepts exactly what the older parser accepts with every value at depth at most MAX_NESTING. |
| LegacyAgreement.Parse | kason.c:1675-2142 | A real run shows exactly the root's children of the document, up to the first break. |
| LegacyShown.ChildrenNumeric | kason.c:2042-2048 | Every child of an accepted text that is shown as a number is a number of RFC 8259. |
| Lookup.Sample.Finish | kason.c:398-417 | The ring of the last four bytes gives the hash of all bytes seen. |
| Lookup.DecodedKeyInfo | kason.c:419-440 | Hash and length of an escaped key are those of the UTF-8 bytes it stands for; malformed keys are refused. |
| Lookup.DecodedKeyEquals | kason.c:442-478 | The fast and the slow comparison agree: equality of the decoded bytes. |
| Lookup.Table.Find | kason.c:868-889 | Linear probing finds a key exactly when its decoded bytes were added. |
| Lookup.Table.Add | kason.c:2542-2570 | A key is added unless the table is full or has it; nothing else moves, and every entry stays reachable from its home. |
| Selected.DocumentSelected | kason.c:1781-1809 | The children whose key is in the table are the members whose decoded name was added, in order. |
| Selected.ParseSelected | kason.c:2572-2593 | Parsing with a table shows precisely those members; an empty table is refused. |
| Selected.ParseWithKeys | kason.c:2542-2593 | Adding keys to a fresh table succeeds exactly when they differ and fit; parsing then shows the members with those names up to the first break, and fails only on texts that are not accepted. |
| Convert.ValueToInt64 | kason.c:2762-2835 | The exact signed outcome, with a magnitude beyond 64 bits reported before a fraction or exponent, and the smallest integer reached without overflow; a text that is no number is out of range when it begins with too many digits and refused otherwise. |
| Convert.ValueToUint64 | kason.c:2853-2878 | The exact unsigned outcome; negative zero is out of range; texts that are no numbers as for the signed one. |
| Decimals.AccumulatorAgrees | kason.c:645-738 | Feeding a number byte by byte gives the same result code and value as converting its text. |
| Decimals.DecimalBound | kason.c:626-696 | The normalised decimal is within half a unit of its last place of the exact value, exact up to 19 significant digits, and its significand never overflows. |
| Decimals.ToDecimal | kason.c:2880-2913 | The loop that leaves the automaton alone on digits gives the decimal of the number that the text spells; anything else is refused. |
| Compare.Strcmp | kason.c:3011-3041 | The loop computes the order of the decoded sequences, with an error below the end and the end below every character. |
| Compare.OrderIsTotalPreorder | kason.c:3011-3041 | Over all slices, malformed ones included: reflexive, antisymmetric in sign, transitive, and zero exactly on equal decodings. |
| Compare.OrderIsUtf8Order | kason.c:3011-3041 | On strings that decode, the sign is that of comparing their UTF-8 bytes. |
| Compare.ValidOrder | kason.c:2929-2956 | On valid strings, equal means that copying them gives the same bytes. |
| UnitText.CompareCopies | kason.c:2929-3041 | On valid strings, the result of comparing them is the lexicographic order of the bytes that copying them writes. |
| Compare.Copy | kason.c:2929-3009 | Copying in any of the three encodings writes whole characters up to the first that does not fit and counts them, leaves the rest of the buffer, and refuses malformed strings. |
| Writer.Writer.Write | kason_schema.c:1093-1144 | In every mode the delivered chunks and the staged bytes are the concatenation of the successful writes; a failure changes none of it, names the piece without room or the refused chunk, and stays until reset. |
| Writer.Writer.Flush | kason_schema.c:1080-1091 | After a flush the delivered chunks alone are everything written. |
| UnitText.StringRoundTrip | kason_schema.c:1201-1298 | Decoding the JSON text of a valid UTF-8, UTF-16 or UTF-32 string restores its units. |
| UnitText.SameText | kason_schema.c:1150-1298 | The three forms of one sequence of scalar values have the same JSON text. |
| JsonWriter.WriteJsonString | kason_schema.c:1201-1251 | A UTF-8 string arrives as its JSON text, or it is malformed, or the writer was blocked. |
| JsonWriter.WriteJsonString16 | kason_schema.c:1253-1278 | The same for UTF-16, with a missing terminator malformed. |
| JsonWriter.WriteJsonString32 | kason_schema.c:1280-1298 | The same for UTF-32. |
| JsonWriter.UnsignedText | kason_schema.c:1300-1313 | The digits fit in twenty bytes and are those of the value without superfluous zeros. |
| JsonWriter.IntegerRoundTrip | kason_schema.c:1300-1334 | A written integer is a JSON number, and converting it gives the value back over the full signed and unsigned range. |
| SchemaIndex.Init | kason_schema.c:402-447 | Initialisation succeeds exactly for valid schemas with enough slots and initialised children, and every key's slot then leads to its field. |
| SchemaIndex.Index.Select | kason_schema.c:858-886 | A member name leads to the field whose key its decoded bytes are. |
| Packer.EmitObject | kason_schema.c:1658-1707 | What reaches the writer is the print of the syntax tree built from schema and object, or the reason why not. |
| Packer.PackInto | kason_schema.c:1709-1727 | Packing in all three modes yields the same text; a buffer suffices exactly when its capacity exceeds the length that counting gives. |
| Unpacker.StoreString | kason_schema.c:602-681 | A string is decoded in place with its terminator, or refused for its type, its length or an inner zero, with the memory behind it untouched. |
| Unpacker.PutArray | kason_schema.c:694-761 | Elements are stored one by one up to the capacity, with the first error returned. |
| Unpacker.Context.OnMember | kason_schema.c:858-919 | One member is stored in its field; duplicates and failed conversions stop parsing, as does the last wanted field when relaxed. |
| Unpacker.UnpackRange | kason_schema.c:921-1012 | Driving the parser and its callbacks returns what the specification says, strict on every text and relaxed on every accepted one. |
| UnpackSpec.StrictSpecification | kason_schema.c:921-980 | Strict unpacking of an accepted text succeeds exactly when every schema key occurs at most once among the children shown, each of them is stored, and no required key is missing; each field then holds what was stored or its default. |
| UnpackTrees.ItemStored | kason_schema.c:531-736 | What is stored for a value depends on its tree only: the number it spells, the characters of its string, or the object by itself; never on where it lies or how it is shown. |
| UnpackTrees.ArrayStored | kason.c:2654-2668 | The exact outcome for an array field, for every array within the depth limit: its own elements in turn, or, when it begins and ends with an array, an error for several elements and the elements of the lone one. |
| UnpackTrees.ArrayOfArrays | kason.c:2654-2668 | An array with an array among its elements is stored exactly when that is its only element, no white space precedes it, and it can itself be stored without the outer brackets; nothing in it may be an array. |
| UnpackTrees.DocumentUnpacked | kason_schema.c:921-980 | Strict unpacking of a document in terms of its members: success exactly when no schema name occurs twice, every value under one can be stored, and no required name is missing; each field then holds its member's value or its default. |
| UnpackTrees.TextUnpacked | kason_schema.c:921-980 | The same for any text: it succeeds exactly on documents whose root is an object within the depth limit with such members. |
| UnpackSpec.RelaxedSame | kason_schema.c:913-918 | When strict unpacking succeeds, relaxed unpacking returns the same object, at every level of nesting. |
| RoundTrip.PackUnpack | kason_schema.c:1374-1727 | Whatever was packed, with or without its defaults, is unpacked into any memory as an equal object exactly when its text lies within the depth limit, so always with at most MAX_NESTING brackets; relaxed or strict. |
| RoundTrip.DefaultRound | kason_schema.c:449-523 | A field left out because it has its default gets an equal value back. |
| RoundTripRuns.PackAndUnpack | kason_schema.c:921-1012 | Real runs: packing into a buffer succeeds exactly when it is large enough, and unpacking what is in it gives an equal object within the depth limit and an error beyond it. |
| RoundTripRuns.TooDeep | kason_schema.c:1658-1707 | Sixty-five arrays of structures inside each other are packed, and strict unpacking refuses them. |
| NestedArrays.OwnBrackets | kason.c:2654-2668 | An array's text is taken as it stands exactly unless it begins and ends with an element that is an array. |
| NestedArrays.SeveralRejected | kason.c:2654-2668 | Without the outer brackets of its first and last element, the text of several elements is never accepted, though a stray bracket can end a bare token. |
| UnpackTrees.NestedArrayStored | kason.c:2654-2668 | `{"a":[[1]]}` is unpacked into an array of integers as `{"a":[1]}`. |
| Format.WriteCompact | examples/json_format_common.c:19-33 | The loop with its two flags computes the recursive definition of compact output. |
| Format.WritePretty | examples/json_format_common.c:43-86 | The loop with its depth counters and stack computes the recursive definition of pretty output. |
| FormatMeaning.CompactWritten | examples/json_format_common.c:19-33 | Compacting a document prints its tree without white space. |
| FormatMeaning.PrettyWritten | examples/json_format_common.c:43-86 | Pretty-printing a document stays within its array exactly when at most MAX_NESTING brackets are open at once, and then prints its tree laid out in lines. |
| FormatMeaning.PrettyTooDeep | examples/json_format_common.c:43-86 | A JSON text within the depth limit of values whose brackets do not fit. |
| FormatMeaning.FormatTwice | examples/json_format_common.c:19-86 | Formatting a formatted document: compact after pretty is compact, and each is idempotent. |
| FormatMeaning.SameNotes | examples/json_format_common.c:19-86 | The scanner shows the same keys, types and primitive texts in the original, the compact and the pretty text. |
| FormatMeaning.ScanFormatted | examples/json_format_common.c:19-86 | The same about real runs of both formatters and the scanner. |

## Left out

- Floating point of the library (`strtod`, `snprintf`, `localeconv`, `kason_writer_double`) and double fields of schemas; numbers stop at the normalised decimal.
- The selected number conversion that the older parser runs while it reads a number with a table (kason.c:1840-1847, 1884-1901 and 2066-2070): the schema code converts the number's text instead, and `Decimals.AccumulatorAgrees` shows that both give the same result.
- Unpacker.UnpackRange: when a text turns out malformed, or an array's text does after its brackets were taken off, the result is an error but which error code comes first is not specified; a relaxed run that stops before it meets the malformed part is not specified either.
- Stream.Stream.Feed: feeding on after an error is not modelled, as the source asks for a reset; for inputs that fail, the last fragment before the error depends on the cut.
- Scanner.Scan.Parse: for inputs that are not JSON, the events before the error are not specified.
- Compare.Copy: the three copying functions are one generic method over the encoding of a scalar value.
- JsonString.ReadBodyComplete: the closing quote is found by the reader of the grammar; the scanner's own loop is `Scanner.Scan.ScanKey` and `ScanPrimitive`, which are tied to it.
- Format.WritePretty: the `expanded` array of the source has room for MAX_NESTING brackets, and inputs that nest deeper, or close more than they open, are outside its domain; `fputc` appends and cannot fail.
- Packer.PackInto: the error record (`kason_schema_error`) with field, index and depth is not modelled, only the code.
- Unpacker.Context.OnMember: the callback is given the member's name and finds its slot again, where the source passes the slot on; memory of an object is a sequence of cells, without byte layout, offsets and padding, and what a failed unpacking leaves behind is not specified.
- SchemaIndex.Init: raw sizes and offsets of fields are not modelled; the masks of found and required fields are sets of field numbers.
- Legacy.Internal: the flags for keys and values that need validation share one field, and the element counter is reset for both kinds of container.
- The begin event of a container has an empty span, as its end pointer is NULL in the source; the string sub-states of a container (`container_*`) are one value.
- The entry points for deferred containers, `kason_parse_array`, `kason_get_value` and the helpers built on them.
- NULL arguments, inputs beyond the range of `int`, and stack use.
- File handling, command-line programs, the YAML converter, benchmarks and build files.
