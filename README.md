# go-lager in Dafny

A model of the core of go-lager, a structured logger for Go that writes each
log line as one JSON list or JSON object. The model covers these parts:

- **The pair containers of `data.go`.** `S`, `Unless`, `Pairs`, `Merge` and
  `AddPairs` work over `KVPairs`, an ordered map without duplicate keys.
- **The line composer of `marshal.go`.** This is a `buffer` with a
  16 KiB scratch area that flushes early under a lock. It escapes strings
  as JSON (RFC 8259 section 7), writes integers, timestamps and nested
  lists and maps, and walks `RawMap` lists with skip and inline markers.
- **The older composer of `buffer.go`.** It has lower-case `\u00xx`
  escapes, copies every byte from 0x20 up, and drops empty maps.
- **The level registry and configuration of `lager.go`.** This covers
  level names and letters, `Init`/`setLevels`, `Keys`, `Level` and
  `With`, and the copy-on-write `updateGlobals`. It also covers the
  opening and closing of a line (`start`/`end`).
- **Per-module levels (`module.go`).**
- **Caller and stack decoration (`stack.go`).**
- **The GCP helpers of `gcp.go`.** These are the level-name mapping and
  the HTTP request record.
- **The span factory's ID handling (`gcp-spans/factory.go`).**
- **The option and level mapping of the gRPC interceptors
  (`grpc/options.go`).**

## How the model is built

Go `string` and `[]byte` are both `Text`, a sequence of bytes. The line
composer is a class `Buffer` whose `scratch` array, fill count `n`,
delimiter and lock flag change in place. Each composer method is proved
against a specification function of the JSON it appends:

- `Encoding` specifies marshal.go.
- `LegacyEncoding` specifies buffer.go.

Two ghost fields track the bytes already handed to the writer. `prior`
holds earlier lines. `early` holds the part of this line flushed when the
buffer overflowed. `Line()` is the whole current line. So a method's
contract says exactly which bytes the line gains, whether they went out
early or not.

What the specifications mean is then proved separately:

- `JsonString` is an independent JSON string decoder. Decoding what
  `escape` writes gives back the input. Each run of bytes that is not
  UTF-8 comes back as its visible `«x..»` marker.
- `EscapeRules` states the escape rule for each class of input.
- `RawMaps` relates `RawMap` output to `AMap` output.
- The level, key and registry lemmas sit beside the functions they are
  about.

The source's loops are methods with loop invariants:

- `Merge` and `AddPairs` work on arrays.
- `escape` and `escapeBytes` carry `beg`/`i`.
- `int` pads in place.
- `rawPairs` carries its `skipping`/`inlining` flags.
- `setLevels` and the logger copies of `updateGlobals` are loops too.

Foreign code and the environment become parameters:

- `fmt.Sprintf("%v", …)` is a `Formatter` function value.
- The current time is its broken-down fields.
- The call stack is a sequence of frames.
- The result of `json.Marshal` on an unknown value is given bytes.
- The level-notation function is a parameter.

## Model

| member | source | states |
|---|---|---|
| Bytes.HexRoundTrip | marshal.go:136-139 | the digits written for a value read back, in either digit table, as the value modulo 16^width |
| Bytes.IntTextLength | marshal.go:445-474 | the decimal text of any int64 or uint64 has at most 20 bytes, so it fits the 64 bytes scalar() keeps free |
| Bytes.NatTextRoundTrip | marshal.go:465-474 | the decimal digits strconv writes for a natural number read back as that number |
| Bytes.NatTextParses | gcp-spans/factory.go:335-350 | strconv.ParseUint of the decimal text of any uint64 succeeds with that value |
| Bytes.ParseFromDigits | gcp-spans/factory.go:335-350 | parsing an all-digit text whose value fits in 64 bits succeeds with that value, whatever prefix was already read |
| Utf8.DecodeRune | marshal.go:217-219 | utf8.DecodeRune: an empty input decodes to RuneError of size 0; a decoded rune is a scalar value whose size is set by its lead byte; an ASCII byte decodes to itself |
| Utf8.DecodeEncode | marshal.go:217-223 | decoding the UTF-8 encoding of a scalar value gives it back with the encoding's length, whatever follows |
| Utf8.EncodeDecode | marshal.go:222-231 | a decodable prefix is exactly the encoding of the rune it decodes to, so copying `s[i:beg]` copies that rune's UTF-8 |
| Utf8.EncodeSurrogates | marshal.go:224-227 | utf16.EncodeRune gives a high and a low surrogate for code points above U+FFFF and RuneError twice otherwise |
| Utf8.SurrogateRoundTrip | marshal.go:224-227 | the surrogate pair decodes back to the code point, and every surrogate pair is the encoding of exactly one code point |
| Utf8.ValidConcat | marshal.go:206-237 | joining two valid UTF-8 texts gives valid UTF-8 |
| Strings.JoinSplit | stack.go:22-31 | strings.Join(strings.Split(s, sep), sep) gives back s |
| Strings.SplitJoin | stack.go:22-31 | splitting the join of separator-free pieces gives back the pieces |
| Strings.SplitNoSep | stack.go:22-31 | no piece of strings.Split contains the separator |
| Strings.JoinTail | stack.go:22-31 | a join splits at any piece boundary into the join of the front, a separator and the join of the back |
| Data.S | data.go:47-55 | a string is returned as is, a byte slice as its bytes, anything else as its `%v` text |
| Data.SBytesAsString | data.go:43-55 | S treats a []byte exactly like the string of the same bytes |
| Data.Unless | data.go:97-102 | the marker SkipThisPair exactly when the condition holds, the label otherwise |
| Data.IndexOf | data.go:150-155 | the index recorded for a key is its first position among the keys |
| Data.IndexOfUnique | data.go:150-155 | with unique keys the index recorded for the key at position j is j |
| Data.GetPut | data.go:158-168 | after storing v under k, k maps to v and every other key keeps its value |
| Data.PutAllGet | data.go:157-168 | after storing a list of pairs, a key maps to its last value in the list, or to its earlier value when the list lacks it |
| Data.PutAllKeys | data.go:157-168 | the keys after storing a list are the old keys followed by the new keys in order of first appearance |
| Data.PutAllFresh | data.go:157-168 | storing pairs with fresh, distinct keys appends exactly those keys and values |
| Data.Merge | data.go:131-170 | an empty receiver returns the argument itself; an empty argument returns the receiver; otherwise the result is the receiver's pairs updated by the argument's pairs in order |
| Data.Update | data.go:158-167 | one round of the merge loop: overwrite the value of a key already indexed, or append a new key at `o` and index it |
| Data.Allocate | data.go:148-155 | the new arrays start with the receiver's keys and values, and the index map gives each key's position |
| Data.IndexKeys | data.go:153-155 | the index map built from the keys gives each key's position |
| Data.MergeProperties | data.go:131-170 | the merge holds the receiver's keys followed by the argument's new keys; a key shared by both takes the argument's value; other keys keep theirs |
| Data.MergeShortcutsAgree | data.go:131-146 | the two early returns agree with the general loop: merging is storing the argument's pairs into the receiver in order |
| Data.ZipLastVal | data.go:157-168 | reading a key back from a pair list built from a map gives that map's value for it |
| Data.ArgPairs | data.go:179 | n arguments make (n+1)/2 pairs |
| Data.ArgPairsAt | data.go:197-202 | pair i has key S(args[2i]) and value args[2i+1], or nil when that argument is missing |
| Data.AddPairs | data.go:174-213 | no arguments return the receiver itself; otherwise the result is the receiver's pairs updated by the argument pairs in order |
| Data.PutArgs | data.go:196-211 | the loop of AddPairs leaves the arrays holding the pairs after storing every argument pair |
| Data.ArgAt | data.go:198-202 | the key and value the loop reads at step i are argument pair i |
| Data.MakePairs | data.go:80-82 | Pairs() of no arguments is the nil map, and of some arguments is AddPairs on the nil map |
| Data.AddPairsProperties | data.go:174-213 | the result holds the old keys followed by the argument's new keys; a key takes its last value among the arguments, or keeps its old value |
| Data.ArgPairsOdd | data.go:199-202 | an odd argument list ends with a pair whose value is nil |
| Data.ArgKeysAgree | data.go:198 | a string or []byte key is used as is |
| Encoding.QuotedDelim | marshal.go:189-196 | quote() writes the pending delimiter and then at least the two quote marks |
| Encoding.TwoDigits | marshal.go:274-283 | int2 writes exactly two decimal digits whose value is the argument |
| Encoding.Int2Digits | marshal.go:274-283 | int2's two digits are the decimal text padded with '0' to width 2 |
| Encoding.Padded | marshal.go:286-303 | int() pads to the requested width and never truncates |
| Encoding.EscapedAt | marshal.go:206-237 | escaping a text is the first step's output followed by escaping what that step leaves |
| Encoding.EscapedPlainAt | marshal.go:209-212 | a byte noEsc allows is copied and escaping goes on from the next byte |
| Encoding.ScalarStr | marshal.go:451-452 | scalar() of a string writes the delimiter and the quoted string |
| Encoding.StringsOutAt | marshal.go:499-504 | each element of a []string adds the delimiter and its quoted text, and the delimiter becomes a comma |
| Encoding.InlineOutAt | marshal.go:425-429 | inlineList writes each argument as scalar() does, one after another |
| Encoding.PairsOutAt | marshal.go:361-367 | pairs() writes each key/value pair with pair(), in key order |
| Encoding.RawOutAt | marshal.go:370-400 | rawPairs handles one element per round, as RawStepOut says, with the parity flipped for the next |
| Encoding.EncodableAt | marshal.go:425-429 | every element of an encodable list is encodable and is smaller than the list |
| EscapeRules.Escape1Table | marshal.go:117-143 | escape1Rune writes two bytes exactly for `"`, `\`, backspace, form feed, newline, carriage return and tab, each with its letter, and `\u` with four upper-case hex digits for anything else |
| EscapeRules.Escape1Examples | buf_test.go:42-49 | escape1Rune of 0x00, 0x01 and 0xF234 writes `\u0000`, `\u0001` and `\uF234` |
| EscapeRules.AsciiByte | marshal.go:55-61 | an ASCII byte is copied exactly when it is printable and is neither `"` nor `\`; any other, DEL included, goes through escape1Rune |
| EscapeRules.WideRune | marshal.go:217-234 | a well-formed multi-byte sequence is consumed whole, and what is written depends only on its code point |
| EscapeRules.C1Escape1 | marshal.go:228-229 | escape1Rune of a C1 control is `\u00` and its two hex digits |
| EscapeRules.C1Escape | marshal.go:228-229 | for U+0080 to U+009F escape writes `\u00` and two upper-case digits |
| EscapeRules.C1Control | marshal.go:217-234 | the UTF-8 encoding of a C1 control becomes `\u00XX`, and escaping resumes after it |
| EscapeRules.BmpKept | marshal.go:230-231 | every other code point up to U+FFFF is copied as its own UTF-8 bytes |
| EscapeRules.AstralEscape | marshal.go:224-227 | a code point above U+FFFF is written as `\u` and its high surrogate, then `\u` and its low surrogate |
| EscapeRules.AstralPair | marshal.go:224-227 | the same for the encoding of such a code point inside a text, with the two halves in the surrogate ranges |
| EscapeRules.RunMaximal | marshal.go:151-167 | every position inside the run that nonUtf8Chars consumes starts an undecodable sequence |
| EscapeRules.RunStops | marshal.go:157-163 | the run stops at the end of the text or at a decodable sequence |
| EscapeRules.InvalidBytes | marshal.go:217-221 | undecodable bytes are replaced by one `«x..»` marker for the whole maximal run, and escaping resumes right after it |
| EscapeRules.HexOfByte | marshal.go:136-139 | four hex digits of a byte value are two zeros and the byte's two digits |
| EscapeRules.ControlExample | buf_test.go:52-56 | escaping the byte 0x01 writes `\u0001` |
| EscapeRules.C1Example | buf_test.go:59-63 | escaping the UTF-8 of U+009E writes `\u009E` |
| EscapeRules.InvalidExample | buf_test.go:74-78 | escaping 0x01, space, 0x9A writes `\u0001`, a space and the marker for 0x9A |
| EscapeRules.MarkerExample | buf_test.go:74-78 | the marker for 0x9A is `«x9A»` |
| JsonString.UnescapeEscaped | marshal.go:206-237 | a JSON decoder reading back what escape wrote gets the input, with each undecodable run shown as its marker |
| JsonString.VisibleValid | marshal.go:206-237 | for valid UTF-8 input that reading is the input itself |
| JsonString.QuoteRoundTrip | marshal.go:189-196 | quote() writes a well-formed JSON string, and for valid UTF-8 input its contents decode to the input |
| JsonString.EscapedValid | marshal.go:206-237 | escape always writes valid UTF-8, even for input that is not |
| JsonString.UnescapeEscape1 | marshal.go:117-143 | a JSON decoder reads escape1Rune's output as the UTF-8 of that code point |
| JsonString.UnescapePair | marshal.go:224-227 | a JSON decoder reads the two surrogate escapes as the UTF-8 of the code point above U+FFFF |
| JsonString.UnescapeStepOut | marshal.go:209-234 | each escape step decodes to the visible form of the bytes it consumed |
| JsonString.HexEscapeOf | marshal.go:136-139 | `\u` and four digits from either digit table decode to the value the digits were made from |
| JsonString.InvalidTokenValid | marshal.go:151-167 | the `«x..»` marker is valid UTF-8 |
| JsonString.EscapedPlainAscii | marshal.go:209-212 | a text of bytes noEsc allows is copied unchanged |
| RawMaps.SkipPair | marshal.go:375-376 | a SkipThisPair key and the value after it write nothing |
| RawMaps.KeyPair | marshal.go:379-382 | an ordinary key and its value write the same as pair() of S(key) and that value |
| RawMaps.UnlessPair | data.go:97-102 | Unless(true, …) drops its pair; Unless(false, name) writes name and the value as a pair |
| RawMaps.InlinePair | marshal.go:377-396 | an InlinePairs key makes the next value be written in line as its own pairs |
| RawMaps.OddEnd | marshal.go:401-403 | a trailing key with no value is written with the value null; a trailing skip marker writes nothing; a trailing InlinePairs marker writes a bare `null` with no key in front of it |
| RawMaps.IntendedEnd | marshal.go:401-403 | the intended end of rawPairs: `null` only after a key, nothing after either marker |
| RawMaps.WrittenEndDiffers | marshal.go:401-403 | the written and the intended end differ exactly after a trailing InlinePairs marker, where the written one leaves a keyless `null` |
| RawMaps.IntendedOddEnd | marshal.go:401-403 | with the intended end a one-key RawMap writes `"key":null`, and nothing for either marker |
| RawMaps.RawMatchesPairs | marshal.go:361-404 | a RawMap of alternating keys and values writes exactly what pairs() writes for the same keys and values |
| Marshal.Buffer.constructor | marshal.go:38-42 | a fresh buffer is empty, with no delimiter, no lock, and nothing written |
| Marshal.Buffer.Lock | marshal.go:64-73 | lock() takes the lock and hands the buffered bytes to the writer, leaving the line unchanged |
| Marshal.Buffer.Unlock | marshal.go:76-89 | unlock() writes what is buffered, releases the lock, and the writer then holds the whole line |
| Marshal.Buffer.WriteBytes | marshal.go:92-101 | writeBytes appends s to the line; it locks and flushes when the buffer would overflow, and writes s straight through when s alone is over 16 KiB |
| Marshal.Buffer.Write | marshal.go:104-115 | write leaves the buffer, lock and early-written bytes exactly as placing each string in turn with writeBytes() would; the line grows by the concatenation; when the strings overflow the room left the buffer ends locked |
| Marshal.Buffer.Escape1Rune | marshal.go:117-143 | escape1Rune appends Escape1(r) |
| Marshal.Buffer.WritePlaceholder | marshal.go:118-119 | the six bytes `\uXXXX` end the buffer |
| Marshal.Buffer.FillPlaceholder | marshal.go:120-142 | the placeholder becomes the short escape or the four digits |
| Marshal.Buffer.CutShort | marshal.go:121-142 | a short escape overwrites the second byte and cuts the buffer after it |
| Marshal.PlaceHex | marshal.go:136-139 | the loop writes the four low hex digits of r, last digit first, over the placeholder |
| Marshal.Buffer.WriteByteHex | marshal.go:145-149 | writeByteHex appends the two upper-case hex digits of the byte |
| Marshal.Buffer.NonUtf8 | marshal.go:151-167 | nonUtf8Chars returns the length of the maximal undecodable run and appends its marker |
| Marshal.Buffer.HexRun | marshal.go:153-164 | the loop appends the hex digits of each byte of the run and stops where the run ends |
| Marshal.Buffer.Escape | marshal.go:206-237 | escape appends Escaped(s) |
| Marshal.Buffer.EscapeBytes | marshal.go:240-271 | escapeBytes appends the same Escaped(s), so escape(s) and escapeBytes([]byte(s)) agree |
| Marshal.Buffer.EscapeAt | marshal.go:208-234 | one round of the escape loop keeps the line plus the pending slice plus the escaping of the rest unchanged |
| Marshal.Buffer.EscapeOne | marshal.go:213-234 | a byte that needs escaping flushes the pending slice and then writes one escape step |
| Marshal.Buffer.EscapeStepAt | marshal.go:214-234 | one escape step: escape1Rune for ASCII, the marker for an undecodable run, or the wide-rune rule |
| Marshal.Buffer.EscapeWide | marshal.go:222-233 | a decoded rune of two or more bytes is written as the surrogate pair, the `\u00XX` escape or its own bytes |
| Marshal.Buffer.EscapePair | marshal.go:224-227 | the two surrogates of r are each written with escape1Rune |
| Marshal.Buffer.Quote | marshal.go:189-196 | quote appends the delimiter, a quote mark, the escaping of each string and a quote mark, and the delimiter becomes a comma |
| Marshal.Buffer.EscapeEach | marshal.go:191-193 | the loop of quote escapes each string in order |
| Marshal.Buffer.QuoteBytes | marshal.go:199-203 | quoteBytes appends the quoted escaping of the bytes and, unlike quote, leaves the delimiter alone |
| Marshal.Buffer.Int2 | marshal.go:274-283 | int2 appends two digits in place, growing the buffer by exactly two |
| Marshal.Buffer.IntDigits | marshal.go:286-303 | int appends the decimal text of val with leading zeros up to `digits` |
| Marshal.Buffer.PadDigits | marshal.go:295-302 | the padding step turns the digits after `bef` into their zero-padded form |
| Marshal.Buffer.PadFront | marshal.go:297-301 | the copy and the loop move the digits right by the gap and fill the gap with '0' |
| Marshal.Buffer.Timestamp | marshal.go:306-333 | timestamp appends `"YYYY-MM-DD` then `T` (or a space without keys) then `hh:mm:ss.ffffZ"`, and the delimiter becomes a comma |
| Marshal.Buffer.Date | marshal.go:312-318 | the date part: the quote, the year, and the two-digit month and day |
| Marshal.Buffer.Clock | marshal.go:319-328 | the separator and the two-digit hour, minute and second |
| Marshal.Buffer.Fraction | marshal.go:329-331 | the four digits of tenths of milliseconds and `Z"` |
| Marshal.Buffer.Open | marshal.go:336-339 | open appends the delimiter and the punctuation and clears the delimiter |
| Marshal.Buffer.Colon | marshal.go:342-345 | colon appends `:` and clears the delimiter |
| Marshal.Buffer.Close | marshal.go:348-351 | close appends the punctuation and the delimiter becomes a comma |
| Marshal.Buffer.Pair | marshal.go:354-358 | pair appends the quoted key, a colon and the scalar value |
| Marshal.Buffer.MapPairs | marshal.go:361-367 | pairs appends each pair in order, and nothing for a nil map |
| Marshal.Buffer.RawPairs | marshal.go:370-404 | rawPairs appends RawOut of the list: keys quoted, skipped pairs dropped, inlined values spread, a missing last value written as null |
| Marshal.Buffer.RawRound | marshal.go:373-400 | one round of the rawPairs loop keeps the line plus what the rest will write unchanged |
| Marshal.Buffer.RawStep | marshal.go:374-399 | one element: a skip or inline marker only sets its flag, a key is quoted with a colon, a value is skipped, spread or written |
| Marshal.Buffer.InlinePairs | marshal.go:386-395 | an inlined RawMap, KVPairs or AMap writes its pairs in line; anything else becomes a "cannot-inline" pair |
| Marshal.Buffer.InlineList | marshal.go:425-429 | inlineList appends each argument as scalar() does |
| Marshal.Buffer.StringList | marshal.go:501-503 | the loop of the []string case writes each string as a quoted scalar |
| Marshal.Buffer.MsgList | marshal.go:431-436 | msgList appends `[`, the message, the arguments and `]` |
| Marshal.Buffer.Scalar | marshal.go:439-543 | scalar appends the delimiter and the JSON of the value; a deferred value is replaced by its result; the delimiter becomes a comma |
| Marshal.Buffer.EncodeBody | marshal.go:448-541 | the type switch of scalar, dispatching on the kind of value |
| Marshal.Buffer.EncodeStrings | marshal.go:499-504 | a []string is written as a JSON list of quoted strings |
| Marshal.Buffer.EncodeList | marshal.go:505-508 | an AList is written as a JSON list of its scalars |
| Marshal.Buffer.EncodeRaw | marshal.go:509-512 | a RawMap is written as a JSON object from rawPairs |
| Marshal.Buffer.EncodeMap | marshal.go:513-516 | an AMap is written as a JSON object from pairs |
| Marshal.Buffer.EncodeText | marshal.go:451-540 | strings, byte slices, errors, Stringers and failed json.Marshal calls are written as quoted text |
| Marshal.Buffer.EncodeLeaf | marshal.go:449-498 | nil, integers, booleans and json.Marshal output are written as their JSON text |
| LegacyEncoding.ByteEscape | buffer.go:115-139 | escapeByte returns a two-byte escape or a six-byte `\u00xx` escape |
| LegacyEncoding.EscapedAt | buffer.go:160-172 | escaping is byte by byte: a byte from 0x20 up other than `"` and `\` is copied, any other is replaced by escapeByte |
| LegacyEncoding.ByteEscapeDecodes | buffer.go:115-139 | a JSON decoder reads escapeByte's output as that one byte |
| LegacyEncoding.EscapeRoundTrip | buffer.go:160-172 | a JSON decoder reading back escape's output gets exactly the input bytes |
| LegacyEncoding.QuoteRoundTrip | buffer.go:143-150 | quote() writes a well-formed JSON string whose contents decode to the input |
| LegacyEncoding.AgreesOnPlainAscii | buffer.go:52-58 | on printable ASCII without `"` and `\` the two escapers both copy the text |
| LegacyEncoding.DiffersFromMarshal | buffer.go:50-58 | the escapers differ on other input: lower- against upper-case hex digits, and raw bytes against a marker for input that is not UTF-8, which leaves this escaper's output not UTF-8 |
| LegacyEncoding.ControlHere | buffer.go:132-137 | this escaper writes ESC as `\u001b` |
| LegacyEncoding.ControlThere | marshal.go:136-139 | marshal.go writes ESC as `\u001B` |
| LegacyEncoding.InvalidHere | buffer.go:52-58 | the byte 0xFF is copied raw, which is not valid UTF-8 |
| LegacyEncoding.InvalidThere | marshal.go:217-221 | marshal.go writes the byte 0xFF as its marker |
| LegacyEncoding.Resolved | buffer.go:322-325 | a deferred value is replaced by its result, anything else is kept |
| LegacyEncoding.StringsOutAt | buffer.go:374-379 | each element of a []string adds its quoted scalar in order |
| LegacyEncoding.ListOutAt | buffer.go:380-385 | each element of an AList adds its scalar in order, passing on the delimiter it leaves |
| LegacyEncoding.PairsOutAt | buffer.go:275-281 | pairs() writes each pair in key order, passing on the delimiter each leaves |
| LegacyEncoding.RawOutAt | buffer.go:284-314 | rawPairs handles one element per round, with the parity flipped for the next |
| LegacyEncoding.EmptyMapVanishes | buffer.go:326-331 | a nil or empty AMap, deferred or not, writes nothing and leaves the delimiter pending; a non-empty one is written as an object |
| LegacyEncoding.EmptyMapInPairs | buffer.go:268-272 | an empty AMap as a pair's value leaves the key and colon with no value after them |
| LegacyEncoding.EmptyMapInPairsThere | marshal.go:354-358 | the same pair in marshal.go writes the key, the colon and `{}` |
| LegacyBuffer.EscapeByte | buffer.go:115-139 | the method computes ByteEscape(c) |
| LegacyBuffer.HexEscape | buffer.go:132-138 | the loop fills `\u0000` with the four lower-case hex digits of the byte, last digit first |
| LegacyBuffer.TimestampRoomShort | buffer.go:221-247 | a timestamp with a four-digit year is 27 bytes, but the room check asks for 22: at 22 free bytes it does not flush. Every int2() still fits, and one byte is left after the dot. The fraction has one digit exactly when the nanoseconds are below 1,000,000; int() then pads it by reslicing past the capacity, which panics. Otherwise strconv.AppendInt moves the line to a new array |
| LegacyBuffer.TimestampFits | buffer.go:225-246 | a timestamp with a year of up to four digits takes at most 27 bytes |
| LegacyBuffer.Buffer.constructor | buffer.go:35-39 | a fresh buffer is empty, with no delimiter, no lock, and nothing written |
| LegacyBuffer.Buffer.Lock | buffer.go:61-70 | lock() takes the lock and hands the buffered bytes to the writer, leaving the line unchanged |
| LegacyBuffer.Buffer.Unlock | buffer.go:73-82 | unlock() writes what is buffered and releases the lock |
| LegacyBuffer.Buffer.WriteBytes | buffer.go:85-94 | writeBytes appends s, flushing early or writing through as needed |
| LegacyBuffer.Buffer.Write | buffer.go:97-113 | write leaves the buffer, lock and early-written bytes exactly as placing each string in turn as writeBytes() does; the line grows by the concatenation; an overflow leaves the buffer locked |
| LegacyBuffer.Buffer.WriteOne | buffer.go:99-111 | one string of write is placed as writeBytes places it |
| LegacyBuffer.Buffer.CopyIn | buffer.go:105-110 | the byte loop copies s into the scratch area after `was` |
| LegacyBuffer.Buffer.EscapeAt | buffer.go:162-170 | one round of the escape loop keeps the line plus the pending slice plus the escaping of the rest unchanged |
| LegacyBuffer.Buffer.Escape | buffer.go:160-172 | escape appends LegacyEncoding.Escaped(s) |
| LegacyBuffer.Buffer.EscapeBytes | buffer.go:175-186 | escapeBytes appends the same text as escape |
| LegacyBuffer.Buffer.Quote | buffer.go:143-150 | quote appends the delimiter and the quoted escaping, and the delimiter becomes a comma |
| LegacyBuffer.Buffer.EscapeEach | buffer.go:145-147 | the loop of quote escapes each string in order |
| LegacyBuffer.Buffer.QuoteBytes | buffer.go:153-157 | quoteBytes appends the quoted escaping and leaves the delimiter alone |
| LegacyBuffer.Buffer.Int2 | buffer.go:189-198 | int2 appends two digits |
| LegacyBuffer.Buffer.IntDigits | buffer.go:201-218 | int appends the decimal text with leading zeros up to `digits` |
| LegacyBuffer.Buffer.AppendPadded | buffer.go:207-217 | the appended digits end up padded in place |
| LegacyBuffer.Buffer.PadDigits | buffer.go:211-217 | the padding step turns the digits after `bef` into their zero-padded form |
| LegacyBuffer.Buffer.PadFront | buffer.go:212-216 | the copy and the loop move the digits right by the gap and fill the gap with '0' |
| LegacyBuffer.Buffer.Timestamp | buffer.go:221-247 | corrected: timestamp flushes when fewer than 27 bytes are free (the source checks 22), then appends the quoted date and time, and the delimiter becomes a comma; years are limited to -999..9999 |
| LegacyBuffer.Buffer.Date | buffer.go:226-232 | the quote, the year, and the two-digit month and day |
| LegacyBuffer.Buffer.Clock | buffer.go:233-242 | the separator and the two-digit hour, minute and second |
| LegacyBuffer.Buffer.Fraction | buffer.go:243-245 | the four digits of tenths of milliseconds and `Z"` |
| LegacyBuffer.Buffer.Open | buffer.go:250-253 | open appends the delimiter and the punctuation and clears the delimiter |
| LegacyBuffer.Buffer.Colon | buffer.go:256-259 | colon appends `:` and clears the delimiter |
| LegacyBuffer.Buffer.Close | buffer.go:262-265 | close appends the punctuation and the delimiter becomes a comma |
| LegacyBuffer.Buffer.Pair | buffer.go:268-272 | pair appends the quoted key, a colon and the scalar value |
| LegacyBuffer.Buffer.MapPairs | buffer.go:275-281 | pairs appends each pair in order |
| LegacyBuffer.Buffer.RawPairs | buffer.go:284-318 | rawPairs appends RawOut of the list |
| LegacyBuffer.Buffer.RawLoop | buffer.go:287-314 | the loop leaves the line plus what an empty rest writes equal to the line plus what the whole list writes |
| LegacyBuffer.Buffer.RawStep | buffer.go:288-313 | one element of rawPairs |
| LegacyBuffer.Buffer.InlinePairs | buffer.go:300-309 | an inlined map writes its pairs in line; anything else becomes a "cannot-inline" pair |
| LegacyBuffer.Buffer.Scalar | buffer.go:321-420 | scalar resolves a deferred value; an empty AMap writes nothing; anything else is written with the delimiter before it |
| LegacyBuffer.Buffer.ScalarBody | buffer.go:332-419 | past the empty-map check, the delimiter and the JSON of the value |
| LegacyBuffer.Buffer.EncodeBody | buffer.go:337-418 | the type switch of scalar |
| LegacyBuffer.Buffer.EncodeStrings | buffer.go:374-379 | a []string is a JSON list of quoted strings |
| LegacyBuffer.Buffer.StringItems | buffer.go:376-378 | the loop of the []string case |
| LegacyBuffer.Buffer.EncodeList | buffer.go:380-385 | an AList is a JSON list of its scalars |
| LegacyBuffer.Buffer.ListItems | buffer.go:382-384 | the loop of the AList case |
| LegacyBuffer.Buffer.EncodeRaw | buffer.go:386-389 | a RawMap is a JSON object from rawPairs |
| LegacyBuffer.Buffer.EncodeMap | buffer.go:390-393 | an AMap is a JSON object from pairs |
| LegacyBuffer.Buffer.EncodeText | buffer.go:340-417 | strings, byte slices, errors and Stringers are quoted text |
| LegacyBuffer.Buffer.EncodeLeaf | buffer.go:338-373 | nil, integers, booleans and json.Marshal output are their JSON text |
| Lager.ToUpper | lager.go:700-727 | an upper-case result comes from the byte itself or from its lower-case letter |
| Lager.LevelName | lager.go:729-735 | every level has a non-empty name |
| Lager.LevelOf | lager.go:700-727 | Level() accepts a byte only when it maps to one of the eleven levels |
| Lager.LevelOfInitial | lager.go:700-727 | the upper- and the lower-case initial of each level's name both select that level |
| Lager.LevelOfOnlyInitials | lager.go:700-727 | Level() accepts exactly the bytes whose upper case is in "PEFWNAITDOG", and each selects the level whose name starts with it |
| Lager.NumberNotLevel | lager.go:729-735 | the decimal text an unnamed level falls back to never starts with a level letter |
| Lager.IntTextInjective | lager.go:729-735 | different unnamed levels get different texts |
| Lager.NumberSign | lager.go:729-735 | the fallback text starts with '-' exactly for a negative level |
| Lager.LevelNameInjective | lager.go:270-282 | no two levels share a name |
| Lager.LetterLevel | lager.go:416-438 | setLevels accepts only letters of levels from Fail to Guts |
| Lager.LetterLevelAgrees | lager.go:416-438 | setLevels accepts exactly the letters of "FWNAITDOG", upper case only, each for the level Level() gives it |
| Lager.Effective | lager.go:412-414 | a non-empty enable-string is used as given |
| Lager.EnabledMembers | lager.go:439-444 | a byte is in `enabled` exactly when it is in the enable-string and is a level letter |
| Lager.EnabledUnique | lager.go:439-444 | `enabled` lists no letter twice |
| Lager.FirstIndex | lager.go:439-444 | the first position of a byte in a text holds it, and no earlier position does |
| Lager.EnabledOrder | lager.go:439-444 | `enabled` lists letters in the order of their first appearance in the enable-string |
| Lager.Logger.constructor | lager.go:239-244 | a logger holds the level, pairs, module name and configuration it was given |
| Lager.Logger.With | lager.go:802-813 | With() returns the same logger when merging the contexts' pairs changes nothing, and otherwise a fresh copy with the merged pairs and everything else the same |
| Lager.MergeEmpty | data.go:131-146 | a merge is empty exactly when both sides are empty |
| Lager.WithIdentity | lager.go:806-808 | With() keeps the logger itself exactly when no context holds a pair and the pairs object is not replaced by a context's nil map |
| Lager.WithSize | lager.go:802-813 | the merged pairs are empty exactly when the logger's and all contexts' pairs are empty |
| Lager.WithContents | lager.go:802-813 | the merged pairs keep every key of the logger, and each key takes its value from the last context that has it |
| Lager.WithView | lager.go:210 | a noop stays a noop under With(), and a logger stays a logger |
| Lager.LagerWith | lager.go:802-813 | With() on the Lager interface: noop returns itself; a logger gets the merged pairs and keeps its configuration |
| Lager.KeysChoiceCases | lager.go:768-780 | Keys() with six empty keys reverts to lists; with an empty `when`, `lev`, `args` or `mod` among others it logs at Exit; otherwise it installs the six keys |
| Lager.LevelSlots | lager.go:407-446 | setLevels leaves eleven slots |
| Lager.Apply | lager.go:314-334 | every configuration update keeps eleven level slots |
| Lager.SetLevelsEffect | lager.go:407-446 | Panic and Exit are untouched; a level from Fail up logs exactly when its letter is in the enable-string, "FWNA" when that is empty; `enabled` holds exactly those letters |
| Lager.Levels | lager.go:407-446 | the setLevels closure leaves Panic and Exit and makes a fresh logger for each enabled level and noop for the rest |
| Lager.Enable | lager.go:416-444 | the loop over the enable-string gives each named level a fresh logger and collects `enabled` |
| Lager.CopyLoggers | lager.go:318-325 | updateGlobals copies each logger, keeping what it holds |
| Lager.Globals.Repoint | lager.go:327-332 | after an update every logger points at the new configuration |
| Lager.Globals.View | lager.go:24-79 | the configuration has one slot per level |
| Lager.Globals.Copy | lager.go:317 | the copy holds the same slots, keys, enabled letters, output, path parts, notation, GCP flag and span prefix |
| Lager.Globals.SetLevels | lager.go:407-446 | setLevels applied to the configuration changes it as Apply says, with fresh loggers only |
| Lager.Globals.Run | lager.go:321 | running an updater changes the configuration as Apply says |
| Lager.Registry.constructor | lager.go:252 | the registry holds the given configuration |
| Lager.Registry.UpdateGlobals | lager.go:314-334 | the update builds a fresh configuration, applies the updater, points every logger at it and publishes it, leaving the old configuration and its loggers untouched |
| Lager.Registry.Init | lager.go:402-404 | Init(levels) publishes a configuration with setLevels applied |
| Lager.Registry.Keys | lager.go:768-780 | Keys() either logs at Exit and changes nothing, or publishes the chosen keys |
| Lager.Registry.Level | lager.go:700-727 | Level() returns nothing for a byte outside "PEFWNAITDOG" in either case, and otherwise that level's slot with the contexts' pairs merged in |
| Lines.DestinationCases | lager.go:819-827 | a configured output wins; otherwise Panic and Exit go to stderr and every other level to stdout |
| Lines.Brackets | lager.go:829-875 | a line opens with `[` without keys and `{` with keys, and closes with the matching bracket and a newline |
| Lines.ContextPlacement | lager.go:853-861 | context pairs are written only when there are some: as an object in a list line, in line when the `ctx` key is empty, under the `ctx` key otherwise |
| Lines.ModPlacement | lager.go:863-869 | a module name is written only when set: as the string "mod=NAME" in a list line, under the `mod` key otherwise |
| Lines.Start | lager.go:816-845 | start() as written: for a logger without a configuration (every module logger) nothing is written and no stream is picked, where the source dereferences nil; otherwise it picks the stream and writes the opening bracket, the timestamp and the level's name as the level notation maps it |
| Lines.Route | lager.go:818-827 | no stream exactly when the logger has no configuration, where the source dereferences nil; otherwise the stream Destination gives |
| Lines.Pick | lager.go:819-827 | the configured output, else stderr exactly for Panic and Exit |
| Lines.ConfigOf | lager.go:816-845 | a logger's own configuration whenever it has one |
| Lines.StartResolved | lager.go:816-845 | corrected start(): a logger without a configuration uses the current one, so every logger's line is opened with the stream and text Start gives a configured logger |
| Lines.ModuleLinesCrash | module.go:114-136 | as written, any logger a module's Level() yields has no configuration, so start() on it never opens a line |
| Lines.StartLine | lager.go:829-842 | the text start() writes |
| Lines.OpenLine | lager.go:829-835 | the opening bracket, and the `when` key with keys |
| Lines.LevelPart | lager.go:838-842 | the level, under the `lev` key with keys |
| Lines.KeyedField | lager.go:866-867 | a key and a quoted string value |
| Lines.End | lager.go:848-889 | end() writes the context pairs (with the `_stack` pair on an Exit line when stacks on exit are on), the module and the closing bracket, then flushes the whole line; it then returns, exits, or panics as the level and the exiters count say; a logger without a configuration is a nil dereference and writes nothing |
| Lines.EndPairs | lager.go:849-852 | the pairs end() writes are the logger's own, except on an Exit line with stacks on exit |
| Lines.ExitStack | lager.go:849-852 | on such a line `_stack` holds the stack from depth 2, and every other key keeps its value |
| Lines.CloseLine | lager.go:853-875 | the text end() writes |
| Lines.CtxPart | lager.go:853-861 | the context pairs, as ContextPlacement says |
| Lines.ModPart | lager.go:863-869 | the module name, as ModPlacement says |
| Modules.ModLetterLevel | module.go:122-131 | Module.Init accepts only letters of levels from Fail to Guts |
| Modules.ModLetterAgrees | module.go:122-131 | Module.Init accepts exactly the letters of "FWITDOG", each for the level setLevels gives it; N and A are ignored |
| Modules.Accepted | module.go:122-133 | the accepted letters are drawn from the enable-string |
| Modules.QuotedLevelsShape | module.go:133 | the recorded levels are each accepted letter quoted, in order, duplicates included |
| Modules.AcceptedMembers | module.go:122-131 | a byte is accepted exactly when it is in the enable-string and is a module level letter |
| Modules.NotApplicableIsNoLevels | module.go:59-64 | the recorded levels of a module are never "n/a", so GetModuleLevels' answer tells a missing module apart |
| Modules.ModSlotsEffect | module.go:114-136 | Panic and Exit are untouched; Note and Access are always noop; each other level logs exactly when its letter is in the enable-string |
| Modules.InitSlots | module.go:122-134 | the loop gives each named level a fresh logger with the module's name and records the quoted letters |
| Modules.ClearSlots | module.go:115-118 | Fail to Guts are reset to noop |
| Modules.ModLevelAgrees | module.go:192-206 | Module.Level() accepts exactly the upper-case letters "PEFWITDOG", each for the level Level() gives it |
| Modules.NilPanicSlots | module.go:92-152 | a module as written has nothing in its Panic and Exit slots, so its Panic() and Exit() have no logger to call |
| Modules.IntendedSlotsComplete | module.go:142-206 | with Panic and Exit loggers in place every letter Module.Level() accepts yields a Lager |
| Modules.Module.constructor | module.go:92 | a new module as written holds its name, no levels, and nothing in any slot, Panic and Exit included |
| Modules.Module.Intended | module.go:92-152 | corrected constructor: Panic and Exit slots hold loggers with the module's name, so Panic() and Exit() have one to call |
| Modules.Module.Init | module.go:114-136 | Init() resets and re-enables the levels, using the global levels when given none, and records the quoted letters; the Panic and Exit slots are left as they were, and every logger it makes is fresh and has no configuration |
| Modules.Module.Level | module.go:192-206 | Level() returns nothing for a byte outside "PEFWITDOG", otherwise that slot with the contexts' pairs merged in |
| Modules.ModuleMap.constructor | module.go:19 | the module map starts empty |
| Modules.ModuleMap.NewModule | module.go:87-105 | an existing module is returned as is; more than one default is refused; otherwise a new module, with nil Panic and Exit slots as written, is stored with the levels from the environment, else the default, else the global levels |
| Modules.ModuleMap.SetModuleLevels | module.go:48-55 | false for an unknown module; otherwise the module is re-initialised; the map and every other module's levels and slots are unchanged |
| Modules.ModuleStringPrecedence | module.go:93-121 | the environment variable wins over the default, which wins over the global levels |
| Stack.LastPieceTail | stack.go:26-28 | the last piece of a split is a separator-free suffix, preceded by a separator when shorter than the text |
| Stack.LastPieceWhole | stack.go:26-28 | the last piece is the whole text exactly when the text has no separator |
| Stack.ShortFuncTail | stack.go:26-28 | the function name keeps only what follows its last '.' |
| Stack.ShortPathWhole | stack.go:29-35 | the file name is kept whole when pathParts is not positive or the name has no more pieces than that |
| Stack.ShortPathSuffix | stack.go:29-35 | otherwise the result is a proper suffix that starts right after a separator |
| Stack.ShortPathPieces | stack.go:29-35 | and it consists of exactly the last pathParts pieces |
| Stack.Caller | stack.go:12-37 | caller() reports the line of the frame at that depth, 0 when there is none |
| Stack.CallerArgPairs | stack.go:46 | the pairs WithCaller adds are `_file`, `_line` and `_func` with the frame's values |
| Stack.CallerPairsGet | stack.go:46 | those three keys map to the frame's file, line and function |
| Stack.WithCaller | stack.go:40-48 | with no caller the logger itself is returned; otherwise a fresh copy whose pairs have the caller pairs merged in |
| Stack.WithCallerAdds | stack.go:46 | the merged pairs keep every old key and give `_file`, `_line` and `_func` the caller's values |
| Stack.WithCallerKeeps | stack.go:46 | every other key keeps its value |
| Stack.StackEntries | stack.go:51-66 | one entry per frame collected |
| Stack.RunBounds | stack.go:53-60 | the collected frames all exist, there are at most stackLen of them when that is positive, and the walk stops at the limit or at the first missing frame |
| Stack.StackEntriesSpan | stack.go:53-66 | the stack lists frames from minDepth on, each one present, up to the limit or the first missing frame |
| Stack.CollectStack | stack.go:52-66 | the loop builds exactly those entries |
| Stack.WithStack | stack.go:51-70 | a fresh copy of the logger whose pairs have `_stack` merged in, holding the entries |
| Gcp.GcpLevelNames | gcp.go:122-141 | each level's name maps to its GCP severity, and never to "0" |
| Gcp.GcpLevelNameFirstByte | gcp.go:122-141 | only the first byte of the name matters, and it maps to a severity other than "0" exactly when it is a level initial |
| Gcp.GcpHttp | gcp.go:218-264 | the request record is a RawMap of ten pairs |
| Gcp.GcpHttpFields | gcp.go:218-264 | the record shows method, URL and protocol, status unless -1, request and response size unless negative, latency when timed, the remote IP, and referer and user agent when set |
| Gcp.VisiblePair | data.go:97-102 | a skip marker hides its pair, any other key shows it |
| Gcp.ZeroStartIgnored | gcp.go:230-232 | a zero start time is treated as no start time |
| Spans.FirstNonHex | gcp-spans/factory.go:240-248 | -1 exactly when every byte is a hex digit; otherwise the first byte that is not |
| Spans.NonHexIndex | gcp-spans/factory.go:240-248 | the loop returns that index |
| Spans.HexCharsDigits | gcp-spans/factory.go:18-21 | the bit table HexChars has a bit set exactly at '0'-'9', 'a'-'f' and 'A'-'F' |
| Spans.IsValidTraceID | gcp-spans/factory.go:253-258 | true exactly for 32 hex digits that are not all '0' |
| Spans.HexSpanID | gcp-spans/factory.go:260-262 | 16 lower-case hex digits whose value is the span ID |
| Spans.HexSpanIDTwenty | gcp-spans/span_test.go:56 | the span ID 20 is written as "0000000000000014" |
| Spans.GetTracePath | gcp-spans/factory.go:311-317 | empty exactly when the span ID is 0 |
| Spans.GetSpanPath | gcp-spans/factory.go:319-325 | empty exactly when the span ID is 0 |
| Spans.GetCloudContext | gcp-spans/factory.go:327-332 | empty exactly when the span ID is 0 |
| Spans.TracePathParts | gcp-spans/factory.go:311-317 | the trace path splits into "projects", the project, "traces" and the trace ID |
| Spans.SpanPathParts | gcp-spans/factory.go:319-325 | the span path splits into "traces", the trace ID, "spans" and hex digits whose value is the span ID |
| Spans.Import | gcp-spans/factory.go:335-350 | a span exactly for a non-zero span ID and a valid trace ID; otherwise the error for the first check that fails, in the source's order, a bad character naming the first non-hex byte |
| Spans.ImportFromHeaders | gcp-spans/factory.go:352-361 | a span whose trace ID is valid and is the header's first part, or an empty span; a header without exactly one '/' gives an empty span |
| Spans.SetHeaderSpec | gcp-spans/factory.go:363-368 | the header gets the cloud context when the span ID is not 0; nothing else changes |
| Spans.Header.constructor | gcp-spans/factory.go:363 | a header map object holds the given values |
| Spans.SetHeader | gcp-spans/factory.go:363-368 | SetHeader returns the span itself and updates the headers as SetHeaderSpec says |
| Spans.HeaderRoundTrip | gcp-spans/factory.go:327-368 | importing from headers that SetHeader wrote gives back the trace and span IDs |
| Spans.OptionsSuffixRefused | gcp-spans/factory.go:352-361 | a header with a ";o=" options suffix fails to parse and gives an empty span |
| Spans.NewTrace | gcp-spans/factory.go:378-380 | a new trace keeps the project and has no trace path, span path or cloud context |
| Spans.NewSpan | gcp-spans/factory.go:386-388 | NewSpan is NewTrace |
| Spans.NewSubSpan | gcp-spans/factory.go:382-384 | NewSubSpan returns nothing |
| Spans.SpanRef.constructor | gcp-spans/factory.go:277-279 | the span holder holds the given span |
| Spans.SpanRef.SetSpanID | gcp-spans/factory.go:285-287 | SetSpanID changes the span ID and nothing else |
| GrpcOptions.DefaultCodeToLevel | grpc/options.go:94-133 | OK, Canceled, InvalidArgument, NotFound, AlreadyExists and Unauthenticated map to 'I'; DeadlineExceeded, PermissionDenied, ResourceExhausted, FailedPrecondition, Aborted, OutOfRange and Unavailable to 'W'; the rest to 'E' |
| GrpcOptions.DefaultLevelsAccepted | grpc/options.go:94-133 | every byte it returns is one Level() accepts, naming Exit, Warn or Info |
| GrpcOptions.InternalExits | grpc/options.go:124-125 | Internal maps to 'E', the Exit level, not to Fail |
| GrpcOptions.CodeToLevel | grpc/server_interceptors_test.go:98-123 | Info and Warn codes as before, and every other code to 'F' |
| GrpcOptions.CodeToLevelNeverStops | grpc/server_interceptors_test.go:98-123 | every code maps to a level from Fail up, Internal to Fail, and only the 'E' codes change |
| GrpcOptions.ApplyOpt | grpc/options.go:52-91 | each With* option changes only its own field |
| GrpcOptions.LaterOptionWins | grpc/options.go:36-38 | the last option that sets a field decides it |
| GrpcOptions.UntouchedField | grpc/options.go:32-41 | a field no option sets keeps its default |
| GrpcOptions.OptionsRef.constructor | grpc/options.go:33-34 | the options object holds the given values |
| GrpcOptions.OptionsRef.Call | grpc/options.go:37 | calling an option on the object applies it |
| GrpcOptions.EvaluateServerOpt | grpc/options.go:32-41 | a fresh options object holding the defaults, with DefaultCodeToLevel as the level table, and the options applied in order |
| GrpcOptions.DefaultsExitOnInternal | grpc/options.go:12-35 | with no options Internal maps to 'E' (Exit), and the Info and Warn codes to 'I' and 'W' |
| GrpcOptions.DurationToTimeMillisField | grpc/options.go:139-141 | one pair, `grpc.time_ms`, holding the milliseconds |
| GrpcOptions.DurationToDurationField | grpc/options.go:145-147 | one pair, `grpc.duration`, holding the duration |

## Left out

- Marshal.Buffer.Scalar: `map[string]interface{}` values, written with sorted keys at marshal.go:517-529 and buffer.go:394-406, are not part of the value universe. This avoids modelling Go's map iteration and sorting.
- Marshal.Buffer.Scalar: float32 and float64 values are not modelled (marshal.go:475-492, buffer.go:364-367). Floating point is out of scope. The same holds for `durationToMilliseconds` (grpc/options.go:149-151).
- Marshal.Buffer.Scalar: a deferred value is called directly. The goroutine and 10 ms timeout of `timeBoxedCall` (marshal.go:408-423) are concurrency and wall-clock time.
- Marshal.Buffer.Lock: the `outMu` mutex (marshal.go:45, buffer.go:42) and the `bufPool` sync.Pool are left out, because they only serialise concurrent writers. Only the `locked` flag and the flush order are modelled.
- Lines.End: the `os.Exit(1)` and the two panics after an Exit or Panic line (lager.go:880-888) are reported as an `Outcome` and not carried out. `ExitViaPanic`/`RecoverPanicToExit` (lager.go:531-579) are process control and are left out.
- Lines.End: the `_stackWithExit` and `_exiters` counters are plain parameters, not atomics.
- Lines.Start: for a logger without a configuration, which is every logger a module creates (module.go:124-130), the source dereferences nil at lager.go:824. The model returns no stream and writes nothing. `Lines.StartResolved` is the corrected behaviour.
- Lines.Start: requires the line's opening and timestamp to fit in the 16 KiB buffer. The source does not check for room before the timestamp (marshal.go:306-310), and it is not safe near the limit. int2() and int() reslice without a check (marshal.go:280, marshal.go:297), which panics when too few bytes are left. strconv.AppendInt instead moves the line to a new array. For example, a `when` key that leaves 6 bytes free panics in the month's int2(), after the quote, the year and `-`. The only input this excludes is a configuration whose `when` key, once quoted and escaped, is close to 16 KiB long. The model does not say what happens for it.
- Marshal.Buffer.Timestamp: the same fit precondition. The model covers only a timestamp that fits in the space left in the buffer. It does not model the panic or the move to a new array that happens when the timestamp does not fit.
- Lines.End: in the same case the nil dereference at lager.go:853-871 is the `NilConfig` outcome, and nothing is written.
- Lager.Registry.Level: Level() panics on a byte outside "PEFWNAITDOG" (lager.go:725). The model returns `None` instead.
- Modules.Module.Level: the panic on a bad letter (module.go:204) is `None` too.
- Lager.Registry.Keys: the bad-key case logs at Exit and then ends the process. The model reports it as `fatal`, changes nothing and writes no line.
- Modules.ModuleMap.NewModule: the panic on more than one default (module.go:97-98) is a `None` result. The environment variable `LAGER_<name>_LEVELS` is a parameter. The `sync.Map` registry is a Dafny `map`, so the race between `getMod` and `storeMod` (module.go:22-44) is not modelled.
- Modules.ModuleMap.NewModule: new modules have nil Panic and Exit slots, as written. `Modules.Module.Intended` is the corrected constructor, and it is not used by NewModule.
- LegacyBuffer.Buffer.Timestamp: this is the corrected method. It flushes when fewer than 27 bytes are free, where buffer.go:222 checks 22. It also asks for a year from -999 to 9999 so that the 27 bytes are enough. `LegacyBuffer.TimestampRoomShort` states the written check and what it lets through.
- Lager.LevelName: levels, depths, line numbers, `pathParts` and `stackLen` are unbounded `int`. Go's `int`/`int32` widths never matter at the values the package uses. Integer values in lines are `int64`/`uint64` subset types.
- Data.S: the `%v` text of a non-string is a `Formatter` parameter. Likewise the output of `json.Marshal` (marshal.go:534-540) is given bytes, and `%#v` diagnostics are not modelled.
- Lager.LagerWith: the specification functions (`ViewOf`, `WithView`, `ModuleLevel`) compare loggers as views of their level, pairs and module, which is value equality. Object identity is stated only by the methods: `Lager.Logger.With` and `LagerWith` say `r == this` or `r == x` when nothing changes, and a fresh object otherwise.
- Stack.Caller: `runtime.Caller`/`runtime.Callers` are replaced by a sequence of frames given as input. The path separator is '/' only.
- Lager.Registry.Init: `firstInit` (lager.go:341-386) reads the environment, and is left out. `atomic.Value`, `sync.Once` and `_globalsMutex` are left out too: updates are sequential.
- Lager.Apply: `SetOutput`, `SetPathParts` and `SetSpanPrefix` are updaters of the model. `SetLevelNotation` is not: the level notation is a function given as a parameter. `setRunningInGcp` re-enters `updateGlobals` from inside an updater, and is left out.
- Lines.StartLine: the line methods `List`, `CList`, `MList`, `CMList`, `Map`, `CMap`, `MMap`, `CMMap`, `Println` and `LogLogger` (lager.go:893-981) are not modelled. Only the `start()`/`end()` they share is.
- Data.Merge: `AddPairs(ctx)`, `ContextPairs` and `InContext` (data.go:105-127) store pairs in a `context.Context`, and are left out. `List` and `Map` (data.go:63-74) are the identity on their arguments. They are the `List` and `Raw` constructors of `Value`.
- Spans.ImportFromHeaders: header names are matched exactly. `http.Header`'s canonicalisation of names is not modelled.
- Spans.NewTrace: the no-op setters (`SetIsServer` to `SetStatusMessage`, `AddAttribute`, `AddPairs`, `Finish`; gcp-spans/factory.go:370-400), the getters of the start time and duration, and the context helpers (gcp-spans/factory.go:223-235) are left out. They return the receiver or a constant.
- Gcp.GcpLevelName: requires a non-empty name. For "" the source panics on `lev[0]` (gcp.go:123), although gcp.go:117 promises "0" for any invalid name. That panic is not modelled. Every caller in the package passes a level name, which is never empty (`Lager.LevelName`).
- Gcp.GcpHttp: the HTTP request and response are reduced to the fields the record reads. `GcpProjectID`, `RequestUrl` and the span helpers of gcp.go are network plumbing, and are left out.
- GrpcOptions.EvaluateServerOpt: the `grpc_logging` defaults, the message producer and the timestamp format are opaque `Foreign` values. The interceptors in `grpc/` and `grpc_lager/` are left out.

## Findings

| source | as written | input that shows it | evidently intended | confidence | as-written member | corrected member |
|---|---|---|---|---|---|---|
| buffer.go:221-224 | the room check before a timestamp asks for 22 bytes, but a timestamp with a four-digit year is 27 bytes | timestamp() runs right after `{"<when>":` on a fresh buffer (lager.go:829-836), so a 16358-byte `when` key leaves exactly 22 bytes free. There is no flush, and one byte is left after the dot. For a nanosecond count below 1,000,000, int() pads the one digit by reslicing past the capacity and panics (buffer.go:212). Otherwise strconv.AppendInt silently moves the line to a new array. With 23 or 24 bytes free the same happens | flush when fewer than 27 bytes are free | not executed | LegacyBuffer.TimestampRoomShort | LegacyBuffer.Buffer.Timestamp |
| module.go:92 | `&Module{name: name}` leaves the Panic and Exit slots nil, and Init fills only Fail to Guts | `NewModule("m").Panic()`: With is called on a nil Lager | Panic and Exit slots hold loggers with the module's name | not executed | Modules.NilPanicSlots | Modules.IntendedSlotsComplete |
| grpc/options.go:124-125 | `codes.Internal` maps to 'E', the Exit level, so the interceptor ends the process | a call that returns Internal, with no options | 'F' (Fail), as grpc/server_interceptors_test.go:105-108 expects | not executed | GrpcOptions.DefaultsExitOnInternal | GrpcOptions.CodeToLevelNeverStops |
| buffer.go:268-272 | pair() writes the key and colon before scalar(), which writes nothing for an empty AMap | `pairs` of the key "k" with an empty AMap value: `"k":` with no value, which is not JSON | a value after every key, as marshal.go writes `{}` | not executed | LegacyEncoding.EmptyMapInPairs | LegacyEncoding.EmptyMapInPairsThere |
| marshal.go:401-403 | after the loop an odd count writes `null` even when the last element was the InlinePairs marker | the RawMap `[InlinePairs]`: a bare `null` with no key inside an object | `null` only after a key, nothing after a marker | not executed | RawMaps.WrittenEndDiffers | RawMaps.IntendedOddEnd |
| lager.go:816-829 | start() reads `b.g.dest` and `l.g.keys`, but the loggers a module creates have no configuration | any line from a module logger, such as `NewModule("m").Fail().List("x")` | a module logger logs with the current configuration | not executed | Lines.ModuleLinesCrash | Lines.StartResolved |
