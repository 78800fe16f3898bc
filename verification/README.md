# A verified model of the hard parts of the server

This project models, in Dafny, seven parts of the repository and proves what they promise, for every input and every
run: the JSON codec, the HTTP/1.1 request machine and its printer, the streaming MD5, the byte array, the coroutine
pool of the TCP server, the job-claiming threads of the spreadsheet converter, and the log pattern compiler. Where a
promise is false of the code, the model keeps the code as it is, a lemma names an input that breaks the promise, and
another says exactly when it holds; the list below names both, the input first.

Code that changes state step by step is modelled by classes and loops (`Context`, `ByteArray`, `HttpRequest`,
`HttpRequestParser`, `Table`, `LogFormatter`, the loops of the JSON codec), each proved against a specification
function; what the source promises is then proved of the function. The two concurrent parts are step systems.

| file | what it models |
|---|---|
| `bytes.dfy`, `texts.dfy` | octets, little-endian numbers, a text standing inside another |
| `md5_reference.dfy`, `md5_transform.dfy`, `md5_context.dfy`, `md5_answers.dfy` | RFC 1321, sections 3.1 to 3.5, as a definition; the unrolled transform; the streaming context; the first answer of section A.5 |
| `byte_array.dfy`, `byte_items.dfy`, `byte_varint.dfy`, `byte_runs.dfy` | the chain of nodes; typed items; variable-length integers; runs of operations |
| `json_values.dfy`, `json_encode.dfy`, `json_decode.dfy`, `json_loops.dfy` | Lua values, both directions as functions, and the loops that compute them |
| `json_roundtrip.dfy`, `json_tables.dfy`, `json_lossless.dfy`, `json_domain.dfy` | decoding undoes encoding, and exactly when |
| `json_output.dfy`, `json_answers.dfy` | what is written is JSON in one canonical form; the characters, numerals and tables of the decoder one by one |
| `json_syntax.dfy`, `json_trees.dfy`, `json_grammar.dfy`, `json_unicode.dfy`, `json_strings.dfy` | the grammar of the texts that are decoded, with their values, against RFC 8259; Unicode escapes and the characters of whole strings against RFC 3629 |
| `http_machine.dfy`, `http_grammar.dfy`, `http_names.dfy`, `http_answers.dfy` | the automaton, the grammar it accepts, its character sets against RFC 3986 and RFC 7230 |
| `http_steps.dfy`, `http_target.dfy`, `http_accepts.dfy`, `http_reads.dfy`, `http_target_sound.dfy`, `http_sound.dfy`, `http_spans.dfy` | both inclusions, target first, and where the spans of the callbacks lie |
| `http_methods.dfy`, `http_fields.dfy`, `http_leaving.dfy`, `http_request.dfy`, `http_parser.dfy` | method names, the header map, where the machine stays in the model, printing against parsing, the two objects |
| `tcp_pool.dfy`, `tcp_effects.dfy` | the coroutine pool over whole runs, and what each of its steps does |
| `job_pool.dfy`, `job_effects.dfy`, `job_table.dfy` | the threads over whole runs and step by step, and their table |
| `log_pattern.dfy` | the log pattern |

Positions count from 0 everywhere, so an index of the Lua source is one more. An octet of a text is a `char` below 256.

Where the code departs from what it, its documentation or the standard it follows says:

* The sparse-array check of the JSON encoder compares the number of keys with the length operator, which may report any
  border: the keys 1, 3, 5 with the border 3 pass it and two values are lost (`JsonLossless.SparseArrayAccepted`; exactly:
  `JsonDomain.SurvivesIff`).
* The JSON decoder accepts a comma before a closing bracket or brace and numerals that are none of RFC 8259
  (`JsonGrammar.CommaBeforeBracket`, `JsonGrammar.OtherNumeralsAreTaken`; exactly: `JsonGrammar.DecodedIsRfcIff`).
* It does not check the second unit of a surrogate pair, and so reads two escapes as another character
  (`JsonUnicode.SecondUnitUnchecked`; exactly: `JsonUnicode.PairIsRightIff`), refuses some JSON texts
  (`JsonGrammar.JsonIsRefused`; exactly: `JsonGrammar.RfcIsDecodedIff`), and writes a lone surrogate as octets that are not
  UTF-8 (`JsonUnicode.LoneSurrogateIsTaken`; exactly: `JsonUnicode.LoneSurrogateIsNotUtf8`).
* The MD5 block counter has 32 bits, so the padded length wraps at 2^38 bytes (`Md5Context.LongMessageIsNotStandard`;
  exactly: `Md5Context.PaddingIsStandardIff`).
* Request methods are recognised by any beginning of their name: `G` is taken for GET
  (`HttpMethods.BeginningIsTakenForName`; exactly: `HttpMethods.TextReadBackIff`).
* RFC 7230 leaves control octets out of header names; the machine takes all but NUL, the tab and DEL
  (`HttpNames.ControlNameAccepted`; exactly: `HttpNames.TokenCharIff`).
* The scheme of a request target is lost, and the path behind it may not be printable as a target without one
  (`HttpRequests.SchemeIsLost`; exactly: `HttpRequests.ParsedIsStableIff`).
* The writers of variable-length integers find no digit to mark for 0 and no end for a negative value
  (`ByteVarint.ZeroAndNegativeAreNotWritten`; exactly: `ByteVarint.WriterFitsIff`).
* Their readers shift in `int` whatever the width of the result, so 2^31 is not read back
  (`ByteVarint.WideValueIsNotRead`; exactly: `ByteVarint.ShiftsFitIff`), and they loop for ever on a queue without the end
  of a code (`ByteVarint.EmptyQueueIsReadForEver`; exactly: `ByteVarint.ReaderEndsIff`).
* A string longer than its 32-bit length field is not read back: the length goes out modulo 2^32
  (`ByteItems.LongTextIsReadEmpty`; exactly: `ByteItems.TextRoundTripIff`).
* An argument of 0 starts no converter thread, and then no job is done (`JobPool.ArgumentZeroLeavesJobUndone`; exactly:
  `JobPool.AllProcessedForArgument`).
* A log pattern that ends in an unpaired percent sign writes the literal around that sign twice
  (`LogPattern.UnpairedSpells`; exactly: `LogPattern.PiecesSpellIff`), and an empty pattern is not empty output
  (`LogPattern.DefaultWritten`; exactly: `LogPattern.DoubledIsWrittenIff`).

## Model
| member | source | states |
|---|---|---|
| `JsonDomain.SurvivesIff` | config/xlsx2lua5/json.lua:59-136 | A value in any order of enumeration is encoded, and decoded back to the same value, if and only if every table with an item 1 has exactly the keys 1..n and every other table has string keys only, at every depth |
| `JsonTables.ReadBack` | config/xlsx2lua5/json.lua:218-372 | Inside any text, followed by a delimiter or the end, `parse` on an encoded value returns what the encoder saw of it and exactly the position behind its text |
| `JsonTables.DecodeOfEncode` | config/xlsx2lua5/json.lua:134-136 | `json.decode(json.encode(v))` is the part of v that the encoder visits, for every value that it accepts |
| `JsonTables.ItemsReadBack` | config/xlsx2lua5/json.lua:280-304 | The loop of `parse_array` reads the comma-separated items of an encoded array back, from any item on |
| `JsonTables.FieldsReadBack` | config/xlsx2lua5/json.lua:307-341 | The loop of `parse_object` reads the encoded fields back in the order in which `pairs` gave them, from any field on |
| `JsonLossless.RoundTripIff` | config/xlsx2lua5/json.lua:63-83 | For a value that is encoded, decoding gives it back if and only if no table read as an array has a gap |
| `JsonLossless.SeenIsContentIff` | config/xlsx2lua5/json.lua:63-96 | The encoder sees the whole of a value if and only if no table read as an array, at any depth, has a gap |
| `JsonLossless.ItemsAreBounded` | config/xlsx2lua5/json.lua:79-81 | `ipairs` reaches no further than there are entries, and if it reaches that far every key is one of 1..n: counting keys by distinctness |
| `JsonLossless.SparseArrayAccepted` | config/xlsx2lua5/json.lua:68-78 | A sparse array that passes the sparse-array check: a concrete value whose decoding differs from it |
| `JsonDomain.BorderOfContiguous` | config/xlsx2lua5/json.lua:76-78 | For keys exactly 1..n the length operator can only report n, so the check never refuses a gap-free array |
| `JsonDomain.DomainEncodes` | config/xlsx2lua5/json.lua:59-98 | Every value of the domain is encoded: no error is raised at any depth |
| `JsonDomain.EncodedGapFreeIsInDomain` | config/xlsx2lua5/json.lua:86-91 | Conversely a value that is encoded and has no gap has only string keys in its other tables |
| `JsonRoundTrip.NumberRoundTrip` | config/xlsx2lua5/json.lua:106-112 | The text of an integer below 10^14 in magnitude is a number to `tonumber`, the same one, and holds no delimiter |
| `JsonRoundTrip.ParseNumberText` | config/xlsx2lua5/json.lua:259-267 | `parse` reads the text of a number that ends at a delimiter or the end of input, and nothing more |
| `JsonRoundTrip.StringReadBack` | config/xlsx2lua5/json.lua:218-256 | `parse_string` undoes `encode_string` on every octet string, whatever stands behind the closing quote |
| `JsonRoundTrip.EscapeReadBack` | config/xlsx2lua5/json.lua:49-51 | Each escape that the encoder writes, short or `\u00xx`, is read as the character it stands for |
| `JsonOutput.EncodedIsJson` | config/xlsx2lua5/json.lua:59-136 | Whatever `json.encode` returns is a JSON text of RFC 8259, at every depth |
| `JsonOutput.TreeIsWritten` | config/xlsx2lua5/json.lua:59-136 | Its tree has no spaces, no last comma, the items in order and the fields in the order of the enumeration, and its text is what is returned |
| `JsonOutput.NumberTextIff` | config/xlsx2lua5/json.lua:106-112 | A text is written for an integer if and only if it is its decimal numeral: a minus sign exactly if it is negative, no zero in front of other digits, and digits that spell its magnitude |
| `JsonOutput.NumberIsRfc` | config/xlsx2lua5/json.lua:106-112 | and that is a numeral of section 6 of RFC 8259 |
| `JsonOutput.DigitsWritten` | config/xlsx2lua5/json.lua:106-112 | The integer -1234567890, which has all ten digits, and 0 |
| `JsonOutput.EscapedIff` | config/xlsx2lua5/json.lua:101-103 | The characters that are escaped are the quotation mark, the reverse solidus and those below 0x20, by their codes |
| `JsonOutput.EscapesWritten` | config/xlsx2lua5/json.lua:33-51 | The escape of each of them, by its code: seven short ones, and two zeros and two lower-case digits for the others |
| `JsonOutput.TableIsArrayIff` | config/xlsx2lua5/json.lua:63-98 | A table is written in brackets if and only if it is empty or has a key 1, and in braces otherwise |
| `JsonOutput.EmptyIsArray` | config/xlsx2lua5/json.lua:67-83 | The empty table is written as brackets |
| `JsonOutput.TablesAreRefused` | config/xlsx2lua5/json.lua:66-78 | Which of its two errors the encoder raises for a table with a key 1: a key that is no number comes first, then a border that is not the number of keys |
| `JsonOutput.NumberKeyIsRefused` | config/xlsx2lua5/json.lua:86-91 | In a table without a key 1 a first key that is a number is refused |
| `JsonOutput.NestedIsWritten` | config/xlsx2lua5/json.lua:59-98 | A table with two string keys over an array of two items, character by character |
| `JsonUnicode.EscapesDecoded` | config/xlsx2lua5/json.lua:189-256 | Escapes of Unicode scalar values, spelled with the sixteen digits in either case and with surrogate pairs above 0xFFFF, come out as their UTF-8 octets, and a strict decoder recovers the values |
| `JsonUnicode.EscapeDecoded` | config/xlsx2lua5/json.lua:206-215 | One escape of a scalar value inside any text: its UTF-8 octets, and all of its six or twelve characters consumed |
| `JsonUnicode.OctetsAreUtf8Iff` | config/xlsx2lua5/json.lua:189-203 | What `codepoint_to_utf8` writes is one well-formed UTF-8 sequence for that code point if and only if it is not a surrogate |
| `JsonUnicode.HexDigitIff` | config/xlsx2lua5/json.lua:206-215 | A character is the hexadecimal digit of a value if and only if it stands at that place of 0123456789abcdef or of 0123456789ABCDEF |
| `JsonUnicode.HexNumberIff` | config/xlsx2lua5/json.lua:206-215 | Four characters are read as a number if and only if they are its four digits, each in either case, highest first |
| `JsonUnicode.OnlyEncodingsAreDecoded` | config/xlsx2lua5/json.lua:189-203 | The strict decoder takes nothing but encodings: what it decodes are scalar values whose octets, one behind the other, are the text |
| `JsonUnicode.Utf8RoundTrip` | config/xlsx2lua5/json.lua:189-203 | A strict decoder after section 4 of RFC 3629 recovers any sequence of scalar values from their octets |
| `JsonGrammar.DecodedIff` | config/xlsx2lua5/json.lua:218-385 | A text is decoded to a value if and only if it is the text of a document of the grammar (spaces, literals, numerals of Lua, strings with every form of escape, arrays and objects with an optional last comma) whose surrogate pairs fit and that has this value |
| `JsonGrammar.DocumentIsUnique` | config/xlsx2lua5/json.lua:218-385 | The grammar is unambiguous: two documents with one text are one |
| `JsonGrammar.DecodedIsRfcIff` | config/xlsx2lua5/json.lua:280-341 | Of a decoded text: it is a JSON text of RFC 8259 if and only if no comma stands before a closing bracket or brace and every numeral is one of section 6, at any depth |
| `JsonGrammar.RfcIsDecodedIff` | config/xlsx2lua5/json.lua:206-236 | A JSON text of RFC 8259 is decoded if and only if no pair of its escapes is beyond the last code point |
| `JsonGrammar.JsonIsRefused` | config/xlsx2lua5/json.lua:206-236 | The string of the two escapes of DBFF and FFFF is a JSON text and is not decoded |
| `JsonGrammar.CommaBeforeBracket` | config/xlsx2lua5/json.lua:285-302 | The text `[true,]` is decoded to an array of one item, and is no JSON |
| `JsonGrammar.OtherNumeralsAreTaken` | config/xlsx2lua5/json.lua:259-267 | The texts `01` and `0x1F` are decoded to numbers, and are no JSON texts |
| `JsonGrammar.NumeralDecoded` | config/xlsx2lua5/json.lua:259-267 | Any numeral of Lua alone is decoded to its number, and is a JSON text if and only if it is a numeral of section 6 of RFC 8259 |
| `JsonAnswers.WholeIff` | config/xlsx2lua5/json.lua:259-267 | Digits alone, with or without a minus sign, are a whole number if and only if it is in the range of 64-bit integers, and are kept as their text otherwise |
| `JsonAnswers.TailIsIgnored` | config/xlsx2lua5/json.lua:259-267 | A vertical tab or a form feed behind digits does not change the number |
| `JsonAnswers.DigitsIff` | config/xlsx2lua5/json.lua:259-267 | The ten digits with their values |
| `JsonAnswers.RfcNumbers` | config/xlsx2lua5/json.lua:259-267 | Numerals of section 6 of RFC 8259 with a fraction and with an exponent, and five texts that are none |
| `JsonAnswers.PointsAreTaken` | config/xlsx2lua5/json.lua:259-267 | Numerals with a point that `tonumber` takes, and three texts without digits where they belong that it refuses |
| `JsonAnswers.ExponentsAreTaken` | config/xlsx2lua5/json.lua:259-267 | The same for exponents |
| `JsonAnswers.ExponentsAreRefused` | config/xlsx2lua5/json.lua:259-267 | and three texts with an incomplete exponent that `tonumber` refuses |
| `JsonAnswers.HexadecimalsAreTaken` | config/xlsx2lua5/json.lua:259-267 | and for hexadecimal numerals |
| `JsonAnswers.BinaryExponentsAreTaken` | config/xlsx2lua5/json.lua:259-267 | with binary exponents |
| `JsonAnswers.HexadecimalsAreRefused` | config/xlsx2lua5/json.lua:259-267 | and three hexadecimal texts that it refuses |
| `JsonAnswers.ShortEscapes` | config/xlsx2lua5/json.lua:33-46 | What each of the eight short escapes stands for, by its code, the solidus included, and that there are no others |
| `JsonAnswers.SpacesIff` | config/xlsx2lua5/json.lua:153-154 | The space and delimiter characters by their codes |
| `JsonAnswers.CapitalDigit` | config/xlsx2lua5/json.lua:206-215 | The escape `\u00E9` is read as the two octets of U+00E9 |
| `JsonAnswers.NullLeavesNothing` | config/xlsx2lua5/json.lua:280-304 | The text `[null,true]` is decoded to a table with one key, which is 2 |
| `JsonAnswers.LastMemberCounts` | config/xlsx2lua5/json.lua:307-341 | Of two members with one key the last counts, and null leaves nothing |
| `JsonAnswers.StringErrors` | config/xlsx2lua5/json.lua:218-256 | The errors inside strings: no closing quote, a control octet, an unknown escape, too few digits |
| `JsonAnswers.ScalarErrors` | config/xlsx2lua5/json.lua:259-277 | The errors at a value: the end of the text, an unknown first character, an unknown word, a minus sign alone |
| `JsonAnswers.ArrayError` | config/xlsx2lua5/json.lua:297-301 | No comma and no bracket behind an item |
| `JsonAnswers.KeyErrors` | config/xlsx2lua5/json.lua:319-327 | No quote in front of a key, and no colon behind it |
| `JsonAnswers.ObjectError` | config/xlsx2lua5/json.lua:334-338 | No comma and no brace behind a member |
| `JsonAnswers.TrailingError` | config/xlsx2lua5/json.lua:375-385 | Something behind the value |
| `JsonGrammar.RfcNumberIsNumeral` | config/xlsx2lua5/json.lua:259-267 | Every numeral of RFC 8259 is a number to `tonumber` and is not cut short by a delimiter |
| `JsonGrammar.TreeFound` | config/xlsx2lua5/json.lua:218-372 | Whatever the decoder reads from a position is the text of a tree of the grammar, up to exactly where it stops |
| `JsonGrammar.TreeTaken` | config/xlsx2lua5/json.lua:218-372 | Every tree of the grammar is read from its text, anywhere before a delimiter or the end, and nothing more |
| `JsonTrees.TreeAgrees` | config/xlsx2lua5/json.lua:218-372 | At every position of every text, `parse` succeeds if and only if there is a tree whose pairs fit, with its value and its end |
| `JsonTrees.PiecesAgree` | config/xlsx2lua5/json.lua:218-256 | `parse_string`, which reads a pair of escapes at once, agrees with reading one escape after the other and pairing them afterwards |
| `JsonUnicode.PairIsRightIff` | config/xlsx2lua5/json.lua:206-215 | For any two escapes that the decoder takes for a pair, it gives the octets of the code point whose surrogate pair they are if and only if the second one is a low surrogate |
| `JsonUnicode.PairIsRefusedIff` | config/xlsx2lua5/json.lua:189-236 | The code point error is raised exactly for pairs whose second unit is above 0xdfff by more than 0x400 for each step of the first below 0xdbff |
| `JsonUnicode.EscapeIsUtf8Iff` | config/xlsx2lua5/json.lua:206-215 | What an escape becomes is one sequence of UTF-8, for the escape's number, if and only if that number is no surrogate |
| `JsonUnicode.LoneSurrogateIsNotUtf8` | config/xlsx2lua5/json.lua:206-215 | So a unit on its own becomes malformed octets if and only if it is a surrogate, and a pair with a low second unit never does |
| `JsonUnicode.LoneSurrogateIsTaken` | config/xlsx2lua5/json.lua:206-215 | The escape of D800 alone is taken, and becomes octets that a strict decoder refuses |
| `JsonStrings.StringDecoded` | config/xlsx2lua5/json.lua:218-256 | For any string of the grammar, plain octets and escapes of every form mixed: a strict UTF-8 decoder finds in the decoded string the characters of the runs of plain octets, of the short escapes, of the units and of the pairs, one behind the other, and refuses it exactly if it refuses one of these |
| `JsonStrings.SpelledIff` | config/xlsx2lua5/json.lua:206-256 | The pieces of a string spell characters by the rules for pairs of RFC 8259, section 7, if and only if the runs of plain octets are UTF-8, every pair ends in a low surrogate and no surrogate stands alone; the decoder reads those as they are spelled |
| `JsonStrings.WellFormedIsDecoded` | config/xlsx2lua5/json.lua:375-385 | Such a string, with spaces around it, is decoded to octets in which a strict decoder finds exactly the characters that are spelled |
| `JsonStrings.PairIsLowIff` | config/xlsx2lua5/json.lua:206-215 | The second unit of a pair is a low surrogate if and only if some code point above 0xFFFF has this surrogate pair |
| `JsonStrings.PairIsSpelled` | config/xlsx2lua5/json.lua:206-215 | A pair that ends in a low surrogate spells the code point whose surrogate pair it is |
| `JsonUnicode.SecondUnitUnchecked` | config/xlsx2lua5/json.lua:234-238 | A high surrogate followed by the escape of A is read as one character, U+2441 |
| `JsonDecode.Parse` | config/xlsx2lua5/json.lua:365-372 | Every successful parse ends strictly behind its start and inside the text, so the mutually recursive decoder ends on every input, well formed or not |
| `JsonDecode.StringRest` | config/xlsx2lua5/json.lua:218-256 | A string that is read ends behind where it started and inside the text |
| `JsonLoops.NextChar` | config/xlsx2lua5/json.lua:165-172 | The first position from the start on whose membership differs from `negate`, or the end |
| `JsonLoops.ParseString` | config/xlsx2lua5/json.lua:218-256 | The loop with its two indices, copying plain runs whole, computes the specification of a string |
| `JsonLoops.ParseArray` | config/xlsx2lua5/json.lua:280-304 | The array loop, with the value parser, computes its specification on every text |
| `JsonLoops.ParseObject` | config/xlsx2lua5/json.lua:307-341 | The object loop computes its specification on every text, errors included |
| `JsonLoops.DecodeText` | config/xlsx2lua5/json.lua:375-385 | The decoder as it runs, loops and recursion, returns what the specification says, including the error on trailing characters |
| `JsonLoops.EncodeTable` | config/xlsx2lua5/json.lua:59-98 | The encoder's key checks and its two loops with `table.concat` compute the specification, errors included |
| `JsonLoops.ItemTexts` | config/xlsx2lua5/json.lua:79-83 | The `ipairs` loop ends and its concatenation is the specified text or the first error |
| `HttpSound.AcceptedIff` | src/http/http11_parser.rl.cc:876-3026 | From a fresh parser, unless the machine enters an IP literal or a socket message, the final state is reached if and only if what was consumed is a request line, header lines and a blank line over the code's own character sets; the body starts there and the callbacks are exactly those of the parts, in order |
| `HttpAccepts.HeadAccepted` | src/http/http11_parser.rl.cc:876-3026 | Every legal head is accepted with anything behind it and any old `query_start`: the cursor stops behind it and the callbacks are those of its parts |
| `HttpSound.HeadFound` | src/http/http11_parser.rl.cc:876-3026 | Any buffer from which the final state is reached without an IP literal starts with a legal head |
| `HttpReads.RunAccepts` | src/http/http11_parser.rl.cc:10634-10652 | Whether the final state is reached depends on states and characters alone, not on marks or callbacks |
| `HttpAccepts.MethodAccepted` | src/http/http11_parser.rl.cc:876-934 | One to twenty capital letters and digits and a space: the machine goes to the target with one method callback on exactly these characters |
| `HttpTarget.PathAccepted` | src/http/http11_parser.rl.cc:936-3026 | A path of any form (none, without a slash in front, behind a slash, behind two slashes and an authority, behind a scheme) is taken whole up to the octet that ends it, and the path callback hears exactly it |
| `HttpTarget.AuthorityAdvances` | src/http/http11_parser.rl.cc:2408-3026 | User information, host and port of an authority and the segments behind it are taken, although only the at-sign tells user information from host and port |
| `HttpTarget.SchemeAccepted` | src/http/http11_parser.rl.cc:5842-6001 | A scheme and its colon are taken, and no callback hears them |
| `HttpTarget.MarkedTextRun` | src/http/http11_parser.rl.cc:2151-2338 | A text of plain characters and percent escapes is taken whole and its own mark is set at its first octet |
| `HttpTarget.TargetAccepted` | src/http/http11_parser.rl.cc:936-2403 | Path and optional query up to the space or number sign: the path, query and uri callbacks get exactly their texts |
| `HttpAccepts.VersionAccepted` | src/http/http11_parser.rl.cc:1104-1244 | HTTP/1.0 or HTTP/1.1 and either line end give one version callback on the eight characters |
| `HttpAccepts.LineAccepted` | src/http/http11_parser.rl.cc:1246-1470 | A header line of name, colon, blanks, value and either line end gives one field callback with the name and the value without the blanks in front |
| `HttpAccepts.NameStart` | src/http/http11_parser.rl.cc:1246-1310 | A name is taken from its first octet, even if that is a carriage return, unless a line feed follows it |
| `HttpTargetSound.TargetFound` | src/http/http11_parser.rl.cc:936-3026 | Whatever leads from behind the method to the version is a scheme, if any, and a legal path, query and fragment |
| `HttpTargetSound.PathFound` | src/http/http11_parser.rl.cc:936-3026 | Whatever leads from behind the method to the end of the path is a legal path of one of the forms, behind a scheme or not |
| `HttpTargetSound.AuthorityFound` | src/http/http11_parser.rl.cc:2408-3026 | Whatever is taken behind two slashes, without an IP literal, splits into user information, host, port and segments |
| `HttpTargetSound.LetterRestFound` | src/http/http11_parser.rl.cc:5842-5932 | What starts with a letter is decided by the first colon: a scheme if only scheme characters stand in front of it, and otherwise a first segment without one |
| `HttpSound.LinesFound` | src/http/http11_parser.rl.cc:1246-1510 | Whatever leads from the first header line to the final state is a list of legal header lines and a blank line |
| `HttpSound.MethodFound` | src/http/http11_parser.rl.cc:909-934 | The counting states let through at most twenty characters |
| `HttpSpans.FreshRunInside` | src/http/http11_parser.rl.cc:126-166 | From a fresh parser, a buffer that is not empty and any old `query_start`: every span that a callback gets, up to where an IP literal or a socket message starts, ends at or before the cursor and lies in the buffer; without one all closing assertions hold |
| `HttpSpans.RunSane` | src/http/http11_parser.rl.cc:10634-10652 | The invariant behind it over a whole run: marks at or before the cursor, the name's length right where it is read, `query_start` fresh in the query states |
| `HttpNames.TokenCharIff` | src/http/http11_parser.rl.cc:1308-1374 | The characters of a header name are the token characters of RFC 7230 and all control octets but NUL, the tab and DEL |
| `HttpNames.ControlNameAccepted` | src/http/http11_parser.rl.cc:1246-1374 | Each such control octet, but the line feed, is accepted alone as the name of a field, and the field callback hears it |
| `HttpAnswers.PathCharIff` | src/http/http11_parser.rl.cc:936-3026 | The plain characters of a path are the pchar of RFC 3986, the slash, octets above 127, and with `uri_relaxed` braces and the caret |
| `HttpAnswers.QueryCharIff` | src/http/http11_parser.rl.cc:2151-2338 | Those of a query and a fragment are these and the question mark |
| `HttpAnswers.RegNameCharIff` | src/http/http11_parser.rl.cc:2408-3026 | Those of a registered name are unreserved characters and sub-delimiters of RFC 3986, and with `uri_relaxed` braces and the caret |
| `HttpAnswers.SchemeCharIff` | src/http/http11_parser.rl.cc:5842-5932 | Letters, digits, hexadecimal digits and the characters of a scheme, by their codes |
| `HttpAnswers.MethodCharIff` | src/http/http11_parser.rl.cc:876-934 | The characters of a method are the capital letters and the digits |
| `HttpAnswers.ValueCharIff` | src/http/http11_parser.rl.cc:1376-1470 | A field value takes the visible characters, blanks and octets above 127 of RFC 7230, and control octets but NUL, the line ends and DEL |
| `HttpAnswers.FinalGoesOn` | src/http/http11_parser.rl.cc:1511-1560 | The final state, entered by a new call, goes on as the state inside a header name does |
| `HttpRequests.ReadBackIff` | src/http/http_request.cc:56-112 | For every request without an opening bracket in its path, which no legal one has: a fresh parser accepts the printed request and its callbacks build an equal request if and only if path, query, fragment, version and every header field are legal; the whole text of a legal request is consumed |
| `HttpRequests.PrintedStays` | src/http/http_request.cc:56-73 | A printed request without an opening bracket in its path never takes a fresh machine into an IP literal or a socket message, whatever its other parts are |
| `HttpLeaving.PathStays` | src/http/http11_parser.rl.cc:936-3026 | From any state inside a path, the machine enters no IP literal and no socket message before or behind a space, a number sign or a question mark, if no opening bracket stands before it |
| `HttpRequests.ParsedIsStableIff` | src/http/http_request.cc:56-112 | The request built from any accepted text is printed to a text that keeps the machine in the model, and is accepted for the same request if and only if its path can do without a scheme |
| `HttpRequests.SchemeIsLost` | src/http/http_request.cc:56-112 | The target a:b:c is accepted and heard as the path b:c, which is no path without a scheme |
| `HttpRequests.OtherFormsAreLegal` | src/http/http11_parser.rl.cc:936-3026 | The empty path, the asterisk and two slashes are legal paths too, so they are read back |
| `HttpRequests.ColonBehindSlash` | src/http/http11_parser.rl.cc:5842-5932 | A path that can do without a scheme has a colon only together with a slash |
| `HttpRequests.NoScheme` | src/http/http_request.cc:56-73 | A printed request that is read back equal was not read with a scheme |
| `HttpRequests.HeadHeard` | src/http/http_request.cc:76-112 | The callbacks of a head, on a new request, build the request of its parts: method, path, query, fragment, version, and the header lines set one after the other |
| `HttpRequests.HeardIsLegal` | src/http/http_request.cc:76-112 | Whatever the callbacks build from an accepted head is legal, its header map in order, but that a path behind a scheme may need it |
| `HttpRequests.PrintedIsHead` | src/http/http_request.cc:56-73 | A request of version 1.0 or 1.1 is printed as request line, header lines and blank line of the grammar |
| `HttpAnswers.RequestIsPrinted` | src/http/http_request.cc:56-73 | A request with every part, octet by octet |
| `HttpAnswers.ShortRequestIsPrinted` | src/http/http_request.cc:56-73 | and one with nothing that can be left out |
| `HttpAnswers.VersionOctetIsPrinted` | src/http/http_request.cc:56-73 | Any version octet is printed as its two halves in decimal, with a point between them |
| `HttpAnswers.NewRequestIsPrinted` | src/http/http_request.cc:36-41 | A new request is a GET of the slash in version 1.1, without header fields |
| `HttpAnswers.FieldsAreOrdered` | src/http/http_request.h:38-52 | Of the fields b, A and B, set in turn, A comes first, and b has kept its spelling and has the value of B |
| `HttpMethods.MethodReadBack` | src/http/http_request.cc:5-34 | Every method, and the unknown one, is recognised under the word that is printed for it |
| `HttpAnswers.WordOfMethod` | src/http/http_macro.h:76-116 | The 34 names and the word for the unknown method, in the order of their numbers |
| `HttpAnswers.NumberOfWord` | src/http/http_request.cc:26-34 | Each of these words is recognised as its number |
| `HttpMethods.TextReadBackIff` | src/http/http_request.cc:26-34 | A text is recognised as the method of that name if and only if it is one of the 34 names or the word for the unknown one |
| `HttpMethods.NoNameBeginsAnother` | src/http/http_macro.h:76-116 | No method name is the beginning of another, which is what recognition by beginning needs |
| `HttpMethods.MethodFromChars` | src/http/http_request.cc:26-34 | The method is the first of the table whose name starts with the text |
| `HttpMethods.BeginningIsTakenForName` | src/http/http_request.cc:26-34 | The text G, which is no method, is taken for GET |
| `HttpFields.SetThenGet` | src/http/http_request.cc:43-54 | After a set, the value is found under every name that differs in the case of letters only, and every other name finds what it found before |
| `HttpFields.KeyIff` | src/http/http_request.h:38-42 | Two names are one to the header map if and only if, up to the first NUL, they have one length and at each place one octet or the two cases of one letter, which are 32 apart |
| `HttpFields.KeyBeforeIff` | src/http/http_request.h:38-42 | A name comes before another if and only if at some place they part: the first one ends there or has the lower code, letters counted as small ones |
| `HttpFields.SortedHasNoTwo` | src/http/http_request.h:38-52 | No two fields of a map have names that differ in case only |
| `HttpFields.SetFieldKeepsSorted` | src/http/http_request.h:38-52 | Setting keeps the keys in strict `strcasecmp` order, so no two fields differ in case only |
| `HttpFields.SetAllInOrder` | src/http/http_request.cc:52-54 | Setting the fields of a map in its own order on an empty map builds the same map |
| `HttpFields.SetKeepsSpelling` | src/http/http_request.cc:52-54 | A set leaves the spelling of a name that is there in any spelling, and gives its own to one that is not |
| `HttpFields.FirstSpellingStays` | src/http/http_request.cc:52-54 | Of fields set one after the other, the first of a name gives it its spelling |
| `HttpFields.LastValueStays` | src/http/http_request.cc:52-54 | and the last one its value |
| `HttpFields.BeforeIsTransitive` | src/http/http_request.h:38-42 | The comparison of the header map is transitive |
| `HttpFields.BeforeIsTotal` | src/http/http_request.h:38-42 | and orders any two names that are not equal in it |
| `HttpParser.HttpRequest.ToString` | src/http/http_request.cc:56-73 | The printing loop writes the specified text of the object's fields |
| `HttpParser.HttpRequest.SetField` | src/http/http_request.cc:52-54 | The object's header map takes the value, findable in any spelling, and nothing else changes |
| `HttpParser.HttpRequestParser.ExecuteText` | src/http/http11_parser.rl.cc:126-166 | From a fresh parser, one in the middle of a head, one that failed or one that has finished: the loop over the transition table leaves the machine's state, the count of consumed octets, and in the request what the callbacks of the run build, unless an IP literal or a socket message is entered; the closing assertions hold on a fresh parser |
| `HttpParser.HttpRequestParser.Execute` | src/http/http_request.cc:130-134 | The same on a buffer, whose consumed octets are dropped from its front |
| `HttpParser.PrintAndParse` | src/http/http_request.cc:56-112 | On objects: a printed request without an opening bracket in its path is parsed into an equal one if and only if it is legal; a legal one always is |
| `Md5Context.Context.Final` | config/xlsx2lua5/md5sum.c:296-359 | The digest buffer ends as the digest of everything written, with both padding branches and the length as the counters hold it |
| `Md5Context.CountedIsStandard` | config/xlsx2lua5/md5sum.c:306-318 | Below 2^38 bytes this is the digest of RFC 1321, sections 3.1 to 3.5 |
| `Md5Answers.EmptyMessage` | config/xlsx2lua5/md5sum.c:448-462 | The text for the empty message is d41d8cd98f00b204e9800998ecf8427e, as in section A.5 of RFC 1321 |
| `Md5Answers.WordOfBytes` | config/xlsx2lua5/md5sum.c:125-129 | Each word of a block holds its four bytes, the first one low-order |
| `Md5Context.PaddingIsStandardIff` | config/xlsx2lua5/md5sum.c:306-318 | For any length: the padding is that of RFC 1321 if and only if the length modulo 2^61 is below 2^38 |
| `Md5Context.LongMessageIsNotStandard` | config/xlsx2lua5/md5sum.c:306-318 | A message of 2^38 zeros is not padded as RFC 1321 says |
| `Md5Context.PaddingWraps` | config/xlsx2lua5/md5sum.c:306-318 | Nor is any other of that length: its bits are counted as none |
| `Md5Context.Context.Write` | config/xlsx2lua5/md5sum.c:254-282 | Any write appends its bytes to the message, through the part-filled buffer, the flush, the whole blocks and the rest; the buffer is not full afterwards |
| `Md5Context.Context.FieldsOfMessage` | config/xlsx2lua5/md5sum.c:254-282 | The fields are determined by what was written: `count` is the length modulo 64, `nblocks` the length divided by 64 modulo 2^32, the registers the fold of the compression over the whole blocks, the buffer the rest |
| `Md5Context.Context.Pad` | config/xlsx2lua5/md5sum.c:321-332 | Both branches append 0x80 and as many zeros as bring the length to 56 modulo 64, flushing a block where that needs one |
| `Md5Context.BitLength` | config/xlsx2lua5/md5sum.c:306-318 | The shifts and the carry over two 32-bit words give the exact bit count of the two counters |
| `Md5Context.BuildFileMd5` | config/xlsx2lua5/md5sum.c:414-446 | Whatever chunks a file is read in, the text is the hexadecimal digest of the whole file |
| `Md5Context.BuildBufferMd5` | config/xlsx2lua5/md5sum.c:448-462 | The same text for a buffer with the same content |
| `Md5Context.Context.constructor` | config/xlsx2lua5/md5sum.c:72-83 | A new context holds the empty message |
| `Md5Transform.Transformed` | config/xlsx2lua5/md5sum.c:107-243 | The transform of any registers and any block is the compression of section 3.4 of RFC 1321 |
| `Md5Transform.Unrolled` | config/xlsx2lua5/md5sum.c:151-236 | The 64 unrolled steps with rotating registers compute what the indexed loop computes |
| `Md5Transform.Round2` | config/xlsx2lua5/md5sum.c:181-197 | The sixteen steps of round 2, with their word order, shift counts and constants, are steps 17 to 32 of the loop |
| `Md5Transform.Round1` | config/xlsx2lua5/md5sum.c:151-167 | The sixteen steps of round 1, which walk through the words in order, are steps 1 to 16 of the loop |
| `Md5Transform.Round3` | config/xlsx2lua5/md5sum.c:200-216 | The sixteen steps of round 3 are steps 33 to 48 of the loop |
| `Md5Transform.Round4` | config/xlsx2lua5/md5sum.c:219-236 | The sixteen steps of round 4 are steps 49 to 64 of the loop |
| `Md5Transform.FFIsF` | config/xlsx2lua5/md5sum.c:92-97 | The shortened FF is the function F of RFC 1321 on all words |
| `Md5Transform.FGIsG` | config/xlsx2lua5/md5sum.c:92-97 | FG, written by FF, is the function G of RFC 1321 on all words |
| `Md5Reference.AbsorbAppend` | config/xlsx2lua5/md5sum.c:268-278 | Folding over the blocks of two texts one after the other is folding over the whole, when the first is whole blocks |
| `ByteChain.ByteArray.Write` | src/byteArray.cc:28-50 | The queue grows by exactly the bytes, over any number of nodes and from a full node as well; the invariant holds: free capacity is that of the write node, which is the last of the chain |
| `ByteChain.ByteArray.Read` | src/byteArray.cc:53-78 | A read that can be met returns and removes exactly the prefix; a larger one returns false and changes nothing; the write node is neither passed nor dropped |
| `ByteChain.ByteArray.NextNode` | src/byteArray.cc:35-43 | A full node gets one successor, which is the new write node, and the contents do not change |
| `ByteChain.ByteArray.Take` | src/byteArray.cc:57-77 | The loop of read and the copy behind it give the first n bytes and drop the nodes that were read through |
| `ByteChain.ByteArray.constructor` | src/byteArray.cc:5-15 | A new array is an empty queue |
| `ByteRuns.Run` | src/byteArray.cc:28-78 | Any run of writes and reads does on the chain what it does on a plain queue of bytes |
| `ByteRuns.Conservation` | src/byteArray.cc:28-78 | What came out and what is left spell what was there and what went in, in order |
| `ByteItems.ItemsRoundTrip` | src/byteArray.cc:80-116 | A list of typed items, written in order and read with the same types, comes back and leaves what is queued behind it |
| `ByteItems.Exchange` | src/byteArray.cc:80-288 | The same on the byte array itself, on a host of either byte order |
| `ByteItems.TextRoundTripIff` | src/byteArray.cc:252-264 | A string comes back if and only if its length fits the 32-bit length field |
| `ByteItems.LongTextIsReadEmpty` | src/byteArray.cc:252-264 | A string of 2^32 zeros goes out with the length 0 and is read as the empty string, with all of it still queued |
| `ByteItems.ReadString` | src/byteArray.cc:258-264 | With fewer than four octets queued the text is empty and nothing is consumed; else the first four are the length, the low one first, and what is read is that many octets, if there are as many, or the old text cut or filled with zeros to that length, with the length consumed |
| `ByteItems.WireIsLittleEndian` | src/byteArray.cc:84-97 | What is written does not depend on the byte order of the host |
| `ByteItems.WireIsReadBack` | src/byteArray.cc:154-167 | and a host of either order reads the value back |
| `ByteItems.MemoryDigit` | src/byteArray.cc:84-97 | The memory of a big-endian host holds a number's octets high first, of another one low first |
| `ByteItems.SwappedDigit` | src/byteArray.cc:150-186 | A byte swap turns the octets round |
| `ByteItems.TwosComplementIff` | src/byteArray.cc:80-116 | The number written for a signed value is the value modulo 256 to the power of the width, and no other value of its type is read for it |
| `ByteItems.RangesOfTypes` | src/byteArray.cc:80-116 | The values that can be written are exactly those of the eight integer types |
| `Bytes.LittleEndianDigit` | src/byteArray.cc:84-97 | Octet i of what is written is the digit for 256 to the power i |
| `ByteItems.ReadFixed` | src/byteArray.cc:150-186 | A fixed-width read takes the value from the front; when the queue is too short it leaves the queue alone and swaps the old value all the same |
| `ByteVarint.ReadAll` | src/byteArray.cc:188-202 | Reading as often as was written gives the list of values back and leaves what is queued behind it |
| `ByteVarint.WriteAndRead` | src/byteArray.cc:118-202 | On an empty byte array, any list of values from 1 to 2^31-1 that is written comes back, and nothing stays queued |
| `ByteVarint.VarintShape` | src/byteArray.cc:118-128 | A value below 128^k takes 1 to k octets, of which exactly the last has bit 7 set, and they spell the value |
| `ByteVarint.VarintDigit` | src/byteArray.cc:118-128 | Octet i of a code holds the seven bits of the value from bit 7 i on |
| `ByteVarint.VarintLength` | src/byteArray.cc:118-128 | Values from 1 to 2^31-1 take 1 to 5 octets |
| `ByteVarint.SelfDelimiting` | src/byteArray.cc:118-128 | In front of anything else, a code ends where it ends: no code begins another |
| `ByteVarint.WriteVarint` | src/byteArray.cc:118-140 | For every value that its loop can write, see `WriterFitsIff`: the digit loop and the mark on its last digit append the code of the value |
| `ByteVarint.ReadVarint` | src/byteArray.cc:188-202 | For every queue on which its loop ends and its shifts fit, see `ReaderEndsIff` and `ShiftsFitIff`: the or-ing of shifted digits gives the value of the code in front and removes exactly the code |
| `ByteVarint.ReaderEndsIff` | src/byteArray.cc:188-202 | The turns of the reader's loop, which are those that `ReadVarint` takes, ever give an octet with bit 7 if and only if some queued one has it: on an empty queue the read leaves its variable as it was |
| `ByteVarint.EmptyQueueIsReadForEver` | src/byteArray.cc:188-202 | On an empty queue no number of turns gives an octet with bit 7 |
| `ByteVarint.ShiftsFitIff` | src/byteArray.cc:188-202 | Every digit of a code, shifted in `int` to its place, is a value of 31 bits if and only if the code has at most five octets and spells a value below 2^31 |
| `ByteVarint.WideValueIsNotRead` | src/byteArray.cc:188-202 | The code of 2^31 has a shift that leaves the `int` |
| `ByteVarint.WriterFitsIff` | src/byteArray.cc:118-140 | For any integer of either sign and any buffer: the digit loop ends inside the buffer with a digit to mark if and only if the value is positive and has no more than seven bits an octet of the buffer |
| `ByteVarint.ZeroAndNegativeAreNotWritten` | src/byteArray.cc:118-140 | For 0 the loop ends before its first digit, and for -1 after no number of turns |
| `TcpPool.RunsAreSafe` | src/tcpServer.cc:75-130 | Any number of workers and acceptors, any interleaving, any results: the stack holds distinct workers suspended at the yield with descriptor -1; every other worker holds an open descriptor of its own or is the running one, without a descriptor, on its way to the stack; no two share a descriptor or a connection; every accepted connection is held by one, or was closed exactly once; the stack is never popped when empty |
| `TcpPool.PoolIsConserved` | src/tcpServer.cc:190-224 | In the event loop behind the start-up, idle workers and open connections add up to `m_ant` |
| `TcpPool.SomebodyCanMove` | src/tcpServer.cc:75-130 | No deadlock: with a listening socket, some step is possible in every reachable state |
| `TcpPool.HandOver` | src/tcpServer.cc:124-127 | Two steps from the hand-over, the worker from the top of the stack polls the accepted descriptor, its field is -1 again, and the acceptor is back at its loop |
| `TcpPool.NextKeeps` | src/tcpServer.cc:75-130 | The invariant is kept by every single step |
| `TcpPool.CheckKeeps` | src/tcpServer.cc:120-123 | The second test of the stack: a connection without a worker is closed once, otherwise a worker is there for `erase` |
| `TcpPool.TakeKeeps` | src/tcpServer.cc:125-127 | `erase` finds a suspended worker, and descriptor and connection change owner with it |
| `TcpPool.HandleClosesKeeps` | src/tcpServer.cc:92-95 | Closing after `handle` keeps the invariant, even though descriptor numbers are used again; what it closes is said by `TcpEffects.HandleFails` |
| `TcpPool.ClosedStaysClosed` | src/tcpServer.cc:75-130 | No step reopens a connection |
| `TcpEffects.HandleFails` | src/tcpServer.cc:92-96 | `handle` returned -1: the connection that the worker was given is closed, for the first time, its descriptor is free, no other connection or descriptor changes, and with its next step the worker is on top of the stack |
| `TcpEffects.HandleServes` | src/tcpServer.cc:86-96 | `handle` returned anything else: nothing is closed, and the worker polls the same descriptor again, on no stack |
| `TcpEffects.WorkerTests` | src/tcpServer.cc:78-86 | The head of a worker's loop: without a descriptor it is suspended on top of the stack, with one it polls it |
| `TcpEffects.HeadTests` | src/tcpServer.cc:106-111 | The head of an acceptor's loop: it goes to `co_accept` if there is an idle worker, and waits if there is none |
| `TcpEffects.AcceptFails` | src/tcpServer.cc:113-119 | A failed accept opens nothing, and the acceptor waits for its socket |
| `TcpEffects.AcceptSucceeds` | src/tcpServer.cc:112 | A successful one opens a new connection under a descriptor that was free, held by the acceptor |
| `TcpEffects.CheckTests` | src/tcpServer.cc:120-123 | The second test: without an idle worker the new connection is closed, otherwise it stays open and the acceptor takes a worker |
| `TcpEffects.TakeHandsOver` | src/tcpServer.cc:125-127 | The worker on top of the stack leaves it with descriptor and connection and runs, and the acceptor goes on behind it |
| `TcpEffects.WorkerWakes` | src/tcpServer.cc:87-92 | The event loop wakes a worker that polls into `handle` with the same descriptor |
| `TcpEffects.AcceptorWakes` | src/tcpServer.cc:105-119 | and an acceptor to the head of its loop, or into `co_accept` where it was there |
| `TcpEffects.CallSuspends` | src/tcpServer.cc:75-131 | A suspension inside `handle` or `co_accept` changes nothing but who runs |
| `TcpEffects.StartsInOrder` | src/tcpServer.cc:190-212 | The workers are created one by one, each runs up to its first yield, and then the acceptors |
| `JobPool.RunsAreSafe` | config/xlsx2lua5/main.c:217-253 | Any interleaving: no job has two workers, a slot is filled only by the worker that claimed it, and `job_cur` is the number of claimed jobs and of workers past the exit test |
| `JobPool.AllProcessedIff` | config/xlsx2lua5/main.c:337-348 | When the joins are done, every job has been processed if and only if there was a worker or nothing to do |
| `JobPool.AllProcessedForArgument` | config/xlsx2lua5/main.c:262-266 | In terms of the program's argument: if and only if it is not 0 or there are no jobs |
| `JobPool.ArgumentZeroLeavesJobUndone` | config/xlsx2lua5/main.c:262-266 | The argument 0 and one job: a run in which main passes both loops and the job's slot is empty |
| `JobPool.DigestsAreStored` | config/xlsx2lua5/main.c:235-250 | With a worker, a job's slot behind the joins holds what a step of the worker that claimed the job stored there |
| `JobPool.WorkerCount` | config/xlsx2lua5/main.c:262-266 | The number itself from 0 to 64, 1 for a negative one and 64 for a larger one; none exactly for the argument 0 |
| `JobPool.RunsAreShort` | config/xlsx2lua5/main.c:217-253 | No interleaving takes more than four steps a job and four a worker, and three more |
| `JobPool.SomebodyCanMove` | config/xlsx2lua5/main.c:337-348 | Until the joins are done or the process has aborted, some step is possible |
| `JobPool.MeasureFalls` | config/xlsx2lua5/main.c:217-253 | Every step of every thread lowers the measure |
| `JobPool.FinishKeeps` | config/xlsx2lua5/main.c:235-250 | Storing a digest fills the slot of the worker's own job, which was empty, and keeps the invariant; an error or a digest of the wrong length aborts |
| `JobPool.NextGrows` | config/xlsx2lua5/main.c:217-253 | A slot once filled keeps its digest, and `job_cur` and the claims never shrink |
| `JobEffects.WorkerClaims` | config/xlsx2lua5/main.c:218 | The fetch-and-add gives a worker the old value and leaves one more, and nothing else changes |
| `JobEffects.WorkerTests` | config/xlsx2lua5/main.c:219-220 | A worker returns if and only if there is no job of its index |
| `JobEffects.WorkerStores` | config/xlsx2lua5/main.c:235-248 | A digest of one to 32 octets is in the slot of the worker's job, which was empty, no other slot changes, and the worker claims the next job |
| `JobEffects.WorkerAborts` | config/xlsx2lua5/main.c:234-250 | A failed call, and a digest of another length, end the process: no step is possible any more |
| `JobEffects.MainGoesOn` | config/xlsx2lua5/main.c:341-348 | Main creates the next worker, or joins the next one that has returned, and is behind its loops when there is none left |
| `JobTable.Table.Set` | config/xlsx2lua5/main.c:134-145 | A job goes behind the others with an empty slot, cut at its first NUL; the table aborts when its last place is taken |
| `JobTable.Table.Get` | config/xlsx2lua5/main.c:147-159 | The two pointers of an index are the job set under it and its digest, cut at its first NUL, below `job_amt`, and nil twice from there on; behind the table the process aborts |
| `JobTable.Table.Store` | config/xlsx2lua5/main.c:240-248 | A stored digest changes the slot of its job and nothing else of the table |
| `JobTable.SetAndGet` | config/xlsx2lua5/main.c:134-159 | Up to 1023 jobs set one after the other are read back by their numbers, each cut at its first NUL and without a digest |
| `JobTable.Convert` | config/xlsx2lua5/main.c:217-253 | Any interleaving of the threads, started on a table without digests and storing into it, leaves the jobs as they were and the slots as the run of the step system leaves them |
| `JobTable.ConvertTexts` | config/xlsx2lua5/main.c:134-253 | From the texts to the digests: up to 1023 jobs set, any run of n workers through the joins, and every job read back by its number comes with its text and the digest that a step of its claimer stored, or with none if n is 0 |
| `LogPattern.PiecesSpellIff` | src/log.cc:329-356 | The literals and directives that are found spell the pattern back, in order, if and only if the run of percent signs at its end is of even length |
| `LogPattern.PiecesFound` | src/log.cc:329-356 | and any well-formed list of pieces is what is found in the text that it spells |
| `LogPattern.FormatExpands` | src/log.cc:320-390 | What is written for a pattern is its expansion one character at a time; with an unpaired last percent sign the literal around it follows once more |
| `LogPattern.DoubledIsWrittenIff` | src/log.cc:320-402 | Doubling every percent sign of a text and formatting returns the text, whatever the record, if and only if the text is not empty |
| `LogPattern.DefaultWritten` | src/log.cc:395-402 | The default pattern writes date, time since the start, logger, level, file and line, thread and coroutine, and message, in this order, with their tabs, brackets and line end |
| `LogPattern.UnpairedSpells` | src/log.cc:342-356 | The last percent sign alone: an empty directive, and the open literal in front of it and again behind it |
| `LogPattern.UnknownIsWritten` | src/log.cc:374-390 | A directive with any letter but the twelve is written as `<error>` |
| `LogPattern.LogFormatter.Compile` | src/log.cc:329-356 | The scanner with its indices i, n and f finds the specified pieces |
| `LogPattern.LogFormatter.Write` | src/log.cc:320-327 | Formatting writes the items one behind the other |
| `LogPattern.WriteDoubled` | src/log.cc:320-402 | On the formatter object: a doubled text is written as the text, if there is one |

## Left out

Of the parts that are modelled:

- JSON floats, integers of 10^14 and above, NaN, infinities, cyclic tables, tables as keys, keys that are numbers but no integers, and the texts of error messages. A numeral that is no decimal integer in the range of Lua integers is kept by its text and not evaluated, because floating-point conversion is not the point.
- JsonGrammar.DecodedIsRfcIff: RFC 8259 also wants the text to be UTF-8; octets above 127 in a string are taken as they are, here as in the source.
- The recursion limit of Lua and the C stack: nesting is unbounded here. `json.decode` on something that is not a string.
- HTTP IP literals in an authority (a bracket behind two slashes or an at-sign) and XML and JSON socket messages (a first octet of `<` or `@`): the machine is followed until it enters their states and no further, and results about a whole run say so.
- Resumption of the HTTP machine in the middle of an element: marks start at 0 in every call and consumed octets are dropped, so spans of an element cut in two are those of the second part. The span results are about a fresh parser.
- HttpParser.HttpRequestParser.ExecuteText: is not called again once a state of an IP literal or a socket message has been reached, and the offset is 0, as in `HttpRequestParser::execute`. `uri_relaxed` is never set by the source, so it is a fixed boolean here.
- HTTP bodies, cookies, the close flag, content length and the response side.
- Md5Context.Context.Write: big-endian hosts and the failure of `fopen` and `fread` are not part of the model; a file is the list of chunks that `fread` hands out.
- ByteVarint.WriteVarint: has no result for 0, which is written to the place before the buffer, and for negative values, whose loop runs out of it; C++ defines neither, and `ByteVarint.WriterFitsIff` says that there are no others.
- ByteVarint.ReadVarint: has no result where a shift leaves the `int`, which C++ does not define, or where the loop never ends; `ByteVarint.ShiftsFitIff` and `ByteVarint.ReaderEndsIff` say exactly where that is.
- JobTable.Convert: the digest that a Lua call returns is part of the interleaving, not computed from the text of the job.
- ByteArray's destructor, and giving memory back to the allocator: a dropped node is only unlinked.
- The coroutine pool and the threads are step systems over values, not classes, because their point is interleaving: what happens between two suspensions is one step or several, in the order of the source. Outside results (accept, handle, the Lua call) are arbitrary. libco's depth limit and its timers are not part of the model; `close` and `accept` follow the descriptor table, and nobody else uses it.
- JobPool.AllProcessedIff: a failing job aborts the process, as its assertion does, so the join loop is not passed then. A worker whose Lua state fails to load aborts as well and is not a separate step.
- JobTable.Table.Get: a negative index is not part of the model.
- Log dates and numbers are taken as the texts that are written for them; levels, appenders and loggers.

Other parts of the repository:

- The timer set, address parsing, the configuration on top of yaml-cpp, the HTTP client parser and the responses, sockets and signals, Lua bindings, spreadsheet conversion, and everything under 3rd/.
