# Verified models of the bundled libraries

This project models the algorithmic cores of six libraries under `lib/` and proves what they promise. Everything is
checked by `dafny verify dfyconfig.toml`. Each library is modelled in the form its source has: loops and objects that
change state are Dafny methods and classes, proved equal to functions; the theorems are about those functions and
hold for all inputs, all runs or all schedules.

## JSON (`lib/json/jsoncpp.cpp`)

- `JsonValue`, `JsonText`, `JsonGrammar`, `JsonLexical`: values, the text of scalars, and the descent the reader
  implements, error recovery included. `JsonSyntax`: the reader accepts exactly the documents a declarative grammar
  over tokens derives. `JsonErrors`: that grammar is unambiguous, and an error names the first token that cannot go
  on and says truly what could. `JsonReader` is the `Reader` class over `current_`, `nodes_` and `errors_`, proved
  equal to the grammar.
- `JsonStrings`: what decodes to what between two quotes.
- `JsonLayout`, `JsonRoundTrip`, `JsonWriters`, `JsonStyledText`, `JsonStyledWriter`, `JsonReprint`: any layout of a
  value's lexemes parses back to it; both writers produce such layouts, the styled one its exact text, which
  `JsonPretty` shows to be the lines of a pretty printer.
- `JsonOffsets`: a parse depends only on the text it consumed, so every value re-parses from its own offsets.
- `JsonOrder`, `JsonArray`, `JsonUnicode`: the value order, sparse arrays as sequences, escapes and UTF-8.

What the code does and its documentation does not say, kept as it is and stated with its exact condition in
`JsonQuirks`: a `}` in the place of a member name is accepted exactly when the last name was empty, so `{"":1,}` is
read; after a comment behind a member's value any token but `}` counts as the comma; a `-` without digits decodes to
0; an array that holds nothing but a comment is an error; a NUL character is read as the end of the document; the
second half of a surrogate pair may be any escape. The assertion at the end of `Value::resize` is false for an array
whose last kept index was never stored: `ArrayValue.Resize` says exactly when it holds.

## Catch sections (`lib/catch.hpp`)

- `CatchTracker` gives the tree semantics of one test body and one cycle, for an arbitrary schedule of exceptions
  and arbitrary section filters; `CatchOnce` the undisturbed case; `CatchLeaves` which leaves any run enters, loses
  or comes back to; `CatchRun` is the `RunContext` class with its current tracker, active and unfinished sections,
  and the `do`-`while` loop.

Exceptions in leaf sections lose nothing: every selected leaf still runs exactly once. One in the code around
sections can complete a section, or the test case, with leaves that never ran (`CatchLeaves.LeafLost`);
`CatchLeaves.RunsSelected` counts them and says when there are none.

## Base-n (`lib/util/basen.h`) and CRC-16 (`lib/util/crc16.cpp`)

- `BaseN` has the three conversion traits and bits of bytes, `BaseNCodec` the generic loops against bit strings,
  `BaseNRoundTrip` what they promise each other.
- `Crc16` refines the table-driven loop to the shift register; `Crc16Detection` proves what the checksum detects and
  that it is the remainder of polynomial division.

## HTTP requests (`lib/http/request_parser.cpp`, `request_parser.hpp`, `connection.cpp`)

- `HttpParser` has the state machine and its classes, `HttpGrammar` the written form of a request. `HttpAccepts` and
  `HttpRecognises` prove the two directions: the parser accepts exactly the written requests, at their last byte.
  The grammar has its own classes of characters. `HttpConnection` runs the completion handlers under every order of
  completions.

Where RFC 1945 lets a folded line count as a single space, the parser joins the value and the continuation with
nothing between them; a tab inside a value is rejected; a colon must be followed by a space. The request size limit
counts bytes read beyond the end of a request. The verdict depends on how the reads are cut exactly when the request
ends within the limit, the stream goes on past it, and one read can reach from the last byte of the request over the
limit (`HttpLimit.OversizeDependsOnCut`; `HttpLimit.CutMatters` has such a stream).

## Clara (`lib/clara.hpp`)

- `ClaraTokens` is the lazily filled token stream, `ClaraParser` the options, arguments and the parser loop over it,
  against a semantics on token lists, and that against what command lines mean.

`Decimals` holds the decimal digit strings that the JSON and HTTP parsers share.

## Model

| member | source | states |
|---|---|---|
| JsonValue.KeyLessTotal | lib/json/jsoncpp.cpp:1669-1679 | of two map keys exactly one is less, or they are the same: `CZString::operator<` is total on indices and names |
| JsonValue.KeyLessTransitive | lib/json/jsoncpp.cpp:1669-1679 | the key order is transitive |
| JsonValue.TextLessExactly | lib/json/jsoncpp.cpp:1669-1673 | one text is before another iff at the position where they first differ it ends or has the smaller character: `strcmp(a, b) < 0` |
| JsonValue.KeysDecide | lib/json/jsoncpp.cpp:1669-1673 | indices are in their order, names in that of their first difference |
| JsonValue.PutIsMapUpdate | lib/json/jsoncpp.cpp:2379-2399 | `resolveReference` keeps the entries sorted, changes the value under its key and under no other, and loses no entry |
| JsonValue.GetOfEntry | lib/json/jsoncpp.cpp:2408-2424 | reading a stored key gives what is stored under it |
| JsonValue.StripOfShift | lib/json/jsoncpp.cpp:2676-2678 | moving a value inside its document changes nothing that `operator==` can see |
| JsonText.CString | lib/json/jsoncpp.cpp:2426-2428 | a string used as a key is what a C string reader sees of it: the characters before the first NUL, all of it if there is none |
| Decimals.Decimal | lib/json/jsoncpp.cpp:145-151 | the decimal text of a number is a digit string that denotes it, without a leading zero |
| Decimals.DigitTable | lib/http/request_parser.cpp:330-334 | the digits are the ten characters 0 to 9, the d-th of value d |
| JsonText.AccumulateExact | lib/json/jsoncpp.cpp:713-727 | the digit loop of `decodeNumber` answers exactly when the denoted number is at most the limit, with that number, and otherwise stops before anything exceeds the limit |
| JsonText.DecodeNumberExact | lib/json/jsoncpp.cpp:700-734 | for every optional minus sign and non-empty digit string the integer path is taken iff the magnitude is within the signed or unsigned 64-bit limit, and then yields exactly that integer (int below 2^31, else uint) |
| JsonText.NumberTokenExactly | lib/json/jsoncpp.cpp:689-735 | for every text a number token can have: an optional minus sign and digits only, of magnitude at most 2^63 or below 2^64, is that integer, in the int tag iff negative or below 2^31; every other text is what `sscanf` makes of it |
| JsonText.NatOfCons | lib/json/jsoncpp.cpp:713-727 | a digit string read from the left by multiply-and-add denotes the number it denotes read from the right |
| JsonText.EscapeOfPlain | lib/json/jsoncpp.cpp:3079-3081 | the shortcut of `valueToQuotedString` is right: text without escapable characters escapes to itself |
| JsonText.EscapeTable | lib/json/jsoncpp.cpp:3086-3131 | seven characters are printed as a backslash and a letter, every other control character as its four upper-case hexadecimal digits, and everything else as itself |
| JsonText.HexDigitTable | lib/json/jsoncpp.cpp:884-898 | the hexadecimal digits in either case have their values and every other character is refused |
| JsonGrammar.ParseValue | lib/json/jsoncpp.cpp:332-403 | reading a value stays inside the document and never moves backwards |
| JsonGrammar.Recover | lib/json/jsoncpp.cpp:913-924 | recovery skips forwards and stops at the latest at the end of the document |
| JsonGrammar.OneError | lib/json/jsoncpp.cpp:332-403 | reading a value records no error when it succeeds and exactly one when it fails, however many recoveries nest |
| JsonGrammar.OneErrorMembers | lib/json/jsoncpp.cpp:587-640 | the same for the members of an object: an error inside a member is not reported again around it |
| JsonGrammar.OneErrorElements | lib/json/jsoncpp.cpp:642-677 | the same for the elements of an array |
| JsonLexical.SpacesEnd | lib/json/jsoncpp.cpp:493-501 | white space is skipped to its end and not beyond |
| JsonLexical.NumberEnd | lib/json/jsoncpp.cpp:566-573 | a number takes every number character up to the first other one |
| JsonLexical.CStyleCommentEnd | lib/json/jsoncpp.cpp:548-555 | a C-style comment ends with the first star-slash and is bad iff there is none |
| JsonLexical.CppStyleCommentEnd | lib/json/jsoncpp.cpp:557-564 | a C++-style comment ends after the first line end or with the document |
| JsonLexical.StringEnd | lib/json/jsoncpp.cpp:575-585 | a string ends with the first quote that no backslash escapes and is bad iff there is none |
| JsonLexical.CommentKinds | lib/json/jsoncpp.cpp:514-536 | a star or a second slash behind the first decides the kind of comment; anything else is bad |
| JsonLexical.TokenExactly | lib/json/jsoncpp.cpp:422-491 | the next token starts behind blanks, tabs and line ends, is of a kind iff its text starts as that kind does, and ends where the kind ends |
| JsonSyntax.DeriveValue | lib/json/jsoncpp.cpp:332-403 | every value read without error has a derivation in the grammar of JsonSyntax whose tokens are those read |
| JsonSyntax.AcceptValue | lib/json/jsoncpp.cpp:332-403 | whatever tokens a derivation spells are read as a value without error, up to the last of them |
| JsonSyntax.DeriveMembers | lib/json/jsoncpp.cpp:587-640 | the same for the members of an object, what stands for a comma included |
| JsonSyntax.AcceptMembers | lib/json/jsoncpp.cpp:587-640 | and conversely |
| JsonSyntax.DeriveElements | lib/json/jsoncpp.cpp:642-677 | the same for the elements of an array |
| JsonSyntax.AcceptElements | lib/json/jsoncpp.cpp:642-677 | and conversely |
| JsonSyntax.AcceptedExactly | lib/json/jsoncpp.cpp:291-330 | for every document: the reader accepts it and stops at q iff the tokens of some derivation of the grammar lead from its start exactly to q |
| JsonSyntax.RecoverEnd | lib/json/jsoncpp.cpp:913-924 | recovery reads tokens up to and including the first of the wanted kind or of the end of the document |
| JsonErrors.SameValue | lib/json/jsoncpp.cpp:332-403 | the grammar is unambiguous: two derivations of equal tokens are the same, and no value is the beginning of another |
| JsonErrors.BlameValue | lib/json/jsoncpp.cpp:332-403 | the tokens a failed value was read from up to its error begin some value; with the token of the error they begin none, and with what the message expects they do |
| JsonErrors.ErrorIsEarliest | lib/json/jsoncpp.cpp:903-911 | the one error of a rejected document names the first token that can stand in no derivation behind the tokens before it, while every token its message says was expected can: rejection is as early as possible, and the message is true |
| JsonQuirks.BraceForName | lib/json/jsoncpp.cpp:598-599 | a closing brace where a member name is expected ends the object iff the name read last is empty |
| JsonQuirks.TokenForComma | lib/json/jsoncpp.cpp:625-636 | after a member another may follow iff a comma comes next, or a comment and then any token but a closing brace |
| JsonQuirks.MinusIsZero | lib/json/jsoncpp.cpp:700-734 | a number token without a digit is the integer 0 iff it is a lone minus sign, and is rejected otherwise |
| JsonQuirks.CommentOnlyArray | lib/json/jsoncpp.cpp:645-657 | an array without elements is accepted iff nothing but white space stands between its brackets |
| JsonQuirks.NulEndsDocument | lib/json/jsoncpp.cpp:422-491 | the end of the document is read iff the next character is a NUL or there is none, and no value starts there |
| JsonQuirks.SecondHalfUnchecked | lib/json/jsoncpp.cpp:846-873 | the escape of a high surrogate followed by any other escape decodes, and to the code point of that pair iff the second is a low surrogate |
| JsonQuirks.CommaBeforeBrace | lib/json/jsoncpp.cpp:598-599 | `{"":1,}` is accepted, `{"a":1,}` is not |
| JsonReader.Reader.ParseRoot | lib/json/jsoncpp.cpp:291-330 | every parse terminates with `current_` inside the document, leaves only the root on the node stack, returns true iff no error was recorded and otherwise has recorded exactly one; the result is the one of the grammar |
| JsonReader.Reader.ReadValue | lib/json/jsoncpp.cpp:332-403 | advances `current_`, replaces the top of the node stack only, and appends to the errors, all exactly as the grammar says |
| JsonReader.Reader.ReadChild | lib/json/jsoncpp.cpp:611-618 | the pushed child value is read, popped and found again under its key in the parent |
| JsonReader.Reader.SkipCommentTokens | lib/json/jsoncpp.cpp:405-413 | yields the first token that is not a comment |
| JsonReader.Reader.ReadOneToken | lib/json/jsoncpp.cpp:422-491 | yields the token of the lexical grammar at `current_`, with its limits, and moves to its end |
| JsonReader.Reader.SkipSpacesInput | lib/json/jsoncpp.cpp:493-501 | the loop stops where the grammar ends white space |
| JsonReader.Reader.Match | lib/json/jsoncpp.cpp:503-512 | consumes the pattern iff it is next and fits before the end |
| JsonReader.Reader.ReadCommentBody | lib/json/jsoncpp.cpp:514-536 | either kind of comment, or a bad token, as the grammar says |
| JsonReader.Reader.ReadCStyleCommentBody | lib/json/jsoncpp.cpp:548-555 | the loop stops where the grammar ends a C-style comment |
| JsonReader.Reader.ReadCppStyleCommentBody | lib/json/jsoncpp.cpp:557-564 | the loop stops where the grammar ends a C++-style comment |
| JsonReader.Reader.ReadNumberBody | lib/json/jsoncpp.cpp:566-573 | the loop stops where the grammar ends a number |
| JsonReader.Reader.ReadStringBody | lib/json/jsoncpp.cpp:575-585 | the loop stops where the grammar ends a string |
| JsonReader.Reader.ReadObject | lib/json/jsoncpp.cpp:587-640 | the loop over members builds exactly the entries of the grammar, including its recoveries |
| JsonReader.Reader.ReadMember | lib/json/jsoncpp.cpp:594-624 | one round of that loop from the name token on |
| JsonReader.Reader.ReadMemberEnd | lib/json/jsoncpp.cpp:625-636 | after a member: `}` ends, `,` goes on, and after a comment any token goes on as well |
| JsonReader.Reader.ReadArray | lib/json/jsoncpp.cpp:642-677 | the loop over elements builds exactly the entries of the grammar |
| JsonReader.Reader.DecodeNumberToken | lib/json/jsoncpp.cpp:679-687 | the decoded number replaces the current value and its offsets are those of the token, or one error is recorded |
| JsonReader.Reader.DecodeNumberText | lib/json/jsoncpp.cpp:689-735 | the loop computes the number of the token without passing 2^64 - 1 on the way |
| JsonReader.Reader.DecodeStringToken | lib/json/jsoncpp.cpp:783-791 | the decoded string replaces the current value, or one error is recorded |
| JsonReader.Reader.DecodeStringText | lib/json/jsoncpp.cpp:793-844 | the loop over the characters decodes every escape as the grammar does, or records the first bad one |
| JsonReader.Reader.AddError | lib/json/jsoncpp.cpp:903-911 | records one error and reports failure |
| JsonReader.Reader.RecoverFromError | lib/json/jsoncpp.cpp:913-924 | drops every error of the skipped tokens and stops where the grammar says |
| JsonReader.Reader.AddErrorAndRecover | lib/json/jsoncpp.cpp:926-931 | records the one error and recovers |
| JsonLayout.NormCanonical | lib/json/jsoncpp.cpp:3162-3208 | what a writer prints of any value in the round-trip domain is a value a parse can return: integer tags as decoded, array gaps filled with null |
| JsonLayout.NormMeans | lib/json/jsoncpp.cpp:3162-3208 | that value says what the given one says: the same numbers, the same elements with null in the gaps, the same members |
| JsonLayout.DecodeEscapedChar | lib/json/jsoncpp.cpp:3090-3130 | the decoder turns each printed character back into itself, and the string scanner steps over it |
| JsonLayout.ReadQuoted | lib/json/jsoncpp.cpp:575-585 | a printed string is one string token for the lexer and decodes to what was printed |
| JsonRoundTrip.ParseLaid | lib/json/jsoncpp.cpp:332-403 | any layout of the lexemes of a value, with whatever white space between them, parses without error to that value and stops at its last lexeme |
| JsonWriters.ParsePrinted | lib/json/jsoncpp.cpp:291-330 | a whole document that prints the lexemes of a value parses to that value |
| JsonWriters.UIntToString | lib/json/jsoncpp.cpp:131-151 | the digits and the NUL written backwards always fit the 25-byte buffer, at least four bytes stay unused, and spell the number |
| JsonWriters.ValueToString | lib/json/jsoncpp.cpp:3003-3024 | the text of a signed or unsigned number, minus sign included, fits the buffer and denotes it |
| JsonWriters.ValueToQuotedString | lib/json/jsoncpp.cpp:3075-3135 | both branches give the quoted and escaped string |
| JsonWriters.FastWriter.Write | lib/json/jsoncpp.cpp:3154-3160 | the document is the lexemes of the value with nothing between them, then a line feed |
| JsonWriters.FastWriter.WriteValue | lib/json/jsoncpp.cpp:3162-3208 | appends exactly the lexemes of the value to the document |
| JsonWriters.FastWriter.WriteArray | lib/json/jsoncpp.cpp:3183-3192 | elements in order, commas between them, gaps printed as null |
| JsonWriters.FastWriter.WriteObject | lib/json/jsoncpp.cpp:3193-3207 | members in key order with colons and commas |
| JsonWriters.FastRoundTrip | lib/json/jsoncpp.cpp:3162-3208 | for every value of null, booleans, integers, strings, arrays and objects without NUL: parsing what FastWriter writes succeeds without error and yields the same value up to integer tag and null filling |
| JsonStyledWriter.StyledWriter.Write | lib/json/jsoncpp.cpp:3216-3225 | the document is exactly the styled text, line breaks and indentation included; it is a layout of the same lexemes FastWriter prints, ends in a line feed, and the indentation is back to nothing |
| JsonStyledWriter.StyledWriter.WriteValue | lib/json/jsoncpp.cpp:3227-3277 | appends exactly the styled text of the value, a layout of its lexemes, or while measuring adds its one-line text to the child values; indentation and mode are as before |
| JsonStyledWriter.StyledWriter.WriteObjectValue | lib/json/jsoncpp.cpp:3248-3276 | members one to a line at one more level of indentation, exactly as the styled text has them; indentation restored |
| JsonStyledWriter.StyledWriter.WriteArrayValue | lib/json/jsoncpp.cpp:3279-3320 | one-line and multi-line forms print the same lexemes; indentation restored |
| JsonStyledWriter.StyledWriter.WriteArrayLines | lib/json/jsoncpp.cpp:3286-3306 | multi-line form, from child values when they were measured and by writing the elements otherwise |
| JsonStyledWriter.StyledWriter.WriteArrayLine | lib/json/jsoncpp.cpp:3308-3318 | the one-line form finds exactly one child value per element, so the assertion there holds |
| JsonStyledWriter.StyledWriter.IsMultilineArray | lib/json/jsoncpp.cpp:3322-3345 | the answer is multi-line iff the array has 25 elements or more, a non-empty container among them, or a line of 74 characters or more; child values are afterwards empty or exactly the texts of the elements, and the one-line answer implies the latter |
| JsonStyledWriter.StyledWriter.WriteIndent | lib/json/jsoncpp.cpp:3354-3363 | adds nothing behind a blank, the indentation behind a line feed, and a line feed and the indentation otherwise |
| JsonStyledWriter.StyledWriter.PushValue | lib/json/jsoncpp.cpp:3347-3352 | the text goes to the child values while measuring and to the document otherwise |
| JsonStyledWriter.StyledRoundTrip | lib/json/jsoncpp.cpp:3216-3375 | whatever StyledWriter writes parses without error to the value FastWriter's output parses to |
| JsonPretty.StyledIsLines | lib/json/jsoncpp.cpp:3227-3320 | the styled text of a value is the lines of a pretty printer: members and elements on lines of their own, three blanks more for each level, a comma behind all but the last, brackets at the outer level |
| JsonPretty.DocumentIsLines | lib/json/jsoncpp.cpp:3216-3225 | the document StyledWriter writes is those lines and a line feed |
| JsonPretty.BreaksExactly | lib/json/jsoncpp.cpp:3322-3345 | an array stays on one line iff it has fewer than 25 elements, none a non-empty container, and the line is shorter than 74 characters |
| JsonReprint.ParsedAsRead | lib/json/jsoncpp.cpp:332-403 | every parsed value has its children sorted, indices without gaps and integers in the tag decodeNumber chooses |
| JsonReprint.AsReadIsNormal | lib/json/jsoncpp.cpp:3162-3208 | printing loses nothing of a value that came from a parse and holds no real and not INT64_MIN |
| JsonReprint.ReprintStable | lib/json/jsoncpp.cpp:3162-3208 | for every document whose value holds no real and not INT64_MIN: parse it, write the value, parse that again, and an equal value comes back |
| JsonOffsets.ParseValueLocal | lib/json/jsoncpp.cpp:332-403 | a successful parse depends only on the characters it consumed: the same value, moved, whatever surrounds them and whatever the current value was |
| JsonOffsets.ParseFromStart | lib/json/jsoncpp.cpp:350-378 | a parsed value starts at or after where reading began, ends where the reader stopped, and reads the same from its own start |
| JsonOffsets.ParsedRereads | lib/json/jsoncpp.cpp:350-378 | re-parsing just `[start, limit)` of a parsed value gives an equal value |
| JsonOffsets.ParsedLocated | lib/json/jsoncpp.cpp:587-591 | at every depth: start <= limit <= length, children lie inside their parent and are pairwise disjoint, and each re-parses from its own range |
| JsonOffsets.DocumentLocated | lib/json/jsoncpp.cpp:291-330 | the same for the root of every successfully parsed document |
| JsonOffsets.PutLocated | lib/json/jsoncpp.cpp:618-621 | a later member that replaces an earlier one of the same name keeps the ranges disjoint |
| JsonOrder.EqualIsStrip | lib/json/jsoncpp.cpp:1952-1990 | `operator==` holds exactly between values that differ in nothing but offsets |
| JsonOrder.TypesDecide | lib/json/jsoncpp.cpp:1907-1910 | values of different types are in the order null, int, uint, real, string, boolean, array, object |
| JsonOrder.ScalarsDecide | lib/json/jsoncpp.cpp:1911-1927 | scalars of one type are in the order of what they hold, strings in that of their first difference |
| JsonOrder.FirstEntryDecides | lib/json/jsoncpp.cpp:1929-1934 | maps of one size are in the order of the first entries that differ, key before value |
| JsonOrder.ContainersDecide | lib/json/jsoncpp.cpp:1929-1934 | arrays and objects are in the order of their sizes, then of the first entries that differ |
| JsonOrder.Trichotomy | lib/json/jsoncpp.cpp:1907-1944 | without reals exactly one of `a < b`, `a == b`, `b < a` holds |
| JsonOrder.Transitive | lib/json/jsoncpp.cpp:1907-1944 | without reals `operator<` is transitive through type, size and key/value pairs |
| JsonOrder.LessOfEqual | lib/json/jsoncpp.cpp:1907-1944 | equal values are in the same order to every third one, on both sides |
| JsonOrder.CompareIsEqual | lib/json/jsoncpp.cpp:1899-1905 | `compare` is 0 exactly on equal values and changes sign with its arguments |
| JsonArray.StoredBelowSize | lib/json/jsoncpp.cpp:2236-2242 | the size is one more than the highest stored index |
| JsonArray.SizeIs | lib/json/jsoncpp.cpp:2236-2242 | no other number bounds the stored indices and has its predecessor stored |
| JsonArray.PutElements | lib/json/jsoncpp.cpp:2312-2330 | storing at an index is null padding up to it followed by a sequence update |
| JsonArray.ArrayValue.Touch | lib/json/jsoncpp.cpp:2312-2330 | `operator[]` pads the sequence with nulls up to the index and returns the element there |
| JsonArray.ArrayValue.Assign | lib/json/jsoncpp.cpp:2312-2330 | assignment through it is padding and update |
| JsonArray.ArrayValue.Append | lib/json/jsoncpp.cpp:2448 | append adds the value at the end of the sequence |
| JsonArray.ArrayValue.Clear | lib/json/jsoncpp.cpp:2265-2288 | clear leaves the empty sequence |
| JsonArray.ArrayValue.Resize | lib/json/jsoncpp.cpp:2290-2310 | growing pads with nulls, shrinking truncates up to trailing nulls, and the assertion at the end of the shrinking branch holds iff the new size is 0 or index newSize - 1 is stored |
| JsonArray.Truncated | lib/json/jsoncpp.cpp:2301-2305 | erasing the indices from n on truncates the sequence as its reader sees it; the size is then n iff index n - 1 is stored |
| JsonArray.ResizeAssertionFails | lib/json/jsoncpp.cpp:2301-2305 | storing null at the indices 0 and 2 of an empty array and erasing index 2, as resize(2) does, leaves index 0 alone: the size is 1, so the assertion of resize fails |
| JsonUnicode.CodePointIsUtf8 | lib/json/jsoncpp.cpp:100-126 | for every code point up to 10FFFF the bytes are its UTF-8 form (section 3 of RFC 3629) |
| JsonUnicode.Utf8PrefixFree | lib/json/jsoncpp.cpp:100-126 | no UTF-8 form starts another: the split of a text into forms is forced |
| JsonUnicode.Utf8Injective | lib/json/jsoncpp.cpp:100-126 | different texts have different UTF-8 forms |
| JsonUnicode.DecodeEscape | lib/json/jsoncpp.cpp:846-901 | the \uXXXX form or surrogate pair of every Unicode scalar value decodes to it |
| JsonUnicode.DecodeEscaped | lib/json/jsoncpp.cpp:793-844 | a string written in escapes decodes to the UTF-8 form of its text |
| JsonUnicode.EscapesUnambiguous | lib/json/jsoncpp.cpp:793-844 | two escaped strings decode alike iff they spell the same text |
| JsonStrings.ShortEscapeTable | lib/json/jsoncpp.cpp:805-829 | each of the eight letters behind a backslash is read as its character, and no other is read at all |
| JsonStrings.PieceDecodes | lib/json/jsoncpp.cpp:800-842 | a character, a letter behind a backslash, a code unit or a pair of them gives its meaning, whatever follows |
| JsonStrings.DecodedExactly | lib/json/jsoncpp.cpp:793-844 | the text between the quotes decodes to s iff it is made of such pieces and s is what they mean, one after the other |
| CatchTracker.DoneBound | lib/catch.hpp:10199-10234 | no more trackers are ever completed than there are sections, plus the test case |
| CatchTracker.RunProgress | lib/catch.hpp:10206-10245 | a run of a body that closes or fails a section completes at least one more tracker, one that does not starts nothing; every tracker is left quiet: none is executing, and none behind one that may be opened again has been started |
| CatchTracker.CycleProgress | lib/catch.hpp:8592-8596 | every cycle, whatever throws and whatever the filters hide, completes at least one more tracker and leaves the test case's tracker closed and not failed |
| CatchTracker.NothingEntered | lib/catch.hpp:10281-10282 | once a cycle is completed no further section is entered in it |
| CatchTracker.EnteredIncomplete | lib/catch.hpp:10286-10289 | a section is entered only while neither it nor a section around it is complete |
| CatchTracker.CompleteStays | lib/catch.hpp:10286-10289 | a complete tracker, passed or failed, stays complete |
| CatchTracker.NeverReentered | lib/catch.hpp:10286-10301 | over a whole run a completed or failed section is never entered again, nor is anything inside it |
| CatchLeaves.RunConserves | lib/catch.hpp:10206-10245 | for every schedule and filter list a run enters at most the first selected leaf still pending, and every pending leaf is afterwards run, pending behind it, or lost in a completed section |
| CatchLeaves.RunThorough | lib/catch.hpp:10206-10234 | for every schedule and filter list a section that passes, at any depth, has no selected leaf left |
| CatchLeaves.UnfinishedFails | lib/catch.hpp:8693-8701 | if an exception leaves a section in a cycle, some section fails in it |
| CatchLeaves.FailureRunsAgain | lib/catch.hpp:10235-10245 | for every schedule and filter list a cycle in which a section fails completes neither the test case nor any section around the failed one, at any depth |
| CatchLeaves.LeavesDistinct | lib/catch.hpp:10246-10289 | no leaf is listed twice |
| CatchLeaves.NoneFiltered | lib/catch.hpp:10286-10289 | without filters every leaf is selected |
| CatchLeaves.RoundsConserve | lib/catch.hpp:8592-8596 | for every schedule, filter list and number of cycles the leaves run and those pending are selected leaves in their order, and together with the lost ones they are all |
| CatchLeaves.RunsSelected | lib/catch.hpp:8592-8596 | a completed test case has run selected leaves in their order, each at most once; all of them iff none was lost, and none is lost if only the blocks of leaves throw |
| CatchLeaves.LeafLost | lib/catch.hpp:10219-10222 | a leaf can be lost: when the test case throws between its two sections, the first entered, it completes although the second never ran |
| CatchOnce.RunRanFirst | lib/catch.hpp:10199-10234 | an undisturbed run of a body enters exactly the first leaf section that has not run and completes exactly what that finishes |
| CatchOnce.CycleRunsFirst | lib/catch.hpp:8592-8596 | an undisturbed cycle runs the first remaining leaf, removes it from what remains, and completes the test case iff it was the last |
| CatchOnce.EachLeafOnce | lib/catch.hpp:8653-8691 | for any section tree: cycle n runs the n-th leaf in depth-first order, and the test case completes in exactly as many cycles as there are leaves, one if there are no sections |
| CatchOnce.LeavesInOrder | lib/catch.hpp:8653-8691 | after n cycles exactly the first n leaves have run, in order |
| CatchRun.FindChild | lib/catch.hpp:10177-10182 | finds the first child of that name and location, if there is one |
| CatchRun.RunContext.Acquire | lib/catch.hpp:10268-10289 | the child is found or added once, opened iff the cycle goes on, it is incomplete and its filter lets it through; its parents are then marked as executing children up to the first that already is |
| CatchRun.RunContext.SectionStarted | lib/catch.hpp:8653-8666 | the section becomes active iff its tracker is open |
| CatchRun.RunContext.CloseCurrent | lib/catch.hpp:10206-10234 | an open tracker moves to the state its children decide, control moves to the parent and the cycle is completed; the model never closes any other tracker, so the internal errors do not occur |
| CatchRun.RunContext.Close | lib/catch.hpp:10206-10234 | trackers still open inside are closed first, innermost first |
| CatchRun.RunContext.FailCurrent | lib/catch.hpp:10235-10244 | the tracker fails, its parent needs another run, the cycle is completed |
| CatchRun.RunContext.SectionEnded | lib/catch.hpp:8680-8691 | the active section, if there is one, is closed and popped |
| CatchRun.RunContext.SectionEndedEarly | lib/catch.hpp:8693-8701 | the innermost section of an exception fails, those around it are closed; each is counted as unfinished |
| CatchRun.RunContext.RunSection | lib/catch.hpp:8653-8701 | one section inside a body, entered, run and left normally or by exception, has exactly the effect of the tree semantics and leaves the active sections as they were |
| CatchRun.RunContext.RunBody | lib/catch.hpp:8830-8834 | a test body refines the tree semantics on trackers held in place |
| CatchRun.RunContext.RunCurrentTest | lib/catch.hpp:8783-8845 | after a cycle the current tracker is the root again, no section is active or unfinished, and the test case's tracker is the one of the tree semantics |
| CatchRun.RunContext.RunTest | lib/catch.hpp:8577-8615 | for every test case a context runs, the first or a later one: the loop terminates within one cycle more than there are sections, for every exception schedule and filter list, with the test case completed successfully and exactly the sections of the tree semantics entered; the leaves entered are the ones the filters select, in order, each at most once, and all of them iff none was left in a section completed early, in particular if nothing throws outside the blocks of leaves; undisturbed and unfiltered it enters each leaf exactly once, in order, in exactly as many cycles as leaves |
| CatchRun.RunsEachLeaf | lib/catch.hpp:8592-8596 | the first cycle count at which the test case is complete is the number of leaves |
| BaseN.DecodeOfEncode | lib/util/basen.h:83-163 | in each of the three alphabets decoding a symbol gives its index back; no symbol is white space, padding or the error value |
| BaseN.EncodeOfDecode | lib/util/basen.h:83-163 | the decoder accepts no character outside its alphabet |
| BaseN.EncodeIsCode | lib/util/basen.h:83-163 | each alphabet has the characters of sections 4, 6 and 8 of RFC 4648, by their codes |
| BaseN.PartialSlice | lib/util/basen.h:61-69 | the extracted value fits the group and is exactly those bits of the byte |
| BaseN.OverlappingSlice | lib/util/basen.h:71-79 | the extracted value fits the group and is the end of one byte followed by the start of the next |
| BaseN.SpreadInjective | lib/util/basen.h:210-246 | the bit string determines the values |
| BaseNCodec.WriteWithin | lib/util/basen.h:220-227 | a group inside one byte appends exactly the next bits of the input |
| BaseNCodec.WriteAcross | lib/util/basen.h:234-245 | a group across a byte border does too, with zeros past the end |
| BaseNCodec.PaddingEnds | lib/util/basen.h:248-252 | of the lengths the padding loop passes through only the last is a whole number of bytes |
| BaseNCodec.Pad | lib/util/basen.h:248-252 | appends `=` only, up to the padded length, and terminates |
| BaseNCodec.Encode | lib/util/basen.h:210-253 | the output is an encoding: symbols that spell the zero-extended bits of the input, then padding |
| BaseNCodec.Fill | lib/util/basen.h:184-187 | a value or-ed into the buffer puts its bits after those collected and leaves the rest zero |
| BaseNCodec.Spill | lib/util/basen.h:194-199 | a value across the border fills the byte with its first bits |
| BaseNCodec.Leftover | lib/util/basen.h:200-204 | and leaves its last bits at the top of the next byte |
| BaseNCodec.CollectWithin | lib/util/basen.h:184-193 | the collected bits grow by exactly the value; a full byte is flushed |
| BaseNCodec.CollectAcross | lib/util/basen.h:194-205 | the same when the value spans two bytes |
| BaseNCodec.Decode | lib/util/basen.h:165-208 | the output is a decoding: the whole bytes filled by the bits of the alphabet characters, everything else skipped |
| BaseNRoundTrip.NoiseIgnored | lib/util/basen.h:172-182 | a character outside the alphabet may be inserted anywhere without changing what the text carries |
| BaseNRoundTrip.ValuesOfSymbols | lib/util/basen.h:172-182 | a text carries what its alphabet characters carry |
| BaseNRoundTrip.SymbolLayout | lib/util/basen.h:218-246 | symbol i encodes bits [g*i, g*i+g) of the zero-extended input (sections 4, 6 and 8 of RFC 4648) |
| BaseNRoundTrip.EncodedLength | lib/util/basen.h:248-252 | the output has length 2n, 8*ceil(n/5) or 4*ceil(n/3), with `=` exactly behind the symbols |
| BaseNRoundTrip.DecodedLength | lib/util/basen.h:183-205 | k alphabet characters decode to floor(g*k/8) bytes |
| BaseNRoundTrip.EncodingUnique | lib/util/basen.h:210-253 | a byte string has one encoding only |
| BaseNRoundTrip.DecodingUnique | lib/util/basen.h:165-208 | a text has one decoding only |
| BaseNRoundTrip.RoundTrip | lib/util/basen.h:165-253 | for every byte string, decoding its encoding gives it back, however many characters outside the alphabet are mixed in or left out |
| BaseNRoundTrip.TestVectors | lib/util/basen.h:210-253 | the encodings of "f" that section 10 of RFC 4648 gives |
| Crc16.TableIsShift8 | lib/util/crc16.cpp:47-80 | each of the 256 table entries is eight steps of the shift register for 1021 applied to its index |
| Crc16.ShiftOfXor | lib/util/crc16.cpp:39-39 | the register step is linear over exclusive or |
| Crc16.ShiftInjective | lib/util/crc16.cpp:39-39 | the register step loses no information |
| Crc16.RemainderIsLoad | lib/util/crc16.cpp:82-89 | shifting in at most sixteen bits one by one equals loading them together and stepping as often |
| Crc16.TableStep | lib/util/crc16.cpp:86-87 | one table-driven step equals shifting in the eight bits of the byte |
| Crc16.Crc16 | lib/util/crc16.cpp:82-89 | the table-driven loop computes the bit-by-bit checksum of the first len bytes, 0 when len is not positive |
| Crc16.KnownAnswer | lib/util/crc16.cpp:44 | the check value for "123456789" |
| Crc16Detection.RemainderOfXor | lib/util/crc16.cpp:82-89 | the register is linear in start value and message together |
| Crc16Detection.CrcOfXor | lib/util/crc16.cpp:82-89 | the checksum of the difference of two equally long messages is the difference of their checksums |
| Crc16Detection.Residue | lib/util/crc16.cpp:82-89 | two bytes appended to a message give residue 0 iff they are its checksum, high byte first |
| Crc16Detection.RemainderInjective | lib/util/crc16.cpp:82-89 | registers that differ still differ after any common suffix |
| Crc16Detection.BurstDetected | lib/util/crc16.cpp:82-89 | two different messages of one length that agree outside sixteen consecutive bits never share a checksum |
| Crc16Detection.Division | lib/util/crc16.cpp:39-39 | the checksum is a remainder of the message times x^16 by x^16 + x^12 + x^5 + 1 over GF(2), the feedback bits being the quotient |
| Crc16Detection.DivisionUnique | lib/util/crc16.cpp:39-39 | and it is the only one: quotient and remainder of that division are determined |
| Crc16Detection.CrcParity | lib/util/crc16.cpp:82-89 | the checksum has odd weight iff the message has, because x + 1 divides the generator |
| Crc16Detection.OddErrorDetected | lib/util/crc16.cpp:82-89 | two messages of one length that differ in an odd number of bits never share a checksum |
| HttpParser.Transition | lib/http/request_parser.cpp:29-286 | the states that use the last header occur only when there is one, so `headers.back()` is never reached without headers |
| HttpParser.RunConcat | lib/http/request_parser.hpp:38-49 | a run over two pieces is the run over the first, continued on the second unless the first decided |
| HttpParser.RequestParser.Consume | lib/http/request_parser.cpp:29-286 | the switch on the state field, filling the request in place, is the transition function |
| HttpParser.RequestParser.Parse | lib/http/request_parser.hpp:38-49 | the loop stops right after the deciding character, with state, request and position those of the run |
| HttpParser.RequestParser.Reset | lib/http/request_parser.cpp:23-27 | back to the start state |
| HttpParser.Request.PushBackValue | lib/http/request_parser.cpp:226-230 | extends the value of the last header and changes nothing else |
| HttpParser.Request.PushBackName | lib/http/request_parser.cpp:243-244 | extends the name of the last header and changes nothing else |
| HttpAccepts.RequestLineLeads | lib/http/request_parser.cpp:34-178 | a request line of token method, control- and space-free URI and digit strings for the version is consumed without a decision and recorded |
| HttpAccepts.FoldLeads | lib/http/request_parser.cpp:195-230 | a continuation line extends the value of the last header by its text (section 4.2 of RFC 1945), without its leading blanks |
| HttpAccepts.FieldLeads | lib/http/request_parser.cpp:189-280 | a header with any number of continuation lines is recorded as one header |
| HttpAccepts.FieldsLead | lib/http/request_parser.cpp:189-280 | so is any list of headers, in order |
| HttpAccepts.Accepted | lib/http/request_parser.cpp:34-282 | a written request followed by anything is accepted exactly at its own last byte and read back as written |
| HttpGrammar.CharacterClasses | lib/http/request_parser.cpp:288-328 | the parser takes as token characters the letters, the digits and fifteen signs, as control characters those below the blank and DEL, as blanks the blank and the tab (section 2.2 of RFC 1945) |
| HttpRecognises.LineStartStep | lib/http/request_parser.cpp:189-210 | at the start of a line: the end of the headers, a continuation or a new header, and the text read so far is still accounted for |
| HttpRecognises.ValueStep | lib/http/request_parser.cpp:211-230 | a value character or blank extends what was read by exactly itself |
| HttpRecognises.GrowKeeps | lib/http/request_parser.cpp:29-286 | in every state the request held spells exactly the text read so far, and one more character keeps it so |
| HttpRecognises.RunSpells | lib/http/request_parser.hpp:38-49 | whatever a run consumed is spelled by what it recorded; when it says good, by a whole written request |
| HttpRecognises.GoodExactly | lib/http/request_parser.cpp:29-286 | the parser says good iff the input starts with a written request; it has then consumed exactly that request and holds exactly what it says |
| HttpRecognises.Unambiguous | lib/http/request_parser.cpp:29-286 | no written request is a proper prefix of another, and equal texts say the same |
| HttpRecognises.CanFinish | lib/http/request_parser.cpp:29-286 | from every reachable state some continuation completes a request |
| HttpRecognises.BadExactly | lib/http/request_parser.cpp:29-286 | the parser says bad iff no continuation could be a request: rejection is as early as possible |
| HttpConnection.EveryRun | lib/http/connection.cpp:45-103 | over every order of completions, errors and stops, byte count, log, parser state and request are those of one parse of all bytes received |
| HttpConnection.SingleReply | lib/http/connection.cpp:45-103 | at most one request is handled, at most one write started, nothing read after a verdict; a request is handled iff one parse of the received bytes is good with it and they are within the limit, and bad_request is sent iff that parse is bad or the limit is passed |
| HttpConnection.ReceivedBound | lib/http/connection.cpp:58-60 | never more than MAX_REQUEST_SIZE plus one buffer is received |
| HttpConnection.EndsProperly | lib/http/connection.cpp:75-101 | over every run: the socket is shut down iff a reply was written, the manager is told iff a read failed or a write ended and was not aborted, each at most once and before the socket is closed unless stop() came first; it is closed iff one of these, an aborted write or stop() happened |
| HttpConnection.DecidedStays | lib/http/connection.cpp:55-64 | within the limit more bytes never change a verdict |
| HttpConnection.ChunkIndependence | lib/http/connection.cpp:45-80 | however one stream within the limit is cut into reads, two runs never reach different verdicts, and the verdict is that of one parse of the stream |
| HttpConnection.PastTheLimit | lib/http/connection.cpp:58-64 | two runs of one stream on either side of the limit: bytes read along with the end of a good request reject it, while a read ending with the request handles it |
| HttpLimit.OversizeDependsOnCut | lib/http/connection.cpp:53-64 | for every stream: two possible runs fed from it reach different verdicts iff its parse is good, the request ends within MAX_REQUEST_SIZE, the stream goes on past it, and a read of one buffer may span from the last byte of the request over the limit |
| HttpLimit.NeverRejected | lib/http/connection.cpp:53-64 | a request that ends a buffer or more before the limit is rejected by no run, however long the stream and however it is cut |
| HttpLimit.ByteByByte | lib/http/connection.cpp:45-80 | every stream within the limit whose proper prefixes are undecided is received in full by some run |
| HttpLimit.CutMatters | lib/http/connection.cpp:58-64 | a stream one byte past the limit and two cuts of it: one run handles the request, the other rejects it |
| HttpConnection.Connection.constructor | lib/http/connection.cpp:24-37 | after start() one read is outstanding and nothing was received |
| HttpConnection.Connection.OnRead | lib/http/connection.cpp:53-79 | the read completion handler, on the parser and request it owns, is the step of the runs above |
| HttpConnection.Connection.OnWrite | lib/http/connection.cpp:87-101 | the write completion handler is the step of the runs above and starts nothing |
| HttpConnection.Connection.Stop | lib/http/connection.cpp:39-43 | stopping closes the socket and leaves the outstanding operation to complete |
| ClaraTokens.FindDelimiter | lib/clara.hpp:451 | the first space, colon or equals sign |
| ClaraTokens.OptionWithArgument | lib/clara.hpp:450-454 | the space, colon and equals forms all read as an option followed by its argument, whatever the argument holds |
| ClaraTokens.BundledFlags | lib/clara.hpp:456-461 | a bundle of short flags reads as that many single flags, in order |
| ClaraTokens.ArgumentForms | lib/clara.hpp:449-468 | what every argument reads as: a word itself; with a leading minus sign an option, with its argument behind the first delimiter, as a bundle, or whole |
| ClaraTokens.FlatAppend | lib/clara.hpp:441-470 | the tokens of a command line are those of its parts, in order |
| ClaraTokens.WordsStandForThemselves | lib/clara.hpp:465-467 | a command line of words reads as exactly its non-empty words, in order, as arguments |
| ClaraTokens.TokenStream.constructor | lib/clara.hpp:473-477 | the stream yields the concatenation of the tokens of every non-empty argument |
| ClaraTokens.TokenStream.LoadBuffer | lib/clara.hpp:441-470 | the buffer is filled from the next non-empty argument, and buffer and remaining arguments together are still the same tokens |
| ClaraTokens.TokenStream.LoadArgument | lib/clara.hpp:449-468 | every form of one argument, bundles by a loop, becomes its tokens |
| ClaraTokens.TokenStream.HasMore | lib/clara.hpp:479-481 | true iff a token is left |
| ClaraTokens.TokenStream.Front | lib/clara.hpp:485-488 | the first remaining token; its assertion holds whenever one is left |
| ClaraTokens.TokenStream.Advance | lib/clara.hpp:495-504 | drops exactly one token and lowers the pair of arguments left and tokens buffered |
| ClaraParser.ParseWith | lib/clara.hpp:918-936 | an option or argument parses a copy of the stream as the token-list semantics says and leaves the caller's stream alone |
| ClaraParser.ParseOption | lib/clara.hpp:995-1029 | flags, values, short circuits and each error of an option |
| ClaraParser.ParseArgument | lib/clara.hpp:918-936 | a positional argument takes one argument token |
| ClaraParser.Parser.TryParsers | lib/clara.hpp:1196-1208 | one round of the inner loop: the first eligible parser that does not decline decides, and its count alone grows |
| ClaraParser.Parser.Parse | lib/clara.hpp:1173-1217 | the nested loops terminate and equal the token-list semantics, errors included |
| ClaraParser.EligibleExactly | lib/clara.hpp:1197-1198 | a container may be used any number of times, anything else once |
| ClaraParser.TriesInOrder | lib/clara.hpp:1196-1208 | a parser that matches is the first eligible one that knows the token, and it and the eligible ones before it are valid; none decides only if all eligible ones are valid and none knows it |
| ClaraParser.ValidExactly | lib/clara.hpp:1031-1046 | an option is valid iff it has names and each starts with a minus sign |
| ClaraParser.ParseExplained | lib/clara.hpp:1173-1217 | every parse, successful or not, comes to what it comes to by calls that account for the tokens in order, each by the first parser that may take it, and all go well up to where it ends |
| ClaraParser.ExplainedParse | lib/clara.hpp:1173-1217 | conversely, whatever calls that account for the tokens and go well lead to is what the parse comes to |
| ClaraParser.ParsedExactly | lib/clara.hpp:1173-1217 | a command line comes to a result iff some calls account for its tokens up to a point, all go well, and the result is how a parse ends there: with the last token, or with the error or short circuit of an unknown token, an invalid parser, a missing argument or a call |
| ClaraParser.AcceptedExactly | lib/clara.hpp:1173-1217 | for every list of parsers, valid or not, and every answers: a command line is parsed without error or short circuit iff some calls that each go well account for its tokens, and then exactly those are made |
| ClaraParser.CalledAtMostOnce | lib/clara.hpp:1198-1206 | on any command line and with any answers, successful or not, an option or argument that is not a container is called at most once |

## Left out

- JSON reals: a real is known only by its text, and which texts `sscanf` accepts is the parameter `scan`; printing reals and comparing them is not modelled, so the writers and the order exclude them.
- JSON INT64_MIN: negating it overflows in the source; the writers exclude that one value, and the reader's limit is 2^63.
- JsonReprint.ReprintStable: documents whose value holds a real or INT64_MIN are excluded, because the writers exclude them.
- JsonReprint.AsReadIsNormal: excludes reals and INT64_MIN, as above.
- JSON comments: comment tokens are read and skipped; collecting, placing and printing comments is not modelled.
- JSON features: strictRoot, allowDroppedNullPlaceholders, allowNumericKeys, and the YAML, dropNullPlaceholders and omitEndingLineFeed options of FastWriter are off, as by default.
- JSON string values whose pointer is null, the stream forms of reader and writers, Json::Path, and the second token of an error.
- JSON `nodes_` holds pointers into the tree; the model's stack holds the values and writes each back into its parent when it is popped, so aliasing between them is not modelled.
- JSON sizes and array indices are unbounded; the truncation of an index to 32 bits is not modelled.
- JsonArray.ArrayValue.Resize: a shrunk array is compared with the truncated sequence up to trailing nulls, because the source leaves its size below newSize when index newSize - 1 was never stored.
- Catch trackers are values on a spine from the root to the current tracker, written back on closing, instead of shared heap nodes with parent pointers.
- Catch abort-after-n-failures, reporters, assertion counts, index trackers and signal handling.
- CatchRun.RunContext.RunTest: the filter list of the root tracker is passed on as in the source, but selecting test cases is not modelled.
- Base-n iterators are sequences; writing through an output iterator is appending. `std::isspace` is that of the default locale.
- CRC messages are arrays of bytes; the sign extension of `char` before the mask is not visible in the result.
- HTTP version numbers are unbounded; the overflow of `int` is not modelled. They count as 0 before the slash is read.
- HTTP sockets, the connection manager's set, handle_request and reply contents: completions are events in any order, a handler's reply is named by its request.
- Clara conversions, lambdas and bound variables are one function from the calls made so far and the new call to an answer; help text, text flow, the executable name and required options are not modelled.
