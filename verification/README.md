# Verified models of the MongoDB Swift driver

Dafny models of the parts of the driver, and of the libbson it carries, that are hard to get right, with proofs about
them. `dafny verify dfyconfig.toml` checks everything.

Every loop or object that changes state is a method or a class that does what the source does step by step, and its
contract equates the result with a specification function of the old state. The main results are lemmas about those
functions, or invariants over all runs. They hold for all inputs, all runs or all interleavings.

## Components

**Decimal128** (`Digits`, `Decimal128Limbs`, `Decimal128Print`, `Decimal128Format`, `Decimal128Parse`, `Decimal128Read`,
`Decimal128Grammar`, `Decimal128Sign`, `Decimal128RoundTrip`, `Decimal128Exact`, `Decimal128Length`). `Render` and
`Parse` say what the printer and the parser do with each of the 2^128 patterns and with every text; the limb arithmetic,
the digit loops and the parser's loops are proved to follow them. What they say is pinned from outside: `Printed` reads
every character of the text off the bits, `ReadsExactly` says which texts are numerals. `RoundTrip`: parsing the printed
text gives the same bits if and only if the pattern is canonical. `ParseExact`: an accepted text is encoded without any
rounding if and only if two guards hold that can be checked on the text. `FitsBuffer` and `LengthHonoured` say exactly
which patterns are printed within the caller's buffer, and which lengths a caller can tell the parser.

**BCON** (`Bcon`, `BconSyntax`, `BconBuild`, `BconAccept`, `BconExtract`, `BconMatch`, `BconPattern`, `BconFits`,
`BconRoundTrip`). The machine that builds a document from a flat argument list against the meaning of the expression the
list is written for, both ways: `Builds` for every well-formed list, `AcceptsExactly` for every list there is. The
machine that extracts values against a recursive match, both ways as well (`Extracts`, `ExtractsExactly`), and against a
relation on types and constructors alone (`AnswersExactly`). `BuildThenExtract` runs one after the other.

**BSON iterator** (`BsonDocument`, `BsonEncoding`, `BsonIter`, `BsonIterBounds`, `BsonIterGrammar`, `BsonIterDecode`,
`BsonIterFind`). The grammar of BSON 1.1 (bsonspec.org) as an encoder; the iterator as an object over any bytes. What it
decodes is what was encoded (`DecodesDocument`), dotted paths lead where their keys lead in the tree (`PathDecodes`,
`PathFollows`), and on arbitrary bytes it takes exactly the elements of a loose grammar (`StepExactly`), stays inside
its buffer and terminates (`Inside`, `Accessed`, `WalkError`, `Drain`).

**Stream reader** (`BsonReader`, `BsonReaderDocs`). The sliding, growing buffer returns the documents of the stream,
however the source cuts it; `ReadBoth` says exactly when the in-memory reader returns the same, and `ReadEncoded` what
both do with encoded documents.

**JSON reader** (`JsonText`, `JsonFrames`, `JsonGrammar`, `JsonReader`, `JsonFlaws`). The text of a token is its slice
of the stream, however it arrives in chunks (`ReadChunks`). Every document of extended JSON is read to its end
(`ReadsDocument`). Over any callbacks and documents, a frame owns an initialized document exactly when its tag says so
(`OwnershipHolds`), and none is initialized twice or released twice. Documents are also read from the slot above the
top, where the source does not look at the tag: `BreaksExactly` says exactly when a run reads one that is not there or
fails an assertion, `PointersReady` and `ScopeThenAppend` where it cannot.

**UTF-8** (`Utf8Bits`, `Utf8`, `Utf8Codes`, `Utf8Escape`). Masks and shifts on bytes and words against arithmetic, the
validator against concatenated encodings of Unicode scalar values (sections 3 and 4 of RFC 3629), the escaper against
JSON unescaping (section 7 of RFC 8259).

**Cursor** (`Cursor`, `CursorThreads`). The class with its lock held, where no document is lost, repeated or reordered
and the answers taken decide whether it is open (`Use`), and the same methods as steps of threads that interleave at
every release of the lock (`SafeUse`, `InOrder`, `OpenExactly`).

**Connection pool** (`ConnectionPool`). Methods as sections between acquiring and releasing the lock, with the wait of
`close` cut in two, in all interleavings: safety (`SafePool`), and what state and what answers follow from the calls
made (`RunReflects`, `Answers`, `ClosesForGood`).

**Bulk write** (`BulkWrite`). The ids in a bulk error against those of the inserts that took effect
(`ErrorKeepsEffective`).

## Where the code differs from what is said about it

The models follow the code. These are proved or visible in a definition:

- A coefficient shifted up for an exponent above 6111 may reach 35 digits (bson-decimal128.c line 637), and the parser
  then reads behind its array of 34. `Parse` has the outcome `OutOfBounds` for it; `AcceptedIff` says exactly when, and
  `ShiftedTooFar` gives an input.
- The test for unstored digits (line 667) counts columns from the first digit, not from the first non-zero one, so a
  non-zero digit behind leading zeros can be dropped (`HiddenDigitIsWrong`; `Faithful` is the exact condition).
- The overflow guard (line 626) compares a signed exponent with an unsigned count and sets the exponent to -6176, which
  changes the value of a non-zero number with more than 16384 digits behind the point (`TinyIsWrong`).
- The rounding check (line 701) takes the radix point for a digit when the zeros dropped reach exactly past it
  (`PointTakenForDigit`; `AcceptedIff` has the exact condition).
- The documentation of the parser promises infinity for values out of range and rounding of surplus digits
  (lines 423-426); the code refuses both. The scan of the exponent skips white space, as `%d` does.
- A coefficient is taken for zero from 2^113 on, not from 10^34 (line 206); this is why `RoundTrip` needs `IsCanonical`.
- The header says that 43 bytes hold every printed decimal128 with its terminator, and callers pass exactly 43. A negative
  value with the exponent -40 and a coefficient of 10^34 or more takes up 43 characters, so the terminator is stored one
  byte behind them (`FitsBuffer`, `TerminatorBehindBuffer`).
- `bson_decimal128_from_string_w_len` looks at the length only while it reads digits and at the end (lines 532 and 593);
  sign, words and exponent are read beyond it (`LengthHonoured`, `ExponentBeyondLength`). Its only caller passes -1.
- The in-memory reader compares a document's length with the remaining length converted to an int32 (bson-reader.c line
  581), so on buffers of 2^31 bytes and more it can miss documents that the handle reader returns (`DataDocsExactly`,
  `DocumentLost`).
- The comment on the JSON escaper says that a NUL becomes two bytes; the code writes `\u0000`, and gives up on a NUL that
  is already written in two bytes.
- A step of the iterator accepts an embedded document whose length is below five, and recursing into it checks nothing:
  the child ends at once with an error offset of zero, as after a clean end (`ChildError`, `ShortChild`).
- The JSON reader keeps the mark of a `$scope` until a code value is appended. When the value turns into a timestamp, a
  regular expression or a DBPointer instead, a later `$code` reads a slot that may never have been initialized
  (`StaleScope`); `$ref` with a document inside a scope fails an assertion (`NestedCode`).
- An unordered bulk that breaks off before attempting everything reports ids that were never inserted (`BrokenOff`).


## Model

| member | source | states |
|---|---|---|
| Decimal128Limbs.Divide1B | Sources/CLibMongoC/bson/bson-decimal128.c:77-102 | quotient and remainder of the 128-bit number by 10^9: value = quotient * 10^9 + rem, rem below 10^9, every limb below 2^32 |
| Decimal128Limbs.DivideStep | Sources/CLibMongoC/bson/bson-decimal128.c:93-98 | one limb step neither overflows 64 bits nor truncates its 32-bit quotient |
| Decimal128Limbs.NineDigits | Sources/CLibMongoC/bson/bson-decimal128.c:226-229 | nine decimal digits written most significant first are the remainder |
| Decimal128Limbs.CoefficientDigits | Sources/CLibMongoC/bson/bson-decimal128.c:215-231 | four rounds give the decimal digits of any coefficient below 10^36, in 36 places |
| Decimal128Limbs.Mul64x64 | Sources/CLibMongoC/bson/bson-decimal128.c:330-362 | the 128-bit product of two 64-bit numbers, exactly |
| Decimal128Print.SignificandDigits | Sources/CLibMongoC/bson/bson-decimal128.c:204-246 | the digits shown are the shortest digits of the coefficient, or a single zero |
| Decimal128Print.SkipZeros | Sources/CLibMongoC/bson/bson-decimal128.c:241-246 | leading zeros are skipped up to the first significant digit and no further |
| Decimal128Print.AppendDigits | Sources/CLibMongoC/bson/bson-decimal128.c:267-269 | digits are appended until the count or the column limit ends them |
| Decimal128Print.PrintScientific | Sources/CLibMongoC/bson/bson-decimal128.c:259-272 | d.dddE+dd; the six-column limit of the exponent is never met |
| Decimal128Print.PrintPointed | Sources/CLibMongoC/bson/bson-decimal128.c:281-304 | the characters ddd.ddd with zeros before and after the point; the column limit is never met |
| Decimal128Print.ToString | Sources/CLibMongoC/bson/bson-decimal128.c:126-308 | the printed text of every one of the 2^128 bit patterns, at most 43 characters; its terminator is stored inside a buffer of 43 bytes if and only if the pattern is not negative with exponent -40 and a coefficient of 10^34 or more |
| Decimal128Print.FitsBuffer | Sources/CLibMongoC/include/CLibMongoC_bson-decimal128.h:32-41 | the same of the text itself: text and terminator fit the size the header declares, except for these patterns |
| Decimal128Print.TerminatorBehindBuffer | Sources/CLibMongoC/bson/bson-decimal128.c:295-305 | coefficient 10^34, biased exponent 6136, sign set: 43 characters |
| Decimal128Format.UnpackBits | Sources/CLibMongoC/bson/bson-decimal128.c:148-206 | for all 2^128 patterns, by division of the two words: which are infinity, NaN or finite, and the sign, the exponent and the coefficient that is printed |
| Decimal128Format.Printed | Sources/CLibMongoC/bson/bson-decimal128.c:148-307 | the exact text of every pattern: the words, and for a finite one which of the three formats is used and every character of it, read off the bits |
| Decimal128Format.Marks | Sources/CLibMongoC/bson/bson-decimal128.c:249-296 | E stands in the text if and only if the exponent is positive or that of the first digit is below -6, a point if and only if several digits precede the E or the exponent is negative without one |
| Decimal128Parse.KeptFits | Sources/CLibMongoC/bson/bson-decimal128.c:626-709 | what normalization keeps is below 10^34 and has an exponent in range |
| Decimal128Read.ScanMantissa | Sources/CLibMongoC/bson/bson-decimal128.c:531-567 | the scan reads digits and at most one point and keeps the first 34 digits after leading zeros |
| Decimal128Read.CountSignificant | Sources/CLibMongoC/bson/bson-decimal128.c:610-617 | the backward scan for trailing zeros, which stops before it runs off the digits |
| Decimal128Read.SignificantPositive | Sources/CLibMongoC/bson/bson-decimal128.c:613-616 | a non-zero number has a significant digit, so that scan terminates |
| Decimal128Read.RaiseExponent | Sources/CLibMongoC/bson/bson-decimal128.c:633-651 | the loop that trades exponent for coefficient digits, and when it reaches past 34 digits |
| Decimal128Read.LowerExponent | Sources/CLibMongoC/bson/bson-decimal128.c:653-691 | the loop that trades trailing zeros and unstored digits for exponent, and exactly when it refuses |
| Decimal128Read.NormalizeExponent | Sources/CLibMongoC/bson/bson-decimal128.c:626-709 | the whole normalization with the rounding check agrees with its closed form |
| Decimal128Read.FoldDigits | Sources/CLibMongoC/bson/bson-decimal128.c:718-742 | folding up to 17 digits in 64 bits gives their value without wrapping |
| Decimal128Read.Halves | Sources/CLibMongoC/bson/bson-decimal128.c:711-742 | high * 10^17 + low is the coefficient |
| Decimal128Read.Assemble | Sources/CLibMongoC/bson/bson-decimal128.c:744-749 | the product and the carry rebuild the 128-bit coefficient |
| Decimal128Read.FromStringWithLength | Sources/CLibMongoC/bson/bson-decimal128.c:475-773 | the result of the parser on every text and every length it is told, including the words for infinity and NaN |
| Decimal128Read.FromString | Sources/CLibMongoC/bson/bson-decimal128.c:441-446 | without a length, the whole text counts |
| Decimal128Sign.SignOnly | Sources/CLibMongoC/bson/bson-decimal128.c:510-513 | a leading plus changes nothing, a leading minus sets the sign bit of the result, unless it is NaN |
| Decimal128Sign.Words | Sources/CLibMongoC/bson/bson-decimal128.c:515-528 | a text that begins like no numeral gives infinity, signed, for inf and infinity, NaN for nan, in any mixture of cases, and is refused otherwise |
| Decimal128Grammar.ReadsExactly | Sources/CLibMongoC/bson/bson-decimal128.c:530-596 | a text is read as a numeral, in these parts, if and only if it is a sign or none, digits with at most one point and at least one digit, and nothing or an exponent: e or E, white space, a sign or none, and digits |
| Decimal128Length.LengthHonoured | Sources/CLibMongoC/bson/bson-decimal128.c:531-596 | told a length, the parser reads the sign, mantissa and exponent of the text cut off there if and only if digits or point begin within it and no exponent other than zero reaches beyond it; then the result is that of the cut text |
| Decimal128Length.ExponentBeyondLength | Sources/CLibMongoC/bson/bson-decimal128.c:574-591 | 1E5 with length 1 is read with the exponent 5 |
| Decimal128RoundTrip.UnpackEncode | Sources/CLibMongoC/bson/bson-decimal128.c:752-770 | decoding the encoded fields gives sign, exponent and coefficient back |
| Decimal128RoundTrip.EncodeUnpack | Sources/CLibMongoC/bson/bson-decimal128.c:168-203 | encoding the decoded fields of a finite value below 10^34 gives the same 128 bits |
| Decimal128RoundTrip.ParseRendered | Sources/CLibMongoC/bson/bson-decimal128.c:259-307 | each of the three printed formats of a finite value parses back to it |
| Decimal128RoundTrip.ParsedIsCanonical | Sources/CLibMongoC/bson/bson-decimal128.c:752-772 | the parser produces canonical bit patterns only |
| Decimal128RoundTrip.RoundTrip | Sources/CLibMongoC/bson/bson-decimal128.c:126-307 | for all 2^128 patterns: parsing the printed text returns the same bits if and only if they are canonical |
| Decimal128Exact.KeptExact | Sources/CLibMongoC/bson/bson-decimal128.c:626-709 | the kept digits and exponent equal the number read if and only if no unstored digit is non-zero and the overflow guard did not fire |
| Decimal128Exact.ParseExact | Sources/CLibMongoC/bson/bson-decimal128.c:531-772 | an accepted text is encoded as exactly the rational it denotes if and only if the same guard holds: no rounding |
| Decimal128Exact.AcceptedIff | Sources/CLibMongoC/bson/bson-decimal128.c:626-709 | for numbers of any length, in columns of the text, exactly which are accepted; and exactly when the digit array is overrun |
| Decimal128Exact.AcceptedShort | Sources/CLibMongoC/bson/bson-decimal128.c:626-709 | for at most 34 digits the same without columns: exponent, trailing zeros, and the place of the point |
| Decimal128Exact.AcceptedExact | Sources/CLibMongoC/bson/bson-decimal128.c:626-709 | what is accepted is kept exactly if and only if the overflow guard did not fire and every unstored digit is zero |
| Decimal128Exact.QuantumKept | Sources/CLibMongoC/bson/bson-decimal128.c:626-691 | which exponent an accepted numeral gets: that of its last digit, or of the 34th if there are more, brought into the range from -6176 to 6111; a zero keeps its own within that range |
| Decimal128Exact.ShiftedTooFar | Sources/CLibMongoC/bson/bson-decimal128.c:637-648 | 1E+6145 passes the test for 34 digits with 35 and reads past the digit array |
| Decimal128Exact.PointTakenForDigit | Sources/CLibMongoC/bson/bson-decimal128.c:695-709 | 10.E-6177 is refused while 10E-6177 is accepted: the point is taken for a digit to be rounded |
| Decimal128Exact.HiddenDigitIsWrong | Sources/CLibMongoC/bson/bson-decimal128.c:666-673 | behind two leading zeros a non-zero 36th digit is dropped silently |
| Decimal128Exact.TinyIsWrong | Sources/CLibMongoC/bson/bson-decimal128.c:626-630 | a one behind 16384 zeros becomes 10^-6176 |
| Bcon.AppendContext.PushLevel | Sources/CLibMongoC/bson/bcon.c:49-64 | STACK_PUSH_DOC and STACK_PUSH_ARRAY: a new level unless the stack holds 100 |
| Bcon.AppendContext.PopLevel | Sources/CLibMongoC/bson/bcon.c:66-80 | STACK_POP_DOC and STACK_POP_ARRAY: kind and depth are asserted, the level joins its parent |
| Bcon.AppendContext.ConcatArray | Sources/CLibMongoC/bson/bcon.c:710-733 | a spliced array is renumbered from the current position, which moves on by its length |
| Bcon.AppendContext.AppendValue | Sources/CLibMongoC/bson/bcon.c:789-819 | the switch over the token behind a key |
| Bcon.AppendContext.AppendCtxVa | Sources/CLibMongoC/bson/bcon.c:754-821 | the loop over the argument list from any context, with its assertions as failures |
| BsonDocument.ArrayKeyInjective | Sources/CLibMongoC/bson/bcon.c:727-728 | different indices get different array keys |
| BsonDocument.ArrayKeyDecimal | Sources/CLibMongoC/bson/bcon.c:764-767 | and each is the shortest decimal of its index |
| BconBuild.Builds | Sources/CLibMongoC/bson/bcon.c:754-821 | every well-formed list, spliced documents and arrays included, builds exactly the document it stands for; it aborts if and only if it nests deeper than the stack |
| BconBuild.RunExpr | Sources/CLibMongoC/bson/bcon.c:787-819 | the same for one value behind a key at any depth |
| BconBuild.RunItems | Sources/CLibMongoC/bson/bcon.c:763-767 | array elements get the keys "0", "1" and so on, also across spliced arrays |
| BconAccept.Understood | Sources/CLibMongoC/bson/bcon.c:754-821 | whatever the machine gets through reads as nested levels whose contents are on its stack |
| BconAccept.AcceptsExactly | Sources/CLibMongoC/bson/bcon.c:754-821 | the machine closes every level and builds a document if and only if the list is well-formed, fits the stack and stands for that document |
| BconExtract.ExtractContext.ExtractValue | Sources/CLibMongoC/bson/bcon.c:884-917 | the switch over the pattern token behind a key: search from the start of the level, type check, descent |
| BconExtract.ExtractContext.ExtractCtxVa | Sources/CLibMongoC/bson/bcon.c:845-922 | the loop over the pattern, with captures |
| BconMatch.Extracts | Sources/CLibMongoC/bson/bcon.c:845-922 | for every pattern and document, the machine answers as the recursive match does, with the same captured values |
| BconMatch.RunPat | Sources/CLibMongoC/bson/bcon.c:888-917 | the same for one pattern behind a key at any depth |
| BconMatch.ExtractsOwn | Sources/CLibMongoC/bson/bcon.c:845-922 | a document with distinct keys matches its own pattern, which captures every leaf |
| BconFits.AnswersExactly | Sources/CLibMongoC/bson/bcon.c:297-432 | true if and only if every leaf meets a value of the type it asks for and the brackets fit the stack; then the values of Any and of Capture are captured, but for undefined, null, min and max key, and none of Skip; false if and only if some type is wrong or some key missing |
| BconFits.Extract | Sources/CLibMongoC/bson/bcon.c:845-922 | the same through the extractor object, on the arguments written for the pattern |
| BconPattern.Understood | Sources/CLibMongoC/bson/bcon.c:845-922 | whatever the extractor gets through reads as nested parts of a pattern |
| BconPattern.ExtractsExactly | Sources/CLibMongoC/bson/bcon.c:845-922 | the extractor answers true with every level closed if and only if the arguments are a pattern that matches, and captures what it captures |
| BconRoundTrip.BuildsArguments | Sources/CLibMongoC/bson/bcon.c:457-571 | the arguments written for any expression, strings marked or not, splices included, build what it stands for if its nesting fits the stack of 100, and fail an assertion otherwise |
| BconRoundTrip.Append | Sources/CLibMongoC/bson/bcon.c:754-815 | the same through the builder object |
| BconRoundTrip.BuildsWritten | Sources/CLibMongoC/bson/bcon.c:457-571 | every document with distinct keys and counted arrays is what some expression of its depth stands for |
| BconRoundTrip.ExtractsAsked | Sources/CLibMongoC/bson/bcon.c:845-922 | a document fits the pattern that asks for its leaves, and they are what it captures |
| BconRoundTrip.BuildThenExtract | Sources/CLibMongoC/bson/bcon.c:754-922 | building and then extracting returns true and the leaves |
| BsonIter.Iter.InitFromData | Sources/CLibMongoC/bson/bson-iter.c:87-126 | accepts exactly the buffers of at least five bytes whose prefix is their length and whose last byte is zero |
| BsonIter.Iter.Recurse | Sources/CLibMongoC/bson/bson-iter.c:146-177 | the child sees exactly the slice its parent element claims |
| BsonIter.Iter.FillString | Sources/CLibMongoC/bson/bson-iter.c:569-605 | UTF-8, code and symbol payloads |
| BsonIter.Iter.FillBinary | Sources/CLibMongoC/bson/bson-iter.c:606-646 | binary payloads, with the inner length of the deprecated subtype |
| BsonIter.Iter.FillDocument | Sources/CLibMongoC/bson/bson-iter.c:647-665 | embedded documents and arrays |
| BsonIter.Iter.FillRegex | Sources/CLibMongoC/bson/bson-iter.c:685-715 | regular expressions: two strings |
| BsonIter.Iter.FillPointer | Sources/CLibMongoC/bson/bson-iter.c:716-742 | DBPointers |
| BsonIter.Iter.FillScope | Sources/CLibMongoC/bson/bson-iter.c:743-791 | code with scope: total, code string and scope document |
| BsonIter.Iter.Next | Sources/CLibMongoC/bson/bson-iter.c:509-832 | one step from any offset over any bytes: the element, or the error offset |
| BsonIterBounds.Inside | Sources/CLibMongoC/bson/bson-iter.c:509-832 | after a successful step every field offset lies inside the element and the element ends before the buffer |
| BsonIterBounds.Accessed | Sources/CLibMongoC/bson/bson-iter.c:893-936 | the slices all accessors return lie inside the element |
| BsonIterBounds.TextAccess | Sources/CLibMongoC/bson/bson-iter.c:1304-1323 | the slice of bson_iter_utf8, and of code and symbol |
| BsonIterBounds.BinaryAccess | Sources/CLibMongoC/bson/bson-iter.c:893-936 | the slice of bson_iter_binary, also for the deprecated subtype |
| BsonIterBounds.DocumentAccess | Sources/CLibMongoC/bson/bson-iter.c:1781-1860 | the slice of bson_iter_document and bson_iter_array, which ends with the element |
| BsonIterBounds.ScopeAccess | Sources/CLibMongoC/bson/bson-iter.c:1439-1477 | the slices of bson_iter_codewscope; the scope ends with the element |
| BsonIterBounds.PointerAccess | Sources/CLibMongoC/bson/bson-iter.c:1511-1545 | the slices of bson_iter_dbpointer |
| BsonIterBounds.RegexAccess | Sources/CLibMongoC/bson/bson-iter.c:1262-1285 | the slices of bson_iter_regex |
| BsonIterBounds.ChildEnds | Sources/CLibMongoC/bson/bson-iter.c:146-177 | an embedded document or scope ends exactly where its element does |
| BsonIterBounds.ErrorOffset | Sources/CLibMongoC/bson/bson-iter.c:533-549 | on a buffer with a final zero a failing step reports no error if and only if it stood on the final byte |
| BsonIterBounds.WalkError | Sources/CLibMongoC/bson/bson-iter.c:509-832 | a whole iteration ends without an error if and only if it ends on the final byte |
| BsonIterBounds.WalkErrorExactly | Sources/CLibMongoC/bson/bson-iter.c:541-555 | on any bytes an iteration ends without an error if and only if no zero byte follows the type byte it stops on |
| BsonIterBounds.ChildError | Sources/CLibMongoC/bson/bson-iter.c:146-177 | when the error offset of a child iterator can be trusted: recursing checks neither length nor final zero, and below five bytes the child always ends at once without an error |
| BsonIterBounds.ShortChild | Sources/CLibMongoC/bson/bson-iter.c:647-665 | an accepted buffer with an embedded document of four bytes; neither iteration reports an error |
| BsonIterBounds.Contiguous | Sources/CLibMongoC/bson/bson-iter.c:509-832 | the elements found follow each other without gaps or overlaps |
| BsonIterBounds.Drain | Sources/CLibMongoC/bson/bson-iter.c:856-864 | iterating to the end terminates within as many steps as the buffer has bytes |
| BsonIterGrammar.StepExactly | Sources/CLibMongoC/bson/bson-iter.c:509-832 | on any bytes, a step takes exactly the elements of a loose grammar, for all 21 types, and ends them where it does: everything else is refused |
| BsonIterGrammar.UnsupportedExactly | Sources/CLibMongoC/bson/bson-iter.c:803-810 | a step reports an unsupported type if and only if a terminated key follows a type byte that the grammar does not have |
| BsonIterGrammar.ErrorExactly | Sources/CLibMongoC/bson/bson-iter.c:600-818 | where the error of a refused element is: the missing final zero of a string or pointer, the second length of an old binary, the element of a regular expression that is cut off, otherwise the payload |
| BsonIterGrammar.ErrorPlace | Sources/CLibMongoC/bson/bson-iter.c:600-818 | on any bytes a failed step reports zero, or an offset from the element on and inside the buffer or at its end |
| BsonIterDecode.StepDecodes | Sources/CLibMongoC/bson/bson-iter.c:509-832 | a step at an encoded element shows its key, type and content and ends behind its last byte |
| BsonIterDecode.PayloadDecodes | Sources/CLibMongoC/bson/bson-iter.c:562-820 | every kind of payload of the grammar is laid out and accessed as it was encoded |
| BsonIterDecode.DecodesDocument | Sources/CLibMongoC/bson/bson-iter.c:87-126 | for every document the encoded bytes are accepted and iterating shows exactly its elements, in order, and stops without an error |
| BsonIterDecode.IterateDocument | Sources/CLibMongoC/bson/bson-iter.c:509-832 | the same through the iterator object |
| BsonIterFind.KeyMatches | Sources/CLibMongoC/bson/bson-iter.c:302-304 | strncmp up to the length and the terminator behind it compare whole keys |
| BsonIterFind.FindWLen | Sources/CLibMongoC/bson/bson-iter.c:289-309 | stops at the first element from the current position on with the key |
| BsonIterFind.FindDescendant | Sources/CLibMongoC/bson/bson-iter.c:394-427 | follows a dotted path through documents and arrays |
| BsonIterFind.PathDecodes | Sources/CLibMongoC/bson/bson-iter.c:394-427 | on encoded documents the search agrees with looking the dot-split path up in the tree |
| BsonIterFind.PathFollows | Sources/CLibMongoC/bson/bson-iter.c:405-421 | a path of keys joined by full stops leads where the keys lead one by one, by the first element with each key |
| BsonIterFind.FindDecodes | Sources/CLibMongoC/bson/bson-iter.c:289-309 | the first matching key at a level decides |
| BsonIterFind.FindInDocument | Sources/CLibMongoC/bson/bson-iter.c:394-427 | the same through the iterator object, with the value shown |
| BsonReader.DataReader.Read | Sources/CLibMongoC/bson/bson-reader.c:564-601 | the in-memory reader returns the next document or none |
| BsonReader.DataDocsExactly | Sources/CLibMongoC/bson/bson-reader.c:577-583 | on a buffer of any size the in-memory reader returns an initial part of the documents; it returns them all if and only if the remaining length modulo 2^32 is an int32 that covers them |
| BsonReader.DocumentLost | Sources/CLibMongoC/bson/bson-reader.c:577-583 | an empty document in front of zeros, 2^31 bytes in all: the document is there and none is returned |
| BsonReader.HandleReader.Slide | Sources/CLibMongoC/bson/bson-reader.c:108-115 | memmove keeps the unconsumed bytes and the position |
| BsonReader.HandleReader.FillBuffer | Sources/CLibMongoC/bson/bson-reader.c:90-135 | reads behind the unconsumed bytes, always into free space; the position is unchanged |
| BsonReader.HandleReader.GrowBuffer | Sources/CLibMongoC/bson/bson-reader.c:396-403 | doubling keeps the contents |
| BsonReader.HandleReader.Read | Sources/CLibMongoC/bson/bson-reader.c:456-503 | whatever the source delivers per call, the next document of the stream is returned and the position moves by its length; the loop terminates |
| BsonReader.DocsCover | Sources/CLibMongoC/bson/bson-reader.c:423-431 | the documents returned are the stream up to the position, one behind the other |
| BsonReader.DrainHandle | Sources/CLibMongoC/bson/bson-reader.c:456-503 | reading to the end returns all documents of the stream, and the position is their total length |
| BsonReader.DrainData | Sources/CLibMongoC/bson/bson-reader.c:564-601 | reading the in-memory reader to the end, on a buffer of any size: what it returns is DataDocs, and the position is the total length |
| BsonReader.ReadBoth | Sources/CLibMongoC/bson/bson-reader.c:456-601 | on a stream of any size, cut in any way: the handle reader returns all documents, and the in-memory reader the same ones and the same position if and only if the length as an int32 covers them, which it does below 2^31 bytes |
| BsonReaderDocs.NextExactly | Sources/CLibMongoC/bson/bson-reader.c:472-491 | a piece of a stream is returned if and only if its first four bytes announce its length and it is a document by its length and final zero |
| BsonReaderDocs.IteratorAccepts | Sources/CLibMongoC/bson/bson-iter.c:87-121 | these are the bytes that the iterator accepts |
| BsonReaderDocs.DocsOfEncoded | Sources/CLibMongoC/bson/bson-reader.c:456-503 | encoded documents one behind the other are read as exactly these |
| BsonReaderDocs.ReadEncoded | Sources/CLibMongoC/bson/bson-reader.c:456-601 | for documents below 2^30 bytes: the handle reader returns them all, however the stream is cut, the in-memory reader if and only if they are below 2^31 bytes together |
| JsonText.SmallestPower | Sources/CLibMongoC/bson/bson-json.c:454-463 | a buffer that is too small gets the smallest power of two that is enough |
| JsonText.Buffer.Append | Sources/CLibMongoC/bson/bson-json.c:453-491 | appends to the buffer whether or not it is reallocated, and terminates it |
| JsonText.Collector.GetText | Sources/CLibMongoC/bson/bson-json.c:1841-1871 | the token text, from the chunk or from accumulator and chunk, is its slice of the stream |
| JsonText.Collector.Pop | Sources/CLibMongoC/bson/bson-json.c:1902-1968 | after a token nothing of it is left |
| JsonText.Collector.Accumulate | Sources/CLibMongoC/bson/bson-json.c:2092-2103 | after a chunk the accumulator holds what has been seen of the open token |
| JsonText.Collector.Feed | Sources/CLibMongoC/bson/bson-json.c:2047-2106 | one chunk: the tokens that end in it are delivered |
| JsonText.ReadChunks | Sources/CLibMongoC/bson/bson-json.c:2047-2106 | for every chunking of the input every token delivered is its slice of the whole stream |
| JsonReader.Reader.Push | Sources/CLibMongoC/bson/bson-json.c:286-302 | STACK_PUSH: a document in the slot is reused, destroyed or initialized as the tags say |
| JsonReader.Reader.ReadStartMap | Sources/CLibMongoC/bson/bson-json.c:1058-1090 | the opening brace as a step |
| JsonReader.Reader.ReadMapKey | Sources/CLibMongoC/bson/bson-json.c:1180-1320 | a key as a step |
| JsonReader.Reader.ReadEndMap | Sources/CLibMongoC/bson/bson-json.c:1559-1753 | the closing brace as a step; it fails exactly on the flaw of the state before |
| JsonReader.Reader.AppendCode | Sources/CLibMongoC/bson/bson-json.c:1401-1439 | a code value: the assertion, the missing code, and the read of the slot above the top for the scope |
| JsonReader.Reader.ReadStartArray | Sources/CLibMongoC/bson/bson-json.c:1756-1780 | the opening bracket as a step |
| JsonReader.Reader.ReadEndArray | Sources/CLibMongoC/bson/bson-json.c:1783-1800 | the closing bracket as a step |
| JsonReader.Reader.Start | Sources/CLibMongoC/bson/bson-json.c:2039-2043 | a new document keeps tags and documents of the slots |
| JsonReader.Reader.Destroy | Sources/CLibMongoC/bson/bson-json.c:2174-2184 | every initialized document is released, none twice |
| JsonFrames.EndMapKeeps | Sources/CLibMongoC/bson/bson-json.c:1559-1753 | the closing brace keeps ownership and the states that need a frame |
| JsonFrames.MapKeyKeeps | Sources/CLibMongoC/bson/bson-json.c:1180-1320 | a key does |
| JsonFrames.StepKeeps | Sources/CLibMongoC/bson/bson-json.c:281-360 | every callback that gets through keeps the invariant, and once a document has begun a frame is there until it is done |
| JsonFrames.RunKeeps | Sources/CLibMongoC/bson/bson-json.c:2024-2117 | over any callbacks and documents no frame is missing when one is closed or appended to |
| JsonFrames.OwnershipHolds | Sources/CLibMongoC/bson/bson-json.c:281-360 | from a new reader: a slot owns a document if and only if its tag is scope or DBPointer, slot 0 never does, used slots form a prefix, n is in range |
| JsonFrames.BreaksOn | Sources/CLibMongoC/bson/bson-json.c:1401-1454 | a closing brace breaks if and only if its state has a flaw, checkable before: code inside a scope, or a tag above the top that is neither scope nor DBPointer where one is read; no other callback breaks |
| JsonFrames.BreaksExactly | Sources/CLibMongoC/bson/bson-json.c:1401-1454 | a run ends in a failed assertion or a missing document if and only if some closing brace in it meets that flaw |
| JsonFrames.PointersReady | Sources/CLibMongoC/bson/bson-json.c:1442-1454 | when every key is followed by its value, the document of a DBPointer is there when it is read, in every run |
| JsonFrames.ScopeThenAppend | Sources/CLibMongoC/bson/bson-json.c:1718-1722 | whatever a scope contains, once its brace is closed its document is in the slot above the top |
| JsonFrames.AppendsCode | Sources/CLibMongoC/bson/bson-json.c:1401-1439 | a code value is then appended with it, at once or after a code key and its text |
| JsonGrammar.ReadsDocument | Sources/CLibMongoC/bson/bson-json.c:1058-1801 | every document of extended JSON, plain and typed values nested in any way, codes with scopes and pointers included, is read to its end without an error, and leaves the reader as it found it |
| JsonGrammar.Reads | Sources/CLibMongoC/bson/bson-json.c:1058-1801 | so is every value, which leaves the frames below and the marks for codes as they were |
| JsonGrammar.ReadsStream | Sources/CLibMongoC/bson/bson-json.c:2024-2110 | so is every stream of documents by a new reader |
| JsonGrammar.TypedRefuses | Sources/CLibMongoC/bson/bson-json.c:1181-1400 | a typed value takes no second key of another type and no ordinary key |
| JsonGrammar.InnerRefuses | Sources/CLibMongoC/bson/bson-json.c:1181-1400 | nor does the inner document of one take a foreign key |
| JsonGrammar.ValueRefused | Sources/CLibMongoC/bson/bson-json.c:1757-1805 | neither takes an array, nor (lines 563-800) a number where strings belong |
| JsonGrammar.FormRefused | Sources/CLibMongoC/bson/bson-json.c:889-1035 | a string or key that is not UTF-8, or a string not of the form looked for, is an error |
| JsonGrammar.TextRefused | Sources/CLibMongoC/bson/bson-json.c:889-1047 | no string is accepted as an undefined value or as the smallest or largest key |
| JsonGrammar.TypeIsQuery | Sources/CLibMongoC/bson/bson-json.c:857-883 | a `$type` whose string is no subtype opens a document for a query operator |
| JsonFlaws.StaleScope | Sources/CLibMongoC/bson/bson-json.c:1421-1423 | a scope whose value turns into a timestamp makes a later code value read an uninitialized slot |
| JsonFlaws.NestedCode | Sources/CLibMongoC/bson/bson-json.c:1412-1412 | a document where $ref in a scope expects a text fails the assertion |
| Utf8.GetSequence | Sources/CLibMongoC/bson/bson-utf8.c:44-81 | the cascade of mask tests gives the length of the sequence, and its mask the bits of the first byte |
| Utf8Bits.Shifted | Sources/CLibMongoC/bson/bson-utf8.c:146-148 | shifting six bits in is multiplying by 64 and adding |
| Utf8Bits.Groups | Sources/CLibMongoC/bson/bson-utf8.c:431-459 | shifting and masking a character splits it into groups of six bits |
| Utf8.GetChar | Sources/CLibMongoC/bson/bson-utf8.c:353-370 | the character of a sequence |
| Utf8.Validate | Sources/CLibMongoC/bson/bson-utf8.c:114-233 | accepts exactly what the recursive validity predicate accepts |
| Utf8.FromUnichar | Sources/CLibMongoC/bson/bson-utf8.c:431-459 | the bytes of a character |
| Utf8Codes.ValidDecodes | Sources/CLibMongoC/bson/bson-utf8.c:126-230 | a valid sequence is the encoding of what it decodes to |
| Utf8Codes.EncodingValid | Sources/CLibMongoC/bson/bson-utf8.c:431-459 | an encoding is valid and decodes to its character |
| Utf8Codes.ValidExactly | Sources/CLibMongoC/bson/bson-utf8.c:114-233 | the validator accepts a string if and only if it is a concatenation of encodings of scalar values, and of C0 80 when NUL is allowed |
| Utf8Escape.EscapeForJson | Sources/CLibMongoC/bson/bson-utf8.c:263-330 | the escaper terminates with the escaped text or, at a NUL in two bytes, without one |
| Utf8Escape.EscapeInverse | Sources/CLibMongoC/bson/bson-utf8.c:263-330 | it fails if and only if the byte C0 occurs; otherwise unescaping by RFC 8259 returns the text, and no control byte is left raw |
| Utf8Escape.UnescapeChar | Sources/CLibMongoC/bson/bson-utf8.c:284-314 | one escaped character reads back as its encoding |
| Utf8Escape.EscapesOnly | Sources/CLibMongoC/bson/bson-utf8.c:276-326 | quotation marks, backslashes and control characters are escaped and nothing else: the five short forms in two bytes, other controls as \u00 and two lower-case digits |
| Utf8Escape.Recode | Sources/CLibMongoC/bson/bson-utf8.c:353-405 | stepping with get_char and next_char and encoding again |
| Utf8Escape.RecodeInverse | Sources/CLibMongoC/bson/bson-utf8.c:353-459 | gives the same bytes if and only if the byte C0 does not occur |
| Cursor.Cursor.GetNextDocument | Sources/MongoSwift/CursorCommon.swift:179-214 | one attempt: closed error, inactive session, document, error with close, or end with close |
| Cursor.Cursor.Close | Sources/MongoSwift/CursorCommon.swift:219-230 | destroys the libmongoc cursor of an open cursor once |
| Cursor.Cursor.constructor | Sources/MongoSwift/CursorCommon.swift:233-255 | errors close, lazy cursors cache their first result; nothing produced is lost |
| Cursor.Cursor.Next | Sources/MongoSwift/CursorCommon.swift:287-313 | cached result first, then polling; after an error one nil |
| Cursor.Cursor.TryNext | Sources/MongoSwift/CursorCommon.swift:318-325 | cached result or one attempt |
| Cursor.Cursor.ToArray | Sources/MongoSwift/CursorCommon.swift:330-349 | everything available; an error drops what was collected |
| Cursor.Cursor.Kill | Sources/MongoSwift/CursorCommon.swift:354-361 | clears the cache and closes; an errored cursor stays errored |
| Cursor.Await | Sources/MongoSwift/CursorCommon.swift:305-311 | behind any number of empty answers a tailable cursor that nobody closes returns the next document and stays open |
| Cursor.Use | Sources/MongoSwift/CursorCommon.swift:233-349 | over any run before a kill: the cursor is open if and only if every answer taken was a document, or empty on a tailable cursor with more to come; without a throwing toArray, documents returned, then the cached one, are those produced, in order |
| CursorThreads.StepKeeps | Sources/MongoSwift/CursorCommon.swift:264-361 | every step of every thread keeps the invariant |
| CursorThreads.Calls | Sources/MongoSwift/CursorCommon.swift:306-310 | a server call is only made on an open cursor by the thread that holds the lock |
| CursorThreads.SafeUse | Sources/MongoSwift/CursorCommon.swift:179-361 | in every interleaving: destroyed at most once and not used afterwards, cached document implies open, an error is followed by one nil and then closed errors; on an open cursor the flag is set if and only if a kill waits for the lock, and a poll makes at most one server call with the flag set |
| CursorThreads.StepConserves | Sources/MongoSwift/CursorCommon.swift:179-361 | no step of any thread loses, repeats or reorders a document |
| CursorThreads.ReturnedExactly | Sources/MongoSwift/CursorCommon.swift:330-361 | callers have got everything that left the cursor if and only if no kill has dropped a cached document and no toArray has thrown after collecting |
| CursorThreads.InOrder | Sources/MongoSwift/CursorCommon.swift:233-361 | in every interleaving, kills included: documents that left the cursor in the order of the lock, then those being collected, then the cached one, are those produced; with only the returned ones this holds if and only if none was dropped |
| CursorThreads.OpenExactly | Sources/MongoSwift/CursorCommon.swift:179-361 | in every interleaving: the cursor is open if and only if it began open, no kill has got the lock and it goes on after every answer taken; an error has surfaced if and only if one was answered |
| CursorThreads.Awaits | Sources/MongoSwift/CursorCommon.swift:305-311 | a polling thread waits through empty answers for its document |
| ConnectionPool.Pool.CheckOutConnection | Sources/MongoSwift/ConnectionPool.swift:131-141 | counts and hands out a free handle, or refuses |
| ConnectionPool.Pool.TryCheckOutConnection | Sources/MongoSwift/ConnectionPool.swift:146-159 | the same, or nil when none is free |
| ConnectionPool.Pool.CheckInConnection | Sources/MongoSwift/ConnectionPool.swift:164-180 | returns the handle, counts down and signals |
| ConnectionPool.Pool.Close | Sources/MongoSwift/ConnectionPool.swift:102-126 | refuses a second close; sleeps or destroys |
| ConnectionPool.Pool.ResumeClose | Sources/MongoSwift/ConnectionPool.swift:111-124 | the wait loop after a signal or a spurious wakeup |
| ConnectionPool.NextKeeps | Sources/MongoSwift/ConnectionPool.swift:102-180 | every section keeps the invariant, a Connection never meets a closed pool, and after close has begun nothing is handed out |
| ConnectionPool.RunKeeps | Sources/MongoSwift/ConnectionPool.swift:102-180 | the same over every interleaving |
| ConnectionPool.SafePool | Sources/MongoSwift/ConnectionPool.swift:21-27 | in every interleaving: count, ownership of handles, one destroy with no Connection left, and a sleeping closer has Connections to wait for |
| ConnectionPool.CloserFinishes | Sources/MongoSwift/ConnectionPool.swift:111-124 | when the last Connection is returned the closer is awake and its next step closes the pool |
| ConnectionPool.RunReflects | Sources/MongoSwift/ConnectionPool.swift:102-180 | in every interleaving, which Connection owns which handle, which handles are idle, and whether the pool is open, closing or closed can be read off the calls made |
| ConnectionPool.Answers | Sources/MongoSwift/ConnectionPool.swift:102-180 | so can the answer of every call: refused after the first close, nil when none is free, done otherwise |
| ConnectionPool.ClosesForGood | Sources/MongoSwift/ConnectionPool.swift:102-126 | after close the pool is never open again and hands out nothing; it is closed at once, or once all Connections are back |
| BulkWrite.CollectIds | Sources/MongoSwift/MongoCollection+BulkWrite.swift:236-240 | the ids of the inserts by index |
| BulkWrite.FromReply | Sources/MongoSwift/MongoCollection+BulkWrite.swift:406-448 | nil exactly when no known key is there, an error exactly when an upsert entry is no document or has no number as index, otherwise each counter as its own number, zero when missing or no number, and the upserted ids |
| BulkWrite.LastUpsert | Sources/MongoSwift/MongoCollection+BulkWrite.swift:426-443 | the id kept for an index is that of the last entry with it, and none if that entry has none |
| BulkWrite.OnlyUpserts | Sources/MongoSwift/MongoCollection+BulkWrite.swift:426-443 | every id kept comes from an entry with that index |
| BulkWrite.OrderedExactly | Sources/MongoSwift/MongoError.swift:410-415 | the ordered cut gives the effective inserts if and only if these are the first inserts |
| BulkWrite.UnorderedExactly | Sources/MongoSwift/MongoError.swift:410-419 | the unordered filter does if and only if nothing was inserted or the reported inserts are those without effect |
| BulkWrite.ErrorKeepsEffective | Sources/MongoSwift/MongoError.swift:404-430 | for an ordered bulk that stops at its first failure, and an unordered one that attempts everything, the ids are exactly those of the inserts that took effect |
| BulkWrite.BrokenOff | Sources/MongoSwift/MongoError.swift:416-419 | an unordered bulk that breaks off reports an id that was never inserted |

## Left out

- Decimal128Read.FromStringWithLength: texts are NUL-terminated even where a length is told; exponents are mathematical integers, so what `sscanf` does with an exponent beyond two thousand million is not modelled.
- Decimal128Read.Assemble: fields that do not overlap are added where the source combines them with a bitwise or.
- Bcon.AppendContext.AppendCtxVa: appends always succeed, so failures from document size are not modelled; reading past the end of an argument list that has no terminator is excluded; an argument's string is a sequence of non-zero bytes, so NULL pointers and key buffers are not captured.
- BconExtract.ExtractContext.ExtractCtxVa: captured values are returned as a list in order, where the source writes through pointers.
- BconBuild.Builds: scalar tokens carry abstract values; doubles, dates and object ids are not interpreted.
- BsonIter.Iter.Next: the key length is unknown, as everywhere but in `bson_iter_init_from_data_at_offset`, which trusts its caller and is not modelled; buffers are below 2^31 bytes.
- BsonIterBounds.Accessed: the conversions of numbers, booleans and dates read fixed-size fields and are not modelled one by one, nor are the functions that overwrite values in place.
- BsonIterFind.FindWLen: the case-insensitive search is not modelled.
- BsonReader.HandleReader.Read: documents are below 2^30 bytes, where the source's conversions to 32-bit signed numbers are exact; read errors, the end-of-file and failure flags and `bson_reader_read_func` sources other than byte streams are not modelled; a returned document is a value, while the source's points into the buffer until the next read.
- JsonText.ReadChunks: the tokenizer is replaced by the begin and end positions it reports, and the fields of the JSON lexer are not part of this model; data after the end of a document that is left for the next call is not modelled, nor is unescaping.
- JsonFrames.StepKeeps: the grammar of typed values ($type, $code, DBRef) is reduced to what changes frames: whether a check fails is an input of the step; contents of documents and the flags for $ref and $id are not modelled; strings and numbers are functions without a method; callbacks may go on after an error, where the source stops the tokenizer.
- JsonReader.Reader.ReadMapKey: key buffers are reduced to whether a key is saved.
- Utf8.Validate: strings are below 2^32 bytes, where the source's index does not wrap.
- Utf8Escape.EscapeForJson: only texts the validator accepts with NUL allowed; its behaviour on others is not modelled.
- JsonGrammar.Reads: texts and numbers are left out, so a value whose text the reader would refuse is the `fails` of a step; code values inside a scope are ordinary documents to the reader and not among these values; DBRef documents are those with a string behind `$ref` and `$db`.
- Cursor.Use: libmongoc is a script of answers, the session a flag that may change between calls, and a poll that never gets an answer is not a run; in `CursorThreads.InOrder` it is one.
- CursorThreads.SafeUse: safety only; that a waiting kill gets the lock is not claimed.
- ConnectionPool.SafePool: `mongoc_client_pool_pop` while the lock is held is a step enabled when a handle is free, so the blocking itself is not captured; `withConnection` and the setters are not modelled.
- BulkWrite.ErrorKeepsEffective: what libmongoc executes is a list of outcomes; write concern errors, the decoding of error documents and the other counters are not related to outcomes.
- BulkWrite.OrderedExactly: more counted inserts than ids, where the source traps, is `None` in the model.
- Server selection, monitoring events, sockets, authentication and the synchronous wrapper forward to code that is not part of this model.
- Options, read and write concerns, codable conversions and commands are field copying with simple branches.
- Object id generation, dates and ISO 8601, doubles, base64, md5, memory and clock functions would add easy members or depend on code that is not part of this model.
