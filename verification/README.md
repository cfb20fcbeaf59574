# Verified models of the AGID infrastructure

This project models the algorithmic cores of the AGID address infrastructure and proves properties of them with
Dafny 4.11. `dafny verify dfyconfig.toml` checks everything.

| module | what it models |
|---|---|
| `Hilbert` | the Hilbert order of a face's grid: the rotate-and-reflect loops of the TypeScript core and of the native core, against a recursive definition |
| `Agid`, `AgidVectors` | packing, Base32, decoding and the SDK's format-only validator; the three published parity vectors |
| `CanonicalJson` | the recursive canonical serializer that equality tests and release digests rely on |
| `Geometry` | signed ring area, even-odd ray casting, and the inspection of the source polygons, over exact reals |
| `Csv` | the one-pass CSV reader, against a writer after section 2 of RFC 4180 |
| `Markdown`, `TexText`, `Latex` | the Markdown to LaTeX translator: escaping, formula splitting, and the flag-driven line scanner |
| `Blocks` | the two Markdown block scanners of the other PDF builders |
| `Placement`, `Ledger`, `Sums` | the repository placement generator, its flattening into units, and the append-only production ledger |
| `MirrorProtocol`, `MirrorServices` | mirror failover with timed blacklists, as a state machine with interleaved calls and as the two services that use it |
| `RegionalCache` | the bounded cache of the regional proxies |
| `QualityStats`, `Sums` | running response-time means per service and region |
| `Commitment` | the 32-bit FNV-1a evidence reference |
| `Arithmetic`, `Sequences`, `Whitespace`, `Wrappers` | shared facts and shapes |

Code that works by updating variables is a method proved against a specification function; what the code is for is
then proved about that function. Objects that the server updates in place (`ReverseGeocoder`, `OverpassProxy`,
`Cache`, `Monitor`) are classes whose ghost history ties every state to the operations that led to it.

## What the proofs say about the code

Most properties hold as documented. These do not hold for all inputs, and the models state exactly when they do:

- The SDK's `validateAgid` accepts identifiers that do not decode. A valid format decodes exactly when the first hash
  digit is `0` and the second is worth at most 23 (`Agid.ValidatorGap`, `Agid.ValidatorAcceptsMore`), although the SDK
  guide asks for the packed range to be checked.
- `convert_markdown` emits nested environments exactly when fences and formula brackets pair up in the text
  (`Latex.NestedExactlyWhenTidy`); two opening brackets in a row break it.
- `build_body` never returns once a line outside every block begins with `\[` without being `\[`, unless that line
  starts a table. It returns exactly on the texts without such a line, by one reading line by line
  (`Blocks.PaperEndsExactlyWhenClear`). `build_blocks` always returns.
- A blacklisted mirror may be contacted before its time without a reset when two calls overlap
  (`MirrorProtocol.OverlapShortensABlacklisting`). Every listing is honoured until it ends or the blacklist is reset
  exactly when no call already under way relists the mirror to a time that a later call begins past
  (`MirrorProtocol.HonouredUnlessUndercut`), so always when calls take turns (`MirrorProtocol.HonouredInTurn`).

Two more properties hold for what the code passes, and the models state what they rest on:

- The regional cache holds at most 2000 entries for every history without the empty key
  (`RegionalCache.NeverOverflows`). No caller passes the empty key: the keys begin with `asia_oceania_`, `marine_` or
  `heartrails_`. The cache itself takes an empty oldest key for no key, and exceeds the bound exactly when a new key
  is written to a full cache with such a key (`RegionalCache.BoundedUnlessOverflowed`).
- The generated unit ids are distinct for every input exactly when the split rules, a constant table in the
  generator, repeat no child repository, share none between countries, and name none like a country or like
  Antarctica (`Placement.UniqueExactlyWhenRulesOk`). That condition, `RulesOk`, is a hypothesis about the table.

## Model

| member | source | states |
|---|---|---|
| Hilbert.EncodeHilbert | src/lib/agid.ts:276-292 | the rotate-and-reflect loop, with signed coordinates that keep stale high bits, computes the recursive index at every level; the source's 32-bit `&` covers levels up to 31 |
| Hilbert.EncodeHilbertNative | native/agid-core/src/lib.rs:96-120 | the native loop, whose reflections wrap around in 32 bits, computes the same index |
| Hilbert.WrapKeepsIndex | native/agid-core/src/lib.rs:96-120 | wrapping coordinates to 32 bits does not change the index at any level up to 32 |
| Hilbert.DecodeHilbert | src/lib/agid.ts:294-317 | the bottom-up decoding loop computes the top-down inverse for every index of every grid |
| Hilbert.IndexBound | README_AGID_MODEL.md:148-160 | a level-L index fits in 2L bits, whatever the coordinates |
| Hilbert.IndexIgnoresHighBits | src/lib/agid.ts:265-292 | the index depends only on the low L bits of the coordinates, negative ones included |
| Hilbert.PlaceOfIndex | README_AGID_MODEL.md:148-170 | decoding undoes encoding on the whole grid, at every level |
| Hilbert.PlaceOfIndexMod | README_AGID_MODEL.md:166-170 | for any integers, decoding the index gives the coordinates modulo the grid side |
| Hilbert.IndexOfPlace | README_AGID_MODEL.md:148-170 | encoding undoes decoding on every index, and decoding stays inside the grid |
| Hilbert.Endpoints | README_AGID_MODEL.md:148-164 | the curve runs from the origin to the end of the bottom row |
| Hilbert.NeighboursInOrder | README_AGID_MODEL.md:162-164 | consecutive indices are cells exactly one grid step apart |
| Hilbert.IndexPrefix | README_AGID_MODEL.md:162-164 | dropping 2j low bits of an index gives the index of the cell on the grid that is 2^j times coarser |
| Hilbert.AlignedRunIsSquare | README_AGID_MODEL.md:162-164 | an aligned run of 4^j indices is exactly the set of cells of one aligned square of side 2^j |
| Agid.EncodeBase32 | src/lib/agid.ts:370-379 | the loop writes the fixed-length most-significant-first digits |
| Agid.DecodeBase32 | src/lib/agid.ts:381-389 | the loop gives the value of the digits and fails on any other character |
| Agid.ValueOfDigits | README_AGID_MODEL.md:172-200 | the value of the digits of a number that fits is that number |
| Agid.DigitsOfValue | README_AGID_MODEL.md:172-200 | a string of digits is the digits of its value, so hashes and values correspond one to one |
| Agid.ValueDefined | src/lib/agid.ts:381-389 | decoding succeeds exactly on strings over the 32-letter alphabet |
| Agid.Constants | src/lib/agid.ts:319-330 | the grid side, the 42 bits per face and the packed limit fit together and into ten digits |
| Agid.EncodeHash | src/lib/agid.ts:483-488 | the hash of a quantized cell: packed face and Hilbert index in ten digits |
| Agid.DecodeAgid | src/lib/agid.ts:561-598 | decoding normalizes, checks the format and the packed range, and unpacks face and cell |
| Agid.RoundTrip | README_AGID_MODEL.md:217-233 | decoding prefix and hash of any cell of the 6 faces returns that prefix, face and cell |
| Agid.DecodedIsCanonical | README_AGID_MODEL.md:217-233 | whatever decodes is, once trimmed and upper-cased, the identifier of the valid cell it decodes to |
| Agid.CanonicalHash | src/lib/agidSecurity.ts:95-99 | ten digits pass the packed-range check exactly when the first is `0` and the second is worth at most 23 |
| Agid.ValidateAgid | scripts/generate-agid-sdks.ts:683-692 | the emitted validator accepts exactly the format and reports each issue exactly when it applies |
| Agid.ValidatorGap | scripts/generate-agid-sdks.ts:372-381 | an identifier decodes exactly when its format is valid and its two leading hash digits are in range |
| Agid.ValidatorAcceptsMore | scripts/generate-agid-sdks.ts:378-379 | a concrete identifier passes the format check and does not decode |
| AgidVectors.TokyoStationVector | scripts/generate-agid-sdks.ts:57-79 | the published Tokyo hash is the hash of its published cell |
| AgidVectors.NullIslandVector | scripts/generate-agid-sdks.ts:80-102 | the published Null Island hash is the hash of its published cell |
| AgidVectors.NewYorkVector | scripts/generate-agid-sdks.ts:103-125 | the published New York hash is the hash of its published cell |
| CanonicalJson.SortFields | scripts/build-postal-context-vi-m2.ts:48 | sorting keeps the fields of an object |
| CanonicalJson.SortKeeps | scripts/build-postal-context-vi-m2.ts:48 | sorting orders the keys by code unit and keeps the value the object stands for |
| CanonicalJson.UnquoteBody | scripts/build-postal-context-vi-m2.ts:42-45 | an escaped string reads back to itself, lone surrogates and control characters included, whatever follows it |
| CanonicalJson.QuotesAgree | scripts/build-postal-context-vi-m2.ts:42-45 | quoted strings are self-delimiting: equal texts begin with equal strings |
| CanonicalJson.DecimalsAgree | scripts/build-postal-context-vi-m2.ts:42-45 | printed numbers are equal only for equal numbers, even followed by more text |
| CanonicalJson.CanonDefined | scripts/build-postal-context-vi-m2.ts:40-49 | serialization fails exactly on values that hold a non-finite number or no JSON value at any depth |
| CanonicalJson.EqualValuesEqualText | scripts/build-postal-context-vi-m2.ts:40-49 | equal values up to key order, at every depth, have the same text |
| CanonicalJson.TextDeterminesValue | scripts/build-postal-context-vi-m2.ts:40-49 | equal texts come from equal values up to key order, even as prefixes of longer texts |
| CanonicalJson.SameDecidesEquality | scripts/build-postal-context-vi-m2.ts:50 | `same` is equality of values up to key order |
| CanonicalJson.ManifestTextIdentifiesRelease | scripts/build-postal-context-vi-m2.ts:172-173 | the digested text is the same exactly for releases that agree on every field but the digest, in any key order |
| Geometry.RingArea | scripts/build-postal-context-vi-m2.ts:64-70 | the loop computes half the sweep of the ring |
| Geometry.PointInRing | scripts/build-postal-context-vi-m2.ts:76-83 | the toggling loop computes the parity of crossings around the closed ring |
| Geometry.CrossesSymmetric | scripts/build-postal-context-vi-m2.ts:80 | the crossing test does not depend on the direction of an edge, and no point-like edge is crossed |
| Geometry.ChordSplitsInside | scripts/build-postal-context-vi-m2.ts:76-83 | cutting a ring between any two vertices gives two rings whose answers differ exactly when the point is inside |
| Geometry.ChordSplitsArea | scripts/build-postal-context-vi-m2.ts:64-70 | the areas of the two rings add up to that of the ring |
| Geometry.StartVertexIrrelevant | scripts/build-postal-context-vi-m2.ts:76-83 | the answer does not depend on the vertex the ring starts at |
| Geometry.LeftOfAll | scripts/build-postal-context-vi-m2.ts:76-83 | left of a path, the parity of crossings only depends on its two ends, hence is even around a ring |
| Geometry.InsideIsInBox | scripts/build-postal-context-vi-m2.ts:76-83 | a point reported inside lies in the half-open bounding box of the ring |
| Geometry.InspectRing | scripts/build-postal-context-vi-m2.ts:95-104 | a ring is accepted exactly when it is long enough, closed, not flat, and in scope; the bounds stay the smallest box; ring errors come first |
| Geometry.InspectGeometry | scripts/build-postal-context-vi-m2.ts:87-111 | the counter loops accept exactly the collections with the expected shapes, rings, counts and tight bounds; otherwise the first faulty ring or shape decides the failure, and the denominators only when there is none |
| Geometry.AcceptedPointInBounds | scripts/build-postal-context-vi-m2.ts:84-86 | a point found in an accepted geometry lies within the reported bounds |
| Csv.ParseCsv | scripts/import-official-municipalities.ts:50-79 | the index loop with its look-ahead is the character-by-character state machine |
| Csv.ReadDoubled | scripts/import-official-municipalities.ts:58-62 | inside quotes, doubled quotes, commas and line breaks are read back as text |
| Csv.ReadEnding | scripts/import-official-municipalities.ts:66-71 | CRLF, LF and CR each end exactly one row |
| Csv.ParseUndoesRender | scripts/import-official-municipalities.ts:50-79 | for every table, any choice of quoting and row endings, and an optional last terminator, reading the rendering returns the table without its all-blank rows |
| TexText.EscapePlain | scripts/build_address_morphism_pdf.py:27-40 | the recursive escape with its backtick pairs |
| TexText.SplitMathSegments | scripts/build_address_morphism_pdf.py:43-69 | the scanning loop computes the segments |
| TexText.ConvertInline | scripts/build_address_morphism_pdf.py:72-79 | prose is escaped and formulas are copied |
| TexText.SplitConcatenates | scripts/build_address_morphism_pdf.py:43-69 | the segments concatenate to the text, for every text |
| TexText.SplitDelimits | scripts/build_address_morphism_pdf.py:43-69 | every formula segment carries matching delimiters |
| TexText.EscapeIsReversible | scripts/build_address_morphism_pdf.py:27-40 | a decoder recovers every text from its escaped form, unpaired backticks and nested specials included |
| TexText.InlineIsReversible | scripts/build_address_morphism_pdf.py:72-79 | the decoder recovers every text from its conversion, formulas included |
| Markdown.MarksNeedNoText | scripts/build_address_morphism_bilingual_pdfs.py:323-338 | on stripped lines the tests that end a paragraph agree with the branches that take a heading, bullet or item |
| Latex.CheckHeadingLines | scripts/build_address_morphism_pdf.py:253-277 | a heading closes the list and the abstract, and leaves open exactly the abstract when it is one, whatever its level or appendix mark |
| Latex.ConvertTable | scripts/build_address_morphism_pdf.py:128-149 | header and body rows, padded or cut to the header's width, inside one group and table |
| Latex.ConvertTurn | scripts/build_address_morphism_pdf.py:193-300 | one turn of the scanner: which branch takes the line, what it emits, and the flags after it |
| Latex.ConvertMarkdown | scripts/build_address_morphism_pdf.py:185-305 | the whole loop emits what the turns emit, then closes the list and the abstract that are open |
| Latex.CheckTurn | scripts/build_address_morphism_pdf.py:193-300 | whatever the line, the open environments stay a function of the four flags, except at a formula bracket inside a formula |
| Latex.NestedExactlyWhenTidy | scripts/build_address_morphism_pdf.py:185-305 | the output is properly nested and closed exactly when fences and formula brackets pair up |
| Latex.OtherEnvironmentsBalance | scripts/build_address_morphism_pdf.py:185-305 | for every input, lists, abstracts, quotes and tables are begun as often as ended |
| Latex.NestedFormulaIsUnbalanced | scripts/build_address_morphism_pdf.py:212-222 | a concrete text whose second opening bracket leaves the output unbalanced |
| Blocks.BuildBlocks | scripts/build_address_morphism_bilingual_pdfs.py:248-345 | the bilingual scanner terminates on every text and returns its blocks |
| Blocks.BuildBody | scripts/build_english_paper_pdf.py:378-476 | where the paper scanner terminates it returns its blocks |
| Blocks.ParagraphStop | scripts/build_english_paper_pdf.py:460-472 | a line that reaches the paragraph branch stops it at once exactly in the paper scanner at a half formula |
| Blocks.AdvancesExactlyWhenPassable | scripts/build_english_paper_pdf.py:378-476 | a turn advances exactly when the line passes a test that a caller can make |
| Blocks.TerminatesExactlyWhenPassable | scripts/build_english_paper_pdf.py:378-476 | the line counter reaches the end exactly when every line the scanner stops at is passable |
| Blocks.PaperEndsExactlyWhenClear | scripts/build_english_paper_pdf.py:378-476 | the line counter reaches the end exactly on texts that read clear: line by line, skipping blocks up to the line that stops them, no half formula outside a block but at a table |
| Blocks.PassableTexts | scripts/build_address_morphism_bilingual_pdfs.py:248-345 | every text is passable for the bilingual scanner, and for the paper scanner every text without half formulas |
| Blocks.PaperScannerCanHang | scripts/build_english_paper_pdf.py:465 | on a concrete one-line text the counter never moves |
| Blocks.BlocksInOrder | scripts/build_address_morphism_bilingual_pdfs.py:248-345 | blocks are in order, non-empty, and do not overlap |
| Blocks.EachLineInOneBlock | scripts/build_address_morphism_bilingual_pdfs.py:248-345 | each non-blank line lies in exactly one block |
| Placement.PlaceCountries | scripts/generate-global-repository-placement.ts:2325-2335 | the loop keeps a country exactly when its repository was not emitted before |
| Placement.KeptFacts | scripts/generate-global-repository-placement.ts:2317-2335 | every repository of the input is kept exactly once across files |
| Placement.KeptIsFirst | scripts/generate-global-repository-placement.ts:2326-2329 | the country kept for a repository is the first one of the input |
| Placement.Generate | scripts/generate-global-repository-placement.ts:2313-2375 | the files' continents in order of first mention, each with the regions of all its files and only countries not emitted before, then Antarctica; the ids are those of the kept countries and Antarctica |
| Placement.UniqueExactlyWhenRulesOk | scripts/generate-global-repository-placement.ts:2291-2354 | the ids are distinct for every input exactly when the split rules name no child twice, nor a country, nor Antarctica |
| Placement.SortFacts | scripts/agid-core-data-production-loop.ts:93 | sorting by order is a stable permutation in which orders do not decrease |
| Placement.FlattenUnits | scripts/agid-core-data-production-loop.ts:92-129 | the nested loops list each country's repository and then its children, in sorted continents |
| Placement.GeneratedUnitsAreDistinct | scripts/agid-core-data-production-loop.ts:92-129 | units flattened from a generated placement, written in any order, have distinct ids |
| Placement.GeneratedLedgerConserves | scripts/agid-core-data-production-loop.ts:139-173 | on such a placement every sequence of commands keeps completed + remaining = total |
| Ledger.SummarizeProgress | scripts/agid-core-data-production-loop.ts:139-173 | the loops compute the latest-wins summary: done and unfinished ids, selection, and counts per continent |
| Ledger.RunCli | scripts/agid-core-data-production-loop.ts:207-263 | what one command appends, which report it gives, and when it refuses a unit |
| Ledger.OneCommand | scripts/agid-core-data-production-loop.ts:218-263 | a command keeps the ledger sound, completes only the marked unit, and keeps the unit in progress selected |
| Ledger.ReachableIsSound | scripts/agid-core-data-production-loop.ts:218-263 | after any sequence of commands at most one unit is in progress, ever completed equals latest completed, and each recorded counter is the number remaining at that entry |
| Ledger.CompletedForever | scripts/agid-core-data-production-loop.ts:139-151 | completed units stay completed under all further commands |
| Ledger.SelectedUntilMarked | scripts/agid-core-data-production-loop.ts:153-155 | a unit in progress stays the only one and stays selected until a command marks it |
| Ledger.SummaryConserves | scripts/agid-core-data-production-loop.ts:157-172 | on reachable ledgers completed + remaining = total, and the continent counts add up to each |
| Ledger.MarkSelectedCounts | scripts/agid-core-data-production-loop.ts:218-242 | marking the selected unit lowers the remaining count by one |
| Ledger.EveryMarkCounts | scripts/agid-core-data-production-loop.ts:218-263 | marking the selected unit n times leaves total - n units; nothing is selected exactly after as many commands as units |
| MirrorProtocol.ContactsOfCall | server.ts:565-716 | a call contacts only mirrors it found eligible, or any after a reset, none twice, and no more than its cap |
| MirrorProtocol.ContactWasEligible | server.ts:862-871 | a contacted mirror was not blacklisted when its call began, unless that call reset the blacklist |
| MirrorProtocol.BlockedUnlessLapsed | server.ts:849-970 | with interleaved calls: while a listing should hold and nothing was reset, the mirror is blocked exactly unless a later listing replaced it and has lapsed |
| MirrorProtocol.CandidateWhenLapsed | server.ts:862-871 | a call that begins meanwhile may contact the mirror exactly when such a listing has lapsed |
| MirrorProtocol.HonouredUnlessUndercut | server.ts:849-970 | over a whole run with a running clock: listings are honoured until they end or a reset exactly when no call already under way relists a mirror to a time that a later call begins past |
| MirrorProtocol.Failover | server.ts:849-970 | contacting a mirror before its blacklisting ends needs a reset, or a call already under way at the time of listing that relisted it to a time now past |
| MirrorProtocol.HonouredInTurn | server.ts:565-716 | when calls do not overlap, every listing is honoured |
| MirrorProtocol.FailoverInTurn | server.ts:565-716 | when calls do not overlap, an early contact needs a reset since the listing |
| MirrorProtocol.OverlapShortensABlacklisting | server.ts:684-688 | two overlapping calls shorten a two-hour blacklisting to a minute, and a third contacts the mirror without any reset |
| MirrorServices.OverlapComesFromFaults | server.ts:684-688 | the listings of that run are those of a failed name lookup and of a timeout, for the times at which the two calls start |
| MirrorServices.AnswerIsFirst | server.ts:606-716 | the answer comes from the first mirror in order that answers, and there is one exactly when some mirror answers |
| MirrorServices.ReverseListsLater | server.ts:626-688 | a failed mirror is blacklisted for a positive time of at most two hours from the start of the call |
| MirrorServices.OverpassListsLater | server.ts:912-955 | every Overpass contact answers or blacklists the mirror for 20 seconds to four hours from its failure |
| MirrorServices.ReverseGeocoder.PerformOsmReverse | server.ts:565-716 | always returns a place: the first mirror's answer, else the model's, else the coordinates; its contacts and listings are a run of the protocol |
| MirrorServices.OverpassProxy.FetchFromOverpass | server.ts:849-970 | fails exactly when validation fails; a fresh cached result costs no contact; otherwise at most six contacts, and only an answer is cached |
| RegionalCache.Cache.Get | server.ts:2379-2385 | returns the last value written to a key exactly when the key is held and the write is younger than three hours |
| RegionalCache.Cache.Set | server.ts:2387-2393 | after a write the key holds exactly that entry |
| RegionalCache.JustWrittenIsHeld | server.ts:2387-2393 | the entry just written is never the one evicted |
| RegionalCache.HeldIsLastWrite | server.ts:2379-2393 | after any history, what is held under a key is the last value written to it |
| RegionalCache.FirstInFirstOut | server.ts:2387-2393 | keys evicted followed by keys held are all keys in order of entry, and none is evicted before the cache is full; overwriting moves nothing |
| RegionalCache.BoundedUnlessOverflowed | server.ts:2389-2392 | more than 2000 entries are held exactly when a new key met a full cache whose oldest key is empty |
| RegionalCache.NeverOverflows | server.ts:2389-2392 | for every history without the empty key at most 2000 entries are held |
| RegionalCache.GrowsWithoutBound | server.ts:2390-2391 | with the empty key first, every number of entries is reached |
| QualityStats.Monitor.UpdateQualityStats | server.ts:259-276 | an update leaves the statistics that the history of samples leads to, and no other service changes |
| QualityStats.AlwaysBalanced | server.ts:259-276 | after any history total = success + fail = the sums over regions, and mean times count is the sum over regions of mean times count |
| QualityStats.CollectedDescribes | server.ts:262-266 | counts are those of the service's samples, and mean times count is the sum of their durations |
| QualityStats.RegionDescribes | server.ts:268-274 | the same in each region; a region is recorded exactly when it has samples |
| Commitment.EvidenceCommitmentRef | scripts/export-playlist-commerce-webhook-preflight.ts:239-247 | the loop in signed 32-bit operators computes the unsigned hash modulo 2^32 |
| Commitment.XorUndoes | scripts/export-playlist-commerce-webhook-preflight.ts:243 | a second exclusive or with the same number undoes the first |
| Commitment.TimesPrimeIsInjective | scripts/export-playlist-commerce-webhook-preflight.ts:244 | multiplication by the FNV prime is injective modulo 2^32 |
| Commitment.ImulByPrime | scripts/export-playlist-commerce-webhook-preflight.ts:244 | the signed 32-bit product is the unsigned product modulo 2^32 |
| Commitment.HashIsInjective | scripts/export-playlist-commerce-webhook-preflight.ts:242-245 | any text takes different hashes to different hashes |
| Commitment.SingleChangeChangesReference | scripts/export-playlist-commerce-webhook-preflight.ts:239-247 | texts of equal length that differ in exactly one code unit have different references |
| Commitment.Hex8Facts | scripts/export-playlist-commerce-webhook-preflight.ts:246 | the suffix is exactly eight lower-case hexadecimal digits, from which the hash can be read back |
| Commitment.ReferenceIsHash | scripts/export-playlist-commerce-webhook-preflight.ts:246 | with one prefix, references agree exactly when hashes do |
| Commitment.ReferenceMatchesFormat | scripts/export-playlist-commerce-webhook-preflight.ts:444-450 | every reference passes the artifact's format check for its prefix |

## Left out

- Projection and prefixes: latitude and longitude, tangent correction, face selection, region datasets and cell polygons. The model starts from integer face and cell.
- Agid.DecodeAgid: the result holds prefix, face and cell; the latitude, longitude and bounds computed from them, and the check that they are finite, are left out with the projection.
- Agid.ValidateAgid: texts are sequences of Unicode characters, with the length counted in UTF-16 units; unpaired surrogates are not represented.
- Hilbert.EncodeHilbert: bits are tested on unbounded integers; above level 31 the source's 32-bit `&` no longer does, and it only uses level 21.
- Upper-casing is a parameter that maps capital letters and digits to themselves; trimming uses the white space of the language.
- Hilbert.EncodeHilbertNative: the native loop is modelled as compiled without overflow checks, where subtraction wraps; the debug build stops instead.
- CanonicalJson.DecimalsAgree: JSON numbers are integers; the printing of fractions is not part of this model, and only that printing is injective is used elsewhere.
- Geometry: floating-point rounding, positions with fewer than two coordinates or non-finite ones, and the text of error messages.
- `recordsFromCsv` and the municipality records built from the rows.
- Latex.ConvertMarkdown: output lines are tokens; section commands and the document frame are not spelled out, and metadata is read elsewhere.
- Latex.ConvertTable: font, column separation and column widths are one token.
- Latex.NestedExactlyWhenTidy: environments are those the scanner emits; copied code and formula lines, and converted text, are inert, so a literal `\end{lstlisting}` in a code block is not seen.
- Latex.OtherEnvironmentsBalance: likewise, environment commands inside copied lines and formulas are not counted.
- Digits in Markdown patterns are a parameter (the Unicode class is not spelled out), of which only that a backslash is no digit is assumed.
- Blocks: the HTML and flowables made of a block, page breaks, and the table of contents.
- Placement.Generate: slugs and index repositories are left out, and the final sort by order and name is any permutation.
- Placement.FlattenUnits: of a unit only the id and the continent are kept; kind, region, names and parent are not.
- Split rules are looked up by code in a plain map; codes that name a property of every object are not part of this model.
- Ledger: reading and writing the file, timestamps, notes, and the report fields that repeat the summary.
- Mirror names, their priority order and the random shuffle: names are distinct parameters and the sort is any permutation. The search service shares the reverse blacklist under other names and is not part of this model.
- Replies of mirrors are classified (thrown by kind of fault, status, usable body); fetching, aborting, timers and log messages are not modelled.
- MirrorServices.OverpassProxy.FetchFromOverpass: one call runs to its end; interleaved calls are covered by the protocol, not by the class.
- Query validation is a parameter: a normalized query or the reason it is refused.
- Statistics and averages are exact reals; region names that collide with properties of every object are not part of this model.
- SHA-256: the digested text is modelled, the digest is not.
- Routes, rate limiting, the user interface, plan and export scripts, and SDK stubs are data and plumbing that would only add easy members.
