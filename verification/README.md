# A model of the Tancmark watermarking toolkit

This project models the algorithms at the core of the toolkit in Dafny and proves what they promise. Loops, in-place
writes and mutable objects of the sources are methods and a class; each is proved equal to a specification function, and
the promises are lemmas about these functions.

| module | what it models |
|---|---|
| `Bytes`, `Fields`, `Crc32`, `Zip`, `DocxSeal`, `DocxLaws` | the DOCX seal with its own CRC-32, ZIP writer and ZIP reader (sections 4.3.7, 4.3.12, 4.3.16 and 4.4.7 of PKWARE APPNOTE.TXT) |
| `Search`, `Markers`, `Whitespace`, `SealGuards`, `AudioSeal`, `AudioLaws` | the audio seal: an appended RIFF chunk, framed markers and their scan |
| `IsoBoxes`, `BoxWriting`, `FrameSelection` | the Live worker's box walker and fragment splitter (section 4.2 of ISO/IEC 14496-12) and its streaming top-four selection |
| `EditDistance`, `FuzzyMatch`, `WordDiff` | two edit-distance loops, the fuzzy canary match, and the word diff with its table and backtrace |
| `Cascade` | the hash-linked sentence chain, greedy verification, break search and reorder test |
| `Homoglyph`, `ZeroWidth`, `KeyedBits`, `Messages`, `Synonyms`, `MultiLayer`, `ChannelScores` | the three text layers, the protection pipeline and two channel scorers |
| `Spans`, `Honeytokens`, `Jitter` | span rewriting for honeytokens and numeric jitter |
| `Fingerprint`, `Canary`, `Scramble` | the user fingerprint, the canary sentence and the glyph scramble |
| `Attribution`, `Verdict` | n-gram attribution and the tiered verdict |
| `HeavyGate` | the demo server's admission gate as event-loop steps |
| `Prelude`, `Members`, `Sorting`, `Ranking`, `Ratios`, `Decimals` | shared notions: options, distinctness, filtering, stable sorting and when it ignores the order before it, lowest-scoring choice, ratios, decimal printing |

## Reading the model

- Foreign functions are parameters: SHA-256 and HMAC, HKDF, deflate and inflate, UTF-8, the JSON parser, collation and
  case mapping are function-valued fields of a `Platform`, `Crypto`, `Host`, `Lexicon` or `Hashes` datatype. What is
  assumed of them stands in the predicates named `Lawful...`: inflating undoes deflating, decoding undoes encoding,
  parsing undoes printing, digests have their fixed length, casing a listed word gives a form of that word. No member
  assumes a hash to be free of collisions; where that matters, the conclusion names the collision.
- Results of regular expressions, tokenizers and the Turkish sentence splitter are inputs, restricted only to what such a
  search can return.
- Scores are real numbers, and the comparisons with 0.2, 0.5, 0.7, 0.8 and 0.35 are exact. Text is a sequence of Unicode
  scalar values. Integer widths are explicit where the sources write fixed-width fields.
- The word diff describes its table as 16-bit cells in its comment; the code uses plain numbers, and so does the model.
- A honeytoken position is documented as the place of insertion; the code reports the first hit of a search, which can lie
  before it. When it does not is stated exactly (`Honeytokens.InjectionLaws`, `Jitter.JitterLaws`, `Jitter.HitCanBeEarly`).
- The cascade comment calls the reorder flag a sign of non-monotonic neighbours; the flag is proved to speak about all
  pairs.
- The audio seal of a container other than WAV is lost behind a dangling begin pattern, and exactly then unless the source
  held a copy (`AudioSeal.OwnSealIsRead`, `AudioSeal.TailSealCanBeLost`).
- Numeric jitter calls itself idempotent in one comment and not in the next; it is so only where it makes no token
  (`Jitter.SecondPass`).
- Fingerprint encoding strips look-alike letters even with the homoglyph channel off, so that the reader takes every carrier
  for a 0 (`Fingerprint.OffChannelContradicts`).
- The keyed random generator of the scramble divides by 0xFFFFFFFF and can return 1. A first draw of 1 reads the cell
  behind the list; the model has that cell and shows exactly when the hole it leaves makes map generation fail.
- A collation is any total preorder, because that of a locale holds canonically equivalent strings for equal. The comments
  of the sources promise a deterministic order by labels or ids; how far that holds is stated with its exact condition
  (`Attribution.RankingIgnoresOrder`, `Verdict.RankingIgnoresOrder`).
- A bit count of 0 is allowed in the fingerprint, where a remainder modulo 0 names no slot.

## Model

| member | source | states |
|---|---|---|
| `Crc32.BuildTable` | artifacts/api-server/src/aiSeal/docxAiSealEngine.ts:492-502 | The table holds, for every byte, the remainder of dividing it bit by bit by the reflected polynomial 0xEDB88320. |
| `Crc32.ComputeCrc` | artifacts/api-server/src/aiSeal/docxAiSealEngine.ts:484-490 | The table-driven loop computes the bit-by-bit division of the whole message, with all ones before and after, for every byte string. |
| `Crc32.ShiftsLinear` | artifacts/api-server/src/aiSeal/docxAiSealEngine.ts:484-502 | The division is linear over exclusive or, which is why one table of 256 remainders is enough. |
| `Crc32.BurstChangesCrc` | artifacts/api-server/src/aiSeal/docxAiSealEngine.ts:484-490 | Two byte strings of equal length that differ only within four consecutive bytes never have the same checksum. |
| `Crc32.PolynomialMeans` | artifacts/api-server/src/aiSeal/docxAiSealEngine.ts:492-502 | The polynomial, bit for bit: the powers 26, 23, 22, 16, 12, 11, 10, 8, 7, 5, 4, 2, 1 and 0 of the standards, reflected. |
| `Crc32.ShiftMeans` | artifacts/api-server/src/aiSeal/docxAiSealEngine.ts:496-498 | A division step moves the register down by one and adds the polynomial exactly where a one falls out. |
| `Crc32.InversionMeans` | artifacts/api-server/src/aiSeal/docxAiSealEngine.ts:484-490 | The register starts with ones, and the checksum is the inverted remainder. |
| `Fields.FillHeader` | artifacts/api-server/src/aiSeal/docxAiSealEngine.ts:433-444 | Writing the fixed-width fields and the name in place yields the header layout, field after field. |
| `Fields.FieldHeld` | artifacts/api-server/src/aiSeal/docxAiSealEngine.ts:433-444 | Every field of a layout without gaps can be read back at its own offset. |
| `Bytes.FieldsSpell` | artifacts/api-server/src/aiSeal/docxAiSealEngine.ts:363-377 | Fields are read as the numbers their bytes spell, lowest digit first, and big-endian ones highest first. |
| `Bytes.WrittenSpell` | artifacts/api-server/src/aiSeal/docxAiSealEngine.ts:433-474 | Fields written spell the numbers given. |
| `Zip.NormalizeLaws` | artifacts/api-server/src/aiSeal/docxAiSealEngine.ts:353-359 | Entry names come out relative, with forward slashes and without dots, and normalizing keeps exactly the names that already are. |
| `Zip.NormalizedText` | artifacts/api-server/src/aiSeal/docxAiSealEngine.ts:353-359 | A normalized name is the name behind its leading slashes of either kind, with forward slashes; it is refused exactly if nothing is left or two dots follow each other in it. |
| `Zip.FindEndOfCentralDirectory` | artifacts/api-server/src/aiSeal/docxAiSealEngine.ts:412-420 | The backward search is the specified one over the last 65,557 bytes. |
| `Zip.FoundEndIsLast` | artifacts/api-server/src/aiSeal/docxAiSealEngine.ts:412-420 | The record found is the last place in range with the end signature, and none is found exactly when there is no such place. |
| `Zip.WriteZipEntries` | artifacts/api-server/src/aiSeal/docxAiSealEngine.ts:422-482 | Writing succeeds exactly when all names can be normalized and all counts, lengths and offsets fit their 16 or 32 bits, and fails on the first obstacle; the result is well written. |
| `Zip.ArchiveIsWellWritten` | artifacts/api-server/src/aiSeal/docxAiSealEngine.ts:427-481 | Field by field at the offsets of sections 4.3.7, 4.3.12 and 4.3.16: both headers of every entry hold the CRC-32 of its data, both lengths, method 8, flag 0x0800, name and offset; data follow their header; the end record counts and locates the directory. |
| `Zip.ReadZipEntries` | artifacts/api-server/src/aiSeal/docxAiSealEngine.ts:361-406 | The reading loop is the specified walk over the central directory, with its errors. |
| `Zip.ReadMeans` | artifacts/api-server/src/aiSeal/docxAiSealEngine.ts:361-406 | For any bytes with an end record and a directory of headers at the places of the standard, local headers anywhere, with any extra fields, comments and local names: the reader returns what the listed parts mean, in order, up to the first refusal. |
| `Zip.Refusals` | artifacts/api-server/src/aiSeal/docxAiSealEngine.ts:378-402 | Which parts are refused and why: unsafe names, then encryption, then methods other than stored and deflated, then data that do not inflate; directories are skipped. |
| `Zip.FirstRefusal` | artifacts/api-server/src/aiSeal/docxAiSealEngine.ts:369-403 | The first refused part decides on the error, whatever follows it. |
| `Zip.BrokenHeaders` | artifacts/api-server/src/aiSeal/docxAiSealEngine.ts:370-388 | Headers that do not start with their signature are refused, and so are headers beyond the end. |
| `Zip.CentralRead` | artifacts/api-server/src/aiSeal/docxAiSealEngine.ts:369-383 | A central header as laid out, with any extra field and comment, says what its part is, at any position. |
| `Zip.LocalRead` | artifacts/api-server/src/aiSeal/docxAiSealEngine.ts:389-395 | A local header as laid out, with any name and extra field of its own, is followed by the data of its part. |
| `Zip.ReadUndoesArchive` | artifacts/api-server/src/aiSeal/docxAiSealEngine.ts:361-482 | Reading an archive of stored or deflated entries, with any extra fields, comments, checksums and local names, yields the entries in order, end-of-directory signatures in the data included. |
| `Zip.ReadUndoesWrite` | artifacts/api-server/src/aiSeal/docxAiSealEngine.ts:361-482 | Reading what was written yields the normalized entries without the directory names. |
| `Zip.RoundTripIsExact` | artifacts/api-server/src/aiSeal/docxAiSealEngine.ts:353-359 | The round trip returns exactly the entries written if and only if every name is normalized and no directory name. |
| `Zip.FilesRoundTrip` | artifacts/api-server/src/aiSeal/docxAiSealEngine.ts:361-482 | For such entries that fit, reading undoes writing exactly. |
| `Zip.WalkListsFiles` | artifacts/api-server/src/aiSeal/docxAiSealEngine.ts:378-402 | Whatever archive is read, all entries listed have normalized names and none is a directory. |
| `DocxSeal.UpsertNamed` | artifacts/api-server/src/aiSeal/docxAiSealEngine.ts:304-310 | After an upsert the name has exactly the new contents once, and every other name its old entries in their old order. |
| `DocxSeal.OpenedIsFiles` | artifacts/api-server/src/aiSeal/docxAiSealEngine.ts:275-287 | Every package that passes the guards consists of files with normalized names. |
| `DocxSeal.ContentTypesLaws` | artifacts/api-server/src/aiSeal/docxAiSealEngine.ts:333-343 | Both markers are declared afterwards exactly if they were before or the closing tag exists, and declaring again changes nothing. |
| `DocxSeal.OnlyOwnTag` | artifacts/api-server/src/aiSeal/docxAiSealEngine.ts:248-255 | A marker text contains a tag of the same length exactly when it is its own. |
| `DocxLaws.TagsTell` | artifacts/api-server/src/aiSeal/docxAiSealEngine.ts:248-255 | The tag is the prefix and the digest of version, colon and id, and different ids are hashed as different messages. |
| `DocxLaws.EscapeIsByChar` | artifacts/api-server/src/aiSeal/docxAiSealEngine.ts:345-351 | Four replacements one after the other escape every character by itself. |
| `DocxLaws.MarkerTexts` | artifacts/api-server/src/aiSeal/docxAiSealEngine.ts:312-331 | The texts of the two marker parts, line by line. |
| `DocxLaws.DeclaredText` | artifacts/api-server/src/aiSeal/docxAiSealEngine.ts:333-343 | A declaration goes in front of the first closing tag, unless there is none or the part is declared already. |
| `DocxSeal.MarkersNameOwnTag` | artifacts/api-server/src/aiSeal/docxAiSealEngine.ts:312-331 | Each of the two marker parts contains the tag of an id exactly when that tag was sealed. |
| `DocxSeal.SealDocxAiDocument` | artifacts/api-server/src/aiSeal/docxAiSealEngine.ts:151-183 | Sealing follows the specification: guards in order, three upserts, writing. |
| `DocxSeal.ReadDocxAiSeal` | artifacts/api-server/src/aiSeal/docxAiSealEngine.ts:185-202 | Reading follows the specification: guards in order, two marker searches, classification. |
| `DocxLaws.ReadMeans` | artifacts/api-server/src/aiSeal/docxAiSealEngine.ts:195-234 | For every package the guards let through: found with 100 percent if and only if the first package marker and the first property marker both hold the tag somewhere in their text; a weak signal with 50 if and only if exactly one does; else nothing. |
| `DocxLaws.UnsealedReadsNothing` | artifacts/api-server/src/aiSeal/docxAiSealEngine.ts:293-296 | A document without the two parts has nothing reported. |
| `DocxLaws.GuardsMean` | artifacts/api-server/src/aiSeal/docxAiSealEngine.ts:258-291 | The guards in plain terms: the flag, the id, the size up to 62,914,560 bytes, the archive, and the two parts every document has. |
| `DocxSeal.SealThenRead` | artifacts/api-server/src/aiSeal/docxAiSealEngine.ts:151-234 | Reading a sealed file that is within the size limit finds the sealed id with full confidence, and for an id with another tag reports nothing at all, not even a weak signal. |
| `DocxSeal.SealKeepsOtherParts` | artifacts/api-server/src/aiSeal/docxAiSealEngine.ts:158-172 | The entries of every name other than the three rewritten parts keep their bytes and their order. |
| `DocxLaws.SealedHolds` | artifacts/api-server/src/aiSeal/docxAiSealEngine.ts:151-183 | What a sealed package holds under each name: the two marker texts, the content types with both declarations, and everything else as it was. |
| `DocxSeal.SealedIsSorted` | artifacts/api-server/src/aiSeal/docxAiSealEngine.ts:304-310 | The sealed package is sorted by the collation of its names. |
| `DocxSeal.SealTwice` | artifacts/api-server/src/aiSeal/docxAiSealEngine.ts:151-183 | Sealing a sealed file again with the same id returns the same bytes, for every collation of names, also one that ties different names. |
| `EditDistance.Levenshtein` | lib/aegis-core/src/cascadeHash.ts:335-357 | The two rows, filled and swapped, compute the recursive edit distance. |
| `EditDistance.OneRowDistance` | lib/aegis-core/src/paraphraseTolerance.ts:58-69 | The single row, overwritten in place with a saved diagonal, computes the same distance. |
| `EditDistance.NormLevenshtein` | lib/aegis-core/src/paraphraseTolerance.ts:53-71 | The similarity is one minus the relative distance for all strings, empty ones included. |
| `EditDistance.EditsAtLeastDist` | lib/aegis-core/src/cascadeHash.ts:335-357 | No list of insertions, deletions and substitutions that leads from one string to the other is shorter than the distance. |
| `EditDistance.ShortestEdits` | lib/aegis-core/src/cascadeHash.ts:335-357 | A list of exactly that many edits exists. |
| `EditDistance.DistSymmetric` | lib/aegis-core/src/cascadeHash.ts:335-357 | The distance is symmetric. |
| `EditDistance.DistZeroOnlyEqual` | lib/aegis-core/src/cascadeHash.ts:335-357 | Distance zero means equal strings. |
| `EditDistance.Triangle` | lib/aegis-core/src/cascadeHash.ts:335-357 | The triangle inequality holds. |
| `EditDistance.DistBounds` | lib/aegis-core/src/cascadeHash.ts:335-357 | The distance lies between the difference and the maximum of the lengths. |
| `EditDistance.RelativeDistanceRange` | lib/aegis-core/src/cascadeHash.ts:360-364 | The relative distance lies between 0 and 1, is 0 exactly for equal strings, and is symmetric. |
| `FuzzyMatch.ComputeJaccard` | lib/aegis-core/src/paraphraseTolerance.ts:42-50 | The loop over one token set computes the overlap of both. |
| `FuzzyMatch.JaccardRange` | lib/aegis-core/src/paraphraseTolerance.ts:42-50 | The overlap lies between 0 and 1, is symmetric, and is 1 exactly for equal nonempty token sets. |
| `FuzzyMatch.BestTermLaws` | lib/aegis-core/src/paraphraseTolerance.ts:106-114 | The best term similarity is the maximum over all tokens, attained by the reported token, and 1 exactly when the term is a token. |
| `FuzzyMatch.FuzzyCanaryMatch` | lib/aegis-core/src/paraphraseTolerance.ts:89-130 | The scan over the tokens computes the specified result. |
| `FuzzyMatch.FuzzyIsCapped` | lib/aegis-core/src/paraphraseTolerance.ts:115-130 | A fuzzy hit never scores above 0.79 nor gets the high tier, while the exact term always reaches the cap. |
| `FuzzyMatch.RateMeans` | lib/aegis-core/src/paraphraseTolerance.ts:115-122 | The rating in fifths, its cap, and the levels. |
| `WordDiff.FillTable` | lib/aegis-core/src/wordDiff.ts:60-69 | Every cell of the table holds the length of the longest common subsequence of two prefixes. |
| `WordDiff.Backtrace` | lib/aegis-core/src/wordDiff.ts:71-95 | The walk back yields entries that spell both texts and keep as many tokens as the longest common subsequence has. |
| `WordDiff.PositionalDiff` | lib/aegis-core/src/wordDiff.ts:100-119 | The fallback loop yields the specified place-by-place entries. |
| `WordDiff.PositionalSpells` | lib/aegis-core/src/wordDiff.ts:100-119 | The place-by-place entries spell both texts too, and keep the tokens that agree in place. |
| `WordDiff.Summarize` | lib/aegis-core/src/wordDiff.ts:121-133 | The counts are those of the entries. |
| `WordDiff.DiffWords` | lib/aegis-core/src/wordDiff.ts:48-133 | The entries spell both texts for all inputs; up to 800 tokens a side the kept count is the longest common subsequence, beyond that the agreeing places, never more; similarity is 1 exactly for equal texts. |
| `WordDiff.CommonAtMostLcs` | lib/aegis-core/src/wordDiff.ts:59-69 | No common subsequence is longer than the table says. |
| `WordDiff.LcsAttained` | lib/aegis-core/src/wordDiff.ts:59-69 | One of that length exists. |
| `WordDiff.NoDiffKeepsMore` | lib/aegis-core/src/wordDiff.ts:71-97 | No entries that spell both texts keep more. |
| `WordDiff.SummaryLaws` | lib/aegis-core/src/wordDiff.ts:121-133 | Kept and removed add up to one text, kept and added to the other, and the similarity is a fraction of the entries. |
| `WordDiff.LongestChangesLeast` | lib/aegis-core/src/wordDiff.ts:48-97 | Keeping most is changing least: every other correct diff adds and removes at least as much. |
| `Cascade.BuildCascadeChain` | lib/aegis-core/src/cascadeHash.ts:249-272 | The nodes chain the hashes of the non-empty sentences under the tenant key; the two error cases are those of the key derivation. |
| `Cascade.ChainSpelledOut` | lib/aegis-core/src/cascadeHash.ts:229-272 | Every stored hash is that of client, document, decimal index, previous hash (32 zeros at first) and text, joined by U+241F. |
| `Cascade.MessagesTell` | lib/aegis-core/src/cascadeHash.ts:237-239 | Changing any one of these five changes the message hashed. |
| `Cascade.PickCandidate` | lib/aegis-core/src/cascadeHash.ts:466-497 | Picks the first unused identical candidate, else the first of the closest unused ones within tolerance, else none. |
| `Cascade.WithinMeans` | lib/aegis-core/src/cascadeHash.ts:358-364 | Within tolerance means at most one edit per five characters of the longer sentence. |
| `Cascade.AssignGreedily` | lib/aegis-core/src/cascadeHash.ts:456-498 | The three arrays describe the greedy matching, its distances and the used candidates. |
| `Cascade.GreedyUnique` | lib/aegis-core/src/cascadeHash.ts:456-498 | The greedy rule determines the matching. |
| `Cascade.GreedyIsMatching` | lib/aegis-core/src/cascadeHash.ts:456-498 | The matching uses no candidate twice, pairs only sentences within tolerance, and leaves no deleted sentence with an unused candidate within tolerance. |
| `Cascade.GreedyAtLeastHalf` | lib/aegis-core/src/cascadeHash.ts:415-498 | No matching within tolerance has more than twice as many pairs. |
| `Cascade.ClassesPartition` | lib/aegis-core/src/cascadeHash.ts:500-511 | Every stored sentence is exactly one of deleted, modified and identical. |
| `Cascade.FindBreak` | lib/aegis-core/src/cascadeHash.ts:516-537 | The loop finds the specified break. |
| `Cascade.DetectReorder` | lib/aegis-core/src/cascadeHash.ts:540-550 | The test over neighbours detects an inversion between any two matched sentences. |
| `Cascade.VerifyCascadeChain` | lib/aegis-core/src/cascadeHash.ts:429-565 | The whole verification reports what the greedy matching and the break search say, for both key derivations. |
| `Cascade.Conservation` | lib/aegis-core/src/cascadeHash.ts:552-564 | Candidates not inserted are as many as stored sentences not deleted, and the integrity score is the identical share. |
| `Cascade.NoReorderMeansIncreasing` | lib/aegis-core/src/cascadeHash.ts:540-550 | No reorder is reported exactly when the candidate indices increase over all matched pairs. |
| `Cascade.OwnChainIsIntact` | lib/aegis-core/src/cascadeHash.ts:429-565 | A report on a text against its own chain has integrity 1, no break and empty lists, repeated sentences included. |
| `Cascade.BuildThenVerify` | lib/aegis-core/src/cascadeHash.ts:249-565 | A chain built from a text and then verified against that text under the same secret, client and document reports nothing. |
| `Cascade.OtherOwnerBreaks` | lib/aegis-core/src/cascadeHash.ts:429-565 | Verified for another client, document or key, an untouched text breaks at its first sentence if and only if the keyed hash tells the two first messages apart, which differ if client or document does; its integrity stays 1. |
| `Cascade.LostFrontBreaks` | lib/aegis-core/src/cascadeHash.ts:513-537 | A chain that lost its first nodes breaks at once against the sentences behind them, if and only if the keyed hash tells two messages apart that differ in index and previous hash. |
| `Cascade.ForgedHashIsFound` | lib/aegis-core/src/cascadeHash.ts:513-537 | A stored hash that was replaced is reported exactly where it is, whatever the keyed hash. |
| `Cascade.BreakIsLeastDifference` | lib/aegis-core/src/cascadeHash.ts:516-537 | From any agreeing prefix on, the reported break is the least difference if and only if the two node messages at the least difference do not collide. |
| `Cascade.BreakIsLocalized` | lib/aegis-core/src/cascadeHash.ts:513-537 | On an honest chain the break is the least index where the candidate ends or differs, and null exactly for a prefix, if and only if the keyed hash does not take one value on the two messages of that one index. |
| `Cascade.CollisionIsOfMac` | lib/aegis-core/src/cascadeHash.ts:229-241 | Such a collision is one of the keyed hash: two different messages, named, with one value. |
| `Cascade.LeastDifferenceUnique` | lib/aegis-core/src/cascadeHash.ts:513-537 | There is only one such index. |
| `IsoBoxes.ParseBoxes` | runtime/live/live_streaming_adapter_worker.py:348-368 | The loop computes the specified walk over the boxes, with 32-bit, 64-bit and to-end sizes and its errors. |
| `BoxWriting.BoxesParse` | runtime/live/live_streaming_adapter_worker.py:348-368 | Any list of boxes written digit by digit, highest first, with 32-bit, 64-bit or open sizes, an open one only last, parses to exactly these boxes. |
| `BoxWriting.MalformedIsRefused` | runtime/live/live_streaming_adapter_worker.py:351-366 | Behind any boxes, a cut-off header or one whose size is below its header or beyond the data is refused with its error. |
| `IsoBoxes.ParseTiles` | runtime/live/live_streaming_adapter_worker.py:348-368 | The boxes found tile the data from 0 to its end, each at least 8 bytes long. |
| `IsoBoxes.ParseComposes` | runtime/live/live_streaming_adapter_worker.py:348-368 | Parsing a concatenation is parsing the first part, if none of its boxes runs to the end, followed by the shifted parse of the second. |
| `IsoBoxes.JoinParses` | runtime/live/live_streaming_adapter_worker.py:388-389 | Boxes cut out and joined parse to exactly these boxes, moved together, even when the last one runs to the end. |
| `IsoBoxes.SplitFragmented` | runtime/live/live_streaming_adapter_worker.py:371-396 | The splitter returns the joined init boxes and media boxes, or the first error. |
| `BoxWriting.SplitsBoxes` | runtime/live/live_streaming_adapter_worker.py:371-396 | A list of boxes with one movie fragment: media data must follow it, a file type and a movie box precede it; then exactly the init, free and skip boxes before it, and the segment types, it and the media data, are written out. |
| `BoxWriting.NeedsOneMoof` | runtime/live/live_streaming_adapter_worker.py:374-376 | A list without exactly one movie fragment is refused. |
| `IsoBoxes.SplitPartsReparse` | runtime/live/live_streaming_adapter_worker.py:371-396 | Both parts re-parse to exactly the boxes selected. |
| `IsoBoxes.SelectionShape` | runtime/live/live_streaming_adapter_worker.py:374-387 | The init part holds a file type and a movie box and no media; the fragment is segment types, then one movie fragment, then its media data. |
| `FrameSelection.SelectFrames` | runtime/live/live_streaming_adapter_worker.py:167-170 | Appending, sorting and dropping the fifth at every frame leaves the best four of all frames. |
| `FrameSelection.StreamStep` | runtime/live/live_streaming_adapter_worker.py:167-170 | Keeping the best few along the way is keeping the best few of everything, for any number kept. |
| `FrameSelection.SelectionIsBest` | runtime/live/live_streaming_adapter_worker.py:167-170 | A frame not kept ranks behind every kept one, and four are kept as soon as one is not. |
| `FrameSelection.SelectionMeans` | runtime/live/live_streaming_adapter_worker.py:167-170 | The up to four frames selected have their own scores, each strictly ahead of the next by score or, for equal scores, by index, and all are strictly ahead of every frame left out. |
| `Markers.ScanComposes` | artifacts/api-server/src/aiSeal/audioAiSealEngine.ts:281-325 | The marker scan composes over a border that no pattern crosses: a dangling begin pattern in the first part swallows the second up to its first end pattern. |
| `Markers.IndexOfConcat` | artifacts/api-server/src/aiSeal/audioAiSealEngine.ts:285-291 | A search in such a concatenation finds the hit of the first part, else that of the second. |
| `AudioSeal.AppendWaveChunk` | artifacts/api-server/src/aiSeal/audioAiSealEngine.ts:238-247 | The buffer built and patched in place is the source, the chunk head, the marker and the padding, with the size field rewritten. |
| `AudioSeal.WaveChunkFits` | artifacts/api-server/src/aiSeal/audioAiSealEngine.ts:238-247 | The source keeps all bytes but its size field, that field counts the whole, and the chunk behind it holds tag, length and marker, padded to even length. |
| `AudioLaws.SealedWaveBytes` | artifacts/api-server/src/aiSeal/audioAiSealEngine.ts:98-134 | A sealed WAV byte by byte: size field, source, TMAI chunk, marker, padding, marker. |
| `AudioLaws.SealedOtherBytes` | artifacts/api-server/src/aiSeal/audioAiSealEngine.ts:98-134 | Any other container keeps its bytes and gets one marker behind them. |
| `AudioLaws.MarkerBytes` | artifacts/api-server/src/aiSeal/audioAiSealEngine.ts:249-271 | A marker, line by line. |
| `AudioLaws.ContainersMean` | artifacts/api-server/src/aiSeal/audioAiSealEngine.ts:203-236 | The containers by their first bytes. |
| `AudioSeal.SealAudioAiMedia` | artifacts/api-server/src/aiSeal/audioAiSealEngine.ts:98-134 | The guards run in order; a WAV gets two markers, any other container one. |
| `AudioSeal.ExtractMarkers` | artifacts/api-server/src/aiSeal/audioAiSealEngine.ts:281-325 | The cursor loop collects the tags of all valid marker bodies. |
| `AudioSeal.ReadAudioAiSeal` | artifacts/api-server/src/aiSeal/audioAiSealEngine.ts:136-183 | The guards run in order; score and percentages follow from the number of own markers. |
| `AudioLaws.RefusalMeans` | artifacts/api-server/src/aiSeal/audioAiSealEngine.ts:185-200 | The guards in plain terms and in order. |
| `AudioLaws.TagOfMeans` | artifacts/api-server/src/aiSeal/audioAiSealEngine.ts:292-318 | A marker body counts exactly if it parses and has this version, role and format, a tag, and the checksum of these four. |
| `AudioLaws.MessagesTell` | artifacts/api-server/src/aiSeal/audioAiSealEngine.ts:249-279 | Different ids are hashed as different messages, and so are different tags. |
| `AudioLaws.JudgeMeans` | artifacts/api-server/src/aiSeal/audioAiSealEngine.ts:143-160 | The report by the number of copies: 100 percent from two on, 95 for one, 35 and a weak signal for other tags only, else nothing. |
| `AudioSeal.SealedIsAccepted` | artifacts/api-server/src/aiSeal/audioAiSealEngine.ts:185-236 | A sealed file passes every guard of the reader, except that it may have grown beyond the size limit. |
| `AudioSeal.MarkerSearch` | artifacts/api-server/src/aiSeal/audioAiSealEngine.ts:249-271 | In a marker both patterns occur only where they were written. |
| `AudioSeal.OwnIsAccepted` | artifacts/api-server/src/aiSeal/audioAiSealEngine.ts:249-323 | A written marker body is parsed, checked and yields its own tag. |
| `AudioSeal.SwallowedIsRejected` | artifacts/api-server/src/aiSeal/audioAiSealEngine.ts:291-323 | A body that swallowed a marker is never valid. |
| `AudioSeal.SealedTags` | artifacts/api-server/src/aiSeal/audioAiSealEngine.ts:107-133 | Sealing keeps the valid markers of the source and adds its own, less one if the source dangles. |
| `AudioSeal.OwnSealIsRead` | artifacts/api-server/src/aiSeal/audioAiSealEngine.ts:98-183 | Reading a sealed WAV with its own id always reports found, whatever markers the source holds. Any other container is found if and only if the source has no dangling begin pattern or already held a copy. |
| `AudioSeal.CleanSourceIsRead` | artifacts/api-server/src/aiSeal/audioAiSealEngine.ts:98-183 | Without begin patterns in the source exactly the written copies are found, with score 1 for a WAV and a half otherwise. |
| `AudioSeal.OtherIdIsWeak` | artifacts/api-server/src/aiSeal/audioAiSealEngine.ts:145-163 | An id with another tag gains no copy and at most the weak signal. |
| `AudioSeal.TailSealCanBeLost` | artifacts/api-server/src/aiSeal/audioAiSealEngine.ts:121-133 | The condition for other containers cannot be dropped: this file loses its seal. |
| `Homoglyph.TwinsPair` | lib/aegis-core/src/homoglyph.ts:1-11 | The two letter maps are inverse to each other and share no letter. |
| `Homoglyph.CarrierHoldsBit` | lib/aegis-core/src/homoglyph.ts:13-28 | A carrier keeps the last bit set and its canonical letter; everything else is left alone and carries nothing. |
| `Homoglyph.StripHomoglyphs` | lib/aegis-core/src/homoglyph.ts:30-36 | The loop replaces every twin by its letter. |
| `Homoglyph.StripIsStable` | lib/aegis-core/src/homoglyph.ts:30-36 | Stripping leaves no twins, and leaves texts without twins alone. |
| `ZeroWidth.BitsRoundTrip` | lib/aegis-core/src/zerowidth.ts:11-24 | Bits written as zero-width characters are read back. |
| `ZeroWidth.ExtractZeroWidthBits` | lib/aegis-core/src/zerowidth.ts:17-24 | The loop collects the bits in order. |
| `ZeroWidth.StripZeroWidth` | lib/aegis-core/src/zerowidth.ts:26-30 | The loop keeps the visible characters. |
| `ZeroWidth.ZeroWidthAre` | lib/aegis-core/src/zerowidth.ts:1-9 | The characters taken for zero-width ones, by code point. |
| `ZeroWidth.VisibleIsStable` | lib/aegis-core/src/zerowidth.ts:26-30 | Stripping leaves nothing zero-width and keeps texts without such characters. |
| `ZeroWidth.FrameIs` | lib/aegis-core/src/fingerprint.ts:76-82 | The payload is what lies between the first two marks, even if it is nothing. |
| `ZeroWidth.NoFrame` | lib/aegis-core/src/fingerprint.ts:76-82 | No payload is found only in a text with less than two marks. |
| `ZeroWidth.FrameIsFound` | lib/aegis-core/src/fingerprint.ts:76-82 | A frame in front of a text is found whole, whatever the text holds. |
| `Synonyms.BuildLookup` | lib/aegis-core/src/linguisticShuffler.ts:75-86 | The table maps a key to the first group that lists it, and holds no other key. |
| `Synonyms.ShuffleByClient` | lib/aegis-core/src/linguisticShuffler.ts:151-189 | The replacement pass over maximal letter runs, with its occurrence counts, yields the specified text and list. |
| `Synonyms.LettersAre` | lib/aegis-core/src/linguisticShuffler.ts:112-112 | The letters of a word by code point. |
| `Synonyms.CaseMeans` | lib/aegis-core/src/linguisticShuffler.ts:114-129 | A replacement takes the case of the word it replaces. |
| `Synonyms.VariantSpelled` | lib/aegis-core/src/linguisticShuffler.ts:183-186 | The hashed message of a variant, spelled out. |
| `Synonyms.ChoiceMeans` | lib/aegis-core/src/linguisticShuffler.ts:130-146 | The member a word becomes is selected by the first four digest bytes modulo the size of its group. |
| `Synonyms.DrawsTell` | lib/aegis-core/src/linguisticShuffler.ts:130-146 | Client, group and occurrence can be told from the message hashed for a draw. |
| `Synonyms.SwappedIsStable` | lib/aegis-core/src/linguisticShuffler.ts:160-181 | A replaced word is recognised as the same group, gets the same choice and is not replaced again. |
| `Synonyms.ShuffleIsStable` | lib/aegis-core/src/linguisticShuffler.ts:151-189 | Shuffling a shuffled text changes nothing and records no replacement. |
| `Ranking.LowestLaws` | lib/aegis-core/src/multiLayerProtect.ts:58-67 | The choice is distinct, as large as asked for, and no item left out scores below a chosen one. |
| `Ranking.LowestInOrder` | lib/aegis-core/src/multiLayerProtect.ts:65-67 | Of ascending items, those chosen come before those left out, by score and then by number. |
| `MultiLayer.ChosenAreCarriers` | lib/aegis-core/src/multiLayerProtect.ts:51-68 | The chosen positions are distinct carriers, at least one if there is any, with the lowest scores, earlier ones first among equals. |
| `MultiLayer.ChosenCountMeans` | lib/aegis-core/src/multiLayerProtect.ts:58-58 | How many carriers are flipped: the rounded share, at least one, at most all. |
| `MultiLayer.ScoreMeans` | lib/aegis-core/src/multiLayerProtect.ts:59-64 | The score of a letter is the number its first four digest bytes spell, over client and position. |
| `MultiLayer.LayersTell` | lib/aegis-core/src/multiLayerProtect.ts:59-114 | No two of the three layers ever hash the same message, for any clients; client and position can be told from it. |
| `MultiLayer.ApplyHomoglyphLayer` | lib/aegis-core/src/multiLayerProtect.ts:70-97 | Overwriting the chosen characters in place flips exactly the chosen positions of the stripped text. |
| `KeyedBits.ReadBits` | lib/aegis-core/src/multiLayerProtect.ts:109-121 | The loop reads the first bits of a digest, highest bit first. |
| `MultiLayer.ApplyZeroWidthLayer` | lib/aegis-core/src/multiLayerProtect.ts:123-143 | The layer prepends the framed client bits to the stripped text. |
| `MultiLayer.ProtectByClient` | lib/aegis-core/src/multiLayerProtect.ts:184-238 | The pipeline is the composition of its layers. |
| `MultiLayer.CanonicalIsPlain` | lib/aegis-core/src/multiLayerProtect.ts:180-182 | Canonical texts hold no carrier state, and such texts are their own canonical form. |
| `MultiLayer.LayerOnPlain` | lib/aegis-core/src/multiLayerProtect.ts:70-97 | The homoglyph layer can be stripped off again and shows nothing zero-width. |
| `MultiLayer.CanonicalOfProtected` | lib/aegis-core/src/multiLayerProtect.ts:180-204 | Stripping a protected text leaves the shuffled text, whatever the original held. |
| `MultiLayer.ProtectIsStable` | lib/aegis-core/src/multiLayerProtect.ts:184-238 | Protecting a protected text again for the same client returns the same text, positions and bits, and replaces no word. |
| `MultiLayer.VariantHashCanChange` | lib/aegis-core/src/multiLayerProtect.ts:205-213 | The variant hash of the second pass equals that of the first exactly when the first replaced nothing, or when the keyed hash takes one value on the two different messages of its replacements and of none. |
| `ChannelScores.ScoreHomoglyphChannel` | lib/aegis-core/src/multiLayerProtect.ts:332-388 | The loops compute the F1 score of expected and observed positions. |
| `ChannelScores.F1Range` | lib/aegis-core/src/multiLayerProtect.ts:361-374 | The score lies between 0 and 1 and is 1 exactly when both sets are equal and nonempty. |
| `ChannelScores.PerfectHomoglyphs` | lib/aegis-core/src/multiLayerProtect.ts:332-388 | A suspect scores 1 exactly when its twins are the positions chosen for the client. |
| `ChannelScores.OwnHomoglyphs` | lib/aegis-core/src/multiLayerProtect.ts:332-388 | A protected text scores 1 for its own client as soon as a carrier exists. |
| `ChannelScores.ExtractFramedZwBits` | lib/aegis-core/src/multiLayerProtect.ts:390-403 | The loop with its early exit reads the specified bits of the first frame. |
| `ChannelScores.ScoreZeroWidthChannel` | lib/aegis-core/src/multiLayerProtect.ts:405-428 | The loop counts the agreeing bits. |
| `ChannelScores.OwnZeroWidth` | lib/aegis-core/src/multiLayerProtect.ts:405-428 | A protected text scores 1 for its own client for every positive number of bits; with zero bits the channel is absent. |
| `ChannelScores.PerfectZeroWidth` | lib/aegis-core/src/multiLayerProtect.ts:405-428 | A suspect scores 1 exactly when its frame spells the bits of the client. |
| `Spans.SpliceBefore` | lib/aegis-core/src/honeytokenGenerator.ts:259-268 | Splicing one more replacement in front of those made keeps the left-to-right rewrite behind it. |
| `Spans.PlaceHolds` | lib/aegis-core/src/honeytokenGenerator.ts:252-268 | Every replacement stands at its true place in the rewritten text, and the places do not overlap. |
| `Spans.RewriteIsUndone` | lib/aegis-core/src/honeytokenGenerator.ts:252-268 | Putting the original spans back restores the text, so nothing outside the spans changed. |
| `Spans.ScanFinds` | lib/aegis-core/src/honeytokenGenerator.ts:270-281 | A left-to-right search for the replacements always succeeds, without overlap and never behind the true place. |
| `Spans.ScanIsExact` | lib/aegis-core/src/honeytokenGenerator.ts:270-281 | The scan hits the true place of every replacement if and only if nothing between the replacement before and that place reads like it. |
| `Spans.HitsAreExact` | lib/aegis-core/src/honeytokenGenerator.ts:270-281 | In terms of the source text: if and only if no replacement occurs early in the gap of the text before its span followed by itself. |
| `Honeytokens.ResolveOverlaps` | lib/aegis-core/src/honeytokenGenerator.ts:229-236 | The cursor loop keeps the specified matches. |
| `Honeytokens.KeptResolves` | lib/aegis-core/src/honeytokenGenerator.ts:227-236 | Kept matches are disjoint and in order, every dropped match overlaps a kept one, and no match with the same start as a kept one is longer. |
| `Honeytokens.OverlapMeans` | lib/aegis-core/src/honeytokenGenerator.ts:227-236 | Matches overlap exactly if they share a character. |
| `Ranking.ShareLaws` | lib/aegis-core/src/honeytokenGenerator.ts:240-250 | The share chosen has the wanted size, at least one and at most the limit, and takes the lowest scores. |
| `Ranking.ShareCountMeans` | lib/aegis-core/src/honeytokenGenerator.ts:245-248 | How many are chosen: the rounded share by the clamped density, at least one, at most the limit, six by default. |
| `Ranking.RoundedShareMeans` | lib/aegis-core/src/honeytokenGenerator.ts:247-247 | The rounded share is the whole number nearest to count times density, the larger one of two. |
| `Honeytokens.PlanAndSplice` | lib/aegis-core/src/honeytokenGenerator.ts:252-268 | The descending splice loop yields the single left-to-right rewrite and the replacement list. |
| `Honeytokens.PlanCovers` | lib/aegis-core/src/honeytokenGenerator.ts:257-268 | Exactly the chosen matches are replaced, each by the fake value for its occurrence counted from the right. |
| `Spans.LocateAll` | lib/aegis-core/src/honeytokenGenerator.ts:270-281 | The scanning loop reports the specified positions. |
| `Honeytokens.InjectHoneytokens` | lib/aegis-core/src/honeytokenGenerator.ts:196-284 | Injection fails for a short secret or a missing client, and otherwise yields the specified text and tokens. |
| `Honeytokens.InjectionLaws` | lib/aegis-core/src/honeytokenGenerator.ts:209-283 | Exactly the chosen matches are rewritten and the rest of the text can be restored; every token holds its fake value at its position, and the positions are those of the insertions if and only if no fake value occurs early in the gap before it. |
| `Honeytokens.InjectionCount` | lib/aegis-core/src/honeytokenGenerator.ts:246-250 | The number of tokens is the wanted share, at least one if any match was found. |
| `Honeytokens.ChoiceMeans` | lib/aegis-core/src/honeytokenGenerator.ts:238-250 | Chosen are the matches whose digests start with the lowest bytes, earlier ones first among equals, with the message spelled out. |
| `Honeytokens.SelectionTells` | lib/aegis-core/src/honeytokenGenerator.ts:242-242 | Number and text of a match can be told from the message hashed for its selection. |
| `Honeytokens.SeedsTell` | lib/aegis-core/src/honeytokenGenerator.ts:130-138 | Kind, original and occurrence can be told from the message a fake value is drawn from. |
| `Honeytokens.ReplacementMeans` | lib/aegis-core/src/honeytokenGenerator.ts:264-267 | The messages behind the fake value and the hash of a replaced match. |
| `Jitter.JitterShows` | lib/aegis-core/src/numericJitter.ts:77-98 | A jittered number keeps its length and all digits but the last, which moves by one to three steps around the digits. |
| `Jitter.JitteredRuns` | lib/aegis-core/src/numericJitter.ts:77-98 | Exactly the runs of five to nine digits are jittered, by the step the hashed byte selects. |
| `Jitter.ChoiceMeans` | lib/aegis-core/src/numericJitter.ts:139-148 | Chosen are the numbers whose digests start with the lowest bytes, earlier ones first among equals, with the message spelled out. |
| `Jitter.SelectionTells` | lib/aegis-core/src/numericJitter.ts:77-142 | Index and number can be told from the message hashed for a selection, which is never one hashed for a shift. |
| `Jitter.HashMeans` | lib/aegis-core/src/numericJitter.ts:159-159 | The message behind the hash recorded for a shifted number. |
| `Jitter.AllowedLaws` | lib/aegis-core/src/numericJitter.ts:113-136 | Exactly the matches that overlap no excluded range remain. |
| `Jitter.ExcludedMeans` | lib/aegis-core/src/numericJitter.ts:114-119 | A number is excluded exactly if it shares a character with a range. |
| `Jitter.PlanAndSplice` | lib/aegis-core/src/numericJitter.ts:150-161 | The descending splice loop yields the single left-to-right rewrite. |
| `Jitter.ApplyNumericJitter` | lib/aegis-core/src/numericJitter.ts:100-178 | Jitter fails for a short secret or a missing client, and otherwise yields the specified text and tokens. |
| `Jitter.JitterLaws` | lib/aegis-core/src/numericJitter.ts:100-178 | The length stays, exactly the last digits of the chosen numbers change, their number is the wanted share, and every token is found at its position; the positions are those of the numbers if and only if no jittered number occurs early in the gap before it. |
| `Jitter.HitCanBeEarly` | lib/aegis-core/src/numericJitter.ts:162-174 | A text that holds the jittered number in an excluded range in front: the token is reported there, where nothing was jittered. |
| `Jitter.SecondPass` | lib/aegis-core/src/numericJitter.ts:18-23 | A second pass over the same digit runs returns the same text if and only if the first made no token. |
| `Jitter.ExcludedStays` | lib/aegis-core/src/numericJitter.ts:113-119 | No character inside an excluded range changes, for any bounds of the range. |
| `Fingerprint.EncodeFingerprint` | lib/aegis-core/src/fingerprint.ts:41-69 | The loop sets carrier number k to bit k modulo the number of bits and frames the bits in front. |
| `Fingerprint.CarriersTakeBits` | lib/aegis-core/src/fingerprint.ts:55-61 | Carriers take the bits in turn. |
| `Fingerprint.ReadChannels` | lib/aegis-core/src/fingerprint.ts:90-101 | The loops read the carrier bits and the bits of the first frame. |
| `Fingerprint.FoldToLength` | lib/aegis-core/src/fingerprint.ts:103-116 | The two arrays accumulate, per slot, the set copies and all copies. |
| `Fingerprint.SlotMajority` | lib/aegis-core/src/fingerprint.ts:103-128 | A slot is decoded right exactly when at least half of its copies are set for a one, or more than half are clear for a zero. |
| `Fingerprint.ScoreCandidate` | lib/aegis-core/src/fingerprint.ts:118-129 | The loop computes the share of right slots. |
| `Fingerprint.ScoreRange` | lib/aegis-core/src/fingerprint.ts:118-129 | The score lies between 0 and 1 and is 1 exactly when some slot has copies and all such slots are right. |
| `Fingerprint.RepeatsScoreOne` | lib/aegis-core/src/fingerprint.ts:103-129 | Bits that repeat the bits of a user, however often and however cut off, score 1. |
| `Fingerprint.WholeScoresOne` | lib/aegis-core/src/fingerprint.ts:103-129 | Bits read whole score 1 only for a candidate with the same bits. |
| `Fingerprint.EncodedReads` | lib/aegis-core/src/fingerprint.ts:41-101 | Whatever the text held, for all options: the carriers of its encoding repeat the bits, or zeros with that channel off, and its frame holds the bits, or with that channel off what the frame of the text held. |
| `Fingerprint.IdentifyFingerprint` | lib/aegis-core/src/fingerprint.ts:138-184 | The loops compute the specified confidences, channel scores and ranking. |
| `Fingerprint.SupportsScore` | lib/aegis-core/src/fingerprint.ts:103-129 | Observed bits score 1 for exactly the candidates whose bits every slot with copies confirms by majority. |
| `Fingerprint.ConfidenceOne` | lib/aegis-core/src/fingerprint.ts:148-162 | For any text, the confidence in a candidate is at most 1, and exactly 1 if and only if there is a channel and every channel supports its bits. |
| `Fingerprint.EncodedConfidence` | lib/aegis-core/src/fingerprint.ts:41-162 | After encoding, for all options, it is 1 exactly if some channel reads, all carriers seen agree (or demand zeros with that channel off), and the frame agrees (or that of the text does with that channel off). |
| `Fingerprint.EncoderIsIdentified` | lib/aegis-core/src/fingerprint.ts:138-184 | For all options, the encoding user has confidence exactly 1 if and only if the encoding decodes to its bits; then a user is named to whose bits it decodes, and that is the encoding user unless there is another. With a bit count of 0 nobody is named. |
| `Fingerprint.BothChannelsDecode` | lib/aegis-core/src/fingerprint.ts:36-52 | With both channels on, an encoding decodes to the encoded bits and no others. |
| `Fingerprint.OffChannelContradicts` | lib/aegis-core/src/fingerprint.ts:41-68 | With the homoglyph channel off, the one letter `a` and a single bit of 1 give confidence 0.5, and nobody is named. |
| `Fingerprint.StripUndoesEncode` | lib/aegis-core/src/fingerprint.ts:186-193 | Stripping an encoded text gives what stripping the original gives, for all bits and options. |
| `Canary.FactIsSentence` | lib/aegis-core/src/canary.ts:50-61 | Every generated fact is a plain sentence: visible at its start, ending with a full stop, free of look-alikes, zero-width characters and markers. |
| `Canary.Statements` | lib/aegis-core/src/canary.ts:20-29 | The four sentences a canary can be, spelled out. |
| `Canary.FactMeans` | lib/aegis-core/src/canary.ts:39-61 | Which bytes of the digest select term, noun, sentence and number. |
| `Canary.MarkMeans` | lib/aegis-core/src/canary.ts:92-95 | The thousandths of a draw choose among the three zero-width characters. |
| `Canary.DrawMeans` | lib/aegis-core/src/canary.ts:78-84 | A keyed draw is the first word of the digest over document and position, scaled to 0 .. 1. |
| `Canary.WrapWithEntropy` | lib/aegis-core/src/canary.ts:71-98 | The loop adds the specified noise. |
| `Canary.WrappedCleans` | lib/aegis-core/src/canary.ts:71-98 | The noise can be cleaned off and holds no marker, whatever the density and the draws. |
| `Canary.StripCanaryNoise` | lib/aegis-core/src/canary.ts:173-181 | The loop drops zero-width characters and maps look-alikes back. |
| `Canary.SplitSentences` | lib/aegis-core/src/canary.ts:143-155 | The loop collects the specified pieces. |
| `Canary.SentencesJoin` | lib/aegis-core/src/canary.ts:143-155 | The pieces join to the text, wherever they are parted. |
| `Canary.InjectRadioactiveCanary` | lib/aegis-core/src/canary.ts:112-141 | Injection places the marked canary and its padding as specified. |
| `Canary.RemovalRestores` | lib/aegis-core/src/canary.ts:134-140 | Cutting out the canary and its padding restores the original text. |
| `Canary.ExtractCanaries` | lib/aegis-core/src/canary.ts:162-171 | The search pairs every opening marker with the next closing one. |
| `Canary.VerifyCanary` | lib/aegis-core/src/canary.ts:195-211 | The two ways of finding the fact are tried in order. |
| `Canary.NormalizedWithin` | lib/aegis-core/src/canary.ts:191-193 | A sentence inside a text is, normalized, inside the normalized text. |
| `Canary.FactIsFound` | lib/aegis-core/src/canary.ts:195-211 | Any text that holds the fact after cleaning is recognised, with or without markers. |
| `Canary.InjectedIsFound` | lib/aegis-core/src/canary.ts:112-211 | Verifying an injected text always finds the canary by its markers, whatever markers, zero-width characters or look-alikes the original held. |
| `Attribution.SuspectGramHashes` | lib/aegis-core/src/structuralEntanglement.ts:141-155 | The loops hash every window of every size. |
| `Attribution.SharedRunIsSeen` | lib/aegis-core/src/structuralEntanglement.ts:103-155 | A run of tokens shared with another text yields the same hashes there, one per window that fits, whatever surrounds it. |
| `Attribution.FindAmbiguous` | lib/aegis-core/src/structuralEntanglement.ts:203-212 | The guard set holds exactly the hashes of two or more clients. |
| `Attribution.TallyRows` | lib/aegis-core/src/structuralEntanglement.ts:218-250 | The tally maps count, per key, the distinct unambiguous hashes and those whose first row has a long window. |
| `Attribution.AttributeFromMatches` | lib/aegis-core/src/structuralEntanglement.ts:195-300 | The whole scoring computes the specified verdict. |
| `Attribution.TotalCountsTriples` | lib/aegis-core/src/structuralEntanglement.ts:265-265 | The total counts every (client, cloak, hash) triple whose hash belongs to one client once, for all identifiers. |
| `Attribution.HashesAreTriples` | lib/aegis-core/src/structuralEntanglement.ts:229-250 | The matches of a candidate include the triples of its client and cloak, and are exactly these if and only if no unambiguous row of another client has its key. |
| `Attribution.SeparatorConfuses` | lib/aegis-core/src/structuralEntanglement.ts:231-231 | With ids that hold the separator, the row of one client can raise the count of another from one hash to two. |
| `Attribution.OrderDoesNotMatter` | lib/aegis-core/src/structuralEntanglement.ts:203-250 | Guard and match counts do not depend on the order of rows. |
| `Attribution.CountsIgnoreOrder` | lib/aegis-core/src/structuralEntanglement.ts:252-263 | The match counts in rank order never depend on the order of rows, nor on repeated rows. |
| `Attribution.CountsAreSteady` | lib/aegis-core/src/structuralEntanglement.ts:265-299 | Nor do the number of dropped hashes, the total and the number of candidates. |
| `Attribution.RankingIgnoresOrder` | lib/aegis-core/src/structuralEntanglement.ts:252-263 | The ranked clients, cloaks and counts are the same for every order of the rows if and only if no two clients or cloaks share a key and no two candidates with equal counts have labels that collate equal. |
| `Attribution.PlainIdsOwnKeys` | lib/aegis-core/src/structuralEntanglement.ts:231-231 | Clients whose ids do not hold the separator share no keys. |
| `Attribution.TwinsAreRankedByOrder` | lib/aegis-core/src/structuralEntanglement.ts:257-263 | Two canonically equivalent client ids with equal counts are ranked by the order of their rows, under any collation that holds them for equal. |
| `Attribution.VerdictIgnoresOrder` | lib/aegis-core/src/structuralEntanglement.ts:266-290 | The verdict is the same for every order of the rows, except if and only if the top meets the threshold and leads by more than a fifth, and all its hashes are held by short-window rows and one of them by a long-window row, too. |
| `Attribution.OrderCanDecide` | lib/aegis-core/src/structuralEntanglement.ts:244-290 | Two rows with one hash, from a short and from an unsized window: one order gives an ambiguous verdict, the other a strong one. |
| `Attribution.SameWindowsDoNotMix` | lib/aegis-core/src/structuralEntanglement.ts:244-248 | That exception cannot occur where equal hashes come from windows of one kind. |
| `Attribution.OtherClientNeverRaises` | lib/aegis-core/src/structuralEntanglement.ts:203-250 | A further row never adds to the count of a key, whatever the other rows, if and only if it has another key. |
| `Attribution.OtherClientOtherKey` | lib/aegis-core/src/structuralEntanglement.ts:231-231 | A row of another client has another key whenever neither id holds the separator. |
| `Attribution.StrongMeans` | lib/aegis-core/src/structuralEntanglement.ts:266-290 | Strong exactly when the top meets the threshold, strictly beats every other, and either has a long window and leads by a fifth, or its runner-up is within a fifth but below the threshold. |
| `Attribution.StrongWithoutLongWindow` | lib/aegis-core/src/structuralEntanglement.ts:273-290 | Long windows change the verdict for exactly the tops that meet the threshold and lead by more than a fifth; with a closer runner-up below the threshold it is strong without any. |
| `Verdict.ProfileLaws` | lib/aegis-core/src/channelIntegrity.ts:95-121 | Scores are clamped, decay complements them, and a channel is vital when present and at the threshold of its tier. |
| `Verdict.BuiltProfileLaws` | lib/aegis-core/src/channelIntegrity.ts:128-213 | A built profile lists each of the six channels once, so that index and search find the same entry, and that entry carries the measured signal, clamped, in the tier of its channel. |
| `Verdict.BuiltAmbiguous` | lib/aegis-core/src/verdictAggregator.ts:156-165 | On a built profile the weak rule holds exactly if some present, non-auxiliary signal is at least a half. |
| `Verdict.HoneytokenMeans` | lib/aegis-core/src/verdictAggregator.ts:194-199 | Honeytoken evidence is a first honeytoken entry that is present with a score of at least 1. |
| `Verdict.BuiltSnapshot` | lib/aegis-core/src/verdictAggregator.ts:206-214 | On a built profile it is the hit itself, and the snapshot shows every clamped score. |
| `Verdict.IndexProfiles` | lib/aegis-core/src/channelIntegrity.ts:207-213 | The index keeps the last profile of each channel. |
| `Verdict.CandidatePassesStrong` | lib/aegis-core/src/verdictAggregator.ts:107-153 | The branches decide the strong rule. |
| `Verdict.BuiltStrong` | lib/aegis-core/src/verdictAggregator.ts:107-153 | On a built profile the rule depends on the honeytoken, the two carriers and the linguistic channel only. |
| `Verdict.CandidatePassesAmbiguous` | lib/aegis-core/src/verdictAggregator.ts:156-165 | The loop decides whether a present, non-auxiliary channel reaches the floor. |
| `Verdict.AggregateTieredVerdict` | lib/aegis-core/src/verdictAggregator.ts:189-322 | The aggregation computes the specified result. |
| `Verdict.CascadeIsMute` | lib/aegis-core/src/verdictAggregator.ts:189-322 | Changing, adding, removing or moving cascade entries changes no verdict, attribution, guard flag, margin or count. |
| `Verdict.OrderIsMute` | lib/aegis-core/src/verdictAggregator.ts:189-322 | For every order of the candidates the verdict, both guard flags, the margin and the strong count are the same, and a strong or multi-suspect verdict names the same clients. |
| `Verdict.RankingIgnoresOrder` | lib/aegis-core/src/verdictAggregator.ts:201-204 | The ranking is the same for every order if and only if no two different candidates of equal score have ids that collate equal. |
| `Verdict.ResultIgnoresOrder` | lib/aegis-core/src/verdictAggregator.ts:189-322 | With distinct ids, the whole result is the same for every order if and only if there is no such tie. |
| `Verdict.AttributionIgnoresOrder` | lib/aegis-core/src/verdictAggregator.ts:189-322 | With distinct ids, the same clients are named for every order if and only if it is neither a weak verdict with a tie of ranks one and two nor a margin demotion with a tie of ranks two and three. |
| `Verdict.TieIsWonByOrder` | lib/aegis-core/src/verdictAggregator.ts:201-204 | Two candidates of equal score with canonically equivalent ids: the weak verdict names whichever came first, under any collation that holds the ids for equal. |
| `Verdict.StrongMeans` | lib/aegis-core/src/verdictAggregator.ts:245-293 | Without honeytoken evidence the verdict is strong exactly when a single candidate passes the strong rule and the best two scores differ by at least 0.2 or there is no second; it names that candidate alone. |
| `Verdict.LadderMeans` | lib/aegis-core/src/verdictAggregator.ts:262-310 | Without honeytoken evidence: multi-suspect demotion exactly if two candidates pass the strong rule, margin demotion exactly if one passes and the margin is below 0.2, insufficiency exactly if none passes either rule. |
| `Verdict.HoneytokenDecides` | lib/aegis-core/src/verdictAggregator.ts:190-243 | Honeytoken evidence decides alone: it names exactly the candidates it concerns or, if it concerns none of them, exactly the listed clients. |
| `Verdict.NamedIsFirst` | lib/aegis-core/src/verdictAggregator.ts:270-293 | Without honeytoken evidence a strong verdict names the first in rank if and only if that one passes the strong rule. |
| `Verdict.NamedCanBeSecond` | lib/aegis-core/src/verdictAggregator.ts:189-322 | Two candidates of which the first in rank is passed over and the second named. |
| `HeavyGate.StepKeepsConsistent` | artifacts/tancmark-demo/src/server.ts:183-209 | Every step keeps both counters equal to the numbers of running and waiting callers and within their limits. |
| `HeavyGate.EveryRunIsSafe` | artifacts/tancmark-demo/src/server.ts:183-209 | Over every interleaving of any number of callers: running callers never exceed the concurrency, waiting ones never the queue limit, and both counters are 0 exactly when nobody is in flight. |
| `HeavyGate.RejectionChangesNothing` | artifacts/tancmark-demo/src/server.ts:193-195 | A caller is rejected exactly when all slots and the queue are full, and that changes nothing. |
| `HeavyGate.FailuresAreMute` | artifacts/tancmark-demo/src/server.ts:192-208 | Whichever operations of a run fail, the run takes the same states, and every caller is rejected, queued or admitted as before. |
| `HeavyGate.GateDrains` | artifacts/tancmark-demo/src/server.ts:192-208 | With at least one slot, every reachable state can empty without further arrivals: no caller is stuck. |
| `HeavyGate.CallersAreConserved` | artifacts/tancmark-demo/src/server.ts:192-208 | Every caller that arrived was rejected, got a result or an error, or is in flight. |
| `HeavyGate.NewcomerOvertakes` | artifacts/tancmark-demo/src/server.ts:193-202 | Waiting is not first come, first served: some run has a queued caller overtaken by a newcomer if and only if the limits admit at least one running and one queued caller. |
| `HeavyGate.Gate.constructor` | artifacts/tancmark-demo/src/server.ts:184-186 | A new gate is empty. |
| `HeavyGate.Gate.Busy` | artifacts/tancmark-demo/src/server.ts:188-190 | Busy exactly when some caller is in flight. |
| `HeavyGate.Gate.Enter` | artifacts/tancmark-demo/src/server.ts:192-203 | Entering takes the arrival step. |
| `HeavyGate.Gate.Resume` | artifacts/tancmark-demo/src/server.ts:197-202 | Waking takes the polling step. |
| `HeavyGate.Gate.Leave` | artifacts/tancmark-demo/src/server.ts:203-207 | On the returning and on the throwing path the slot is given back, and the result or error is passed on. |
| `Scramble.Shuffle` | lib/aegis-core/src/glyphPoisoner.ts:49-56 | The in-place swaps compute the specified shuffle, for all draws from 0 to 1. |
| `Scramble.ShuffledIsPermutation` | lib/aegis-core/src/glyphPoisoner.ts:49-56 | The shuffle only moves elements and the empty cell behind them, which ends up one cell further down for each draw of exactly 1 before the first other one. |
| `Scramble.FirstDrawCanMiss` | lib/aegis-core/src/glyphPoisoner.ts:49-69 | All indices drawn lie in the list if and only if the first draw is below 1. |
| `Scramble.CollectUniqueChars` | lib/aegis-core/src/glyphPoisoner.ts:37-47 | The loop collects each character to map once. |
| `Scramble.PreservedMeans` | lib/aegis-core/src/glyphPoisoner.ts:17-35 | Which characters are preserved, by code point and option. |
| `Scramble.GenerateScrambleMap` | lib/aegis-core/src/glyphPoisoner.ts:71-91 | Too many characters are refused, and a hole among the code points used is an error; otherwise characters are paired with the shuffled code points. |
| `Scramble.GenerationFails` | lib/aegis-core/src/glyphPoisoner.ts:49-91 | That error occurs if and only if, for n characters, 2 <= n <= 6400 and the first 6401 - n draws are all exactly 1. |
| `Scramble.GeneratedMap` | lib/aegis-core/src/glyphPoisoner.ts:71-91 | A generated map is one-to-one and its glyphs are private-use characters. |
| `Scramble.CodepointsAre` | lib/aegis-core/src/glyphPoisoner.ts:82-83 | The code points shuffled are U+E000 to U+F8FF in order. |
| `Scramble.ObfuscateText` | lib/aegis-core/src/glyphPoisoner.ts:93-99 | The loop writes every mapped character as its glyph. |
| `Scramble.DeobfuscateText` | lib/aegis-core/src/glyphPoisoner.ts:101-111 | The reverse map is built and applied. |
| `Scramble.RoundTripIff` | lib/aegis-core/src/glyphPoisoner.ts:93-111 | Reading undoes writing exactly for the texts none of whose unmapped characters is a glyph of the map. |
| `Scramble.OwnTextRoundTrip` | lib/aegis-core/src/glyphPoisoner.ts:71-111 | The text a map was generated for is read back exactly, its own private-use characters included. |

## Left out

- HTTP routes, dashboards, databases, child processes, ffmpeg, PyAV, sharp, pdf-lib and C2PA: input, output and foreign code.
- The PDF, image and video seals: foreign code, or near copies of what is modelled.
- The Live store, its lifecycle and the rolling map: not part of this model.
- The texts of the fake values themselves: templates filled from digest bytes, a function of kind and digest here.
- Regular expressions, Unicode tables, tokenizers and the Turkish abbreviation rules: their results are inputs.
- The synonym score of a protected text: look-alike letters split words and shift occurrence counts, so nothing sharp holds.
- The boost nomination and the breach signals behind the multi-channel analysis: thresholds over the scores modelled here.
- The constant fields, coverage shares, display texts and reasons of results, the canary signature and the protection hash: they carry no decision.
- The stored-chain schema check before verification, and the descriptive dump of a scramble map: single-branch conversions.
- `Zip.ReadZipEntries`: does not compare the stored checksum with the data, because the reader of the sources never does.
- `Canary.InjectedIsFound`: takes lower-casing character by character, because only the final sigma depends on its neighbours and no fact holds one.
- `Attribution.RankingIgnoresOrder`: is about clients, cloaks and counts, because the document id of a candidate is that of its first row in any case.
- `Jitter.ApplyNumericJitter`: takes the digit runs of 5 to 9 digits as given, because the pattern admits no others.
