# secsgmlc in Dafny

A model of secsgmlc, the C parser for SEC EDGAR submission files. A
submission is an SGML-like byte buffer. It starts with a header of
submission metadata. Then come `<DOCUMENT>` blocks, each with `<TYPE>`,
`<SEQUENCE>`, `<FILENAME>` and `<DESCRIPTION>` lines and one `<TEXT>` body.
A body may hold a uuencoded payload or a `<PDF>`, `<XBRL>` or `<XML>`
wrapper. The model covers the current sources under `src/` and the older
copies at the root of the repository (`secsgml.c`, `uudecode.c`). Where the
two copies differ, the model states both behaviours.

Modules:

- `Base` (base.dfy): bytes, spans, statuses and the allocator.
  - A `byte_span` is an offset and a length into the input buffer.
  - Every `malloc`/`realloc` is a request answered by an `Allocator`, a
    function from requests to success or failure. Each request names the
    call it comes from, so two calls are answered independently.
- `Lines` (lines.dfy): the line helpers of `src/secsgml.c`.
  - `find_eol`, `skip_eol`, the trims, `value_to_eol`;
  - `find_subspan`, `find_double_newline`, and `memchr`.
- `Scanner` (scanner.dfy): the document scanner.
  - `find_uu_bounds`, `uu_decoded_size`, `strip_wrappers` and `docs_push`.
  - `parse_sgml`'s tag dispatch and its state machine, as a specification
    function (`Parse`) and as a method (`SgmlParseResult`, `ParseSgml`)
    proved equal to it.
  - The model takes a variant: `Current` is `src/secsgml.c`, `Legacy` is
    the older `secsgml.c`, and `Corrected` is `src/secsgml.c` with the
    stale-length defect fixed (see Findings).
- `Metadata` (metadata.dfy): the header parsers and `add_event`.
  - The archive dialect (`<KEY>VALUE` lines), the tab dialect
    (`KEY: VALUE` lines nested by tabs) and the privacy-enhanced header.
  - As specification functions, and as the class `SubmissionMetadata`
    whose methods push events into a growing table.
- `Standardize` (standardize.dfy): `standardize_submission_metadata`.
  - The key table `MAP` and `lookup_map`;
  - lowercasing and the fallback key;
  - the `SEC ACT` and SIC value extractors;
  - the arena and event-table growth;
  - the main loop, as a function and as methods of `StandardizedMetadata`.
- `Output` (output.dfy): the pure writers of `src/parsesgml.c`.
  - `key_eq`, `write_json_string`, `find_section_end`, `write_csv_cell`
    and `sanitize_filename`;
  - `write_object_range`, which turns the event table into a JSON object.
  - Each writer returns the bytes it would write.
- `UUCodec` (uucodec.dfy): the scalar `uudecode` of `src/uudecode.c`. This
  covers the fast path for full 45-byte lines, the bit-accumulator slow
  path and the output cap.
- `LegacyUUCodec` (legacy_uucodec.dfy): the uncapped `uudecode` of the
  older `uudecode.c`, and how it relates to the current one.

## Model

| member | source | states |
|---|---|---|
| `Lines.FindByte` | src/secsgml.c:235-236 | a found offset lies in the searched range and holds the byte |
| `Lines.FindByteFirst` | src/secsgml.c:235-236 | the byte occurs nowhere before the offset found, and nowhere at all when none is found |
| `Lines.FindEol` | src/secsgml.c:48-51 | the end of line lies in [p, end], and is a CR or LF unless it is `end` |
| `Lines.FindEolScans` | src/secsgml.c:48-51 | no CR or LF lies before the end of line |
| `Lines.SkipEol` | src/secsgml.c:53-57 | at most two bytes are consumed, only CR or LF, two only as CR LF, and a line break at `p` is always consumed |
| `Lines.NextLine` | src/secsgml.c:131-149 | before the end, the next line starts strictly after `p`; it never passes `end` |
| `Lines.NthLine` | src/secsgml.c:131-149 | the k-th line start of the walk lies in [p, end] |
| `Lines.LTrimSpan` | src/secsgml.c:65-68 | the result is a suffix of the span that starts with a non-whitespace byte or is empty |
| `Lines.LTrimDropsSpace` | src/secsgml.c:65-68 | every byte dropped is whitespace |
| `Lines.RTrimSpan` | src/secsgml.c:61 | the result is a prefix of the span that ends with a non-whitespace byte or is empty |
| `Lines.RTrimDropsSpace` | src/secsgml.c:61 | every byte dropped at the right is whitespace |
| `Lines.TrimSpan` | src/secsgml.c:59-63 | the result is a sub-span with no whitespace at either edge |
| `Lines.TrimDropsSpace` | src/secsgml.c:59-63 | everything trimmed at either edge is whitespace |
| `Lines.ValueToEol` | src/secsgml.c:94-97 | the value lies between `p` and the end of the line and is trimmed |
| `Lines.ValueToEolSpans` | src/secsgml.c:94-97 | the value holds no line break and only whitespace surrounds it up to the end of line |
| `Lines.FindSubspan` | src/secsgml.c:71-82 | a result is the first offset from `from` where the needle occurs; None means it occurs nowhere |
| `Lines.FindDoubleNewline` | src/secsgml.c:84-91 | the result lies in [i, len] of the span |
| `Lines.FindDoubleNewlineFinds` | src/secsgml.c:84-91 | a result inside the span ends the first blank-line marker; no marker gives the span's length |
| `Scanner.EncodedEnd` | src/secsgml.c:137-144 | the encoded region ends at an `end` line or at the end of the text |
| `Scanner.EncodedEndIsFirstEndLine` | src/secsgml.c:137-144 | that line is the first `end` line of the walk after the scan start |
| `Scanner.UuBoundsFrom` | src/secsgml.c:131-150 | a region found starts after `p` and ends inside the text |
| `Scanner.FindUuBounds` | src/secsgml.c:128-152 | a region found starts after the text's start and ends inside the text |
| `Scanner.UuBoundsFromNone` | src/secsgml.c:131-151 | nothing is found only when none of the lines still to be examined is a `begin 644` line |
| `Scanner.UuBoundsFromSome` | src/secsgml.c:131-150 | a region found starts on the line after the first `begin 644` line and ends at the next `end` line |
| `Scanner.FindUuBoundsSpec` | src/secsgml.c:128-152 | a region is found exactly when one of the first three lines is `begin 644`, and it starts on the next line and runs to the next `end` line or the end of the text |
| `Scanner.SizeWalkAgrees` | src/secsgml.c:160-173 | the size loop and the decoder read the same count and move to the same next line |
| `Scanner.DecodedSizeFromSpec` | src/secsgml.c:156-176 | the size is the decoder's line count sum cut at `UU_DECODE_MAX`, capped exactly when the sum exceeds it |
| `Scanner.UuDecodedSizeFills` | src/secsgml.c:156-176 | a buffer of the computed size is exactly filled by the capped decoder, so the short-decode check never fires |
| `Scanner.StripTag` | src/secsgml.c:190-199 | one round leaves a sub-span of its input, trimmed when its input was |
| `Scanner.AfterOpen` | src/secsgml.c:190-194 | what is left after the opening tag is a suffix of the span |
| `Scanner.StripWrappers` | src/secsgml.c:178-203 | the result lies inside the text and has no whitespace at either edge |
| `Scanner.StripTagRemoves` | src/secsgml.c:189-200 | the opening tag is dropped exactly when the span starts with it, and the closing tag exactly when the rest ends with it; only whitespace goes besides |
| `Scanner.StripTagAbsent` | src/secsgml.c:189-200 | a span that neither starts nor ends with the tags is left alone |
| `Scanner.StripWrappersPlain` | src/secsgml.c:178-203 | text with no wrapper is only trimmed |
| `Scanner.DocsPushCap` | src/secsgml.c:102-112 | a table with room keeps its capacity; a grown one has room for the new document; only a full table can fail to grow |
| `Scanner.SgmlParseResult.constructor` | src/secsgml.c:218-225 | the table starts empty with room for 64 documents, or with none when `malloc` fails |
| `Scanner.SgmlParseResult.Push` | src/secsgml.c:102-112 | the document is appended, with the capacity `DocsPushCap` gives; a failed push changes nothing |
| `Scanner.TagAt` | src/secsgml.c:253-381 | the dispatch reports only tags whose text occurs at the '<' |
| `Scanner.TagAfterD` | src/secsgml.c:257-274 | `<D` leads to `<DOCUMENT>` or `<DESCRIPTION>` only when its text is there |
| `Scanner.TagAfterSlash` | src/secsgml.c:276-343 | `</` leads to `</DOCUMENT>` or `</TEXT>` only when its text is there |
| `Scanner.TagAfterT` | src/secsgml.c:345-362 | `<T` leads to `<TEXT>` or `<TYPE>` only when its text is there |
| `Scanner.TagAtSound` | src/secsgml.c:253-381 | a tag the dispatch reports is recognised at the '<' |
| `Scanner.TagAtComplete` | src/secsgml.c:253-381 | every tag recognised at the '<' is reported |
| `Scanner.TagAtRecognises` | src/secsgml.c:253-381 | the dispatch reports a tag exactly when its text fits and occurs there (older copy: with the stricter length test) |
| `Scanner.Act` | src/secsgml.c:235-381 | the loop invariant is kept, and unless the scan halts the cursor moves past the '<' |
| `Scanner.ActTag` | src/secsgml.c:257-381 | at a recognised tag, the loop invariant is kept and the cursor moves past the '<' unless the scan halts |
| `Scanner.CloseTextBlock` | src/secsgml.c:305-339 | the `</TEXT>` branch yields the document and status `CloseText` specifies |
| `Scanner.CloseUuCurrentBlock` | src/secsgml.c:311-326 | the uuencoded block is sized, allocated and decoded as `CloseUuCurrent` specifies |
| `Scanner.CloseUuLegacyBlock` | secsgml.c:300-312 | the older copy decodes into a buffer as long as the encoded text, as `CloseUuLegacy` specifies |
| `Scanner.Step` | src/secsgml.c:235-381 | one iteration changes the loop variables and the result as `Act` specifies |
| `Scanner.StepTag` | src/secsgml.c:257-381 | the iteration at a recognised tag is the one `ActTag` specifies |
| `Scanner.StepOpenTag` | src/secsgml.c:259-377 | `<DOCUMENT>`, the metadata tags and `<TEXT>` leave the result alone and update the loop variables as `ActTag` does |
| `Scanner.StepTextClose` | src/secsgml.c:303-340 | the `</TEXT>` branch is the one `ActTag` specifies |
| `Scanner.PushDocument` | src/secsgml.c:280-302 | the `</DOCUMENT>` branch is the one `CloseDocument` specifies: push, or OOM and stop (older copy: drop the document) |
| `Scanner.ParseSgml` | src/secsgml.c:217-386 | the documents, capacity and status are those `Parse` specifies |
| `Scanner.ActTagFollowsTable` | src/secsgml.c:257-381 | the state after a recognised tag is the transition table's |
| `Scanner.ActFollowsTable` | src/secsgml.c:235-381 | every iteration follows the transition table, unless a failed push ends the scan |
| `Scanner.ActMetaTag` | src/secsgml.c:266-377 | a metadata tag sets its field to the rest of its line in InDocMeta and is only stepped over elsewhere |
| `Scanner.ActCommitsOnlyAtClose` | src/secsgml.c:280-301 | an iteration leaves the table alone or appends the document being built, exactly as it is |
| `Scanner.ActContentOnlyAtTextClose` | src/secsgml.c:305-339 | only `</TEXT>` in InText changes a document's content, uuencoded flag or payload |
| `Scanner.PushFailure` | src/secsgml.c:292-296 | a failed push stops the current scanner with OOM and the earlier documents; the older copy scans on |
| `Scanner.ActKeepsCommitted` | src/secsgml.c:235-381 | one iteration never removes or rewrites a committed document |
| `Scanner.RunKeepsCommitted` | src/secsgml.c:232-383 | the loop only ever appends to the table |
| `Scanner.RunWithoutCloseCommitsNothing` | src/secsgml.c:232-383 | with no recognised `</DOCUMENT>` ahead nothing more is committed |
| `Scanner.LegacyStatusOk` | secsgml.c:209-378 | from status OK the older scanner's loop ends with status OK |
| `Scanner.UuBlockStatus` | src/secsgml.c:311-326 | the payload is the capped decoder's output at exactly the computed size, Truncated only when capped, OOM when the buffer cannot be allocated |
| `Scanner.LegacyDropsFinalClose` | secsgml.c:272 | a `</DOCUMENT>` that ends the buffer is not seen by the older copy, and the document is lost |
| `Scanner.FinalCloseCommits` | src/secsgml.c:280 | the current copy commits that document when the table has room |
| `Scanner.LegacyDecodeOverruns` | secsgml.c:304-308 | the line `M` announces 45 bytes for a 2-byte buffer |
| `Scanner.StaleTextLength` | src/secsgml.c:349-352 | a `<TEXT>` in InDocMeta whose kept `content_len` does not fit after it leaves a content span that runs past the buffer's end |
| `Scanner.CloseTextInside` | src/secsgml.c:305-339 | a closed text block's content lies between its start and the `</TEXT>` |
| `Scanner.CorrectedSpansInside` | src/secsgml.c:349-352 | with the length reset at `<TEXT>`, every committed content span lies inside the buffer |
| `Metadata.EventsPushCap` | src/secsgml.c:402-417 | a table with room keeps its capacity; a grown one has room for the new event; only a full table can fail to grow |
| `Metadata.AddAllKeepsPrefix` | src/secsgml.c:402-417 | the current copy keeps the first events of a stream in order, all of them exactly when no push failed |
| `Metadata.AddAllKeepsSome` | secsgml.c:394-409 | the older copy keeps a subsequence of the stream, all of it exactly when no push failed |
| `Metadata.LegacyOrphansClose` | secsgml.c:411-440 | the older copy can keep a section's close without its start; the current copy keeps neither |
| `Metadata.DedentWalks` | src/secsgml.c:468-471 | closing sections down to a floor walks the depth down to it |
| `Metadata.TagEvent` | src/secsgml.c:435-443 | the events carry the depth the parser is at, and the walk ends at the depth returned |
| `Metadata.TagKey` | src/secsgml.c:431 | the key lies strictly between the '<' and the '>' |
| `Metadata.TagValue` | src/secsgml.c:432 | the value lies after the '>' and within the line |
| `Metadata.LineBody` | src/secsgml.c:425-426 | the line body starts at or after `p` and ends at the end of line |
| `Metadata.TagLine` | src/secsgml.c:428-445 | the line's events carry the depth the parser is at, and the walk ends at the depth returned |
| `Metadata.Indent` | src/secsgml.c:463-464 | the indent fits in the line, and the byte after it is not a tab |
| `Metadata.IndentIsTabs` | src/secsgml.c:463-464 | the indent is made of tabs only |
| `Metadata.TabContent` | src/secsgml.c:473-498 | the content's events carry the depth the parser is at, and the walk ends at the depth returned |
| `Metadata.ColonEvent` | src/secsgml.c:474-483 | the `key: value` event carries the depth the parser is at, and the walk ends at the depth returned |
| `Metadata.LineContent` | src/secsgml.c:465 | the content lies inside the line, after the indent |
| `Metadata.SubmissionLine` | src/secsgml.c:433-434 | the current copy emits nothing for a `<SUBMISSION>` line; the older copy reads it like any tag line |
| `Metadata.ColonBeforeTag` | src/secsgml.c:473-483 | a tab line is split at its first ':' even when it starts with '<' |
| `Metadata.TabSpan` | src/secsgml.c:526-528 | the tab dialect reads what follows the privacy paragraph |
| `Metadata.DedentShape` | src/secsgml.c:501-502 | the closes are one empty-key SectionEnd per open level, innermost first |
| `Metadata.TabLineWalks` | src/secsgml.c:458-499 | a tab line walks from the depth before it to the depth after it |
| `Metadata.ArchiveFromNests` | src/secsgml.c:419-451 | every archive event carries the depth the parser is at, and the end closes every open section |
| `Metadata.TabFromNests` | src/secsgml.c:453-504 | the same for the tab dialect |
| `Metadata.SubmissionEventsNest` | src/secsgml.c:506-547 | the header's events are well nested from depth 0 and every opened section is closed |
| `Metadata.TagLineWithin` | src/secsgml.c:428-445 | an archive line's events lie in the line |
| `Metadata.TabLineWithin` | src/secsgml.c:458-499 | a tab line's events lie in the line |
| `Metadata.WithinEach` | src/secsgml.c:506-547 | no event escapes the range exactly when each event lies in it |
| `Metadata.SubmissionEventsInHeader` | src/secsgml.c:510-515 | every key and value lies in the header, before the first `<DOCUMENT>` |
| `Metadata.SubmissionMetadata.constructor` | src/secsgml.c:507-508 | the table starts empty with status OK |
| `Metadata.SubmissionMetadata.AddEvent` | src/secsgml.c:402-417 | the event is appended with the capacity `EventsPushCap` gives; a failed push changes nothing |
| `Metadata.Emit` | src/secsgml.c:437-443 | the table is `AddAll` of the event; `stop` exactly when the current copy failed |
| `Metadata.EmitAll` | src/secsgml.c:435-443 | the table is `AddAll` of the line's events, pushed in order; `stop` exactly when the current copy failed |
| `Metadata.CloseSections` | src/secsgml.c:448-449 | the table is `AddAll` of the closes `Dedent` lists, and the depth goes down to the floor |
| `Metadata.ParseArchive` | src/secsgml.c:419-451 | the table is `AddAll` of the archive events `ArchiveFrom` lists |
| `Metadata.ParseTab` | src/secsgml.c:453-504 | the table is `AddAll` of the tab events `TabFrom` lists |
| `Metadata.ParseSubmissionMetadata` | src/secsgml.c:506-547 | the table and status are those `Metadata` specifies |
| `Metadata.ParseHeader` | src/secsgml.c:517-544 | the table is `AddAll` of `HeaderEvents`, the dispatch on the header's first byte |
| `Metadata.ParsePrivacy` | src/secsgml.c:517-533 | the table is `AddAll` of `PrivacyEvents`: the privacy event, then the tab dialect |
| `Output.KeyEq` | src/parsesgml.c:67-71 | two keys are equal exactly when their bytes are |
| `Output.HexRoundTrip` | src/parsesgml.c:78 | the two hex digits of `\u%04X` read back as the byte |
| `Output.JsonStringPrintable` | src/parsesgml.c:73-84 | the string is ASCII without controls, and its only quotes delimit it |
| `Output.JsonStringRoundTrip` | src/parsesgml.c:73-84 | a JSON reader reads the written string back as the span's bytes |
| `Output.WriteJsonString` | src/parsesgml.c:73-84 | the bytes written are `JsonString` of the span |
| `Output.SectionEndOf` | src/parsesgml.c:86-94 | the end lies after the start and at most `count` |
| `Output.SectionEndFirst` | src/parsesgml.c:86-94 | the end is the first later event that closes the section's depth, or `count` |
| `Output.FindSectionEnd` | src/parsesgml.c:86-94 | the loop returns `SectionEndOf` |
| `Output.CsvQuotedIff` | src/parsesgml.c:204-216 | a cell is written as it is exactly when it holds no quote, comma, CR or LF |
| `Output.CsvRoundTrip` | src/parsesgml.c:204-224 | an RFC 4180 reader reads the written cell back as the span's bytes |
| `Output.WriteCsvCell` | src/parsesgml.c:204-224 | the bytes written are `CsvCell` of the span |
| `Output.SanitizedSafe` | src/parsesgml.c:230-237 | every other byte is kept, no reserved byte is left, and sanitizing twice changes nothing |
| `Output.DecimalRoundTrip` | src/parsesgml.c:241 | `%zu` writes digits only, with no leading zero, spelling the number |
| `Output.Truncated` | src/parsesgml.c:241 | `snprintf` keeps a prefix of the text that leaves room for the NUL |
| `Output.FileNameChoice` | src/parsesgml.c:226-242 | the name fits with its NUL, holds no reserved byte, is the sanitized name when usable and else `doc_N.bin` |
| `Output.PutTruncated` | src/parsesgml.c:241 | the buffer holds `Truncated` of the text and a NUL |
| `Output.SanitizeFilename` | src/parsesgml.c:226-242 | the buffer holds `FileName`, NUL-terminated |
| `Output.MembersFrom` | src/parsesgml.c:111-126 | the members collected extend those found so far, and each is a member event of the range |
| `Output.MembersLaid` | src/parsesgml.c:111-126 | the members are the range's events at depth `depth + 1` that open a section or hold a value, in order, sections skipped to their matching end |
| `Output.FindKey` | src/parsesgml.c:130-136 | the index found holds an equal key, and no earlier one does; `|keys|` when none does |
| `Output.TallyCounts` | src/parsesgml.c:128-151 | the key table holds the distinct keys of the members counted, each once with its count |
| `Output.SameKeyFromMembers` | src/parsesgml.c:175-176 | the members listed are exactly those from `j` on with the key, in order |
| `Output.GroupsAreFields` | src/parsesgml.c:158-194 | with every member counted, the fields written are the reference layout `Fields` |
| `Output.FieldsShape` | src/parsesgml.c:164-192 | a field is an array exactly when its key repeats, and then holds every member with that key |
| `Output.FieldsOrdered` | src/parsesgml.c:158-194 | fields come in the order of their keys' first occurrences |
| `Output.EveryKeyHasField` | src/parsesgml.c:158-194 | every member's key leads some field |
| `Output.FieldKeysDistinct` | src/parsesgml.c:158-194 | no two fields share a key |
| `Output.OneFieldPerKey` | src/parsesgml.c:158-194 | one field per distinct key, led by its first occurrence, an array when the key repeats |
| `Output.ObjectJsonPrintable` | src/parsesgml.c:103-202 | the metadata JSON holds no control byte and no byte above 0x7F |
| `Output.StandardizedIsPrintable` | src/parsesgml.c:250-255 | the table the standardizer builds is one the driver can print |
| `Output.CollectMembers` | src/parsesgml.c:111-126 | the first loop collects `Members` |
| `Output.FindKeyIndex` | src/parsesgml.c:159-162 | the lookup returns `FindKey` |
| `Output.TallyTurn` | src/parsesgml.c:128-150 | a known key is counted, a new one added, or the loop stops |
| `Output.CountKeys` | src/parsesgml.c:128-151 | the second loop's tables are `TallyOf` the member keys |
| `Output.WriteItem` | src/parsesgml.c:175-184 | one turn of the inner loop keeps its progress predicate `ItemsWritten` |
| `Output.WriteArray` | src/parsesgml.c:172-186 | the array holds the values of every member with the key, in order |
| `Output.WriteMember` | src/parsesgml.c:179-192 | a member's value is its string or the object its section holds |
| `Output.WriteValueMember` | src/parsesgml.c:179-180 | a key-value member's value is its JSON string |
| `Output.WriteSectionMember` | src/parsesgml.c:181-182 | a section member's value is the object of the events it encloses |
| `Output.WriteField` | src/parsesgml.c:166-193 | one field: the key, a colon, and the value or array `FieldJson` specifies |
| `Output.WriteObjectRange` | src/parsesgml.c:103-202 | the bytes written are `ObjectJson` of the range |
| `Standardize.ToLowerAscii` | src/standardize_submission_metadata.c:17-20 | upper-case letters become lower-case, every other byte is kept |
| `Standardize.LowerIsLower` | src/standardize_submission_metadata.c:188-198 | lowercasing leaves no upper-case byte and is idempotent |
| `Standardize.LookupMap` | src/standardize_submission_metadata.c:135-144 | an entry found spells the key |
| `Standardize.LookupMapFinds` | src/standardize_submission_metadata.c:135-144 | nothing is found exactly when the key is empty or no entry spells it; else the first that does |
| `Standardize.LookupMapNames` | src/standardize_submission_metadata.c:69-133 | every name in the table is non-empty |
| `Standardize.AccessionNumberEntry` | src/standardize_submission_metadata.c:71 | `accession number` is found and named `accession-number` |
| `Standardize.ExtractSecAct` | src/standardize_submission_metadata.c:149-170 | the extracted bytes are two bytes inside the value |
| `Standardize.SecActRoom` | src/standardize_submission_metadata.c:150-151 | a match at `i` needs eight bytes of value, so the loop bound misses none |
| `Standardize.ExtractSecActFinds` | src/standardize_submission_metadata.c:149-170 | the result is the last two digits of the first four-digit year followed by `Act`, None exactly when there is none |
| `Standardize.SecActValue` | src/standardize_submission_metadata.c:345-378 | `SEC ACT: 1934 Act` keeps `34` |
| `Standardize.ExtractSic` | src/standardize_submission_metadata.c:172-185 | the extracted bytes are a non-empty run inside the value |
| `Standardize.ExtractSicFinds` | src/standardize_submission_metadata.c:172-185 | the extracted bytes are digits inside the first bracketed run, closed right after them |
| `Standardize.FallbackKeyShape` | src/standardize_submission_metadata.c:205-226 | the fallback key is no longer than the key, empty only when it is, without whitespace or upper-case letters |
| `Standardize.FallbackWithoutSpaces` | src/standardize_submission_metadata.c:205-226 | a key without whitespace falls back to its lowercase form |
| `Standardize.BuildFallbackKey` | src/standardize_submission_metadata.c:205-226 | the buffer holds `FallbackKey` of the key, or nothing when the key is empty or `malloc` fails |
| `Standardize.PutFallbackByte` | src/standardize_submission_metadata.c:213-222 | one loop turn writes the byte's output at the cursor |
| `Standardize.NormKeyNonEmpty` | src/standardize_submission_metadata.c:264-342 | a key that gets a name gets a non-empty one |
| `Standardize.NormKeyMapped` | src/standardize_submission_metadata.c:269-297 | a known key of up to 256 bytes becomes the table's name; with a leading '/' it becomes '/' and the name when that buffer is allocated |
| `Standardize.ArenaEnsured` | src/standardize_submission_metadata.c:22-31 | a capacity returned holds the arena's bytes and the `extra` ones |
| `Standardize.EventsEnsured` | src/standardize_submission_metadata.c:43-52 | a capacity returned holds the events and the `extra` ones |
| `Standardize.Append` | src/standardize_submission_metadata.c:33-41 | the arena only grows; a non-empty span points at the appended bytes at its end; an empty span means nothing changed |
| `Standardize.StdEventStandardizes` | src/standardize_submission_metadata.c:246-381 | a turn breaks with OOM and no event, or appends the standardized event; the arena only grows |
| `Standardize.StdEventsStandardize` | src/standardize_submission_metadata.c:246-381 | the loop keeps the outputs in step with the inputs until it breaks with OOM |
| `Standardize.StandardizeMaps` | src/standardize_submission_metadata.c:231-384 | no events gives an empty OK result; a non-OK input status is passed on with no events; otherwise the outputs are the inputs standardized pair by pair, all of them exactly when the status stays OK, a prefix after OOM |
| `Standardize.UnstandardizedEach` | src/standardize_submission_metadata.c:246-381 | no output is off exactly when each is its input standardized |
| `Standardize.OnlyValuesGetValues` | src/standardize_submission_metadata.c:345-379 | only key-value events get a value |
| `Standardize.MetadataIsInput` | src/secsgml.c:506-547 | what the header parser hands over has every span inside the buffer |
| `Standardize.StandardizedMetadata.constructor` | src/standardize_submission_metadata.c:232-234 | the result starts empty with status OK |
| `Standardize.StandardizedMetadata.EventsEnsure` | src/standardize_submission_metadata.c:43-52 | the event table's capacity becomes `EventsEnsured`, or nothing changes on failure |
| `Standardize.StandardizedMetadata.ArenaEnsure` | src/standardize_submission_metadata.c:22-31 | the arena's capacity becomes `ArenaEnsured`, or nothing changes on failure |
| `Standardize.StandardizedMetadata.ArenaAppend` | src/standardize_submission_metadata.c:33-41 | the arena and span become what `Append` specifies |
| `Standardize.StandardizedMetadata.AddStandardized` | src/standardize_submission_metadata.c:246-381 | one turn of the loop, as `StdEvent` specifies |
| `Standardize.NormalizeKey` | src/standardize_submission_metadata.c:253-343 | the key branch's result is the key `NormKey` specifies |
| `Standardize.NameOf` | src/standardize_submission_metadata.c:266-333 | a non-empty key gets the table's name or its fallback key, as `NameKey` specifies |
| `Standardize.StandardizeSubmissionMetadata` | src/standardize_submission_metadata.c:231-384 | the result is `Standardize` of the input table |
| `UUCodec.LineByteAt` | src/uudecode.c:197-199 | byte `r` of group `g` is the group formula on that group's sextets |
| `UUCodec.HeadAt` | src/uudecode.c:218-244 | the count, data start and end, and next line lie in order inside the input |
| `UUCodec.DecodeStep` | src/uudecode.c:216-286 | one line contributes its bytes (cut at the capacity), then the rest of the input if it fit |
| `UUCodec.DecodeLength` | src/uudecode.c:209-289 | the output's length is the line count sum cut at the capacity |
| `UUCodec.FastPathAgrees` | src/uudecode.c:255-261 | the fast path writes the same 45 bytes the slow path would |
| `UUCodec.DecodeFullLine` | src/uudecode.c:188-202 | the 45 bytes at `pos` are the line's full-line bytes and nothing else changes |
| `UUCodec.AccumulatorStep` | src/uudecode.c:270-280 | each sextet shifted in either only waits or emits the line's next decoded byte |
| `UUCodec.ShiftIn` | src/uudecode.c:270-281 | one loop pass keeps the accumulator invariant |
| `UUCodec.DecodeLineSlow` | src/uudecode.c:263-282 | the slow path writes the line's first `nbytes` decoded bytes |
| `UUCodec.DecodeLine` | src/uudecode.c:255-282 | either path writes the line's first `nbytes` decoded bytes |
| `UUCodec.UudecodeLine` | src/uudecode.c:218-285 | one pass splices the line's clamped bytes into the output |
| `UUCodec.Uudecode` | src/uudecode.c:209-289 | the output is `Decode` of the input, at most the capacity, and nothing after it changes |
| `UUCodec.CatTestVector` | src/uudecode.c:209-289 | the line `#0V%T` decodes to `Cat` |
| `LegacyUUCodec.LegacyHeadAt` | uudecode.c:46-48 | the count is below 64 and the line end and next line lie in order inside the input |
| `LegacyUUCodec.LegacyDecodeLength` | uudecode.c:10-51 | the old decoder writes exactly the sum of the line counts |
| `LegacyUUCodec.SameNextLine` | uudecode.c:46-48 | without bare CRs both decoders move to the same next line |
| `LegacyUUCodec.LegacyAgrees` | uudecode.c:10-51 | on input without bare CRs and with room for every line, the old and new decoders produce the same bytes |
| `LegacyUUCodec.BareCrRunsOn` | uudecode.c:46-48 | a bare CR ends a line for the new decoder but not for the old one |
| `LegacyUUCodec.ReadPadded` | uudecode.c:28-31 | the next data character, or a space once the line has ended |
| `LegacyUUCodec.PutGroup` | uudecode.c:38-43 | a group's bytes are stored only while fewer than `nbytes` are produced |
| `LegacyUUCodec.LegacyGroup` | uudecode.c:26-44 | one group reads four characters and writes its bytes up to the count |
| `LegacyUUCodec.LegacyLine` | uudecode.c:19-48 | a line writes its `nbytes` decoded bytes and moves to the next line |
| `LegacyUUCodec.LegacyUudecode` | uudecode.c:10-51 | the output is `LegacyDecode` of the input, given room for every line's count |

## Left out

- The SIMD paths (SSE2, AVX2, NEON) of `find_newline` and `decode_full_line` in `src/uudecode.c` are left out. They are hardware variants of the scalar code that is modelled.
- Timing and statistics (`now_ms`, the `stats` counters) are left out. They do not affect any result.
- `main`, `write_outputs`, `make_dir`, `load_file` and every `FILE*` write are left out. The writers return the bytes they would write; whether a file opens or a write succeeds is not modelled.
- `free` and the `free_*` functions are left out, and so is pointer identity. Memory is never reused in the model.
- `malloc`, `calloc` and `realloc` are an allocator parameter that says, per call, whether the call succeeds. Address exhaustion, partial growth and the contents of freshly allocated memory are not modelled.
- Spans are offsets, not pointers. In the C code, growing the standardizer's arena by `realloc` moves it, so the spans taken earlier dangle. The model keeps them valid.
- Integer widths are not modelled. `size_t` and `int` are unbounded; no count in the model approaches their limits.
- `Output.WriteObjectRange`: the growth of the key tables at src/parsesgml.c:138-142 can succeed for one table and fail for the other. The code then frees the new block, so the old table pointer dangles; it is used at 160-164 and freed again at 199-200. The model treats a growth where either request fails as a failure that leaves both tables as they were.
- `Output.WriteObjectRange`: the `calloc` of `emitted` at src/parsesgml.c:153 is not checked, and a failure would be dereferenced at 164 and 186. The model assumes it succeeds.
- `Output.GroupsAreFields` holds only when the key-table loop counted every member. After a failed growth the object has fewer fields; `TallyCounts` states what is counted then.
- The headers (`secsgml.h`, `uudecode.h`, `standardize_submission_metadata.h`) are left out. They declare only the types and prototypes modelled here.
- The values of `<TYPE>`, `<SEQUENCE>`, `<FILENAME>` and `<DESCRIPTION>` run to the end of their line (`value_to_eol`), as the code does. A prose description of the format reads them up to the next tag.
- `LegacyUUCodec.LegacyUudecode` requires room for every line's announced count, as its caller must supply. The overrun when the caller does not is the second finding below.

## Findings

| source | as written | input that shows it | evidently intended | confidence | as-written member | corrected member |
|---|---|---|---|---|---|---|
| secsgml.c:272 | `</DOCUMENT>` is recognised only when `remain > 11` | a buffer that ends with `</DOCUMENT>` right after an open document | `remain >= 11`, as src/secsgml.c has it, so the last document is committed | not executed | `Scanner.LegacyDropsFinalClose` | `Scanner.FinalCloseCommits` |
| secsgml.c:304-308 | the decode buffer is as long as the encoded text, whatever counts the lines announce | the single line `M` (45 bytes announced, none present) decoded into 2 bytes | size the buffer by the line counts and cap the decoder, as src/secsgml.c does | not executed | `Scanner.LegacyDecodeOverruns` | `Scanner.UuBlockStatus` |
| src/secsgml.c:349-352 | `<TEXT>` sets `content_start` but keeps the `content_len` of an earlier text block of the same document | `<DOCUMENT><TEXT>0123456789ABCDEFGHIJ</TEXT><TEXT></DOCUMENT>`: the span starts at 49 with length 20 in a 60-byte buffer | reset `content_len` at `<TEXT>` so every span stays inside the buffer | not executed | `Scanner.StaleTextLength` | `Scanner.CorrectedSpansInside` |
| secsgml.c:411-440 | the older copy ignores `add_event`'s result and pushes on | the first table allocation fails and the next succeeds: the section's close is kept without its start | stop at the first failure, as src/secsgml.c does | not executed | `Metadata.LegacyOrphansClose` | `Metadata.AddAllKeepsPrefix` |

