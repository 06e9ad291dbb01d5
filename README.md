# Anki export: media recovery and Markdown parts, in Dafny

This project models the core of AnkiExportTool, which converts an unpacked
Anki deck into Markdown. It covers two things:

- how the tool rebuilds the map from media keys to image file names out of
  the deck's `media` index;
- how it renders the deck's notes as numbered question blocks in
  `Anki_Part_{idx}.md` files.

The repository has three programs, and each is modelled here:

- **`mcp_server/anki_logic.py`** (`extract_media`, `convert_deck`). It tries
  the index as JSON first. Otherwise it decompresses it and runs a forward
  *delimited scan* for records of the form `\n KEY \n LEN FILENAME`. The
  source file of each key is then resolved through a keyboard-shift alias
  table and a code-point fallback.
- **`convert_anki.py`**. It runs a *backward scan* anchored at every
  `.png/.jpg/.jpeg/.gif/.svg` in the buffer. A length byte equal to its own
  distance from the extension marks the start of a filename. One of the two
  lines before that length byte must name a file on disk.
- **`convert_anki_checklist.py`**. It runs the delimited scan, after a
  leftover extension loop whose result is never used. It renders every
  question with a checkbox.

Shared pieces are modelled once and cited at every copy:

- `sanitize_filename`;
- `fix_image_paths`;
- the key/filename dictionary;
- the blob decisions: is the blob zstd, and which format is the image saved in.

## How the model is built

- **Bytes, decoding and counts.** Bytes are `Utf8.Byte` (0..255). UTF-8
  decoding follows the well-formedness table of RFC 3629. It is a partial
  function, `None` where Python raises, and it is proved inverse to encoding.
  ASCII decoding is a partial function too. Counts in messages are printed
  with `Decimal.Show`, the form `str(n)` takes.
- **The deck directory** is a map from file name to contents. The listing
  each scan snapshots (`set(os.listdir(...))`) is its key set.
  `os.path.exists(src)` is taken as membership in that map. That is exact
  for the names the listing holds, which are the only keys the backward scan
  accepts. It is not exact for every key the delimited scan can read (see
  "## Left out").
- **Copies.** Copying, decompressing and re-encoding blobs are file I/O. They
  appear as a sequence of `Blob.Copy` records. Each record holds the source
  file, the sanitised target, whether the blob starts with the zstd magic,
  and the format chosen from the target's extension.
- **The two scans** are methods with loops, like the source. Each is proved
  equal to a specification:
  - the dictionary is `Recovery.IndexOf` of the sequence of pairs read, in
    order, so later writes overwrite earlier ones;
  - the copies are a fold over the same sequence.
- **Lemmas about the specifications** carry the properties: what a key and
  a filename are in the buffer, that the map entry is written even when no
  file resolves, that every backward-scan key exists on disk, and that the
  format matches the matched extension.
- **Python indexing** is modelled literally in the backward scan. At
  `convert_anki.py:88` and `:108`, `data[pos - 1]` wraps around to the end
  of the buffer when `pos` is 0. `valid_key` is tested by Python truthiness,
  so the empty string is false. `BackwardScan.ValidKeyAtStart` and
  `BackwardScan.ValidKeySound` prove that the wrapped reads only ever lead
  to the empty key, which is never accepted. The model needs no assumption
  that `""` is absent from the listing.
- **Inside-the-`try` behaviour of `extract_media`.** JSON values without a
  length (numbers, booleans, `null`) make `len` raise inside the `try`, so
  the function falls through to the scan. There, every dictionary write
  raises before any copy, and the final `len` raises again. The model
  returns the loaded value with the `TypeError` message and no copies.
- **Chunking and strings.** A `chunk_size` of 0 makes `range` raise. That
  becomes the `Database error:` log line. A negative size gives no parts.
  `convert_anki.py` writes its German labels as the file holds them: UTF-8
  read back as Windows-1252 (`*Keine RÃ¼ckseite*`, `ðŸ”½`). The model
  keeps those exact characters (`Notes.GermanMisencoded`).

Two worked cases show how literally the scans read the buffer:

- In the buffer `\nabc123\n\x09myfile.png` the length byte 9 is one short
  of `len("myfile.png")`. The delimited scan trusts the length byte, so it
  records `abc123` as `myfile.pn` (`Scenarios.LengthNineTruncates`). The
  length byte 10 is itself a newline and still gives the whole name
  (`Scenarios.LengthTenRecordsWholeName`).
- In the buffer `\nK\n\x06\x05a.png`, with a file `K` listed, the backward
  scan's distance 5 is a hit (`a.png`), but no key line precedes its length
  byte. `found` is set only together with a truthy key
  (`convert_anki.py:124-184`), so the search goes on. Distance 6 reads
  `"\x05a.png"` after the key line `K`, and the scan records `K` as `a.png`
  (`Scenarios.FalsyKeyHitSkipped`).

## Model

| member | source | states |
|---|---|---|
| Utf8.DecodeFirst | mcp_server/anki_logic.py:70 | a decoded scalar value occupies 1 to 4 bytes of the input |
| Utf8.Decode | mcp_server/anki_logic.py:80 | a decoded text never has more characters than the buffer has bytes |
| Utf8.DecodeEncode | mcp_server/anki_logic.py:80 | decoding the UTF-8 form of any text gives the text back |
| Utf8.EncodeDecode | mcp_server/anki_logic.py:80 | a buffer that decodes is exactly the UTF-8 form of its text (round trip the other way) |
| Utf8.DecodeInjective | mcp_server/anki_logic.py:70 | two buffers that decode to the same text are equal |
| Utf8.DecodeAppend | mcp_server/anki_logic.py:80 | decoding distributes over concatenation of decodable buffers |
| Utf8.AsciiDecode | convert_anki.py:100 | ASCII decoding succeeds exactly when every byte is below 0x80, and keeps every code |
| Utf8.AsciiIsUtf8 | convert_anki.py:100 | what decodes as ASCII decodes the same as UTF-8 |
| Utf8.DecodeNoNewLine | mcp_server/anki_logic.py:68-70 | a buffer without byte 10 decodes to a text without a line feed |
| Utf8.DecodeAsciiSuffix | convert_anki.py:81 | if `a + b` decodes and `b` is ASCII, `a` decodes on its own and the text ends with `b`'s characters |
| Decimal.Show | mcp_server/anki_logic.py:37 | `str(n)` is non-empty, all digits, and starts with `0` only for zero |
| Decimal.ParseShow | mcp_server/anki_logic.py:139 | a printed count reads back as the same number |
| Decimal.ShowInjective | mcp_server/anki_logic.py:186 | different numbers print differently |
| Sanitize.ReplaceSpaces | mcp_server/anki_logic.py:11 | every space becomes `_`, nothing else changes, the length is kept |
| Sanitize.StripUnsafe | mcp_server/anki_logic.py:12 | the result only has characters of `[A-Za-z0-9_.-]`, is no longer than the input, and leaves an all-safe text alone |
| Sanitize.SanitizeFilename | mcp_server/anki_logic.py:9-12 | the sanitised name has only `[A-Za-z0-9_.-]` and is never longer than the name |
| Sanitize.SanitizeIdempotent | convert_anki.py:19-23 | sanitising twice is sanitising once |
| Sanitize.SanitizeFixedPoints | convert_anki_checklist.py:19-23 | a name is left unchanged exactly when it is already all-safe |
| Sanitize.StripAppend | mcp_server/anki_logic.py:12 | deleting unsafe characters distributes over concatenation |
| Sanitize.SanitizeAppend | mcp_server/anki_logic.py:9-12 | sanitising distributes over concatenation |
| Sanitize.StripOne | mcp_server/anki_logic.py:12 | a single safe character is kept and any other deleted, so with `StripAppend` the deletion is fixed character by character |
| Sanitize.SanitizeOne | mcp_server/anki_logic.py:9-12 | a single space becomes `_`, another safe character is kept, any other is deleted |
| Sanitize.StripCounts | mcp_server/anki_logic.py:12 | the result holds every safe character as often as the input does, and no unsafe one |
| ImagePaths.QuoteFreeRun | mcp_server/anki_logic.py:20 | greedy `[^"]+` stops at the first `"` and consumes no `"` |
| ImagePaths.TagAt | mcp_server/anki_logic.py:20 | a match at the head is a non-empty, quote-free source inside an exact `<img src="…">` prefix |
| ImagePaths.TagAtTag | mcp_server/anki_logic.py:20 | every exact tag with a non-empty quote-free source is matched, with that source |
| ImagePaths.QuoteFreeRunStops | mcp_server/anki_logic.py:20 | the run over a quote-free source ends exactly at the following `"` |
| ImagePaths.FixTag | mcp_server/anki_logic.py:16-20 | a leading tag becomes `![image](Anki_Images/` + sanitised source + `)` and the rest is rewritten after it |
| ImagePaths.FixNoTagPrefix | convert_anki.py:226-237 | a prefix where no tag starts is copied unchanged |
| ImagePaths.FixUnchangedIff | mcp_server/anki_logic.py:14-20 | the rewrite leaves a text unchanged exactly when no tag starts anywhere in it |
| ImagePaths.FirstTag | convert_anki_checklist.py:200-211 | a text with a tag is always changed |
| ImagePaths.FixAtFirstTag | mcp_server/anki_logic.py:14-20 | the output equals the input up to the first tag and has the image link's `!` where the tag's `<` was |
| ImagePaths.ExtraAttributesKept | mcp_server/anki_logic.py:20 | a tag `<img src="X" attrs>` with further attributes after the source is not matched and the text is left exactly as it was |
| ImagePaths.NoOpenNoTag | mcp_server/anki_logic.py:20 | no match starts at a character other than `<` |
| ImagePaths.MatchOnlyAtHead | mcp_server/anki_logic.py:20 | in a text with no `<` after its first character, no match starts anywhere but at the head |
| ImagePaths.QuoteWithoutClose | mcp_server/anki_logic.py:20 | a source followed by `"` that is not followed by `>` is not matched |
| KeyResolver.CodePointName | mcp_server/anki_logic.py:94-95 | `str(ord(c))` is all digits and reads back as the code point |
| KeyResolver.ResolveSource | mcp_server/anki_logic.py:88-95 | the key wins when it exists; otherwise the shift alias when it exists; otherwise the code point of a one-character key; a changed source always exists |
| KeyResolver.Candidates | mcp_server/anki_logic.py:88-95 | the key itself is the first name tried |
| KeyResolver.FirstExisting | convert_anki_checklist.py:115-122 | the position found is the first existing name; none is found exactly when no name exists |
| KeyResolver.ResolveIsFirstExisting | convert_anki_checklist.py:115-122 | the resolver is "first existing of key, alias, code point, else the key" |
| KeyResolver.FirstOfThree | mcp_server/anki_logic.py:88-95 | among three candidate names, the first existing one is chosen, in order |
| Blob.IsZstdIff | mcp_server/anki_logic.py:102-105 | a blob is treated as zstd exactly when it starts with `28 B5 2F FD`, the frame magic of section 3.1.1 of RFC 8878 |
| Blob.Lower | convert_anki.py:162 | lower-casing maps `A`-`Z` to `a`-`z`, keeps every other character and the length |
| Blob.LowerAppend | convert_anki.py:162-163 | lower-casing distributes over concatenation |
| Blob.TargetFor | convert_anki.py:161-171 | `.png` (any case) is re-encoded as PNG, `.jpg`/`.jpeg` as JPEG, anything else moved unchanged, each case exactly |
| Blob.SaveMode | mcp_server/anki_logic.py:128 | a JPEG is never saved in RGBA or palette mode; other images keep their mode |
| Blob.PlanCopy | mcp_server/anki_logic.py:100-133 | a copy decompresses exactly zstd blobs and saves in the format of its target name |
| Recovery.LastFound | mcp_server/anki_logic.py:84 | the position found is the last pair with that key; no later pair carries it |
| Recovery.IndexIsLastFound | mcp_server/anki_logic.py:83-84 | the dictionary holds exactly the keys of the pairs read, each with the sanitised name of the last pair carrying it |
| Recovery.IndexValuesSafe | convert_anki_checklist.py:110-111 | every dictionary value is a sanitised, all-safe name |
| Recovery.FoundCount | convert_anki.py:127 | the number of pairs read never exceeds the number of positions |
| Recovery.IndexSize | mcp_server/anki_logic.py:139 | the dictionary has at most one entry per pair read |
| DelimitedScan.KeyEndFrom | mcp_server/anki_logic.py:63-65 | the inner loop stops at the first newline, at the buffer end, or at `i + 50`, with no newline skipped |
| DelimitedScan.RecordAtSound | mcp_server/anki_logic.py:61-84 | what the scan reads at `i` is a key strictly between two newlines, then a length byte, then that many bytes of a decodable filename containing `.` |
| DelimitedScan.RecordAtComplete | mcp_server/anki_logic.py:67-82 | every such record at a newline is the one the scan reads there |
| DelimitedScan.KeyEndStops | mcp_server/anki_logic.py:63-65 | started anywhere before the first newline of the window, the inner loop stops at that newline |
| DelimitedScan.NamedRecordComplete | mcp_server/anki_logic.py:73-82 | a length byte followed by that many bytes of a decodable name containing `.` is read as that name |
| DelimitedScan.RecordKeyShape | convert_anki_checklist.py:88-97 | a scanned key holds no line feed and comes from at most 49 bytes |
| DelimitedScan.Records | mcp_server/anki_logic.py:61 | exactly the positions `i < n - 5` are visited |
| DelimitedScan.FindKeyEnd | mcp_server/anki_logic.py:63-65 | the inner `while` computes the key's end |
| DelimitedScan.ReadRecord | mcp_server/anki_logic.py:62-84 | the body of one scan step computes the pair read at `i`, or nothing |
| DelimitedScan.ReadName | mcp_server/anki_logic.py:72-82 | after the key, the length byte and the filename it announces give the pair, or nothing |
| DelimitedScan.ScanStep | mcp_server/anki_logic.py:83-100 | one more position overwrites the dictionary entry of its key and appends that pair's copy, if any |
| DelimitedScan.Scan | mcp_server/anki_logic.py:47-137 | the loop builds the dictionary of all pairs read, in order, and plans a copy for each pair whose resolved source exists |
| DelimitedScan.IndexEntrySound | mcp_server/anki_logic.py:61-84 | every key in the dictionary was read as a valid record at some `i < n - 5`, and maps to that record's sanitised name |
| DelimitedScan.IndexEntryComplete | mcp_server/anki_logic.py:84-100 | every record read leaves its key in the dictionary, whether or not a file for it exists |
| DelimitedScan.CopiesSound | mcp_server/anki_logic.py:88-100 | each planned copy reads an existing file resolved from a recorded key, towards that record's sanitised name |
| BackwardScan.FirstAlternative | convert_anki.py:46 | the alternative chosen matches at the position; none is chosen only when none matches |
| BackwardScan.MatchEnd | convert_anki.py:49 | a match end lies 4 or 5 bytes after the dot, within the buffer |
| BackwardScan.MatchesFrom | convert_anki.py:48 | the reported ends are strictly increasing and inside the buffer |
| BackwardScan.NoMatchInside | convert_anki.py:48 | no match starts inside another |
| BackwardScan.MatchesExact | convert_anki.py:48 | `finditer` reports an end exactly when a match of the pattern ends there |
| BackwardScan.MatchStart | convert_anki.py:48 | every end reported from `s` on belongs to a match starting at or after `s` |
| BackwardScan.MatchReported | convert_anki.py:48 | every match starting at or after `s` has its end reported |
| BackwardScan.MatchEndsAreMatches | convert_anki.py:48-49 | every end the loop visits is the end of a match |
| BackwardScan.WalkBack | convert_anki.py:93-94 | the walk skips only non-newline bytes, stops at a newline, the buffer start or 20 bytes back |
| BackwardScan.KeyStart | convert_anki.py:90-96 | a key line is at most 19 bytes without a newline and is maximal; with a negative end nothing is walked |
| BackwardScan.Accepted | convert_anki.py:101-102 | a key is kept exactly when it decoded and names an existing file |
| BackwardScan.ValidKeySound | convert_anki.py:87-122 | a truthy `valid_key` is a non-empty name in the listing, decoded as ASCII from one of the two lines right before the length byte, which must follow a newline |
| BackwardScan.ValidKeyAtStart | convert_anki.py:88 | a length byte at offset 0 never gets a key, although `data[-1]` wraps around |
| BackwardScan.ValidKeyPrefersKey1 | convert_anki.py:106-108 | when the parent line names an existing file, it is the key, and the grandparent is not consulted |
| BackwardScan.PairAt | convert_anki.py:74-127 | a distance records a pair only when its length byte matches, its filename decodes and `valid_key` is truthy; the pair is that filename with that key |
| BackwardScan.FirstKeyed | convert_anki.py:70-72 | the distance where the search ends lies between its start and 254, with its length byte inside the buffer |
| BackwardScan.FirstKeyedEnds | convert_anki.py:124-188 | where the search ends, the length byte is a hit with a truthy key, and the pair is the one recorded there |
| BackwardScan.FirstKeyedIsFirst | convert_anki.py:70-188 | every distance before the one where the search ends, or every distance when it ends nowhere, is no hit with a truthy key |
| BackwardScan.PassesOver | convert_anki.py:70-188 | a distance before the one where the search ends is no hit with a truthy key, and the search goes on after it |
| BackwardScan.Recovered | convert_anki.py:48 | one outcome per match, in match order |
| BackwardScan.FindKeyStart | convert_anki.py:90-96 | the backward `while` computes the key line's start |
| BackwardScan.FindValidKey | convert_anki.py:87-122 | the method computes `valid_key` as specified |
| BackwardScan.ReadLineKey | convert_anki.py:90-104 | one key line: its start is where the backward walk stops, its key the ASCII decoding kept only when the file exists |
| BackwardScan.ReadKey | convert_anki.py:109-122 | the second key line gives the key the specification reads there |
| BackwardScan.TryKey2 | convert_anki.py:106-122 | the grandparent line is consulted only when Key1 is not truthy and a newline precedes Key1 |
| BackwardScan.TryDistance | convert_anki.py:70-184 | one distance either ends the search with the pair it records or passes the search on to the next distance |
| BackwardScan.PairAtHit | convert_anki.py:83-184 | at a hit, a truthy `valid_key` ends the search with the hit's filename and that key; a falsy one passes the search on |
| BackwardScan.RecoverAt | convert_anki.py:68-188 | the distance loop with `found` and `break` yields the pair of the first hit with a truthy key, or nothing |
| BackwardScan.SearchSkips | convert_anki.py:74-188 | a distance whose length byte does not match, whose filename does not decode, or whose key is not truthy passes the search to the next distance |
| BackwardScan.SearchEndsAt | convert_anki.py:124-188 | a hit with a truthy key ends the search with its filename and that key |
| BackwardScan.SearchRunsOut | convert_anki.py:70-72 | a search that runs past distance 254 or reaches the buffer start records nothing |
| BackwardScan.Scan | convert_anki.py:48-188 | the loop builds the dictionary of all pairs recovered, in match order, and plans their copies |
| BackwardScan.CandidateSound | convert_anki.py:70-188 | a recovered pair comes from the first hit with a truthy key: a distance 5 ≤ dist ≤ 254 whose length byte equals dist, followed by exactly the UTF-8 form of the filename; its key is a non-empty name in the listing read from a key line just before that length byte; no smaller distance is a hit with a truthy key |
| BackwardScan.PairAtSound | convert_anki.py:74-127 | a distance that records a pair has a length byte equal to it, followed by exactly the UTF-8 form of the filename, and a non-empty listed key read from a key line just before that byte |
| BackwardScan.HitAtSound | convert_anki.py:74-81 | a hit's length byte equals its distance and is followed by exactly the UTF-8 form of its filename |
| BackwardScan.CandidateName | convert_anki.py:77-81 | a recovered filename is the UTF-8 decoding of the bytes right before the match end, 5 to 254 of them |
| BackwardScan.CandidateExists | convert_anki.py:70-188 | a match records a pair exactly when some distance from 5 to 254 inside the buffer is a hit with a truthy key |
| BackwardScan.EveryPairCopied | convert_anki.py:132 | when every key exists on disk, there is one copy per pair |
| BackwardScan.ScanCopiesAll | convert_anki.py:124-132 | every recovered key is in the listing, so the existence test always passes and each pair is copied |
| BackwardScan.SuffixesOfExtension | convert_anki.py:161-163 | a name ending in `.` + a matched extension ends in `.png`, `.jpg` or `.jpeg` exactly when that is the extension |
| BackwardScan.TargetOfExtension | convert_anki.py:161-171 | such a name is saved as PNG for png, as JPEG for jpg/jpeg, and moved for gif/svg |
| BackwardScan.MatchIsAscii | convert_anki.py:46 | the matched bytes are ASCII, safe characters that lower-case to `.` + the extension |
| BackwardScan.SanitizedKeepsTail | convert_anki.py:126 | sanitising keeps an all-safe ending |
| BackwardScan.NameEndsWithMatch | convert_anki.py:77-81 | a filename decoded up to a match end ends with the matched characters |
| BackwardScan.RecoveredTarget | convert_anki.py:161-171 | the format used for a recovered image agrees with the extension matched, whatever its letter case |
| Notes.Split | mcp_server/anki_logic.py:192 | splitting gives at least one field and no field holds `\x1f` |
| Notes.JoinSplit | mcp_server/anki_logic.py:192 | joining the fields gives back the text |
| Notes.SplitJoin | convert_anki.py:249 | splitting separator-free fields joined by `\x1f` gives back the fields |
| Notes.SplitHasBack | mcp_server/anki_logic.py:193 | a note has a second field exactly when it holds a separator |
| Notes.BackIsSecondField | mcp_server/anki_logic.py:193-198 | the answer is the placeholder for a note without separator, else the rewritten second field |
| Notes.ExtraFieldsIgnored | mcp_server/anki_logic.py:192-195 | fields after the second do not change the question block |
| Notes.CheckboxFollowsFront | convert_anki_checklist.py:234-236 | whatever the style, its checkbox line comes right after the question text and right before `<details>` |
| Notes.BlocksAppend | convert_anki_checklist.py:222 | question numbering runs on across a concatenation of notes |
| Notes.BlocksCons | mcp_server/anki_logic.py:191-204 | the first note is question `first`, the rest numbered after it |
| Notes.BlocksSnoc | mcp_server/anki_logic.py:191-204 | a note appended after `n` notes is question `first + n` |
| Notes.QuestionNumbering | mcp_server/anki_logic.py:191-204 | note `k` of a chunk is rendered as question `k + 1` of its part |
| Notes.PartNamesDistinct | mcp_server/anki_logic.py:186 | different parts get different file names |
| Notes.ChunksOf | convert_anki.py:240 | every chunk is non-empty with at most `size` notes, and only the last may be shorter |
| Notes.ChunkCount | mcp_server/anki_logic.py:182 | there are just enough chunks to hold all notes |
| Notes.ChunkItem | convert_anki_checklist.py:214 | item `k` of chunk `c` is note `c * size + k` |
| Notes.ChunkPosition | mcp_server/anki_logic.py:182 | note `i` is item `i % size` of chunk `i / size` |
| Notes.ChunksConcat | mcp_server/anki_logic.py:182 | the chunks joined in order are exactly the notes |
| Notes.Chunks | mcp_server/anki_logic.py:182 | chunking fails exactly for size 0, gives no chunks for a negative size |
| Notes.Parts | mcp_server/anki_logic.py:185-208 | part `c` is named `Anki_Part_{c}.md`, numbered from 1, and holds the document of chunk `c` |
| Notes.RenderPart | mcp_server/anki_logic.py:189-204 | the `+=` loop builds the header followed by the question blocks numbered from 1 |
| Notes.RenderStep | mcp_server/anki_logic.py:191-204 | appending question `q + 1` to the text of the first `q` notes gives the text of the first `q + 1` |
| Notes.WriteParts | mcp_server/anki_logic.py:185-208 | the loop writes one file per chunk, in order |
| Notes.ConvertNotes | mcp_server/anki_logic.py:180-214 | the log reports the note count and the number of files created, or the `range` error for size 0 with no file written |
| Notes.ScriptParts | convert_anki_checklist.py:214-242 | the scripts write parts of 50 notes in their own labels |
| Notes.NoteInPart | mcp_server/anki_logic.py:182-204 | every note lands in part `i / size + 1` as question `i % size + 1`, between the notes around it |
| Notes.PartAt | mcp_server/anki_logic.py:185-187 | the file for chunk `c` is `Anki_Part_{c + 1}.md` holding that chunk's document |
| Media.ExtractMedia | mcp_server/anki_logic.py:22-141 | no file: empty map and its message; JSON with a length: returned as loaded, nothing scanned or copied; failed decompression or a JSON value without length: the error message; otherwise the delimited scan's map, count and copies |
| Media.ScanCountBounded | mcp_server/anki_logic.py:139 | the reported count reads back as the number of keys, at most the number of records |
| Media.ConvertAnkiMedia | convert_anki.py:29-193 | the dictionary and copies are the backward scan's, or empty when the file is missing or does not decompress |
| Media.LastStartIn | convert_anki_checklist.py:70-77 | a start recorded by the leftover loop follows a length byte equal to its distance from the match end |
| Media.LeftoverStart | convert_anki_checklist.py:48-77 | `fn_start` ends at such a start for some match |
| Media.LeftoverLoop | convert_anki_checklist.py:48-77 | the leftover loop only computes `fn_start` |
| Media.LeftoverStep | convert_anki_checklist.py:48-77 | each match's last candidate start, if it has one, replaces `fn_start` |
| Media.DistanceLoop | convert_anki_checklist.py:70-77 | the distance loop leaves `fn_start` at the last candidate start for the match, or unchanged when there is none |
| Media.LastStartStep | convert_anki_checklist.py:70-77 | a candidate at a larger distance overrides one at a smaller distance |
| Media.ChecklistMedia | convert_anki_checklist.py:29-167 | the dictionary and copies are the delimited scan's alone; the leftover loop contributes nothing |
| Scenarios.ShiftedKeyResolves | mcp_server/anki_logic.py:88-92 | key `!` with only `1` on disk is read from `1` |
| Scenarios.LengthNineTruncates | mcp_server/anki_logic.py:73-82 | length byte 9 before `myfile.png` records `myfile.pn` |
| Scenarios.LengthTenRecordsWholeName | mcp_server/anki_logic.py:73-82 | length byte 10 records `myfile.png`, although 10 is the newline byte |
| Scenarios.FalsyKeyHitSkipped | convert_anki.py:70-188 | in `\nK\n\x06\x05a.png` with `K` listed, the hit at distance 5 has no key and is passed over; distance 6 records `K` with a name that sanitises to `a.png` |
| Scenarios.ControlCharStripped | mcp_server/anki_logic.py:12 | sanitising deletes the control character in front of `a.png` |
| Scenarios.AsciiText | mcp_server/anki_logic.py:80 | ASCII bytes decode as UTF-8 to the characters with the same codes |

## Left out

- zstd decompression is not modelled: of the `media` index, of the blobs (`copy_stream`), and of `collection.anki21b`. The decompressed index, or the decompressor's error message, is a parameter; a blob's decompression is only the `Blob.Copy.decompress` decision.
- Pillow decoding and re-encoding, `shutil.copy2`/`move`, the `.tmp` files and their clean-up are file I/O. Only the zstd test, the target format and the colour-mode rule (`Blob.SaveMode`) are modelled.
- `json.load` is an oracle (`Media.Json`, `None` where it raises). Object values are taken as strings, because only `len` of the value matters.
- Retrieving notes through `sqlite3` is not modelled. Neither is the database choice in `convert_deck` (`collection.anki2` against the extracted `.anki21b`, with the messages "Decompressed v2 database.", "Failed to decompress v2 DB: …" and "Error: No collection.anki2 or collection.anki21b found."). The `flds` texts enter as strings, and a NULL `flds` is not considered.
- The Markdown file writes are not modelled; the files are (name, content) values.
- `mcp_server/server.py` (the MCP stdio server, zip extraction, temporary directories) is not part of this model.
- The two scripts' `print` output is not modelled: progress lines, `Recovered: …`, `Image fix failed`, and the `Found N media files.` count.
- BackwardScan.Scan: a copy that raises before `found = True` is not modelled. In `convert_anki.py` (lines 144-186) that exception would make the distance search go on to larger distances. The model treats copies as planned decisions that cannot fail.
- DelimitedScan.Scan: `os.path.exists(os.path.join(base_dir, src_key))` is modelled as `src_key` being in the listing. For a key that is not a plain file name this differs: a key holding `/` can reach a file in a subdirectory, an absolute key such as `/etc/passwd` replaces `base_dir` entirely, and `""`, `.` and `..` name directories that exist. The source then attempts a copy the model does not plan.
- BackwardScan.Scan: a listed name that is a subdirectory passes `os.path.exists`, and its copy then fails. The model plans that copy like any other.
- DelimitedScan.Scan: copies are decisions, not outcomes. A failed copy in the source is swallowed after the dictionary entry is written, which the model also does.
- Blob.Lower: lower-cases ASCII letters only, where Python's `str.lower` is Unicode-wide. It is applied only to sanitised names, which are ASCII, so the result is the same there.
- The directory listing is taken once, as in the source. Files changing on disk during the run are not considered.
