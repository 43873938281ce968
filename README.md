# PDF RAG and voiceover helpers: a Dafny model

This project models the decision and bookkeeping logic of a system that reads PDFs into a vector store and summarises them, and that turns scripts into narrated audio or video. Five parts are modelled:

- **Caption wrapping** (`text_wrapping.dfy`, module `TextWrapping`):
  - the greedy word wrapper for video captions;
  - the per-frame line-width budget, clamped to 15..20 characters;
  - the drawtext escaper;
  - the `\n`-joined display text.
- **Voiceover requests** (`voiceover.dfy`, module `Voiceover`):
  - the guards of `generate_speech`;
  - the file id, file name and download URL;
  - the overlay escaper and the overlay text;
  - the video fallback chain;
  - the 30-second duration default;
  - the extension rule of `get_file_info`.
- **RAG bookkeeping**:
  - `rag_truncate.dfy`: the binary-search truncation to a token budget;
  - `rag_config.dfy`: the context-window guess, the content budget, the fallback-model list and the de-duplicated model order;
  - `rag_store.dfy`: the records, ids and progress of `create_vector_db`, its batched write, the paginated read-back of `_fetch_all_chunks`, and the hit shaping of `search_documents`;
  - `rag_summary.dfy`: the hierarchical summary in groups of three;
  - `rag_system.dfy`: the `RAGSystem` object, with its collection cache and the store behind it.
- **TTS provider selection** (`tts_providers.dfy`, module `TtsProviders`):
  - the priority-ordered available providers;
  - lookup by name, the default provider and the voices map;
  - the synthesize dispatch.
- **Secret-key update** (`secret_key.dfy`, module `SecretKey`): the `.env` file read as lines, the line rewrite of `update_env_file`, and the text written back.

Shared modules:

- `PyStr` (`pystr.dfy`) holds the Python string builtins the code relies on:
  - `split()`, `split(sep)`, `strip()`, `join`;
  - one-character `replace`, `startswith` and `in`;
  - ASCII `lower()` and `str(int)`.
- `Slicing` (`slicing.dfy`) holds `range(0, n, k)` slicing.
- `Progress` (`progress.dfy`) holds the integer arithmetic behind the reported percentages.
- `Results` (`results.dfy`) holds `Option` and `Result`.

External services are parameters of the model. These are:

- the tokenizer, the text splitter and the chat model;
- the store's paged read and query;
- the speech service and the ffmpeg and ffprobe runs;
- provider installation probes, file existence and uuids.

Exceptions become `Failure` values. A progress callback becomes the list of values it receives: on success that list is part of the result, and when an operation that reports progress raises, the error (`RagService.Raised`) carries the values the callback received before the exception.

Where imperative code changes state, the model uses methods with loops:

- `PackWords`, `RewriteSecretKey` and `TruncateToTokenLimit`;
- `OrderModels`, `CollectChunks`, `AddInBatches` and `PaginateChunks`;
- `SummarizeGroups`, `GetProviderByName` and `GetAllVoices`.

Each of them is proved equal to a specification function, and that function's properties are proved as lemmas, except three. `PackWords` is proved to meet the predicate `Packed`. `GetProviderByName` and `GetAllVoices` state their properties directly in their ensures. Two classes hold state that is updated in place:

- `RagService.RagSystem`: the client flag, the store's collections and the session cache;
- `SecretKey.EnvFile`: whether the `.env` file exists, and its text.

In the code, `_create_video_with_audio` raises when its last plain encode fails too (voiceover_system.py:153-156, 175-177), and `Voiceover.CreateVideo` keeps that failure.

## Model

| member | source | states |
|---|---|---|
| TextWrapping.TruncDiv | test_text_wrapping.py:34 | `int()` of a quotient truncates toward zero: the quotient's magnitude is the floor of the magnitudes' quotient, it is non-negative when the operands agree in sign and non-positive when they differ |
| TextWrapping.MaxCharsPerLine | test_text_wrapping.py:30-35 | the line budget always lies in 15..20; it is the glyph estimate when that is in range, 15 below the range and 20 above it |
| TextWrapping.PortraitBudget | test_text_wrapping.py:16-35 | the portrait setup (1080 px, 56 px font, 50 px margins) estimates 35 glyphs and is clamped to 20 |
| TextWrapping.EscapeDrawtextIsCharwise | test_text_wrapping.py:72-79 | the six replaces, backslash first, equal escaping each character on its own: no replace re-escapes what an earlier one inserted |
| TextWrapping.EscapeDrawtextConcat | test_text_wrapping.py:72-79 | escaping distributes over concatenation |
| TextWrapping.EscapeDrawtextChar | test_text_wrapping.py:72-79 | one backslash, quote, colon, percent sign or bracket gets one backslash in front; any other character is kept |
| TextWrapping.EscapeDrawtextLength | test_text_wrapping.py:72-79 | the output is longer than the input by exactly the number of the six special characters |
| TextWrapping.EscapeDrawtextReadsBack | test_text_wrapping.py:72-79 | removing the escapes recovers the line exactly |
| TextWrapping.ReadEscaped | test_text_wrapping.py:72-82 | an escaped text followed by more input reads back as the text followed by what the rest reads as |
| TextWrapping.DisplayTextReadsBack | test_text_wrapping.py:82 | the `\n`-joined display text of a non-empty list of lines reads back as exactly those lines |
| TextWrapping.DisplayTextLength | test_text_wrapping.py:82 | the display text is the escaped lines plus one two-character break between consecutive lines |
| TextWrapping.StripNextLine | test_text_wrapping.py:49 | `f"{current} {word}".strip()` of a line built from words is that line with the word appended, single-spaced |
| TextWrapping.WordsOfBlank | test_text_wrapping.py:44 | a whitespace-only text has no words |
| TextWrapping.PackedClose | test_text_wrapping.py:53-56 | closing a line whose next word does not fit keeps every line within budget (or a lone long word) and greedy |
| TextWrapping.PackedLines | test_text_wrapping.py:44-63 | a packing's lines split back into their word groups, and joining them gives all the words in order |
| TextWrapping.StepStart | test_text_wrapping.py:45-46 | the empty start state satisfies the loop invariant |
| TextWrapping.StepExtend | test_text_wrapping.py:49-52 | a word that fits extends the current line and keeps the invariant |
| TextWrapping.StepClose | test_text_wrapping.py:53-56 | a word that does not fit closes the non-empty current line and starts the next one, keeping the invariant |
| TextWrapping.StepLongFirst | test_text_wrapping.py:57-58 | a word on an empty current line starts the line even when it is longer than the budget |
| TextWrapping.Finish | test_text_wrapping.py:60-61 | after the last word, the pending line, if any, is closed and the groups cover all words |
| TextWrapping.PackWords | test_text_wrapping.py:44-63 | the loop produces a greedy packing whose groups flatten to exactly the input words |
| TextWrapping.PackedOutcome | test_text_wrapping.py:44-63 | a packing of the text's words keeps the words in order, has no empty line, lets only a single word overflow, is greedy, and is empty for a blank text |
| TextWrapping.WrapTextForVideo | test_text_wrapping.py:40-63 | a text within budget comes back as `[text]`; otherwise the lines hold the text's words in order, joined by single spaces, none empty, only a lone word over budget, each line closed only when the next word would not fit, and no lines for a blank text |
| TextWrapping.CaptionDisplayText | test_text_wrapping.py:30-82 | the budgeted wrap of the text, escaped and `\n`-joined; the display text reads back as the wrapped lines |
| Voiceover.Validate | voiceover_system.py:33-40 | the request is refused for a missing client, else an unlisted voice, else an unlisted format; each refusal happens exactly in its case, and nothing is refused otherwise |
| Voiceover.FileId | voiceover_system.py:44-46 | the file id ends with the uuid; with a non-empty session id it is exactly the session id, one `_`, then the uuid; otherwise it is the uuid alone |
| Voiceover.FileIdSplits | voiceover_system.py:44-46 | with underscore-free parts, splitting the file id at `_` gives back the session id and the uuid |
| Voiceover.PathJoin | voiceover_system.py:84 | the joined path ends with the file name |
| Voiceover.Basename | voiceover_system.py:103 | the basename is the slash-free tail of the path, preceded in the path by a `/` whenever it is shorter, and the whole path when it has no slash |
| Voiceover.BasenameOfJoin | voiceover_system.py:77-103 | a slash-free file name is the basename of its joined path |
| Voiceover.DownloadUrl | voiceover_system.py:103 | the URL is the download route `/download-voiceover/` followed by exactly the basename of the path, which holds no slash |
| Voiceover.EscapeForFfmpegIsCharwise | voiceover_system.py:216-224 | the five replaces equal escaping each character on its own, since the inserted backslash is not a later pattern |
| Voiceover.EscapeForFfmpegLength | voiceover_system.py:216-224 | the output is longer by exactly the number of quotes, colons, commas and brackets |
| Voiceover.EscapeForFfmpegKeepsOthers | voiceover_system.py:216-224 | a text without those five characters, backslashes included, is left unchanged |
| Voiceover.EscapeForFfmpegReadsBack | voiceover_system.py:216-224 | without backslashes in the input, removing the escapes recovers it |
| Voiceover.BackslashIsNotDoubled | voiceover_system.py:219-223 | an existing backslash is not doubled: a text without the five characters is left as it is, and its first backslash with the character after it reads back as that character alone, so the text does not read back as itself |
| Voiceover.OverlayText | voiceover_system.py:131 | the overlay is the escaped first 100 characters followed by `...`, with its length given exactly |
| Voiceover.OverlayReadsBack | voiceover_system.py:131 | the overlay reads back as the first 100 characters of the script followed by `...` |
| Voiceover.AudioDuration | voiceover_system.py:194-214 | the duration is the probe's report after a zero exit, and 30.0 for a non-zero exit, a missing report or an exception |
| Voiceover.CreateVideo | voiceover_system.py:112-177 | the video is produced exactly when the waveform run exits and the file is then on disk after it (exit 0) or after the first plain encode (non-zero exit), or else when the plain encode in the exception handler succeeds; the waveform encode runs first, a raising waveform run is followed by one plain encode, a clean one by none, and at most two plain encodes follow in all |
| Voiceover.GenerateSpeech | voiceover_system.py:31-110 | a successful result reports the requested format and the probed duration |
| Voiceover.RefusedBeforeServices | voiceover_system.py:31-42 | a refused request fails with its refusal whatever the services would do |
| Voiceover.SpeechSucceeds | voiceover_system.py:31-110 | a request succeeds exactly when it passes the guards, the speech call succeeds, and, for mp4, the waveform or first plain encode leaves the file on disk or the handler's plain encode succeeds, and, for wav, the conversion succeeds |
| Voiceover.SpeechNaming | voiceover_system.py:74-106 | the result's path is `file_id.<format>` in the output folder, its basename is that name, and its URL is the download route followed by it |
| Voiceover.GetFileInfo | voiceover_system.py:244-263 | nothing for a missing file or a failing lookup; otherwise the format is the dot-free text after the last dot, or the whole name without a dot |
| Voiceover.FileInfoOfOutput | voiceover_system.py:259 | the file info of a generated file reports the format it was generated in |
| RagTruncate.FallbackCount | rag_system.py:157-159 | the fallback counter gives a quarter of the length, rounded down |
| RagTruncate.FallbackCountMonotone | rag_system.py:157-159 | the fallback counter never gives a prefix more tokens than a longer prefix |
| RagTruncate.Search | rag_system.py:168-175 | the binary search ends between its bounds |
| RagTruncate.Probe | rag_system.py:169-175 | each probe strictly narrows the interval, moves `start` only to a fitting length and `end` only below a non-fitting one, and leaves the search's outcome unchanged |
| RagTruncate.SearchFinds | rag_system.py:168-175 | from sound bounds, the search ends at a length that fits (or 0) whose successor does not fit |
| RagTruncate.LongestFit | rag_system.py:168-177 | for a monotone counter, that length is the longest fitting prefix |
| RagTruncate.TruncatedMeaning | rag_system.py:161-177 | a text within budget is returned unchanged; otherwise the result is a prefix that fits (or is empty), whose one-longer prefix does not fit, followed by the truncation marker, and that prefix is the longest fitting one for a monotone counter |
| RagTruncate.TruncateToTokenLimit | rag_system.py:161-177 | the loop computes the truncation specified above |
| RagConfig.InferContextWindow | rag_system.py:74-87 | the window is one of four sizes; on the lower-cased name, 128000 exactly when a long-context key occurs, 32768 exactly when none does but `32k` does, 16385 exactly when neither does but `16k` or `3.5` does |
| RagConfig.ContextWindowIgnoresCase | rag_system.py:76 | the classification ignores letter case |
| RagConfig.EmptyModelWindow | rag_system.py:76-87 | an empty model name gets 8192 |
| RagConfig.DefaultModelWindow | rag_system.py:31-79 | the default model gpt-4o-mini gets 128000 |
| RagConfig.MaxContentTokens | rag_system.py:56-57 | the content budget is at least 1024 and at least the window minus the reserve, and is one of the two |
| RagConfig.DefaultContentBudget | rag_system.py:31-57 | the default configuration leaves 125000 content tokens |
| RagConfig.StrippedNames | rag_system.py:37 | every kept entry is non-empty and has no surrounding whitespace, no entry is added, and the list is empty exactly when every field strips to nothing |
| RagConfig.NonEmpty | rag_system.py:37 | the `if m.strip()` filter keeps at most the entries it is given, only non-empty ones taken from the list, and gives nothing exactly when every entry is empty |
| RagConfig.KeptIndices | rag_system.py:37 | the kept positions are increasing, in range, and include every position with a non-empty entry |
| RagConfig.NonEmptyKept | rag_system.py:37 | the filter keeps exactly the entries at the kept positions, in their order |
| RagConfig.NonEmptyMembers | rag_system.py:37 | a text is kept exactly when it is non-empty and in the list |
| RagConfig.StrippedNamesKept | rag_system.py:37 | the parsed names are the stripped fields at the kept positions, in field order, and every field that does not strip to nothing is among them |
| RagConfig.StrippedNamesMembers | rag_system.py:37 | a name is parsed exactly when it is the non-empty strip of some field |
| RagConfig.KeptAll | rag_system.py:37 | with no empty entry, every position is kept |
| RagConfig.ParseFallbacks | rag_system.py:36-43 | the fallback list is never empty and holds only clean names; it is the five defaults exactly in the case that every comma-separated field is blank, and otherwise the stripped non-blank fields |
| RagConfig.ParseFallbacksOfEmpty | rag_system.py:36-43 | an unset variable gives the five default models |
| RagConfig.DefaultFallbacksClean | rag_system.py:37-43 | the five defaults are clean names |
| RagConfig.ParseFallbacksOfJoin | rag_system.py:36-37 | a comma-joined list of clean names parses back to itself |
| RagConfig.FirstOccurrencesMembers | rag_system.py:374-379 | the ordered models are distinct and are exactly the non-empty candidates |
| RagConfig.FirstOccurrencesPrefix | rag_system.py:376-379 | more candidates only extend the kept list |
| RagConfig.FirstOccurrencesOrder | rag_system.py:374-379 | the kept models appear in the order of their first occurrences among the candidates |
| RagConfig.FirstOccurrencesOfDistinct | rag_system.py:374-379 | with no empty or repeated names, nothing is dropped |
| RagConfig.OrderModels | rag_system.py:373-379 | the loop keeps the first occurrences of `[primary] + fallbacks`, which are distinct and exactly the non-empty candidates, and a non-empty primary comes first |
| RagStore.ChunkIdInjective | rag_system.py:234 | within a session, an id names one page and one chunk |
| RagStore.PageRecordsSound | rag_system.py:232-243 | every record of a page is a non-blank chunk of it at its index, with page number, file, session and id, in chunk order |
| RagStore.PageRecordsComplete | rag_system.py:232-243 | every non-blank chunk of a page has a record |
| RagStore.IngestedSound | rag_system.py:225-243 | every collected record comes from a non-blank chunk of the pages, with the matching metadata and id, in page-then-chunk order |
| RagStore.IngestedComplete | rag_system.py:225-243 | every non-blank chunk of every page is collected |
| RagStore.IngestedIdsDistinct | rag_system.py:234 | no two collected records share an id |
| RagStore.IngestProgressOrdered | rag_system.py:245-248 | ingestion progress stays within 0..40, never goes back, and is 40 after the last page |
| RagStore.IngestProgressBounds | rag_system.py:246-248 | any earlier page reports at most what a later page reports, within 0..40 |
| RagStore.CollectStep | rag_system.py:232-243 | one chunk step appends the chunk's record to the three lists exactly when it is not blank |
| RagStore.CollectPage | rag_system.py:232-243 | the page's records are appended to the three parallel lists |
| RagStore.CollectChunks | rag_system.py:219-248 | the three lists hold the collected records column by column, and the progress is the ingestion progress of every page |
| RagStore.BatchProgressBounds | rag_system.py:266-268 | an earlier batch reports at most what a later one reports, within 40..90, and the batch reaching the end reports 90 |
| RagStore.BatchProgressOrdered | rag_system.py:265-268 | batch progress stays within 40..90, never goes back, and is 90 after the last batch |
| RagStore.AddInBatches | rag_system.py:250-268 | batch size 0, and nothing else, raises the zero-size error; a negative one writes nothing; otherwise the three lists are cut at the same offsets into the same number of batches; when no batch raises, every batch is written in order with its batch progress; when batch k raises, exactly the first k batches and their progress values are written and the failure names k |
| RagStore.SliceStep | rag_system.py:251-254 | the slice at the loop's offset is the next batch, and the loop continues exactly while batches remain |
| RagStore.ProgressStep | rag_system.py:266-268 | the value a batch reports is the next entry of the batch progress |
| RagStore.KeptDocsConcat | rag_system.py:427 | keeping the non-blank documents distributes over concatenation |
| RagStore.KeptDocsMembers | rag_system.py:427 | a document is kept exactly when it is present and not blank; a list without blank documents is kept whole |
| RagStore.PaginateChunks | rag_system.py:412-431 | the pagination loop collects what the page-by-page reading specifies |
| RagStore.FetchedFromStore | rag_system.py:417-431 | reading a collection page by page from any offset collects its non-blank documents from that offset on, in order |
| RagStore.HitAt | rag_system.py:555-573 | hit i carries id i, document i and the session; its distance is distance i when the distances reach i and none otherwise; with metadata i present, source, page, chunk index and session are taken from it, and otherwise they are absent and the session is the caller's |
| RagStore.HitsUpTo | rag_system.py:552-573 | the first n hits are the normalised entries 0..n-1, in order |
| RagStore.SearchDocuments | rag_system.py:531-575 | a blank query gives no hits; otherwise one hit per position that has both a document and an id, in order |
| Slicing.SliceAt | rag_system.py:251-254 | slice k starts at element n*k and ends n elements later or at the end |
| Slicing.SlicesFlatten | rag_system.py:251-254 | the slices cover the list in order, each element exactly once |
| Slicing.SlicesPrefixFlatten | rag_system.py:251-254 | the first k slices cover exactly the first n*k elements (or the whole list), in order |
| Slicing.SliceSizes | rag_system.py:324-325 | every slice holds 1..n elements, and all but the last exactly n |
| Slicing.SlicesCount | rag_system.py:251-254 | lists of equal length are cut into the same number of slices |
| RagSummary.Groups | rag_system.py:321-325 | there are ceil(n/3) groups of chunks |
| RagSummary.GroupProgressBounds | rag_system.py:338-341 | group progress stays within 50..90, never goes back, and reaches 90 with the last group |
| RagSummary.ProgressOrdered | rag_system.py:304-348 | the hierarchical summary reports progress that never goes back and stays within 50..92 |
| RagSummary.GroupStep | rag_system.py:324-341 | one round of the group loop appends the next group's summary and progress value |
| RagSummary.SummarizeGroups | rag_system.py:318-342 | the group loop yields the summary of each group of three, truncated to the budget, and the group progress values |
| RagSummary.SummarizeHierarchical | rag_system.py:304-348 | no chunks give the fixed message and no progress; up to three fitting chunks are summarised at once; otherwise the truncated group summaries are summarised; progress stays within 50..92 |
| RagService.CollectionName | rag_system.py:186 | the collection name is `documents_` followed by the session id |
| RagService.CollectionNameInjective | rag_system.py:186 | each session has a collection of its own |
| RagService.StoredChunksReadBack | rag_system.py:233 | the chunks a collection was written with are all read back: none is blank |
| RagService.BatchesWritten | rag_system.py:250-264 | with a positive batch size the batches write exactly the collected lists; with a negative one nothing |
| RagService.PositiveBatchesWritten | rag_system.py:219-275 | with a positive batch size and no raising batch, the written collection holds the ingested records, and progress is ingestion, then one batch-progress value per slice of the ingested records, then 100 |
| RagService.PartialBatchesWritten | rag_system.py:250-264 | when batch k raises, the collection holds exactly the records of the first k batches, column by column |
| RagService.SystemPrompt | rag_system.py:459-464 | a blank custom prompt gives the default prompt; otherwise the stripped custom prompt, which is not empty |
| RagService.RagSystem.Lookup | rag_system.py:398-410 | a cached session resolves to its cached collection; an uncached one, with a client, to the store's collection under its name; it is an error exactly when the session is uncached and either there is no client or the store has no such collection, and the missing-client error exactly when uncached without a client |
| RagService.RagSystem.GetCollectionForSession | rag_system.py:398-410 | returns the lookup's result, caches a collection found in the store, and changes nothing on an error |
| RagService.RagSystem.CreateVectorDb | rag_system.py:179-278 | without a client it raises before any progress and changes nothing; otherwise the session's collection is reset first; batch size 0 then raises after the ingestion progress, leaving it empty and the cache alone; a negative batch size leaves it empty, caches it and reports ingestion then 100; when batch k raises, the error names k and carries the ingestion progress and the first k batch values, the cache is unchanged and the collection holds exactly the first k batches; otherwise the collection holds exactly the collected records and is cached, with progress ingestion, then one value per batch, then 100; no other collection changes |
| RagService.RagSystem.AddCollected | rag_system.py:250-272 | the batched write into the reset collection: on success it holds the collected records and is cached with the progress values; on a raising batch k it holds the first k batches, the cache is untouched, and the error carries the ingestion progress and the first k batch values; a batch size of 0 raises with the ingestion progress only |
| RagService.RagSystem.FetchAllChunks | rag_system.py:412-431 | the non-blank documents of the session's collection, in order, or the lookup's error; the store is untouched, a successful lookup caches the collection it found and a failed one leaves the cache as it was |
| RagService.RagSystem.CleanupSession | rag_system.py:579-592 | with a client and an existing collection, the collection and the cache entry are removed; otherwise nothing changes |
| RagService.RagSystem.GenerateSummary | rag_system.py:441-472 | the fetched chunks summarised hierarchically with the custom or default prompt, with progress 10, 30, the summariser's values and 100; a failed lookup and no chunks are errors carrying the 10 already reported; the cache changes exactly as the lookup caches, and the store not at all |
| TtsProviders.NamesDistinct | tts_providers.py:60-296 | no two backends share a provider name |
| TtsProviders.OpenAiProvider | tts_providers.py:42-55 | OpenAI TTS is available exactly when a non-empty API key is set |
| TtsProviders.AllProviders | tts_providers.py:348-354 | the four providers are built in priority order Coqui, SpeechT5, OpenAI, Festival |
| TtsProviders.AvailableExactly | tts_providers.py:355 | the available providers are exactly the available ones of the list, in priority order |
| TtsProviders.AvailableMembers | tts_providers.py:355 | a provider is kept exactly when it is in the list and available |
| TtsProviders.AvailableByRank | tts_providers.py:355 | filtering keeps the priority order |
| TtsProviders.ManagerAvailable | tts_providers.py:348-355 | the manager's available providers are the available backends, in priority order |
| TtsProviders.OpenAiAvailableIffKey | tts_providers.py:42-55 | OpenAI TTS is among the available providers exactly when the key is set |
| TtsProviders.GetProviderByName | tts_providers.py:366-371 | returns the first available provider with that name, or nothing exactly when none has it |
| TtsProviders.DefaultProvider | tts_providers.py:373-375 | nothing exactly when no provider is available, else the first available one |
| TtsProviders.DefaultIsBest | tts_providers.py:348-375 | the default is the available backend of highest priority, and there is none exactly when no backend is available |
| TtsProviders.VoicesStep | tts_providers.py:380-381 | adding one provider's entry extends the voices map to it |
| TtsProviders.GetAllVoices | tts_providers.py:377-382 | one key per available provider's name, each mapped to that provider's voices |
| TtsProviders.Synthesize | tts_providers.py:63-65 | an available provider succeeds exactly when its own synthesize does; an unavailable one never succeeds |
| TtsProviders.SynthesizeWithProvider | tts_providers.py:384-390 | False without running anything when no available provider has the name; otherwise the first such provider synthesizes |
| TtsProviders.SynthesizeWithBest | tts_providers.py:392-398 | False without running anything when no provider is available; otherwise exactly the result of the first available provider's synthesize |
| SecretKey.KeyLine | generate_secret_key.py:66 | the key line starts with `SECRET_KEY=` |
| SecretKey.FirstMatch | generate_secret_key.py:64-68 | the index of the first line starting with `SECRET_KEY=`, and none exactly when no line does |
| SecretKey.ReplacesFirstKeyLine | generate_secret_key.py:63-68 | with a key line, the first one becomes the new key line, the length is kept, and every other line, later key lines included, is unchanged |
| SecretKey.AppendsKeyLine | generate_secret_key.py:70-72 | without a key line, one is appended after the unchanged lines |
| SecretKey.UpdatedHasKeyFirst | generate_secret_key.py:62-72 | after an update the first key line is the new one, at the old first key line's index, or at the end |
| SecretKey.FirstIsUnique | generate_secret_key.py:64-68 | the first matching index is determined by the lines |
| SecretKey.UpdateIdempotent | generate_secret_key.py:62-72 | updating twice with the same key gives the lines of one update |
| SecretKey.ReadLines | generate_secret_key.py:59-60 | `readlines()` cuts the text into lines that, written back one after the other, give the text again; no line is empty, a newline only ends a line, and every line but the last ends in one |
| SecretKey.ReadBack | generate_secret_key.py:59-76 | lines shaped as `readlines()` delivers them, written with `writelines`, read back as the same lines |
| SecretKey.TerminateLast | generate_secret_key.py:70-72 | ending the last line with a newline keeps the number of lines and their shape, and leaves the last line newline-ended |
| SecretKey.TerminateKeepsKeyLines | generate_secret_key.py:64-72 | ending the last line with a newline makes no line a key line and stops none from being one |
| SecretKey.AppendedText | generate_secret_key.py:70-76 | as written, a one-line file without a key line gets the key line appended directly to its text |
| SecretKey.KeyGluedOn | generate_secret_key.py:70-76 | as written, after a last line without a newline the key is glued onto that line: read back, the file has no key line, and a second run appends the key again |
| SecretKey.KeyMergesOntoUnterminatedLine | generate_secret_key.py:70-76 | `DEBUG=1` without a final newline becomes `DEBUG=1SECRET_KEY=k` plus a newline, which has no key line |
| SecretKey.KeyLineShaped | generate_secret_key.py:66 | a key line of a one-line key ends with its only newline |
| SecretKey.CorrectedShaped | generate_secret_key.py:62-72 | the corrected update keeps the lines shaped as `readlines()` delivers them, and its first key line is the new one |
| SecretKey.CorrectedKeyIsSet | generate_secret_key.py:49-80 | after the corrected update, the file read back has the new key line as its first key line |
| SecretKey.CorrectedIdempotent | generate_secret_key.py:49-80 | running the corrected update twice with the same key writes what one run writes |
| SecretKey.FlattenTerminated | generate_secret_key.py:70-76 | ending the last line adds one newline to the written text exactly when the text is non-empty and does not end in one |
| SecretKey.CorrectedAgrees | generate_secret_key.py:62-76 | the corrected update writes what the code writes whenever there is a key line or the text is empty or newline-ended; without a key line it writes the text, a newline only if the text lacks one, then the key line |
| SecretKey.CorrectedIsUpdateOfTerminated | generate_secret_key.py:62-72 | with a key line the corrected update is the update as written; without one it is the update as written applied after ending the last line with a newline |
| SecretKey.RewriteSecretKey | generate_secret_key.py:62-72 | the loop as written: it rewrites the first key line in place, or, without one, appends the key line right after the unchanged lines; it keeps the length or appends exactly one line |
| SecretKey.EnvFile.UpdateEnvFile | generate_secret_key.py:49-80 | a missing file gives False and is not written; otherwise the file's text is read as lines, its last line is ended with a newline when no key line is present, the loop runs, and the lines are written back: the corrected text, and the result is True |
| PyStr.StripEmptyIffBlank | rag_system.py:233 | `strip()` is empty exactly when the text is blank |
| PyStr.StripIdempotent | rag_system.py:37 | stripping twice is stripping once |
| PyStr.WordsOfJoin | test_text_wrapping.py:44 | splitting a single-spaced join of words gives the words back |
| PyStr.SplitOfJoin | rag_system.py:37 | splitting a join at its separator gives the parts back when no part holds it |
| PyStr.SplitLast | voiceover_system.py:259 | `split(sep)[-1]` is the sep-free tail after the last separator, or the whole text without one |
| PyStr.JoinLength | test_text_wrapping.py:82 | a join puts exactly one separator between consecutive parts |
| PyStr.DecimalRoundTrip | rag_system.py:234 | `str(n)` reads back as n |
| PyStr.DecimalInjective | rag_system.py:234 | distinct numbers print differently |

## Findings

| source | as written | input that shows it | evidently intended | confidence | as-written member | corrected member |
|---|---|---|---|---|---|---|
| generate_secret_key.py:70-76 | without a `SECRET_KEY=` line, the key line is appended to the list from `readlines()` and written with `writelines`, so it is glued onto a last line that has no newline | a `.env` holding `DEBUG=1` with no final newline becomes `DEBUG=1SECRET_KEY=k` and a newline; `SECRET_KEY` is still unset, and every later run appends the key again | the key line goes on a line of its own, so that after the update the file sets the new key and a second run changes nothing | not executed | SecretKey.KeyGluedOn | SecretKey.CorrectedKeyIsSet |

## Left out

- Floating point. `int(x / y * 100)` and the other progress percentages are computed exactly, with floor division. Python's float result can be one lower for some inputs. Durations are `real`. The glyph width `fontsize * 0.5` is the integer `2 * available / fontsize`, truncated toward zero as `int()` does. TTS speed and the SpeechT5 resampling are not modelled.
- The Chroma client setup, `_reset_chroma_storage` and the ephemeral-client fallbacks of `create_vector_db` (rag_system.py:89-151, 201-216). The store is a map of collections that is always writable.
- The exception fallback of `_fetch_all_chunks` (rag_system.py:432-439). The store's paged read is modelled as never failing. The `isinstance(d, str)` filter is implied by typing.
- `query_documents`, `search_documents_compact` and `get_document_stats`. These are direct store calls or float scoring. `search_documents` takes the query's answer as a parameter.
- The embedding calls and the chat completion with its model fallbacks. `_generate_single_summary` is the `summarize` parameter.
- RagService.RagSystem.GenerateSummary: the `summarize` parameter never fails, so the raise of `_generate_single_summary` when every model fails (rag_system.py:396) is not modelled, nor the progress reported before it; `RagSummary.SummarizeHierarchical` and `RagSummary.SummarizeGroups` assume the same. Only its model-order loop is modelled (`OrderModels`). A failing `_embed_texts` or `collection.add` is the `raises` parameter of `CreateVectorDb`: the index of the batch that raises.
- The tokenizer is an abstract `count`. Only the `len // 4` fallback is given. Monotonicity is a hypothesis where it is needed.
- The text splitter is an abstract `split` function.
- Collection aliasing. Collections are values in the model, so the cache and the store hold copies rather than shared objects.
- RagSummary.GroupSummaries takes the group prompt as a parameter. The code writes the prompt inline; `HierarchicalSummary` and `SummarizeHierarchical` pass that same text (`GroupPrompt`).
- `cleanup_old_files` in voiceover_system.py. It depends on clock time and directory listing.
- The ffmpeg command lines, the waveform filter, the duration probe inside `_create_video_with_audio` and `_convert_audio_format` are not modelled. Only their outcomes are, as parameters: each run's exit code or exception, and whether the output file exists afterwards.
- Voiceover.GenerateSpeech: does not state its whole result in its own contract. The `SpeechSucceeds`, `SpeechNaming` and `RefusedBeforeServices` lemmas state it.
- The uuid is a parameter.
- The temporary MP3 files written before a video or WAV output and their removal (voiceover_system.py:62-66, 88-97), because they are file-system side effects that do not change the result.
- TextWrapping.MaxCharsPerLine: requires a non-zero font size. With a font size of 0, Python raises `ZeroDivisionError`, and that case is not modelled.
- TtsProviders.AllProviders: with `TtsProviders.Probes`, every failed availability probe counts as "unavailable". In the code each probe catches one exception type only: `ImportError` for Coqui and SpeechT5 (tts_providers.py:111-115, 180-186), `FileNotFoundError` for Festival (tts_providers.py:282-287). Any other exception, such as an `OSError` while importing torch or a `PermissionError` from `festival --version`, makes the construction of the manager raise, and that failure is not modelled.
- The body of each provider's `synthesize`: the subprocess and library calls, streaming and speed adjustment. Only the availability guard is modelled. The voices of each provider are constants.
- The key generation and the interactive prompt of generate_secret_key.py, because they involve randomness and user input.
- The I/O exceptions of `update_env_file` (generate_secret_key.py:81-83). Reading and writing the file are modelled as succeeding.
- The newline translation of text-mode files. `readlines` and `writelines` are modelled on `\n` only; `\r\n` and a lone `\r` are ordinary characters.
- SecretKey.EnvFile.UpdateEnvFile: writes the corrected text rather than the text the code writes (see Findings): before running the loop as written (`RewriteSecretKey`), it ends an open last line with a newline when no key line is present. `UpdatedText` models the code as written and `CorrectedAgrees` shows where the two coincide.
- `lower()` is modelled for ASCII letters only. Model names are ASCII.
- Everything in app.py, pdf_processor.py and test_background_video.py. These cover the web layer, OCR and PDF I/O, and an end-to-end harness.
