# Subtitle translator core, modelled in Dafny

This project models the core of `translate_subtitle_to_ar.py`, a script that translates
subtitle files (WebVTT and SRT) from English to Arabic through a text-generation service:

- **Response parser** (`extract_json_list`): takes the reply text and decodes the span from the
  first `[` to the last `]`. It decodes the whole text only when one of the two brackets is
  missing. Every failure gives `None`.
- **Batch translator** (`translate_batch`): makes up to `max_retries = 2` service calls for the
  whole batch. A reply is accepted only when it parses to a list of exactly the batch's length.
  Each accepted string is wrapped as RLE (U+202B) + text + PDF (U+202C). If every attempt fails
  and the batch has more than one line, the batch is split at `n // 2`. Both halves are
  translated, and the results are concatenated, left then right, only when both halves succeed.
- **File translation** (`process_single_file`): cuts the cue texts into slices of
  `BATCH_SIZE = 20` and appends each batch's translation. The first failed batch abandons the
  file. On success, every cue keeps its timing and takes the translated text of the same index,
  saved as `stem + "_ar" + ".vtt"/".srt"`.
- **Scan** (`main`): skips files whose stem ends in `_ar`. Of the others, a file whose
  `stem + "_ar" + suffix.lower()` sibling exists is counted as skipped, and every other file is
  queued.

The generation service is a parameter. `service(k, b)` is the reply to the `k`-th call of the
run, which sent batch `b`: content text, a rate-limit error or another error. Because the
reply may depend on the call number and on the batch, every possible behaviour of the service
is covered. The functions thread the number of calls made so far, so call counts can be
stated. JSON decoding is also a parameter, a decoder from text to an optional list of strings.

Modules: `Wrappers` (Option), `ResponseParser`, `BatchTranslator`, `FileNames`,
`FileTranslation`, `FileSelection`. The two imperative loops of the source (the batching loop
and the scan loop) are methods with loop invariants. Each is proved equal to a recursive
specification function, and lemmas are proved about those functions.

Three behaviours of the code are worth stating plainly:

- When both brackets occur and the span does not decode, the result is `None`. The whole text
  is not tried then (`UndecodableSpanFails`).
- A rate-limit error uses up one of the two attempts, like any other error.
- The only acceptance gate is the length check. There is no check of the translated content
  (no echo or missing-Arabic test), no renaming of older files and no source-language tagging.

## Model

| member | source | states |
|---|---|---|
| `ResponseParser.Find` | translate_subtitle_to_ar.py:59 | `text.find('[')`: -1 exactly when the character is absent, otherwise an index holding it with no earlier occurrence |
| `ResponseParser.RFind` | translate_subtitle_to_ar.py:60 | `text.rfind(']')`: -1 exactly when absent, otherwise an index holding it with no later occurrence |
| `ResponseParser.Slice` | translate_subtitle_to_ar.py:64 | `text[start:end+1]`: the substring when the bounds are ordered, the empty string when the end comes before the start |
| `ResponseParser.ExtractJsonList` | translate_subtitle_to_ar.py:53-70 | with a bracket missing, the whole text is decoded; with both present, exactly the span from the first `[` to the last `]` is decoded; a decode failure is `None` |
| `ResponseParser.BracketsExist` | translate_subtitle_to_ar.py:59-62 | whenever both brackets occur there is a first `[` and a last `]` to slice between |
| `ResponseParser.NoiseIgnored` | translate_subtitle_to_ar.py:57-65 | prose before the first `[` and after the last `]` is ignored: the result equals that of the clean list and is its decoding |
| `ResponseParser.UndecodableSpanFails` | translate_subtitle_to_ar.py:62-70 | once both brackets occur, a span that does not decode gives `None`, with no whole-text fallback |
| `ResponseParser.ReversedBracketsFail` | translate_subtitle_to_ar.py:62-70 | a `]…[` order gives an empty span, which does not decode, so the result is `None` |
| `BatchTranslator.Wrap` | translate_subtitle_to_ar.py:50-51 | a wrapped line is two characters longer, starts with U+202B, ends with U+202C, and holds exactly the original text in between, so wrapping loses nothing |
| `BatchTranslator.WrapAll` | translate_subtitle_to_ar.py:113 | one wrapped line per parsed string, index for index |
| `BatchTranslator.Accept` | translate_subtitle_to_ar.py:100-110 | one attempt yields a list exactly when the reply is content that parses to a list of exactly the batch's length |
| `BatchTranslator.Attempts` | translate_subtitle_to_ar.py:83-123 | at most `max_retries` calls; a success is the wrapped parsed reply of the last call, and every earlier call was rejected; a failure has used all attempts, none accepted |
| `BatchTranslator.Split` | translate_subtitle_to_ar.py:130-135 | the halves concatenate back to the batch, the left has `n // 2` lines, and for `n > 1` both are non-empty and strictly shorter |
| `BatchTranslator.Truthy` | translate_subtitle_to_ar.py:141 | a half's result counts as a success exactly when it is neither `None` nor the empty list, as Python's truthiness has it |
| `BatchTranslator.TranslateBatch` | translate_subtitle_to_ar.py:72-145 | a success has exactly one wrapped line per input line; at least one call and at most `max_retries * (2n - 1)` calls for `n >= 1` lines |
| `BatchTranslator.FailurePropagates` | translate_subtitle_to_ar.py:130-145 | after failed attempts, a batch of at most one line gives `None`; a longer one succeeds exactly when both halves do, as left then right, and the right half is tried even when the left one failed |
| `BatchTranslator.TotalFailure` | translate_subtitle_to_ar.py:83-145 | a service that never gives an acceptable reply yields `None` after exactly `max_retries * (2n - 1)` calls |
| `BatchTranslator.ReliableServiceOneCall` | translate_subtitle_to_ar.py:101-113 | an acceptable first reply is returned wrapped after a single call |
| `BatchTranslator.HonestServiceAligned` | translate_subtitle_to_ar.py:134-142 | when every acceptable reply is the line-by-line translation of its batch, a success is exactly the wrapped line-by-line translation of the whole batch, so order and alignment survive bisection |
| `FileNames.EndsWith` | translate_subtitle_to_ar.py:217 | `str.endswith`: the string is some string followed by the tag |
| `FileNames.IsArOutput` | translate_subtitle_to_ar.py:217 | a file is an `_ar` output exactly when its stem is some string followed by `_ar` |
| `FileNames.IsVtt` | translate_subtitle_to_ar.py:241 | the suffix is a dot then `vtt` in any mix of cases |
| `FileNames.ExpectedOutputName` | translate_subtitle_to_ar.py:220-221 | the name the scan looks for has a stem ending in `_ar` that extends the input's stem, and differs from the input's name |
| `FileNames.SavedOutputName` | translate_subtitle_to_ar.py:175-176 | the written name has a stem ending in `_ar` that extends the input's stem and a `.vtt` or `.srt` suffix; for an input whose suffix is empty or starts with a dot, its full name differs from the input's |
| `FileNames.OutputNamesAgree` | translate_subtitle_to_ar.py:175-176 | for `.vtt`/`.srt` files in any case, the name written is the name the scan looks for, and its full name is never the input's |
| `FileNames.Lower` | translate_subtitle_to_ar.py:220 | `suffix.lower()` on ASCII: same length, capitals mapped to small letters, everything else kept |
| `FileTranslation.FirstBatchLen` | translate_subtitle_to_ar.py:158-163 | a non-empty text list gives a first slice of 1 to 20 lines, exactly 20 when at least 20 remain |
| `FileTranslation.Batches` | translate_subtitle_to_ar.py:160-163 | every batch holds between 1 and `BATCH_SIZE` lines |
| `FileTranslation.BatchesConcatenate` | translate_subtitle_to_ar.py:160-163 | the batches concatenated in order give back all the texts |
| `FileTranslation.BatchesAreSlices` | translate_subtitle_to_ar.py:160-163 | there are `ceil(n / 20)` batches and batch `j` is the slice `all_texts[20j:20j+20]` |
| `FileTranslation.TranslateBatches` | translate_subtitle_to_ar.py:162-172 | batches translated in order, stopping at the first `None`; a success has one wrapped line per line of the joined batches |
| `FileTranslation.TranslateAll` | translate_subtitle_to_ar.py:155-172 | the slices of `Batches` translated in order; a successful file translation has one wrapped line per cue text |
| `FileTranslation.NextBatch` | translate_subtitle_to_ar.py:162-172 | one loop step: the batch at `i` is translated first, and either ends the run with `None` or is followed by the rest |
| `FileTranslation.TranslateTexts` | translate_subtitle_to_ar.py:158-172 | the loop builds exactly the result and call count of the batch-by-batch specification, stopping at the first failed batch |
| `FileTranslation.Texts` | translate_subtitle_to_ar.py:155 | one text per cue, in cue order |
| `FileTranslation.ProcessSingleFile` | translate_subtitle_to_ar.py:147-189 | saves a file exactly when every batch succeeds; then the cue count and every cue's timing are unchanged, cue `i` takes translated line `i`, and the name is the `_ar` output name |
| `FileTranslation.Retext` | translate_subtitle_to_ar.py:181-185 | every cue keeps its position and timing and takes translated line `i` as its text |
| `FileTranslation.HonestFileAligned` | translate_subtitle_to_ar.py:155-172 | with an honest service, a successful file translation is the wrapped line-by-line translation of all texts, index for index |
| `FileTranslation.HonestBatchesAligned` | translate_subtitle_to_ar.py:162-172 | with an honest service, translating a list of batches in order gives the wrapped line-by-line translation of the joined batches |
| `FileSelection.AlreadyTranslated` | translate_subtitle_to_ar.py:224 | for a collected `.vtt`/`.srt` file, the file counts as translated exactly when the file `process_single_file` would write for it is in the folder |
| `FileSelection.Queued` | translate_subtitle_to_ar.py:211-227 | the final `files_to_process` is no longer than the collected list and holds only collected, pending files |
| `FileSelection.SkippedCount` | translate_subtitle_to_ar.py:211-227 | the final `skipped_count` is at most the number of files, and zero exactly when no file other than an `_ar` output has its sibling |
| `FileSelection.Scan` | translate_subtitle_to_ar.py:216-227 | the loop produces the queue and the skipped count of the specification |
| `FileSelection.QueuedIff` | translate_subtitle_to_ar.py:216-227 | a file is queued exactly when it was collected, its stem does not end in `_ar`, and its `_ar` sibling is absent |
| `FileSelection.ScanPartition` | translate_subtitle_to_ar.py:216-227 | queued + skipped + `_ar` files = all collected files: each file is in exactly one of the three |
| `FileSelection.RerunQueuesNothing` | translate_subtitle_to_ar.py:216-227 | after every queued file's output is written, a rescan that also sees those outputs queues nothing |
| `FileSelection.NothingPendingNothingQueued` | translate_subtitle_to_ar.py:224-227 | a list with no pending file gives an empty queue |

## Left out

- The OpenRouter client call, the message building and the reply extraction (`.strip()` included) are not modelled. They are a network call, and the `service` parameter stands for them.
- `json.loads` and `json.dumps` are not modelled. The `decode` parameter stands for `json.loads` and yields a list of strings or a failure. Decoded values that are not lists of strings are not modelled separately:
  - numbers, booleans and `null` fail in the source as well, because `len()` raises or the value is `None`;
  - a decoded string or dict is measured and iterated by the source (characters or keys), while the model counts it as a decode failure;
  - a list whose elements are not strings (`[1, 2]`, `[null]`) is accepted by the source when its length matches, and each element is formatted into the wrapped line. The model only has lists of strings.
- The text matching that tells a rate limit from another error is reduced to the two `Reply` kinds. Both end the attempt the same way.
- `time.sleep`, `print` and the `tqdm` progress bar are timing and console output.
- Reading and writing subtitles (`webvtt`, `pysrt`, the WebVTT style header and `align:right`) is I/O over outside libraries. Only the cue sequence that is written is modelled.
- The key loading, the placeholder-key check, `input()`, `Path.glob`, `is_dir` and `sys.exit` are environment and filesystem plumbing. The folder is a set of names, and the collected files are a given list.
- The processing loop of `main` over `files_to_process` and its one retry pass over failed files are not modelled. They only sequence `process_single_file` calls, each of which reads and writes files.
- The `depth` parameter of `translate_batch` is not modelled, because it has no effect on the result.
- FileNames.Lower: lowers ASCII letters only, while `str.lower` covers all of Unicode. The suffixes the scan collects are `.vtt` and `.srt`.
