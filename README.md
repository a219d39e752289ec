# tts2 — a verified model of the text-to-speech batch converter

`src/tts2.py` turns every `audio/*.txt` file into `<file>.txt.mp3`. It
normalises the text and cuts it into chunks meant to stay within `MAX_CHARS`
(4000) characters. The nltk chunker keeps that bound, or raises. The regex
chunker keeps it except for a sentence that is itself over the budget, which
becomes a chunk of its own. Two chunkers are available:

- a punctuation splitter plus a greedy packer (`chunk_text_with_regex`);
- the nltk sentence tokenizer plus a stricter greedy packer (`chunk_text_with_nltk`).

Each chunk is sent to the OpenAI speech endpoint, and the MP3 answer is
decoded. The audio of the chunks that succeeded is concatenated and exported.
Every failed chunk leaves one line in `<file>.txt.log`, and the loop goes on
to the next chunk. A file whose `.mp3` already exists is skipped when
`EXCLUDE_GENERATED_FILES` is set.

The model has six modules, one file each:

- `wrappers.dfy` — `Option` and `Result`.
- `strings.dfy` — the parts of Python's `str` the code relies on:
  - `isspace`, with its exact character set;
  - `strip`;
  - `" ".join`;
  - flattening;
  - `str(i)` for a chunk index.
- `segmenter.dfy` — `re.split(r'([.?!])', text)` as a function, and the
  pairing loop of lines 33-43 as methods proved against a specification of
  the sentence list.
- `packer.dfy` — the two greedy packing loops as methods. Ghost state records
  which sentences each chunk holds. Each loop is proved against a predicate
  that states:
  - partition;
  - the size bound;
  - greediness.

  Lemmas prove each packing unique and relate the two packers.
- `synthesis.dfy` — the per-chunk loop of lines 131-157 as a method. It is
  proved against spec functions for the combined audio and the log.
- `batch.dfy` — `main`: the skip rule, normalisation, chunker selection,
  export, and the loop over files.

The speech service, the MP3 decoder and the nltk tokenizer are parameters of
the model. Every property holds for any answer of the speech service and the
decoder, and for any tokenizer answer made of non-empty, trimmed sentences.

Where the code and the docstring of `chunk_text_with_regex` (src/tts2.py:23,
"each not exceeding `max_chunk_size`") disagree, the model follows the code.
The same holds for a few other places where the code's behaviour is easy to
misread:

- A sentence over the budget makes `chunk_text_with_nltk` raise
  `ValueError`. `main` does not catch it, so the whole batch stops at that
  file. It does not skip the file and go on. `Batch.RunBatch` returns that
  error together with the runs completed before it.
- The regex packer is not strict. A sentence over the budget becomes a chunk
  of its own. When the first sentence is at least `max_chunk_size` long, the
  `+ 1` for the separator is counted against the still-empty chunk, so the
  first chunk returned is `""`. `Packer.RegexPacking` states exactly this.
- The skip rule looks at the file system when the file's turn comes. An
  output exported earlier in the same run counts as existing: this is the
  `present` set of `Batch.RunBatch`.

## Model

| member | source | states |
|---|---|---|
| Strings.IsSpace | src/tts2.py:35-36 | the characters `str.strip()` removes: Python's whitespace set, the ASCII separators and the Unicode spaces and line and paragraph separators |
| Strings.Strip | src/tts2.py:35-38 | the result has no whitespace at either end; it keeps every non-whitespace character in order; it is empty exactly for a blank text; it leaves a trimmed text unchanged |
| Strings.StripBounds | src/tts2.py:35-38 | the stripped text is one slice of the text, with only whitespace before and after it |
| Strings.JoinTrimmed | src/tts2.py:55-58 | joining non-empty trimmed sentences with single spaces gives a trimmed text, which is empty only for no sentences, so the `strip()` at lines 52 and 62 changes nothing |
| Strings.JoinContent | src/tts2.py:58 | the joined chunk has the same non-whitespace characters as its sentences laid end to end |
| Strings.Decimal | src/tts2.py:144 | the chunk index in a log line is a non-empty string of decimal digits, with no leading zero, that denotes the index |
| Segmenter.RegexSplit | src/tts2.py:28 | `re.split` with a capturing group on `.`, `?` and `!` gives twice as many pieces as the text has marks, plus one |
| Segmenter.RegexSplitConcat | src/tts2.py:28 | the pieces of the split, laid end to end, give back the text exactly |
| Segmenter.RegexSplitAlternates | src/tts2.py:28 | the split alternates text without a mark and single marks `.`, `?` or `!`, and has an odd length of twice the number of marks plus one |
| Segmenter.RegexSplitLast | src/tts2.py:28 | the last piece of the split is the text after the last mark |
| Segmenter.RegexSplitMark | src/tts2.py:28 | a mark at the end of the text adds the mark and an empty piece to the split |
| Segmenter.RegexSplitPiece | src/tts2.py:28 | text without a mark at the end of the text extends the last piece of the split |
| Segmenter.SplitThree | src/tts2.py:28 | three mark-free pieces ended by `.`, `!` and `?` split into the pieces, the marks and an empty tail |
| Segmenter.RebuildSentence | src/tts2.py:35-38 | the sentence is exactly the stripped piece followed by its mark; it is trimmed, has no inner mark, ends in the mark and loses no non-whitespace character |
| Segmenter.PairStep | src/tts2.py:34-38 | one pass of the pairing loop appends exactly the stripped piece `i` followed by mark `i + 1`, so the list built so far stays the pairing of the pieces consumed |
| Segmenter.PairUp | src/tts2.py:33-38 | sentence `k` is the stripped piece `2k` followed by mark `2k + 1`, one per mark, each ending in its mark |
| Segmenter.PairsAt | src/tts2.py:34-38 | entry `k` of the pairing of the split is the stripped piece `2k` followed by mark `2k + 1` |
| Segmenter.Segment | src/tts2.py:28-43 | the sentences are exactly the pairings of the split's pieces with their marks, followed by the stripped tail when it is not blank; they are non-empty and trimmed; all but the last end in a mark, and the last does exactly when the tail is blank; together they hold every non-whitespace character of the text in order |
| Segmenter.SegmentationUnique | src/tts2.py:28-43 | the segmentation of a text is determined by the text |
| Segmenter.NoSentencesIffBlank | src/tts2.py:40-43 | the segmenter returns no sentence exactly when the text is blank |
| Segmenter.LeftoverIsSentence | src/tts2.py:40-43 | a non-blank tail, stripped, is a sentence that does not end in a mark |
| Packer.RegexStep | src/tts2.py:48-58 | when the current chunk, the sentence and one more character exceed the budget, one pass of the regex loop appends the current chunk and starts a new one with the sentence; otherwise it keeps the chunks and extends the current chunk to the space-joined sentences so far; the packing invariant is kept |
| Packer.PackRegex | src/tts2.py:45-64 | it returns no chunk exactly when it gets no sentence, and the chunks hold the non-whitespace characters of the sentences in order; the chunks are the space-joined groups of a partition of the sentences in order; only the first group can be empty, and only when the first sentence is at least the budget; a chunk is over the budget only if it is a single sentence that is; every chunk after the first was started by a sentence that did not fit after the previous one |
| Packer.NltkStep | src/tts2.py:81-92 | for a sentence within the budget, one pass of the nltk loop appends the current chunk and starts a new one with the sentence when the candidate chunk is over the budget, and otherwise keeps the chunks and takes the candidate; the packing invariant is kept (the raise is in `PackNltk`) |
| Packer.PackNltk | src/tts2.py:73-98 | it fails exactly when some sentence is over the budget, naming the first such sentence; otherwise the chunks are the space-joined non-empty groups of an ordered partition of the sentences; each is within the budget and none was closed while the next sentence still fitted |
| Packer.ChunkTextWithRegex | src/tts2.py:21-64 | the regex chunker packs the segmentation of the text (its sentences are exactly the stripped pieces with their marks, plus the stripped tail) as `PackRegex` does; it returns no chunk exactly for a blank text; the chunks keep the text's non-whitespace content |
| Packer.ChunkTextWithNltk | src/tts2.py:66-98 | the nltk chunker raises exactly when a tokenizer sentence is over the budget; otherwise it packs the tokenizer's sentences as `PackNltk` does, and returns no chunk exactly when there is no sentence |
| Packer.PackedContent | src/tts2.py:52-62 | chunking loses and adds no non-whitespace character |
| Packer.RegexNoChunks | src/tts2.py:45-64 | the regex packer returns no chunk exactly when it gets no sentence |
| Packer.NltkNoChunks | src/tts2.py:73-98 | the nltk packer returns no chunk exactly when it gets no sentence |
| Packer.NoneTooLongParts | src/tts2.py:76-78 | a list with no sentence over the budget has no such sentence in any of its parts |
| Packer.TooLongWitness | src/tts2.py:76-78 | the first sentence over the budget is the one the error names |
| Packer.RegexPackingIsNltkPacking | src/tts2.py:51-92 | when no sentence is over the budget and the first is shorter than it, a regex packing is also an nltk packing |
| Packer.NltkPackingIsGreedy | src/tts2.py:81-92 | an nltk packing has non-empty groups, chunks within the budget and no chunk closed early |
| Packer.RegexPackingIsGreedy | src/tts2.py:48-62 | a regex packing, without its empty first chunk when it has one, has non-empty groups, no chunk over the budget except a lone over-long sentence, and no chunk closed early |
| Packer.GreedyFirstGroupNotShorter | src/tts2.py:51-92 | the first chunk of a greedy packing holds as many sentences as any other greedy packing's first chunk: a chunk of two or more sentences is within the budget, so the sentence that ended a shorter chunk would have fitted |
| Packer.GreedySameFirstGroup | src/tts2.py:48-62 | two greedy packings of the same sentences have the same first chunk, and their rests pack the same remaining sentences |
| Packer.GreedyPackingUnique | src/tts2.py:48-62 | greedy packing is determined by the sentences: two greedy packings of the same sentences are equal |
| Packer.NltkPackingUnique | src/tts2.py:81-92 | two nltk packings of the same sentences are equal |
| Packer.RegexPackingUnique | src/tts2.py:45-62 | two regex packings of the same sentences are equal, over-long sentences and the empty first chunk included |
| Packer.RegexChunkingDetermined | src/tts2.py:21-64 | the regex chunker's sentences and chunks are determined by the text and the budget |
| Packer.FirstTooLongUnique | src/tts2.py:76-78 | only one sentence is the first over the budget, so the `ValueError` names a sentence determined by the input |
| Packer.RegexAgreesWithNltk | src/tts2.py:45-98 | when every sentence fits and the first is shorter than the budget, both packers return the same chunks |
| Packer.OneSentencePerChunk | src/tts2.py:45-62 | with a budget of 15, "Hello world.", "This is great!" and "And more?" go one to a chunk |
| Segmenter.SegmentThree | src/tts2.py:28-43 | a text of three mark-free pieces ended by `.`, `!` and `?` segments into the three stripped pieces with their marks |
| Segmenter.SampleSegmentation | src/tts2.py:28-43 | "Hello world. This is great! And more?" segments into "Hello world.", "This is great!" and "And more?" |
| Packer.SampleChunking | src/tts2.py:21-64 | the regex chunker with a budget of 15 turns "Hello world. This is great! And more?" into the chunks "Hello world.", "This is great!" and "And more?" |
| Synthesis.Outcomes | src/tts2.py:133 | there is one outcome per chunk |
| Synthesis.Outcome | src/tts2.py:135-154 | a failed speech call is reported as such whatever the decoder would do; a conversion error happens exactly when the call succeeded and decoding failed; the chunk converts exactly when both succeed, with the decoded audio |
| Synthesis.SynthesizeChunk | src/tts2.py:135-157 | a chunk whose call and decoding succeed adds its audio and no log line; a failed call adds `Chunk {i} error: {e}` and no audio; a failed decoding adds `Chunk {i} conversion error: {e}` and no audio |
| Synthesis.SynthesizeChunks | src/tts2.py:131-157 | one request per chunk, in order, with the configured model and voice; the combined audio is the audio of the converted chunks in chunk order; the log is one line per failed chunk, in chunk order |
| Synthesis.LogLineText | src/tts2.py:141-154 | the text of the two kinds of log line |
| Synthesis.SilentWhenAllFail | src/tts2.py:131 | when no chunk converts, the combined audio is the zero-length segment |
| Synthesis.SucceededAudioAppend | src/tts2.py:157 | the audio of two runs of chunks is the audio of the first followed by the audio of the second |
| Synthesis.TagOnlyOwnLines | src/tts2.py:144 | a log line tagged with one chunk index is not tagged with another, since the index is followed by a space |
| Synthesis.OneLinePerFailure | src/tts2.py:141-154 | the log has exactly one line for each failed chunk and none for a converted one, so a failure does not stop the later chunks |
| Synthesis.LogLength | src/tts2.py:141-154 | the log has as many lines as there are failed chunks |
| Batch.ReadText | src/tts2.py:114-115 | reading in text mode leaves no carriage return and never lengthens the text |
| Batch.ReadTextKeepsContent | src/tts2.py:114-115 | reading turns only line ends into line feeds: the non-whitespace characters and blankness are kept |
| Batch.ReplaceCrlf | src/tts2.py:116 | the replacement never lengthens the text and leaves a text without carriage returns unchanged |
| Batch.ReplaceCrlfAfterRead | src/tts2.py:114-116 | after a text-mode read the replacement of line 116 changes nothing |
| Batch.ReplaceCrlfDropsCrBeforeLf | src/tts2.py:116 | replacing `\r\n` by `\n` left to right drops exactly the carriage returns that stand before a line feed |
| Batch.ReplaceCrlfKeepsContent | src/tts2.py:116 | the replacement keeps every non-whitespace character, and a blank text stays blank |
| Batch.Normalize | src/tts2.py:114-116 | the normalised text is trimmed, has no carriage return, keeps the non-whitespace characters of the file, and is empty exactly when the file is blank |
| Batch.DefaultsChunkWithNltk | src/tts2.py:11-15 | with the default settings (`nltk`, 4000 characters) a run never reports an invalid chunking function; it fails exactly when a sentence is over 4000 characters |
| Batch.ChunkText | src/tts2.py:121-126 | `regex` chunks a segmentation of the text and never fails; `nltk` fails exactly on a sentence over the budget, and otherwise packs the tokenizer's sentences; any other name fails with `Invalid chunking function` |
| Batch.ChunkedAsDetermined | src/tts2.py:121-126 | the chunker's result, chunks or error, is determined by the settings, the text and the tokenizer |
| Batch.OutputName | src/tts2.py:106 | the output path is the input path followed by `.mp3` |
| Batch.Skips | src/tts2.py:109 | a file is skipped exactly when generated files are excluded and its `.mp3` path exists |
| Batch.ProcessFile | src/tts2.py:105-162 | a file is skipped exactly when generated files are excluded and its `.mp3` exists, and then gets no request, log line or export; any other file is either stopped by the chunker's error or exported to `<name>.mp3`, holding the audio of its converted chunks in order and one log line per failed chunk |
| Batch.RunStep | src/tts2.py:105-163 | one file more is decided and produced as `ProcessFile` says, and the set of present paths grows by its export |
| Batch.RunOfSnoc | src/tts2.py:105-163 | a run of the first files, extended by a correct run of the next file against the paths then present, is a run of one file more |
| Batch.RunBatch | src/tts2.py:102-165 | the files are handled in order, each skipped or exported against the paths present at its turn; the batch ends either after every file or at the first chunker error, which names a file that was not skipped |
| Batch.DecidedOutputsNamed | src/tts2.py:106 | every exported run of a decided batch is written to its own file's `.mp3` |
| Batch.ExportsAreOutputs | src/tts2.py:106-162 | every path a run exports is the output name of one of its files |
| Batch.OutputNameInjective | src/tts2.py:106 | different text files have different output files |
| Batch.SkipOnlyPreexisting | src/tts2.py:109-111 | when file names are distinct, a file is skipped exactly when its output existed before the run started, since no export of the run produces another file's output |

## Left out

- `nltk.download` and `sent_tokenize` (lines 67-71) are not modelled. The tokenizer is the parameter `tokenize`.
- Packer.ChunkTextWithNltk: requires the tokenizer's sentences to be non-empty and trimmed. This is how punkt behaves, but it is not checked here.
- Batch.RunBatch: requires the same of the tokenizer for every file when `nltk` is configured.
- Batch.ChunkText, Batch.ProcessFile and Batch.RunStep carry the same tokenizer requirement.
- The OpenAI client, the API key, `load_dotenv` and `os.getenv` (lines 16-19, 136-140) are not modelled. A speech call is the parameter `speak(file, index, request)`: it returns the response bytes or the message of the exception.
- pydub (`AudioSegment.from_file`, `silent`, `+=`, `export`; lines 131, 149, 157, 162) is not modelled as such.
  - Decoding is the parameter `decode`.
  - Audio is its raw frame data, and joining segments is appending frames.
  - Sample-rate and channel alignment, MP3 encoding and the bytes written by `export` are not modelled. An export is recorded as the `Exported` run with its output path and audio.
- `glob` (line 102) and opening files (line 114) are not modelled. The files are given as a list of names with their raw contents, in glob order. Reading applies the universal-newline translation of text mode (`Batch.ReadText`); UTF-8 decoding is not modelled. `os.path.exists` is membership in a set of paths.
- The appends to `<file>.log` (lines 143-144, 152-153) are returned as the run's list of log lines, in order.
- Every `print` (lines 103, 110, 118, 128, 130, 142, 151, 159, 163, 165) is left out, because it only reports progress.
- The messages of the two `ValueError`s ("Sentence too long to chunk: …", "Invalid chunking function: …") are not modelled as text; the errors carry the sentence or the name they report.
- Exceptions the code does not handle are not modelled, apart from the two `ValueError`s of lines 78 and 126. This includes unreadable files, a failed export and a failed log append.
- `Exception` messages are opaque strings supplied by `speak` and `decode`.
- `src/tts.py`, `src/stitch-audio.py` and `src/test.py` are not part of this model.
