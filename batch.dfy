/**
 * The driver `main` (src/tts2.py:100-165) over an explicit list of text
 * files: for each one it decides whether to skip it, normalises its text,
 * chunks it with the configured chunker, speaks every chunk and exports the
 * combined audio to `<name>.mp3`.
 *
 * The file system is a parameter: the files found by the glob with their
 * contents, and the set of paths that exist when the run starts. Exporting
 * adds the output path to that set. A `ValueError` from the chunker is not
 * caught by `main`, so it ends the whole run.
 */
module Batch {
  import opened Wrappers
  import opened Strings
  import Segmenter
  import Packer
  import Synthesis

  /** The module-level settings (lines 11-15). */
  datatype Config = Config(excludeGenerated: bool, voice: string, model: string, maxChars: int, chunkFunc: string)

  const Defaults := Config(true, "nova", "tts-1", 4000, "nltk")

  /** The `ValueError`s that end a run (lines 78 and 126). */
  datatype RunError = TooLong(cause: Packer.ChunkError) | InvalidChunkFunc(name: string)

  // ---------------------------------------------------------------------------
  // Reading and normalisation (lines 114-116)
  // ---------------------------------------------------------------------------

  /** Line 114: `open` in text mode reads with universal newlines, so a CR LF
      pair and a lone CR each arrive as one LF. */
  function ReadText(raw: string): (r: string)
    ensures '\r' !in r
    ensures |r| <= |raw|
    decreases |raw|
  {
    if raw == [] then []
    else if raw[0] == '\r' && |raw| >= 2 && raw[1] == '\n' then "\n" + ReadText(raw[2..])
    else if raw[0] == '\r' then "\n" + ReadText(raw[1..])
    else [raw[0]] + ReadText(raw[1..])
  }

  /** Reading turns only line-end characters into a line feed: every other
      character, and so the text's blankness, is kept. */
  lemma {:induction false} ReadTextKeepsContent(raw: string)
    ensures RemoveSpaces(ReadText(raw)) == RemoveSpaces(raw)
    ensures IsBlank(ReadText(raw)) <==> IsBlank(raw)
  {
    ReadTextKeepsCharacters(raw);
    RemoveSpacesOfBlank(raw);
    RemoveSpacesOfBlank(ReadText(raw));
  }

  lemma {:induction false} ReadTextKeepsCharacters(raw: string)
    ensures RemoveSpaces(ReadText(raw)) == RemoveSpaces(raw)
    decreases |raw|
  {
    if raw == [] {
    } else if raw[0] == '\r' && |raw| >= 2 && raw[1] == '\n' {
      ReadTextKeepsCharacters(raw[2..]);
      assert raw == [raw[0]] + [raw[1]] + raw[2..];
      RemoveSpacesAppend("\n", ReadText(raw[2..]));
      RemoveSpacesAppend([raw[0]] + [raw[1]], raw[2..]);
      RemoveSpacesAppend([raw[0]], [raw[1]]);
    } else {
      ReadTextKeepsCharacters(raw[1..]);
      assert raw == [raw[0]] + raw[1..];
      RemoveSpacesAppend([ReadText(raw)[0]], ReadText(raw[1..]));
      RemoveSpacesAppend([raw[0]], raw[1..]);
    }
  }

  /** Line 116: Python's `text.replace("\r\n", "\n")`, a left-to-right scan
      that replaces each occurrence not overlapping an earlier replaced one.
      It never lengthens the text and leaves a text without CR unchanged. */
  function ReplaceCrlf(text: string): (r: string)
    ensures |r| <= |text|
    ensures '\r' !in text ==> r == text
  {
    if |text| >= 2 && text[0] == '\r' && text[1] == '\n' then "\n" + ReplaceCrlf(text[2..])
    else if text == [] then []
    else
      assert '\r' !in text ==> '\r' !in text[1..];
      [text[0]] + ReplaceCrlf(text[1..])
  }

  /** After reading in text mode no CR is left, so the replacement of line 116
      changes nothing. */
  lemma {:induction false} ReplaceCrlfAfterRead(raw: string)
    ensures ReplaceCrlf(ReadText(raw)) == ReadText(raw)
  {
  }

  /** Reference definition: delete every carriage return that stands right
      before a line feed. */
  function DropCrBeforeLf(text: string): string {
    if text == [] then []
    else (if |text| >= 2 && text[0] == '\r' && text[1] == '\n' then [] else [text[0]]) + DropCrBeforeLf(text[1..])
  }

  /** Occurrences of CR LF cannot overlap, so the scan replaces every one of
      them: the replacement deletes exactly the CRs that precede an LF. */
  lemma {:induction false} ReplaceCrlfDropsCrBeforeLf(text: string)
    ensures ReplaceCrlf(text) == DropCrBeforeLf(text)
  {
    if |text| >= 2 && text[0] == '\r' && text[1] == '\n' {
      ReplaceCrlfDropsCrBeforeLf(text[2..]);
      assert text[1..][1..] == text[2..];
    } else if text != [] {
      ReplaceCrlfDropsCrBeforeLf(text[1..]);
    }
  }

  /** The replacement changes only whitespace. */
  lemma {:induction false} ReplaceCrlfKeepsContent(text: string)
    ensures RemoveSpaces(ReplaceCrlf(text)) == RemoveSpaces(text)
    ensures IsBlank(ReplaceCrlf(text)) <==> IsBlank(text)
  {
    ReplaceCrlfKeepsCharacters(text);
    RemoveSpacesOfBlank(text);
    RemoveSpacesOfBlank(ReplaceCrlf(text));
  }

  lemma {:induction false} ReplaceCrlfKeepsCharacters(text: string)
    ensures RemoveSpaces(ReplaceCrlf(text)) == RemoveSpaces(text)
  {
    if |text| >= 2 && text[0] == '\r' && text[1] == '\n' {
      ReplaceCrlfKeepsCharacters(text[2..]);
      assert text == [text[0]] + [text[1]] + text[2..];
      RemoveSpacesAppend("\n", ReplaceCrlf(text[2..]));
      RemoveSpacesAppend([text[0]] + [text[1]], text[2..]);
      RemoveSpacesAppend([text[0]], [text[1]]);
    } else if text != [] {
      ReplaceCrlfKeepsCharacters(text[1..]);
      assert text == [text[0]] + text[1..];
      RemoveSpacesAppend([text[0]], ReplaceCrlf(text[1..]));
      RemoveSpacesAppend([text[0]], text[1..]);
    }
  }

  /** Lines 114-116: the file is read with universal newlines, CR LF line
      ends become LF, then surrounding whitespace goes. The result is trimmed,
      holds no CR, keeps every other character, and is empty exactly for a
      blank file. */
  function Normalize(contents: string): (r: string)
    ensures IsTrimmed(r)
    ensures '\r' !in r
    ensures RemoveSpaces(r) == RemoveSpaces(contents)
    ensures r == [] <==> IsBlank(contents)
  {
    var text := ReadText(contents);
    ReadTextKeepsContent(contents);
    ReplaceCrlfKeepsContent(text);
    StripKeepsCharacters(ReplaceCrlf(text));
    Strip(ReplaceCrlf(text))
  }

  // ---------------------------------------------------------------------------
  // Chunker selection (lines 121-126)
  // ---------------------------------------------------------------------------

  /** What the configured chunker makes of `text`: the regex chunker never
      fails and packs a segmentation of the text; the nltk chunker fails with
      the first sentence over the budget, and otherwise packs the tokenizer's
      sentences; any other name is an error. */
  ghost predicate ChunkedAs(config: Config, text: string, tokenize: string -> seq<string>,
                            result: Result<seq<string>, RunError>) {
    if config.chunkFunc == "regex" then
      result.Success? && exists sentences, groups ::
        Segmenter.SegmentationOf(sentences, text) && Packer.RegexPacking(result.value, groups, sentences, config.maxChars)
    else if config.chunkFunc == "nltk" then
      && (result.Failure? <==> !Packer.NoneTooLong(tokenize(text), config.maxChars))
      && (result.Failure? ==>
            (result.error.TooLong? && Packer.FirstTooLong(tokenize(text), config.maxChars, result.error.cause.sentence)))
      && (result.Success? ==> exists groups :: Packer.NltkPacking(result.value, groups, tokenize(text), config.maxChars))
    else
      result == Failure(InvalidChunkFunc(config.chunkFunc))
  }

  /** Lines 121-126. */
  method ChunkText(config: Config, text: string, tokenize: string -> seq<string>)
    returns (result: Result<seq<string>, RunError>)
    requires config.chunkFunc == "nltk" ==> Packer.AllNonBlankTrimmed(tokenize(text))
    ensures ChunkedAs(config, text, tokenize, result)
  {
    if config.chunkFunc == "regex" {
      var chunks, sentences, groups := Packer.ChunkTextWithRegex(text, config.maxChars);
      result := Success(chunks);
    } else if config.chunkFunc == "nltk" {
      var chunked, groups := Packer.ChunkTextWithNltk(text, config.maxChars, tokenize);
      if chunked.Failure? {
        result := Failure(TooLong(chunked.error));
      } else {
        result := Success(chunked.value);
      }
    } else {
      result := Failure(InvalidChunkFunc(config.chunkFunc));
    }
  }

  /** The configured chunker's result is determined by the settings, the
      text and the tokenizer: under `regex` the text fixes the sentences and
      they fix the packing; under `nltk` the first over-long sentence, or else
      the greedy packing, is unique. */
  lemma {:induction false} ChunkedAsDetermined(config: Config, text: string, tokenize: string -> seq<string>,
                                               r1: Result<seq<string>, RunError>, r2: Result<seq<string>, RunError>)
    requires ChunkedAs(config, text, tokenize, r1) && ChunkedAs(config, text, tokenize, r2)
    ensures r1 == r2
  {
    if config.chunkFunc == "regex" {
      var s1, g1 :| Segmenter.SegmentationOf(s1, text) && Packer.RegexPacking(r1.value, g1, s1, config.maxChars);
      var s2, g2 :| Segmenter.SegmentationOf(s2, text) && Packer.RegexPacking(r2.value, g2, s2, config.maxChars);
      Packer.RegexChunkingDetermined(text, config.maxChars, s1, r1.value, g1, s2, r2.value, g2);
    } else if config.chunkFunc == "nltk" {
      var sentences := tokenize(text);
      if r1.Failure? {
        Packer.FirstTooLongUnique(sentences, config.maxChars, r1.error.cause.sentence, r2.error.cause.sentence);
      } else {
        var g1 :| Packer.NltkPacking(r1.value, g1, sentences, config.maxChars);
        var g2 :| Packer.NltkPacking(r2.value, g2, sentences, config.maxChars);
        Packer.NltkPackingUnique(r1.value, g1, r2.value, g2, sentences, config.maxChars);
      }
    }
  }

  /** The default settings select the nltk chunker, so a run with them never
      reports an invalid chunking function: it fails only for a sentence over
      4000 characters. */
  lemma {:induction false} DefaultsChunkWithNltk(text: string, tokenize: string -> seq<string>, result: Result<seq<string>, RunError>)
    requires ChunkedAs(Defaults, text, tokenize, result)
    ensures result.Failure? ==> result.error.TooLong? && |result.error.cause.sentence| > 4000
    ensures result.Success? <==> Packer.NoneTooLong(tokenize(text), 4000)
  {
    if result.Failure? {
      var k :| 0 <= k < |tokenize(text)| && Packer.NoneTooLong(tokenize(text)[..k], 4000)
        && |tokenize(text)[k]| > 4000 && tokenize(text)[k] == result.error.cause.sentence;
    }
  }

  // ---------------------------------------------------------------------------
  // One file (lines 105-163)
  // ---------------------------------------------------------------------------

  /** A `.txt` file found by the glob: its path and its contents. */
  datatype TextFile = TextFile(name: string, contents: string)

  /** What the run did with one file: skipped it, or spoke its chunks and
      exported the combined audio to `output`. */
  datatype FileRun =
    | Skipped(name: string)
    | Exported(name: string, output: string, chunks: seq<string>,
               requests: seq<Synthesis.SpeechRequest>, log: seq<string>, audio: Synthesis.Audio)

  /** Line 106: the output path is the input path followed by `.mp3`. */
  function OutputName(name: string): (r: string)
    ensures |r| == |name| + 4 && r[..|name|] == name && r[|name|..] == ".mp3"
  {
    name + ".mp3"
  }

  /** Line 109: a file is skipped when generated files are excluded and its
      output already exists. */
  predicate Skips(config: Config, name: string, existing: set<string>) {
    config.excludeGenerated && OutputName(name) in existing
  }

  /** An exported run of `file`: the export holds the audio of its converted
      chunks, after one request per chunk, with one log line per failed chunk. */
  ghost predicate GeneratedFrom(config: Config, file: TextFile, run: FileRun,
                                speak: (string, nat, Synthesis.SpeechRequest) -> Result<seq<Synthesis.byte>, string>,
                                decode: seq<Synthesis.byte> -> Result<Synthesis.Audio, string>) {
    && run.Exported?
    && |run.requests| == |run.chunks|
    && (forall i :: 0 <= i < |run.chunks| ==>
          run.requests[i] == Synthesis.SpeechRequest(config.model, config.voice, run.chunks[i]))
    && run.audio == Synthesis.SucceededAudio(Synthesis.Outcomes(file.name, run.chunks, config.model, config.voice, speak, decode))
    && run.log == Synthesis.FailureLog(Synthesis.Outcomes(file.name, run.chunks, config.model, config.voice, speak, decode))
  }

  /** What the run decided for `file` when the paths in `existing` were
      present (lines 106-111 and 162): it skipped the file exactly when its
      output was among them, and otherwise exported it to `<name>.mp3`. */
  predicate SkipOrExport(config: Config, file: TextFile, existing: set<string>, run: FileRun) {
    && (run.Skipped? <==> Skips(config, file.name, existing))
    && run.name == file.name
    && (run.Exported? ==> run.output == OutputName(file.name))
  }

  /** What an exported run of `file` holds: the chunks of its normalised text,
      spoken and joined as `GeneratedFrom` says. */
  ghost predicate Produced(config: Config, file: TextFile, run: FileRun,
                           tokenize: string -> seq<string>,
                           speak: (string, nat, Synthesis.SpeechRequest) -> Result<seq<Synthesis.byte>, string>,
                           decode: seq<Synthesis.byte> -> Result<Synthesis.Audio, string>) {
    run.Exported? ==>
      && GeneratedFrom(config, file, run, speak, decode)
      && ChunkedAs(config, Normalize(file.contents), tokenize, Success(run.chunks))
  }

  /** The body of the loop of lines 105-163 for one file. A skipped file gets
      no request, no log line and no export; any other file is chunked, and
      either the chunker's error ends the run or the file is exported. */
  method ProcessFile(config: Config, file: TextFile, existing: set<string>, tokenize: string -> seq<string>,
                     speak: (string, nat, Synthesis.SpeechRequest) -> Result<seq<Synthesis.byte>, string>,
                     decode: seq<Synthesis.byte> -> Result<Synthesis.Audio, string>)
    returns (result: Result<FileRun, RunError>)
    requires config.chunkFunc == "nltk" ==> Packer.AllNonBlankTrimmed(tokenize(Normalize(file.contents)))
    ensures result.Failure? ==> !Skips(config, file.name, existing)
    ensures result.Failure? ==> ChunkedAs(config, Normalize(file.contents), tokenize, Failure(result.error))
    ensures result.Success? ==> SkipOrExport(config, file, existing, result.value)
    ensures result.Success? ==> Produced(config, file, result.value, tokenize, speak, decode)
  {
    var output := OutputName(file.name);
    if config.excludeGenerated && output in existing {
      return Success(Skipped(file.name));
    }
    var text := Normalize(file.contents);
    var chunked := ChunkText(config, text, tokenize);
    if chunked.Failure? {
      return Failure(chunked.error);
    }
    var chunks := chunked.value;
    var audio, log, requests := Synthesis.SynthesizeChunks(file.name, chunks, config.model, config.voice, speak, decode);
    result := Success(Exported(file.name, output, chunks, requests, log, audio));
  }

  // ---------------------------------------------------------------------------
  // The whole run (lines 102-165)
  // ---------------------------------------------------------------------------

  /** The paths the exported runs wrote. */
  function Exports(runs: seq<FileRun>): set<string> {
    if runs == [] then {}
    else
      var last := runs[|runs| - 1];
      Exports(runs[..|runs| - 1]) + (if last.Exported? then {last.output} else {})
  }

  /** Every exported run wrote the output path of its own file. */
  predicate OutputsNamed(files: seq<TextFile>, runs: seq<FileRun>)
    requires |runs| <= |files|
  {
    forall k :: 0 <= k < |runs| ==> runs[k].Exported? ==> runs[k].output == OutputName(files[k].name)
  }

  /** What the run promises about its first `|runs|` files: each was skipped
      or exported as `SkipOrExport` says, with the paths present before the
      run together with those the earlier files exported, and each export
      holds what `Produced` says. */
  ghost predicate RunOf(config: Config, files: seq<TextFile>, existing: set<string>, runs: seq<FileRun>,
                        tokenize: string -> seq<string>,
                        speak: (string, nat, Synthesis.SpeechRequest) -> Result<seq<Synthesis.byte>, string>,
                        decode: seq<Synthesis.byte> -> Result<Synthesis.Audio, string>)
  {
    && Decided(config, files, existing, runs)
    && AllProduced(config, files, runs, tokenize, speak, decode)
  }

  /** Every file of the run was skipped or exported as `SkipOrExport` says. */
  predicate Decided(config: Config, files: seq<TextFile>, existing: set<string>, runs: seq<FileRun>) {
    && |runs| <= |files|
    && forall k :: 0 <= k < |runs| ==> SkipOrExport(config, files[k], existing + Exports(runs[..k]), runs[k])
  }

  /** Every export of the run holds what `Produced` says. */
  ghost predicate AllProduced(config: Config, files: seq<TextFile>, runs: seq<FileRun>,
                              tokenize: string -> seq<string>,
                              speak: (string, nat, Synthesis.SpeechRequest) -> Result<seq<Synthesis.byte>, string>,
                              decode: seq<Synthesis.byte> -> Result<Synthesis.Audio, string>)
    decreases |runs|
  {
    && |runs| <= |files|
    && (runs != [] ==>
          var n := |runs| - 1;
          && AllProduced(config, files, runs[..n], tokenize, speak, decode)
          && Produced(config, files[n], runs[n], tokenize, speak, decode))
  }

  /** Handling file `i` as `SkipOrExport` and `Produced` say, with the paths
      `present` after the earlier files, extends a run of the files before it. */
  lemma {:induction false} RunOfSnoc(config: Config, files: seq<TextFile>, existing: set<string>, runs: seq<FileRun>,
                  i: nat, present: set<string>, run: FileRun,
                  tokenize: string -> seq<string>,
                  speak: (string, nat, Synthesis.SpeechRequest) -> Result<seq<Synthesis.byte>, string>,
                  decode: seq<Synthesis.byte> -> Result<Synthesis.Audio, string>)
    requires i == |runs| < |files| && present == existing + Exports(runs)
    ensures && RunOf(config, files, existing, runs, tokenize, speak, decode)
            && SkipOrExport(config, files[i], present, run)
            && Produced(config, files[i], run, tokenize, speak, decode)
        ==> RunOf(config, files, existing, runs + [run], tokenize, speak, decode)
  {
    DecidedSnoc(config, files, existing, runs, i, present, run);
    AllProducedSnoc(config, files, runs, i, run, tokenize, speak, decode);
  }

  lemma {:induction false} DecidedSnoc(config: Config, files: seq<TextFile>, existing: set<string>, runs: seq<FileRun>,
                    i: nat, present: set<string>, run: FileRun)
    requires i == |runs| < |files| && present == existing + Exports(runs)
    ensures Decided(config, files, existing, runs) && SkipOrExport(config, files[i], present, run)
        ==> Decided(config, files, existing, runs + [run])
  {
    if !(Decided(config, files, existing, runs) && SkipOrExport(config, files[i], present, run)) {
      return;
    }
    var runs' := runs + [run];
    forall k | 0 <= k < |runs'|
      ensures SkipOrExport(config, files[k], existing + Exports(runs'[..k]), runs'[k])
    {
      if k < |runs| {
        assert runs'[..k] == runs[..k] && runs'[k] == runs[k];
      } else {
        assert runs'[..k] == runs;
      }
    }
  }

  lemma {:induction false} AllProducedSnoc(config: Config, files: seq<TextFile>, runs: seq<FileRun>, i: nat, run: FileRun,
                        tokenize: string -> seq<string>,
                        speak: (string, nat, Synthesis.SpeechRequest) -> Result<seq<Synthesis.byte>, string>,
                        decode: seq<Synthesis.byte> -> Result<Synthesis.Audio, string>)
    requires i == |runs| < |files|
    ensures AllProduced(config, files, runs, tokenize, speak, decode) && Produced(config, files[i], run, tokenize, speak, decode)
        ==> AllProduced(config, files, runs + [run], tokenize, speak, decode)
  {
    assert (runs + [run])[..|runs|] == runs;
  }

  /** Every exported file of a run wrote its own output path. */
  lemma {:induction false} DecidedOutputsNamed(config: Config, files: seq<TextFile>, existing: set<string>, runs: seq<FileRun>, m: nat)
    requires Decided(config, files, existing, runs) && m <= |runs|
    ensures OutputsNamed(files, runs[..m])
  {
    forall k | 0 <= k < m
      ensures runs[..m][k].Exported? ==> runs[..m][k].output == OutputName(files[k].name)
    {
      assert runs[..m][k] == runs[k];
      assert SkipOrExport(config, files[k], existing + Exports(runs[..k]), runs[k]);
    }
  }

  /** The loop of lines 105-163. It stops at the first chunker error; every
      file before it was skipped or exported, and the paths that exist at the
      end are those that existed before plus the exports. */
  method RunBatch(config: Config, files: seq<TextFile>, existing: set<string>, tokenize: string -> seq<string>,
                  speak: (string, nat, Synthesis.SpeechRequest) -> Result<seq<Synthesis.byte>, string>,
                  decode: seq<Synthesis.byte> -> Result<Synthesis.Audio, string>)
    returns (runs: seq<FileRun>, error: Option<RunError>, present: set<string>)
    requires config.chunkFunc == "nltk" ==>
      forall k :: 0 <= k < |files| ==> Packer.AllNonBlankTrimmed(tokenize(Normalize(files[k].contents)))
    ensures RunOf(config, files, existing, runs, tokenize, speak, decode)
    ensures error.None? ==> |runs| == |files|
    ensures error.Some? ==>
      && |runs| < |files|
      && !Skips(config, files[|runs|].name, existing + Exports(runs))
      && ChunkedAs(config, Normalize(files[|runs|].contents), tokenize, Failure(error.value))
    ensures present == existing + Exports(runs)
  {
    runs, present := [], existing;
    for i := 0 to |files|
      invariant |runs| == i
      invariant RunOf(config, files, existing, runs, tokenize, speak, decode)
      invariant present == existing + Exports(runs)
    {
      var result;
      result, present := RunStep(config, files, existing, runs, i, present, tokenize, speak, decode);
      if result.Failure? {
        return runs, Some(result.error), present;
      }
      runs := runs + [result.value];
    }
    error := None;
  }

  /** One pass of the loop of lines 105-163: the next file is handled, and
      on success the run and the set of present paths grow by it. */
  method RunStep(config: Config, files: seq<TextFile>, existing: set<string>, ghost runs: seq<FileRun>,
                 i: nat, present: set<string>, tokenize: string -> seq<string>,
                 speak: (string, nat, Synthesis.SpeechRequest) -> Result<seq<Synthesis.byte>, string>,
                 decode: seq<Synthesis.byte> -> Result<Synthesis.Audio, string>)
    returns (result: Result<FileRun, RunError>, present': set<string>)
    requires RunOf(config, files, existing, runs, tokenize, speak, decode)
    requires i == |runs| < |files| && present == existing + Exports(runs)
    requires config.chunkFunc == "nltk" ==> Packer.AllNonBlankTrimmed(tokenize(Normalize(files[i].contents)))
    ensures result.Failure? ==>
      && present' == present
      && !Skips(config, files[i].name, present)
      && ChunkedAs(config, Normalize(files[i].contents), tokenize, Failure(result.error))
    ensures result.Success? ==>
      && RunOf(config, files, existing, runs + [result.value], tokenize, speak, decode)
      && present' == existing + Exports(runs + [result.value])
  {
    result := ProcessFile(config, files[i], present, tokenize, speak, decode);
    present' := present;
    if result.Success? {
      var run := result.value;
      RunOfSnoc(config, files, existing, runs, i, present, result.value, tokenize, speak, decode);
      assert (runs + [run])[..i] == runs;
      if run.Exported? {
        present' := present + {run.output};
      }
    }
  }

  /** The paths a run exports are the output names of its files. */
  lemma {:induction false} ExportsAreOutputs(files: seq<TextFile>, runs: seq<FileRun>)
    requires |runs| <= |files| && OutputsNamed(files, runs)
    ensures forall path :: path in Exports(runs) ==>
      exists k :: 0 <= k < |runs| && runs[k].Exported? && path == OutputName(files[k].name)
  {
    if runs != [] {
      var n := |runs| - 1;
      var init := runs[..n];
      assert forall k :: 0 <= k < n ==> init[k] == runs[k];
      ExportsAreOutputs(files, init);
      forall path | path in Exports(runs)
        ensures exists k :: 0 <= k < |runs| && runs[k].Exported? && path == OutputName(files[k].name)
      {
        if path in Exports(init) {
          var k :| 0 <= k < n && init[k].Exported? && path == OutputName(files[k].name);
          assert runs[k] == init[k];
        } else {
          assert runs[n].Exported? && path == OutputName(files[n].name);
        }
      }
    }
  }

  lemma {:induction false} OutputNameInjective(a: string, b: string)
    ensures OutputName(a) == OutputName(b) ==> a == b
  {
    if OutputName(a) == OutputName(b) {
      assert |a| == |b|;
      assert a == OutputName(a)[..|a|] && b == OutputName(b)[..|b|];
    }
  }

  /** When the glob's paths are distinct, the exports of a run never make a
      later file of the same run skip: a file is skipped exactly when its
      output existed before the run started. */
  lemma {:induction false} SkipOnlyPreexisting(config: Config, files: seq<TextFile>, existing: set<string>, runs: seq<FileRun>)
    requires Decided(config, files, existing, runs)
    requires forall j, k :: 0 <= j < k < |files| ==> files[j].name != files[k].name
    ensures forall k :: 0 <= k < |runs| ==> (runs[k].Skipped? <==> Skips(config, files[k].name, existing))
  {
    forall k | 0 <= k < |runs|
      ensures runs[k].Skipped? <==> Skips(config, files[k].name, existing)
    {
      var before := runs[..k];
      assert SkipOrExport(config, files[k], existing + Exports(before), runs[k]);
      DecidedOutputsNamed(config, files, existing, runs, k);
      ExportsAreOutputs(files, before);
      forall j | 0 <= j < k
        ensures OutputName(files[k].name) != OutputName(files[j].name)
      {
        OutputNameInjective(files[k].name, files[j].name);
      }
      assert OutputName(files[k].name) !in Exports(before);
    }
  }
}
