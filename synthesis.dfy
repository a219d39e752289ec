/**
 * The per-chunk loop of `main` (src/tts2.py:131-157): every chunk is sent to
 * the speech service, the MP3 answer is decoded, and the decoded audio is
 * appended to the combined audio. A failure of either step writes one line to
 * the file's log and moves on to the next chunk.
 *
 * The speech service and the MP3 decoder are parameters: `speak` gives the
 * response to a request (or the message of the exception it raised) and
 * `decode` gives the audio of the response bytes (or the message of the
 * exception). Audio is its raw frame data, so that joining two segments is
 * appending their frames.
 */
module Synthesis {
  import opened Wrappers
  import opened Strings

  newtype byte = x: int | 0 <= x < 256

  /** The raw frame data of an audio segment; `AudioSegment.silent(duration=0)` is `[]`. */
  type Audio = seq<byte>

  /** The arguments of `client.audio.speech.create` (lines 136-140). */
  datatype SpeechRequest = SpeechRequest(model: string, voice: string, input: string)

  /** What became of one chunk. */
  datatype ChunkOutcome =
    | Converted(audio: Audio)
    | SpeechError(message: string)
    | ConversionError(message: string)

  /** The outcome of one chunk: the speech call's failure comes first (lines
      141-145), then the decoder's (lines 150-154). */
  function Outcome(response: Result<seq<byte>, string>, decode: seq<byte> -> Result<Audio, string>): (r: ChunkOutcome)
    ensures response.Failure? ==> r == SpeechError(response.error)
    ensures r.ConversionError? <==> response.Success? && decode(response.value).Failure?
    ensures r.Converted? <==> response.Success? && decode(response.value).Success?
    ensures r.Converted? ==> r.audio == decode(response.value).value
  {
    match response
    case Failure(e) => SpeechError(e)
    case Success(content) =>
      match decode(content)
      case Failure(e) => ConversionError(e)
      case Success(audio) => Converted(audio)
  }

  /** The outcome of every chunk of `file`; the speech service answers
      request `i` of a file as `speak(file, i, request)`. */
  function Outcomes(file: string, chunks: seq<string>, model: string, voice: string,
                    speak: (string, nat, SpeechRequest) -> Result<seq<byte>, string>,
                    decode: seq<byte> -> Result<Audio, string>): (outcomes: seq<ChunkOutcome>)
    ensures |outcomes| == |chunks|
  {
    seq(|chunks|, i requires 0 <= i < |chunks| => Outcome(speak(file, i, SpeechRequest(model, voice, chunks[i])), decode))
  }

  /** The audio of the converted chunks, in chunk order. */
  function SucceededAudio(outcomes: seq<ChunkOutcome>): Audio {
    if outcomes == [] then []
    else
      var last := outcomes[|outcomes| - 1];
      SucceededAudio(outcomes[..|outcomes| - 1]) + (if last.Converted? then last.audio else [])
  }

  /** The start of every log line about chunk `i`: `Chunk {i} `. */
  function ChunkTag(i: nat): string {
    "Chunk " + Decimal(i) + " "
  }

  /** The log line written for chunk `i` when it fails (lines 144 and 153). */
  function LogLine(i: nat, outcome: ChunkOutcome): string
    requires !outcome.Converted?
  {
    ChunkTag(i) + (if outcome.SpeechError? then "error: " else "conversion error: ") + outcome.message + "\n"
  }

  /** The log lines of the failed chunks, in chunk order. */
  function FailureLog(outcomes: seq<ChunkOutcome>): seq<string> {
    if outcomes == [] then []
    else
      var n := |outcomes| - 1;
      FailureLog(outcomes[..n]) + (if outcomes[n].Converted? then [] else [LogLine(n, outcomes[n])])
  }

  /** The loop of lines 133-157. Every chunk gets exactly one request, in
      order, whatever happened to the chunks before it; the combined audio is
      the converted chunks' audio in order, and the log has one line for each
      failed chunk. */
  method SynthesizeChunks(file: string, chunks: seq<string>, model: string, voice: string,
                          speak: (string, nat, SpeechRequest) -> Result<seq<byte>, string>,
                          decode: seq<byte> -> Result<Audio, string>)
    returns (combined: Audio, log: seq<string>, requests: seq<SpeechRequest>)
    ensures |requests| == |chunks|
    ensures forall i :: 0 <= i < |chunks| ==> requests[i] == SpeechRequest(model, voice, chunks[i])
    ensures combined == SucceededAudio(Outcomes(file, chunks, model, voice, speak, decode))
    ensures log == FailureLog(Outcomes(file, chunks, model, voice, speak, decode))
  {
    ghost var outcomes := Outcomes(file, chunks, model, voice, speak, decode);
    combined, log, requests := [], [], [];
    for i := 0 to |chunks|
      invariant |requests| == i
      invariant forall k :: 0 <= k < i ==> requests[k] == SpeechRequest(model, voice, chunks[k])
      invariant combined == SucceededAudio(outcomes[..i])
      invariant log == FailureLog(outcomes[..i])
    {
      SucceededAudioStep(outcomes, i);
      FailureLogStep(outcomes, i);
      var request := SpeechRequest(model, voice, chunks[i]);
      requests := requests + [request];
      var audio, lines := SynthesizeChunk(file, i, request, speak, decode);
      combined := combined + audio;
      log := log + lines;
    }
    assert outcomes[..|chunks|] == outcomes;
  }

  /** The body of the loop for chunk `i` (lines 135-157): the request is
      sent and its answer decoded; a failure of either gives no audio and
      the one log line lines 144 and 153 write. */
  method SynthesizeChunk(file: string, i: nat, request: SpeechRequest,
                         speak: (string, nat, SpeechRequest) -> Result<seq<byte>, string>,
                         decode: seq<byte> -> Result<Audio, string>)
    returns (audio: Audio, lines: seq<string>)
    ensures var outcome := Outcome(speak(file, i, request), decode);
      && audio == (if outcome.Converted? then outcome.audio else [])
      && lines == (if outcome.Converted? then [] else [LogLine(i, outcome)])
  {
    var response := speak(file, i, request);
    if response.Failure? {
      LogLineText(i, SpeechError(response.error));
      return [], ["Chunk " + Decimal(i) + " error: " + response.error + "\n"];
    }
    var decoded := decode(response.value);
    if decoded.Failure? {
      LogLineText(i, ConversionError(decoded.error));
      return [], ["Chunk " + Decimal(i) + " conversion error: " + decoded.error + "\n"];
    }
    return decoded.value, [];
  }

  /** The log line of a failed chunk, spelled out as lines 144 and 153 write it. */
  lemma {:induction false} LogLineText(i: nat, outcome: ChunkOutcome)
    requires !outcome.Converted?
    ensures outcome.SpeechError? ==> LogLine(i, outcome) == "Chunk " + Decimal(i) + " error: " + outcome.message + "\n"
    ensures outcome.ConversionError? ==> LogLine(i, outcome) == "Chunk " + Decimal(i) + " conversion error: " + outcome.message + "\n"
  {
  }

  lemma {:induction false} SucceededAudioStep(outcomes: seq<ChunkOutcome>, i: nat)
    requires i < |outcomes|
    ensures SucceededAudio(outcomes[..i + 1])
         == SucceededAudio(outcomes[..i]) + (if outcomes[i].Converted? then outcomes[i].audio else [])
  {
    PrefixSnoc(outcomes, i);
    assert outcomes[..i + 1][..i] == outcomes[..i];
  }

  lemma {:induction false} FailureLogStep(outcomes: seq<ChunkOutcome>, i: nat)
    requires i < |outcomes|
    ensures FailureLog(outcomes[..i + 1])
         == FailureLog(outcomes[..i]) + (if outcomes[i].Converted? then [] else [LogLine(i, outcomes[i])])
  {
    PrefixSnoc(outcomes, i);
    assert outcomes[..i + 1][..i] == outcomes[..i];
  }

  // ---------------------------------------------------------------------------
  // Properties of the combined audio and the log
  // ---------------------------------------------------------------------------

  /** When every chunk fails the combined audio is empty (zero duration). */
  lemma {:induction false} SilentWhenAllFail(outcomes: seq<ChunkOutcome>)
    requires forall k :: 0 <= k < |outcomes| ==> !outcomes[k].Converted?
    ensures SucceededAudio(outcomes) == []
  {
    if outcomes != [] {
      SilentWhenAllFail(outcomes[..|outcomes| - 1]);
    }
  }

  /** The audio of a run of chunks is the audio of its first part followed by
      that of the rest: what happens to one chunk does not affect the audio
      of the chunks after it. */
  lemma {:induction false} SucceededAudioAppend(first: seq<ChunkOutcome>, rest: seq<ChunkOutcome>)
    ensures SucceededAudio(first + rest) == SucceededAudio(first) + SucceededAudio(rest)
  {
    if rest == [] {
      assert first + rest == first;
    } else {
      var n := |rest| - 1;
      assert (first + rest)[..|first + rest| - 1] == first + rest[..n];
      SucceededAudioAppend(first, rest[..n]);
    }
  }

  /** The number of lines that start with `tag`. */
  function CountTagged(lines: seq<string>, tag: string): nat {
    if lines == [] then 0
    else CountTagged(lines[..|lines| - 1], tag) + (if tag <= lines[|lines| - 1] then 1 else 0)
  }

  lemma {:induction false} CountTaggedSnoc(lines: seq<string>, extra: seq<string>, tag: string)
    requires |extra| <= 1
    ensures CountTagged(lines + extra, tag) == CountTagged(lines, tag) + CountTagged(extra, tag)
  {
    if extra != [] {
      var all := lines + extra;
      assert all[..|all| - 1] == lines && all[|all| - 1] == extra[0];
      assert extra[..|extra| - 1] == [];
      assert CountTagged(extra, tag) == (if tag <= extra[0] then 1 else 0);
      assert CountTagged(all, tag) == CountTagged(lines, tag) + (if tag <= extra[0] then 1 else 0);
    } else {
      assert lines + extra == lines;
    }
  }

  /** The tag of chunk `i` starts a line about chunk `j` only when `i == j`:
      a digit never stands where the other tag has its closing space. */
  lemma {:induction false} TagOnlyOwnLines(i: nat, j: nat, rest: string)
    requires ChunkTag(i) <= ChunkTag(j) + rest
    ensures i == j
  {
    var di, dj := Decimal(i), Decimal(j);
    var line := ChunkTag(j) + rest;
    assert forall k :: 0 <= k < |di| ==> ChunkTag(i)[6 + k] == di[k];
    assert forall k :: 0 <= k < |dj| ==> line[6 + k] == dj[k];
    assert ChunkTag(i)[6 + |di|] == ' ' && line[6 + |dj|] == ' ';
    if |di| < |dj| {
      assert false;
    } else if |dj| < |di| {
      assert false;
    } else {
      assert di == dj;
    }
  }

  /** Exactly one log line starts with `Chunk {i} ` when chunk `i` failed, and
      none when it was converted or does not exist. */
  lemma {:induction false} OneLinePerFailure(outcomes: seq<ChunkOutcome>, i: nat)
    ensures CountTagged(FailureLog(outcomes), ChunkTag(i)) == if i < |outcomes| && !outcomes[i].Converted? then 1 else 0
  {
    if outcomes != [] {
      var n := |outcomes| - 1;
      var init := outcomes[..n];
      OneLinePerFailure(init, i);
      var extra: seq<string> := if outcomes[n].Converted? then [] else [LogLine(n, outcomes[n])];
      CountTaggedSnoc(FailureLog(init), extra, ChunkTag(i));
      if extra != [] {
        LineTagged(n, outcomes[n], i);
      }
      if i < n {
        assert init[i] == outcomes[i];
      }
    }
  }

  /** The log line of chunk `n` starts with the tag of chunk `i` exactly when `i == n`. */
  lemma {:induction false} LineTagged(n: nat, outcome: ChunkOutcome, i: nat)
    requires !outcome.Converted?
    ensures CountTagged([LogLine(n, outcome)], ChunkTag(i)) == if i == n then 1 else 0
  {
    var rest := (if outcome.SpeechError? then "error: " else "conversion error: ") + outcome.message + "\n";
    assert LogLine(n, outcome) == ChunkTag(n) + rest;
    if ChunkTag(i) <= LogLine(n, outcome) {
      TagOnlyOwnLines(i, n, rest);
    }
    assert [LogLine(n, outcome)][..0] == [];
  }

  /** The log has as many lines as there are failed chunks. */
  lemma {:induction false} LogLength(outcomes: seq<ChunkOutcome>)
    ensures |FailureLog(outcomes)| == |set k | 0 <= k < |outcomes| && !outcomes[k].Converted?|
  {
    if outcomes != [] {
      var n := |outcomes| - 1;
      var init := outcomes[..n];
      LogLength(init);
      var before := set k | 0 <= k < n && !init[k].Converted?;
      var after := set k | 0 <= k < |outcomes| && !outcomes[k].Converted?;
      if outcomes[n].Converted? {
        assert after == before;
      } else {
        assert after == before + {n};
      }
    }
  }
}
