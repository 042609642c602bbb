/**
 * The deterministic parts of the summariser: cutting text into chunks, the
 * retry loop around one model call, the fallback for replies that are not
 * JSON, the merge of per-chunk results, and the request check. The model
 * call itself is a parameter: the reply each attempt receives.
 */
module AiController {
  import opened Wrappers
  import opened Text
  import opened Models

  /** `MAX_CHUNK_SIZE`, in characters. */
  const MaxChunkSize: nat := 3000

  /** The default `retries` of the model call. */
  const DefaultRetries: nat := 3

  // ---- chunking ----

  /** The chunks `text.slice(i, i + maxLen)` for i = 0, maxLen, 2·maxLen, ... below the length. */
  function Chunks(text: string, maxLen: nat): seq<string>
    requires maxLen > 0
    decreases |text|
  {
    if text == "" then []
    else if |text| <= maxLen then [text]
    else [text[..maxLen]] + Chunks(text[maxLen..], maxLen)
  }

  function Concat(chunks: seq<string>): string {
    if chunks == [] then "" else chunks[0] + Concat(chunks[1..])
  }

  /** Joining the chunks gives back the text, character for character. */
  lemma {:induction false} ChunksConcat(text: string, maxLen: nat)
    requires maxLen > 0
    ensures Concat(Chunks(text, maxLen)) == text
    decreases |text|
  {
    if |text| > maxLen {
      ChunksConcat(text[maxLen..], maxLen);
      assert text == text[..maxLen] + text[maxLen..];
    }
  }

  /** Every chunk is non-empty and at most `maxLen` long; all but the last are exactly `maxLen`. */
  lemma {:induction false} ChunksLengths(text: string, maxLen: nat)
    requires maxLen > 0
    ensures forall i :: 0 <= i < |Chunks(text, maxLen)| ==> 0 < |Chunks(text, maxLen)[i]| <= maxLen
    ensures forall i :: 0 <= i < |Chunks(text, maxLen)| - 1 ==> |Chunks(text, maxLen)[i]| == maxLen
    decreases |text|
  {
    var cs := Chunks(text, maxLen);
    if |text| > maxLen {
      var rest := Chunks(text[maxLen..], maxLen);
      ChunksLengths(text[maxLen..], maxLen);
      assert cs == [text[..maxLen]] + rest;
      forall i | 1 <= i < |cs| ensures 0 < |cs[i]| <= maxLen && (i < |cs| - 1 ==> |cs[i]| == maxLen) {
        var j := i - 1;
        assert cs[i] == rest[j];
        assert 0 < |rest[j]| <= maxLen;
        assert j < |rest| - 1 ==> |rest[j]| == maxLen;
      }
    }
  }

  /**
   * There are ceil(|text| / maxLen) chunks: the smallest count whose
   * chunks of `maxLen` can hold the text; none for the empty text.
   */
  lemma {:induction false} ChunksCount(text: string, maxLen: nat)
    requires maxLen > 0
    ensures var k := |Chunks(text, maxLen)|;
      && |text| <= k * maxLen
      && (k == 0 || (k - 1) * maxLen < |text|)
    ensures Chunks(text, maxLen) == [] <==> text == ""
    decreases |text|
  {
    if |text| > maxLen {
      ChunksCount(text[maxLen..], maxLen);
      var k := |Chunks(text[maxLen..], maxLen)|;
      assert (k + 1) * maxLen == k * maxLen + maxLen;
    }
  }

  /** Cutting from a chunk boundary: one more chunk, then the rest. */
  lemma ChunksFrom(text: string, maxLen: nat, i: nat)
    requires maxLen > 0 && i < |text|
    ensures var stop := if i + maxLen < |text| then i + maxLen else |text|;
      Chunks(text[i..], maxLen) == [text[i..stop]] + Chunks(text[stop..], maxLen)
  {
    var stop := if i + maxLen < |text| then i + maxLen else |text|;
    if i + maxLen < |text| {
      assert text[i..][..maxLen] == text[i..stop];
      assert text[i..][maxLen..] == text[stop..];
    } else {
      assert text[stop..] == "";
      assert text[i..] == text[i..stop];
    }
  }

  /** `splitIntoChunks`: the `while` loop that pushes slices and advances by `maxLen`. */
  method SplitIntoChunks(text: string, maxLen: nat) returns (chunks: seq<string>)
    requires maxLen > 0
    ensures chunks == Chunks(text, maxLen)
  {
    chunks := [];
    var i := 0;
    while i < |text|
      invariant 0 <= i
      invariant chunks + Chunks(text[if i < |text| then i else |text|..], maxLen) == Chunks(text, maxLen)
      decreases |text| - i
    {
      var stop := if i + maxLen < |text| then i + maxLen else |text|;
      ChunksFrom(text, maxLen, i);
      assert chunks + [text[i..stop]] + Chunks(text[stop..], maxLen)
          == chunks + ([text[i..stop]] + Chunks(text[stop..], maxLen));
      chunks := chunks + [text[i..stop]];
      i := i + maxLen;
    }
    assert text[|text|..] == "";
  }

  // ---- one model call with retries ----

  /** A field of a parsed reply, as far as the merge and the response read it. */
  datatype Field = Missing | Str(s: string) | Arr(items: seq<string>) | OtherField(truthy: bool)

  /** The parsed JSON object of one reply: its `summary` and `bullets` fields. */
  datatype ChunkResult = ChunkResult(summary: Field, bullets: Field)

  /**
   * What one POST brings back: the text at `candidates[0].content.parts[0].text`
   * ("" when any step of that path is missing), an HTTP error status, or a
   * failure without a response (network error, timeout).
   */
  datatype Reply = Ok(text: string) | HttpError(status: int) | NoResponse

  datatype CallError = MissingKey | EmptyResponse | Http(status: int) | Network

  datatype CallOutcome = Parsed(result: ChunkResult) | Thrown(error: CallError)

  /** The outcome of a call and how many requests it sent. */
  datatype Call = Call(outcome: CallOutcome, attempts: nat)

  /** The fallback for a reply that is not JSON: the whole text as the summary, no bullets. */
  function Fallback(text: string): ChunkResult {
    ChunkResult(Str(text), Arr([]))
  }

  /** `JSON.parse(text)` with its `catch`; `parse` says whether and to what the text parses. */
  function Interpret(text: string, parse: string -> Option<ChunkResult>): CallOutcome {
    if text == "" then Thrown(EmptyResponse)
    else match parse(text)
      case None => Parsed(Fallback(text))
      case Some(p) => Parsed(p)
  }

  /** The `catch` block's test: rate limited or a server error, with attempts left. */
  predicate ShouldRetry(status: Option<int>, attempt: nat, retries: nat) {
    (status == Some(429) || (status.Some? && status.value >= 500)) && attempt < retries
  }

  /** The status a failed attempt carries: only an HTTP error has a response. */
  function ErrorStatus(reply: Reply): Option<int> {
    match reply
    case HttpError(s) => Some(s)
    case _ => None
  }

  function Pow2(n: nat): (r: nat)
    ensures r >= 1
  {
    if n == 0 then 1 else 2 * Pow2(n - 1)
  }

  /** `Math.pow(2, attempt) * 1000`: the back-off before the next attempt, in milliseconds. */
  function RetryDelay(attempt: nat): (r: nat)
    ensures r >= 1000
  {
    Pow2(attempt) * 1000
  }

  lemma DefaultBackoff()
    ensures RetryDelay(0) == 1000 && RetryDelay(1) == 2000 && RetryDelay(2) == 4000
    ensures forall s :: !ShouldRetry(s, DefaultRetries, DefaultRetries)
  {
  }

  /** Each retry waits twice as long as the one before. */
  lemma RetryDelayDoubles(attempt: nat)
    ensures RetryDelay(attempt + 1) == 2 * RetryDelay(attempt)
  {
  }

  /** The loop from `attempt` on: the reply decides between returning, retrying and rethrowing. */
  function CallFrom(reply: nat -> Reply, parse: string -> Option<ChunkResult>, retries: nat, attempt: nat): (r: Call)
    requires attempt <= retries
    ensures 1 <= r.attempts <= retries - attempt + 1
    // a status that is not retried is rethrown at once
    ensures reply(attempt).HttpError? && !ShouldRetry(Some(reply(attempt).status), attempt, retries) ==>
      r == Call(Thrown(Http(reply(attempt).status)), 1)
    // a rethrown status is not retryable, or it came on the last permitted attempt
    ensures r.outcome.Thrown? && r.outcome.error.Http? ==>
      var s := r.outcome.error.status;
      !(s == 429 || s >= 500) || attempt + r.attempts - 1 == retries
    decreases retries - attempt
  {
    match reply(attempt)
    case Ok(text) => Call(Interpret(text, parse), 1)
    case NoResponse => Call(Thrown(Network), 1)
    case HttpError(s) =>
      if ShouldRetry(Some(s), attempt, retries) then
        var rest := CallFrom(reply, parse, retries, attempt + 1);
        Call(rest.outcome, rest.attempts + 1)
      else Call(Thrown(Http(s)), 1)
  }

  /**
   * A non-empty reply that is not JSON is answered after that one request
   * with the fallback object, which the response passes on unchanged.
   */
  lemma UnparsableReplyFallsBack(reply: nat -> Reply, parse: string -> Option<ChunkResult>, retries: nat,
                                 attempt: nat, text: string)
    requires attempt <= retries
    requires reply(attempt) == Ok(text) && text != "" && parse(text).None?
    ensures CallFrom(reply, parse, retries, attempt) == Call(Parsed(ChunkResult(Str(text), Arr([]))), 1)
    ensures Response(CallFrom(reply, parse, retries, attempt).outcome.result) == (Str(text), Arr([]))
  {
  }

  /** A reply that parses is returned as parsed, after that one request. */
  lemma ParsedReplyReturned(reply: nat -> Reply, parse: string -> Option<ChunkResult>, retries: nat,
                            attempt: nat, text: string)
    requires attempt <= retries
    requires reply(attempt) == Ok(text) && text != "" && parse(text).Some?
    ensures CallFrom(reply, parse, retries, attempt) == Call(Parsed(parse(text).value), 1)
  {
  }

  /** An empty reply throws at once and is not retried, however many attempts remain. */
  lemma EmptyReplyNotRetried(reply: nat -> Reply, parse: string -> Option<ChunkResult>, retries: nat, attempt: nat)
    requires attempt <= retries
    requires reply(attempt) == Ok("")
    ensures CallFrom(reply, parse, retries, attempt) == Call(Thrown(EmptyResponse), 1)
  {
  }

  /** `callGeminiForJSON`: no request at all without an API key. */
  function CallGemini(hasKey: bool, reply: nat -> Reply, parse: string -> Option<ChunkResult>, retries: nat): (r: Call)
    ensures r.attempts <= retries + 1
    ensures !hasKey <==> r.attempts == 0
    ensures !hasKey ==> r.outcome == Thrown(MissingKey)
  {
    if !hasKey then Call(Thrown(MissingKey), 0) else CallFrom(reply, parse, retries, 0)
  }

  /** The waits of a call that made `attempts` requests: one per retry, doubling from one second. */
  function Backoffs(attempts: nat): (r: seq<nat>)
    ensures |r| == if attempts == 0 then 0 else attempts - 1
    ensures forall i :: 0 <= i < |r| ==> r[i] == RetryDelay(i)
  {
    if attempts <= 1 then [] else Backoffs(attempts - 1) + [RetryDelay(attempts - 2)]
  }

  /**
   * A retry happens only after a 429 or 5xx with attempts left, and an
   * empty reply or a missing response ends the call at once.
   */
  lemma RetryOnlyWhenRetryable(reply: nat -> Reply, parse: string -> Option<ChunkResult>, retries: nat, attempt: nat)
    requires attempt <= retries
    ensures CallFrom(reply, parse, retries, attempt).attempts > 1 <==> ShouldRetry(ErrorStatus(reply(attempt)), attempt, retries)
  {
  }

  /**
   * The bounded `for` loop: it sends at most `retries + 1` requests, waits
   * the back-off before each retry, and ends with the value `CallGemini`
   * describes. `waits` records the sleeps instead of performing them.
   */
  method CallGeminiForJson(hasKey: bool, reply: nat -> Reply, parse: string -> Option<ChunkResult>, retries: nat)
    returns (outcome: CallOutcome, attempts: nat, waits: seq<nat>)
    ensures Call(outcome, attempts) == CallGemini(hasKey, reply, parse, retries)
    ensures waits == Backoffs(attempts)
  {
    if !hasKey {
      return Thrown(MissingKey), 0, [];
    }
    attempts, waits := 0, [];
    var attempt := 0;
    while attempt <= retries
      invariant attempt <= retries
      invariant attempts == attempt && waits == Backoffs(attempt + 1)
      invariant CallGemini(hasKey, reply, parse, retries).attempts == CallFrom(reply, parse, retries, attempt).attempts + attempt
      invariant CallGemini(hasKey, reply, parse, retries).outcome == CallFrom(reply, parse, retries, attempt).outcome
      decreases retries - attempt
    {
      attempts := attempt + 1;
      match reply(attempt) {
        case Ok(text) =>
          return Interpret(text, parse), attempts, waits;
        case NoResponse =>
          return Thrown(Network), attempts, waits;
        case HttpError(s) =>
          if ShouldRetry(Some(s), attempt, retries) {
            waits := waits + [RetryDelay(attempt)];
            attempt := attempt + 1;
          } else {
            return Thrown(Http(s)), attempts, waits;
          }
      }
    }
    assert false;
  }

  // ---- merging chunk results ----

  /** `Array.isArray(r.bullets) ? r.bullets : []`. */
  function BulletsOf(r: ChunkResult): seq<string> {
    if r.bullets.Arr? then r.bullets.items else []
  }

  /** `flatMap` of the per-chunk bullets. */
  function CombinedBullets(rs: seq<ChunkResult>): seq<string> {
    if rs == [] then [] else BulletsOf(rs[0]) + CombinedBullets(rs[1..])
  }

  /** The concatenation is in chunk order and splits along any split of the chunks. */
  lemma {:induction false} CombinedBulletsAppend(a: seq<ChunkResult>, b: seq<ChunkResult>)
    ensures CombinedBullets(a + b) == CombinedBullets(a) + CombinedBullets(b)
    decreases |a|
  {
    if a == [] {
      assert a + b == b;
    } else {
      assert (a + b)[1..] == a[1..] + b;
      CombinedBulletsAppend(a[1..], b);
    }
  }

  /** A chunk contributes its bullets when they are an array, and nothing otherwise. */
  lemma CombinedBulletsOfOne(r: ChunkResult)
    ensures CombinedBullets([r]) == if r.bullets.Arr? then r.bullets.items else []
  {
  }

  /**
   * `summarizeLargeText` given what each per-chunk call and the combining
   * call would return: the first thrown call ends it; a single chunk's
   * result is returned as it is; otherwise the combining call receives the
   * combined bullets.
   */
  function SummarizeLarge(perChunk: seq<CallOutcome>, combine: seq<string> -> CallOutcome): (r: CallOutcome)
  {
    if exists i :: 0 <= i < |perChunk| && perChunk[i].Thrown? then
      perChunk[FirstThrown(perChunk)]
    else if |perChunk| == 1 then perChunk[0]
    else combine(CombinedBullets(Results(perChunk)))
  }

  function FirstThrown(outs: seq<CallOutcome>): (r: nat)
    requires exists i :: 0 <= i < |outs| && outs[i].Thrown?
    ensures r < |outs| && outs[r].Thrown? && forall j :: 0 <= j < r ==> outs[j].Parsed?
  {
    if outs[0].Thrown? then 0
    else
      assert exists i :: 0 <= i < |outs[1..]| && outs[1..][i].Thrown? by {
        var i :| 0 <= i < |outs| && outs[i].Thrown?;
        assert outs[1..][i - 1] == outs[i];
      }
      FirstThrown(outs[1..]) + 1
  }

  /** The parsed results, in order. */
  function Results(outs: seq<CallOutcome>): (r: seq<ChunkResult>)
    ensures |r| <= |outs|
  {
    if outs == [] then []
    else (if outs[0].Parsed? then [outs[0].result] else []) + Results(outs[1..])
  }

  /** One chunk: its own result comes back, and the combining call is not made. */
  lemma SingleChunkReturnedAsIs(out: CallOutcome, combine: seq<string> -> CallOutcome)
    ensures SummarizeLarge([out], combine) == out
  {
  }

  /** Several chunks that all parsed: the combining call gets every chunk's bullets, in order. */
  lemma SeveralChunksCombined(rs: seq<ChunkResult>, combine: seq<string> -> CallOutcome)
    requires |rs| != 1
    ensures SummarizeLarge(seq(|rs|, i requires 0 <= i < |rs| => Parsed(rs[i])), combine) == combine(CombinedBullets(rs))
  {
    ResultsOfParsed(rs);
  }

  lemma {:induction false} ResultsOfParsed(rs: seq<ChunkResult>)
    ensures Results(seq(|rs|, i requires 0 <= i < |rs| => Parsed(rs[i]))) == rs
    decreases |rs|
  {
    if rs != [] {
      var outs := seq(|rs|, i requires 0 <= i < |rs| => Parsed(rs[i]));
      assert outs[1..] == seq(|rs[1..]|, i requires 0 <= i < |rs[1..]| => Parsed(rs[1..][i]));
      ResultsOfParsed(rs[1..]);
    }
  }

  // ---- the request ----

  /** `if (!text || typeof text !== 'string' || !text.trim())`: 400 unless a non-blank string. */
  function CheckText(text: Option<Value>): (r: Result<string, Status>)
    ensures r.Success? <==> text.Some? && text.value.VStr? && !AllSpace(text.value.s)
    ensures r.Success? ==> text == Some(VStr(r.value))
    ensures r.Failure? ==> r.error == BadRequest
  {
    TrimEmptyIffAllSpace(if text.Some? && text.value.VStr? then text.value.s else "");
    if Falsy(text) || !text.value.VStr? || Trim(text.value.s) == "" then Failure(BadRequest)
    else Success(text.value.s)
  }

  /** Text made only of wide spaces is blank to `trim()` and is refused. */
  lemma WideSpaceTextRejected()
    ensures CheckText(Some(VStr("\U{2003}\U{3000}"))) == Failure(BadRequest)
  {
    assert AllSpace("\U{2003}\U{3000}");
  }

  /** Accepted text always has at least one chunk, so the merge sees at least one result. */
  lemma AcceptedTextHasChunks(text: Option<Value>)
    requires CheckText(text).Success?
    ensures |Chunks(CheckText(text).value, MaxChunkSize)| >= 1
  {
    ChunksCount(CheckText(text).value, MaxChunkSize);
  }

  /** `x || d` for a response field. */
  function OrDefault(f: Field, d: Field): Field {
    match f
    case Missing => d
    case Str(s) => if s == "" then d else f
    case Arr(_) => f
    case OtherField(truthy) => if truthy then f else d
  }

  /** The 200 response: `summary: result.summary || ''`, `bullets: result.bullets || []`. */
  function Response(r: ChunkResult): (out: (Field, Field))
    ensures r.summary.Str? ==> out.0 == r.summary
    ensures r.bullets.Arr? ==> out.1 == r.bullets
    ensures r.summary.Missing? ==> out.0 == Str("")
    ensures r.bullets.Missing? ==> out.1 == Arr([])
  {
    (OrDefault(r.summary, Str("")), OrDefault(r.bullets, Arr([])))
  }
}
