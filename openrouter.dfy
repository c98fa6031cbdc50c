/**
 * The completion-service client (src/services/openrouter.ts): the error text
 * of a failed request, the free-model catalogue filter, first-choice
 * extraction of a buffered completion, and the line framing of a streamed one.
 *
 * The HTTP exchange is not modelled: each response is a parameter, already
 * decoded. JSON parsing of a stream frame is the parameter `delta`, which maps
 * a frame's payload to the content delta it carries, or to None when the
 * payload does not parse or carries none.
 */
module OpenRouter {
  import opened Types
  import opened Text

  // ---------------------------------------------------------------------------
  // makeRequest
  // ---------------------------------------------------------------------------

  /**
   * What the client sees of an HTTP response: whether it was 2xx, its status,
   * the `error.message` of its JSON error body when it has one, and its body.
   */
  datatype HttpResponse<T> = HttpResponse(ok: bool, status: nat, serverMessage: Option<string>, body: T)

  const ApiKeyMissingMessage := "OpenRouter API key is required"
  const StatusPrefix := "API request failed with status "

  /** `errorData.error?.message || \`API request failed with status ${status}\``. */
  function ErrorMessage(serverMessage: Option<string>, status: nat): string
  {
    if Truthy(serverMessage) then serverMessage.value else StatusPrefix + NatToString(status)
  }

  /**
   * The server's own message wins when it is present and non-empty; otherwise
   * the message names the status, which can be read back from it.
   */
  lemma ErrorMessageChoice(serverMessage: Option<string>, status: nat)
    ensures var msg := ErrorMessage(serverMessage, status);
      && (Truthy(serverMessage) ==> msg == serverMessage.value)
      && (!Truthy(serverMessage) ==>
            StartsWith(msg, StatusPrefix)
            && (forall i :: |StatusPrefix| <= i < |msg| ==> IsDigit(msg[i]))
            && DecimalValue(msg[|StatusPrefix|..]) == status)
  {
    if !Truthy(serverMessage) {
      var msg := ErrorMessage(serverMessage, status);
      assert msg[|StatusPrefix|..] == NatToString(status);
      DecimalRoundTrip(status);
    }
  }

  /** `makeRequest`: refuses without an API key, fails on a non-2xx status, else yields the body. */
  function MakeRequest<T>(hasApiKey: bool, resp: HttpResponse<T>): (r: Result<T>)
    ensures r.Success? <==> hasApiKey && resp.ok
    ensures r.Success? ==> r.value == resp.body
    ensures !hasApiKey ==> r.error == ApiKeyMissingMessage
    ensures hasApiKey && !resp.ok ==> r.error == ErrorMessage(resp.serverMessage, resp.status)
  {
    if !hasApiKey then Failure(ApiKeyMissingMessage)
    else if !resp.ok then Failure(ErrorMessage(resp.serverMessage, resp.status))
    else Success(resp.body)
  }

  // ---------------------------------------------------------------------------
  // Chat-completion requests
  // ---------------------------------------------------------------------------

  /** One part of a multimodal message body. */
  datatype ContentPart = TextPart(text: string) | ImageUrlPart(url: string)

  /** A message body: a bare string, or a list of typed parts. */
  datatype Content = Plain(text: string) | Parts(parts: seq<ContentPart>)

  /** `{ role, content: string | any[] }`, one element of the request's `messages`. */
  datatype ApiMessage = ApiMessage(role: Role, content: Content)

  /** The JSON body posted to `/chat/completions`. */
  datatype ChatRequest = ChatRequest(model: string, messages: seq<ApiMessage>, stream: bool, temperature: real, maxTokens: nat)

  /** The request body both sendMessage (stream: false) and sendMessageStream (stream: true) post. */
  function CompletionRequest(messages: seq<ApiMessage>, model: string, stream: bool): (r: ChatRequest)
    ensures r.messages == messages && r.model == model && r.stream == stream
    ensures r.temperature == 0.7 && r.maxTokens == 1000
  {
    ChatRequest(model, messages, stream, 0.7, 1000)
  }

  // ---------------------------------------------------------------------------
  // getModels
  // ---------------------------------------------------------------------------

  /** A JSON field of the raw catalogue that may be missing or null, a string, or a number. */
  datatype RawValue = Absent | Str(s: string) | Num(x: real)

  /** JavaScript falsiness of such a field. */
  predicate IsFalsy(v: RawValue)
  {
    v.Absent? || v == Str("") || v == Num(0.0)
  }

  /** `price === '0' || price === 0 || !price`. */
  predicate IsZeroPrice(v: RawValue)
  {
    v == Str("0") || v == Num(0.0) || IsFalsy(v)
  }

  datatype RawPricing = RawPricing(prompt: RawValue, completion: RawValue)

  /** One entry of the catalogue's `data` array. */
  datatype RawModel = RawModel(
    id: string,
    name: string,
    description: Option<string>,
    contextLength: Option<int>,
    pricing: Option<RawPricing>)

  /** `model.pricing?.prompt`. */
  function PromptPrice(m: RawModel): RawValue
  {
    if m.pricing.Some? then m.pricing.value.prompt else Absent
  }

  /** `model.pricing?.completion`. */
  function CompletionPrice(m: RawModel): RawValue
  {
    if m.pricing.Some? then m.pricing.value.completion else Absent
  }

  /** The filter of getModels: both prices zero or falsy. */
  predicate IsFreeEntry(m: RawModel)
  {
    IsZeroPrice(PromptPrice(m)) && IsZeroPrice(CompletionPrice(m))
  }

  const MaxFreeModels: nat := 10
  const NoDescription := "No description available"
  const FetchModelsFailedMessage := "Failed to fetch AI models"

  /** `price || '0'` on a price that passed the filter: always the string "0". */
  function PriceText(v: RawValue): (r: string)
    requires IsZeroPrice(v)
    ensures r == "0"
  {
    if IsFalsy(v) then "0" else v.s
  }

  /** The map step of getModels, applied to an entry that passed the filter. */
  function ToAIModel(m: RawModel): (r: AIModel)
    requires IsFreeEntry(m)
    ensures r.id == m.id && r.name == m.name && r.isFree && r.supportsVision == None
    ensures r.pricing == Pricing("0", "0")
    ensures r.description == if Truthy(m.description) then m.description.value else NoDescription
    ensures r.contextLength == if m.contextLength.Some? then m.contextLength.value else 0
  {
    AIModel(
      m.id,
      m.name,
      if Truthy(m.description) then m.description.value else NoDescription,
      if m.contextLength.Some? && m.contextLength.value != 0 then m.contextLength.value else 0,
      Pricing(PriceText(PromptPrice(m)), PriceText(CompletionPrice(m))),
      true,
      None)
  }

  /** `data.filter(isFree).map(toAIModel)`. */
  function ConvertFree(raw: seq<RawModel>): seq<AIModel>
  {
    if raw == [] then []
    else if IsFreeEntry(raw[0]) then [ToAIModel(raw[0])] + ConvertFree(raw[1..])
    else ConvertFree(raw[1..])
  }

  /** How many entries of `raw` pass the filter. */
  function CountFree(raw: seq<RawModel>): nat
  {
    if raw == [] then 0 else (if IsFreeEntry(raw[0]) then 1 else 0) + CountFree(raw[1..])
  }

  /** The free-model list getModels returns: filtered, converted, and cut to the first ten. */
  function FreeModels(raw: seq<RawModel>): (r: seq<AIModel>)
    ensures |r| <= MaxFreeModels
    ensures forall i :: 0 <= i < |r| ==> r[i].isFree && r[i].pricing == Pricing("0", "0")
  {
    ConvertFreeAllFree(raw);
    var all := ConvertFree(raw);
    if |all| <= MaxFreeModels then all else all[..MaxFreeModels]
  }

  lemma {:induction false} ConvertFreeAllFree(raw: seq<RawModel>)
    ensures forall i :: 0 <= i < |ConvertFree(raw)| ==>
      ConvertFree(raw)[i].isFree && ConvertFree(raw)[i].pricing == Pricing("0", "0")
  {
    if raw != [] {
      ConvertFreeAllFree(raw[1..]);
    }
  }

  /**
   * Every free entry lands at the position given by the number of free
   * entries before it, so the filter keeps catalogue order, drops nothing free
   * and adds nothing.
   */
  lemma {:induction false} ConvertFreePositions(raw: seq<RawModel>)
    ensures |ConvertFree(raw)| == CountFree(raw)
    ensures forall j :: 0 <= j < |raw| && IsFreeEntry(raw[j]) ==>
      CountFree(raw[..j]) < |ConvertFree(raw)| && ConvertFree(raw)[CountFree(raw[..j])] == ToAIModel(raw[j])
  {
    if raw != [] {
      var tail := raw[1..];
      ConvertFreePositions(tail);
      var head := if IsFreeEntry(raw[0]) then [ToAIModel(raw[0])] else [];
      assert ConvertFree(raw) == head + ConvertFree(tail);
      forall j | 0 <= j < |raw| && IsFreeEntry(raw[j])
        ensures CountFree(raw[..j]) < |ConvertFree(raw)| && ConvertFree(raw)[CountFree(raw[..j])] == ToAIModel(raw[j])
      {
        if j > 0 {
          CountFreePrefix(raw, j);
          assert raw[j] == tail[j - 1];
        } else {
          assert raw[..j] == [];
        }
      }
    }
  }

  /** Counting the free entries of a non-empty prefix looks at its head, then at the rest. */
  lemma CountFreePrefix(raw: seq<RawModel>, j: nat)
    requires 0 < j <= |raw|
    ensures CountFree(raw[..j]) == (if IsFreeEntry(raw[0]) then 1 else 0) + CountFree(raw[1..][..j - 1])
  {
    assert raw[..j][0] == raw[0];
    assert raw[..j][1..] == raw[1..][..j - 1];
  }

  /**
   * getModels' list in terms of the raw catalogue: its length is the number of
   * free entries capped at ten, and the k-th free entry, for k below ten, is
   * converted at index k.
   */
  lemma FreeModelsSpec(raw: seq<RawModel>)
    ensures |FreeModels(raw)| == if CountFree(raw) <= MaxFreeModels then CountFree(raw) else MaxFreeModels
    ensures forall j :: 0 <= j < |raw| && IsFreeEntry(raw[j]) && CountFree(raw[..j]) < MaxFreeModels ==>
      CountFree(raw[..j]) < |FreeModels(raw)| && FreeModels(raw)[CountFree(raw[..j])] == ToAIModel(raw[j])
  {
    ConvertFreePositions(raw);
  }

  /** `getModels`: any failure of the request surfaces as one fixed message. */
  function GetModels(hasApiKey: bool, resp: HttpResponse<seq<RawModel>>): (r: Result<seq<AIModel>>)
    ensures r.Success? <==> hasApiKey && resp.ok
    ensures r.Success? ==> r.value == FreeModels(resp.body)
    ensures r.Failure? ==> r.error == FetchModelsFailedMessage
  {
    match MakeRequest(hasApiKey, resp)
    case Success(raw) => Success(FreeModels(raw))
    case Failure(_) => Failure(FetchModelsFailedMessage)
  }

  // ---------------------------------------------------------------------------
  // sendMessage (buffered)
  // ---------------------------------------------------------------------------

  datatype Choice = Choice(content: string)

  /** The part of a chat-completion body the client reads: its optional `choices`. */
  datatype Completion = Completion(choices: Option<seq<Choice>>)

  const NoResponseMessage := "No response from AI model"
  const SendFailedMessage := "Failed to send message to AI model"

  /** The content of the first choice, or an error when there is none. */
  function FirstChoice(c: Completion): (r: Result<string>)
    ensures r.Success? <==> c.choices.Some? && |c.choices.value| > 0
    ensures r.Success? ==> r.value == c.choices.value[0].content
    ensures r.Failure? ==> r.error == NoResponseMessage
  {
    if c.choices.Some? && |c.choices.value| > 0 then Success(c.choices.value[0].content)
    else Failure(NoResponseMessage)
  }

  /**
   * `sendMessage`: succeeds with the first choice's content exactly when the
   * request succeeds and the completion has a choice; every failure surfaces
   * as one fixed message.
   */
  function SendMessage(hasApiKey: bool, resp: HttpResponse<Completion>): (r: Result<string>)
    ensures r.Success? <==> hasApiKey && resp.ok && resp.body.choices.Some? && |resp.body.choices.value| > 0
    ensures r.Success? ==> r.value == resp.body.choices.value[0].content
    ensures r.Failure? ==> r.error == SendFailedMessage
  {
    match MakeRequest(hasApiKey, resp)
    case Failure(_) => Failure(SendFailedMessage)
    case Success(body) =>
      match FirstChoice(body)
      case Success(content) => Success(content)
      case Failure(_) => Failure(SendFailedMessage)
  }

  // ---------------------------------------------------------------------------
  // sendMessageStream: line framing
  // ---------------------------------------------------------------------------

  const DataPrefix := "data: "
  const DoneSentinel := "[DONE]"
  const StreamFailedMessage := "Failed to stream message from AI model"

  /**
   * What the client sees of a streamed response: whether it was 2xx, its
   * status and server message, whether it has a body, the decoded text of each
   * successful read in order, and whether the reader then threw instead of
   * reporting that it was done.
   */
  datatype StreamResponse = StreamResponse(
    ok: bool,
    status: nat,
    serverMessage: Option<string>,
    hasBody: bool,
    pieces: seq<string>,
    readerFails: bool)

  /** The chunks handed to `onChunk`, and whether `[DONE]` was seen. */
  datatype Frames = Frames(chunks: seq<string>, done: bool)

  /** A line that starts with `data: `, and its payload. */
  predicate IsDataLine(line: string)
  {
    StartsWith(line, DataPrefix)
  }

  function Payload(line: string): string
    requires IsDataLine(line)
  {
    line[|DataPrefix|..]
  }

  predicate IsDoneLine(line: string)
  {
    IsDataLine(line) && Payload(line) == DoneSentinel
  }

  /** A line that hands nothing to `onChunk` and does not end the stream. */
  predicate IsSilent(line: string, delta: string -> Option<string>)
  {
    !IsDataLine(line) || (Payload(line) != DoneSentinel && !Truthy(delta(Payload(line))))
  }

  /**
   * The effect of complete lines processed in order: a data line with a
   * truthy delta hands that delta on, `data: [DONE]` stops everything, and
   * every other line is skipped.
   */
  function ProcessLines(lines: seq<string>, delta: string -> Option<string>): Frames
  {
    if lines == [] then Frames([], false)
    else if IsDoneLine(lines[0]) then Frames([], true)
    else
      var rest := ProcessLines(lines[1..], delta);
      if IsDataLine(lines[0]) && Truthy(delta(Payload(lines[0])))
      then Frames([delta(Payload(lines[0])).value] + rest.chunks, rest.done)
      else rest
  }

  /**
   * Processing two runs of lines one after the other: the second run only
   * counts if the first did not see `[DONE]`, and its chunks come after the
   * first run's.
   */
  lemma {:induction false} ProcessConcat(a: seq<string>, b: seq<string>, delta: string -> Option<string>)
    ensures ProcessLines(a + b, delta) ==
      if ProcessLines(a, delta).done then ProcessLines(a, delta)
      else Frames(ProcessLines(a, delta).chunks + ProcessLines(b, delta).chunks, ProcessLines(b, delta).done)
  {
    if a == [] {
      assert a + b == b;
    } else {
      assert (a + b)[0] == a[0];
      assert (a + b)[1..] == a[1..] + b;
      ProcessConcat(a[1..], b, delta);
    }
  }

  /** No line after `data: [DONE]` has any effect. */
  lemma DoneEndsStream(a: seq<string>, doneLine: string, b: seq<string>, delta: string -> Option<string>)
    requires IsDoneLine(doneLine)
    ensures ProcessLines(a + [doneLine] + b, delta) == ProcessLines(a + [doneLine], delta)
    ensures ProcessLines(a + [doneLine], delta).done
    ensures ProcessLines(a + [doneLine], delta).chunks == ProcessLines(a, delta).chunks
  {
    ProcessConcat(a + [doneLine], b, delta);
    ProcessConcat(a, [doneLine], delta);
  }

  /** Lines that are not data lines, and frames that do not parse to a delta, are skipped. */
  lemma SilentLineSkipped(a: seq<string>, line: string, b: seq<string>, delta: string -> Option<string>)
    requires IsSilent(line, delta)
    ensures ProcessLines(a + [line] + b, delta) == ProcessLines(a + b, delta)
  {
    ProcessConcat(a + [line], b, delta);
    ProcessConcat(a, [line], delta);
    ProcessConcat(a, b, delta);
  }

  /** A frame with a delta hands exactly that delta on, after everything before it. */
  lemma DeltaFrameEmits(a: seq<string>, line: string, delta: string -> Option<string>)
    requires IsDataLine(line) && Payload(line) != DoneSentinel && Truthy(delta(Payload(line)))
    requires !ProcessLines(a, delta).done
    ensures ProcessLines(a + [line], delta) == Frames(ProcessLines(a, delta).chunks + [delta(Payload(line)).value], false)
  {
    ProcessConcat(a, [line], delta);
  }

  /** All the text the reader delivered, in order. */
  function Concat(ps: seq<string>): string
  {
    if ps == [] then "" else Concat(ps[..|ps| - 1]) + ps[|ps| - 1]
  }

  /** The lines of `text` that a newline terminates; the unterminated tail is not among them. */
  function CompleteLines(text: string): seq<string>
  {
    var pieces := Split(text, '\n');
    pieces[..|pieces| - 1]
  }

  /** More text only adds complete lines after those already complete. */
  lemma CompleteLinesAppend(x: string, p: string)
    ensures var sx := Split(x, '\n');
      CompleteLines(x + p) == CompleteLines(x) + CompleteLines(sx[|sx| - 1] + p)
  {
    SplitAppend(x, p, '\n');
  }

  /** Text without a newline completes no line. */
  lemma CompleteLinesPlain(x: string, p: string)
    requires '\n' !in p
    ensures CompleteLines(x + p) == CompleteLines(x)
  {
    var sx := Split(x, '\n');
    var last := sx[|sx| - 1];
    CompleteLinesAppend(x, p);
    assert '\n' !in last + p by {
      assert forall c :: c in last + p ==> c in last || c in p;
    }
    SplitOfPlain(last + p, '\n');
  }

  /**
   * What `sendMessageStream` does with a response: the chunks it hands to
   * `onChunk` in order, and whether it resolves or rejects. Only the complete
   * lines of the text read before the reader finished are processed.
   */
  function StreamSpec(resp: StreamResponse, delta: string -> Option<string>): (seq<string>, Result<()>)
  {
    if !resp.ok || !resp.hasBody then ([], Failure(StreamFailedMessage))
    else
      var f := ProcessLines(CompleteLines(Concat(resp.pieces)), delta);
      if f.done || !resp.readerFails then (f.chunks, Success(()))
      else (f.chunks, Failure(StreamFailedMessage))
  }

  /**
   * One read's step on the carry-over buffer: `(buffer + text).split('\n')`,
   * keeping the last piece as the new buffer. No text is lost or duplicated,
   * and neither the new buffer nor any emitted line contains a newline.
   */
  function SplitBuffer(buffer: string, text: string): (r: (seq<string>, string))
    ensures '\n' !in r.1
    ensures forall k :: 0 <= k < |r.0| ==> '\n' !in r.0[k]
    ensures Join(r.0 + [r.1], '\n') == buffer + text
    ensures r.0 + [r.1] == Split(buffer + text, '\n')
  {
    var lines := Split(buffer + text, '\n');
    JoinSplit(buffer + text, '\n');
    assert lines[..|lines| - 1] + [lines[|lines| - 1]] == lines;
    (lines[..|lines| - 1], lines[|lines| - 1])
  }

  /**
   * `sendMessageStream`: reads the body piece by piece, splits complete lines
   * off a carry-over buffer, hands each frame's delta to `onChunk` (appended
   * to `chunks`) and returns at `data: [DONE]`. Every failure surfaces as one
   * fixed message; chunks already handed on stay handed on.
   */
  method SendMessageStream(resp: StreamResponse, delta: string -> Option<string>)
    returns (chunks: seq<string>, result: Result<()>)
    ensures (chunks, result) == StreamSpec(resp, delta)
  {
    chunks := [];
    if !resp.ok || !resp.hasBody {
      return [], Failure(StreamFailedMessage);
    }
    var buffer := "";
    ghost var consumed: seq<string> := [];
    var i := 0;
    assert resp.pieces[..i] == [];
    while i < |resp.pieces|
      invariant 0 <= i <= |resp.pieces|
      invariant consumed + [buffer] == Split(Concat(resp.pieces[..i]), '\n')
      invariant ProcessLines(consumed, delta) == Frames(chunks, false)
    {
      var split := SplitBuffer(buffer, resp.pieces[i]);
      var lines := split.0;
      ReadStep(resp.pieces, i, consumed, buffer);
      buffer := split.1;
      var emitted, done := HandleLines(lines, delta);
      ProcessConcat(consumed, lines, delta);
      chunks := chunks + emitted;
      if done {
        DoneIsFinal(resp, i, consumed + lines, buffer, delta);
        return chunks, Success(());
      }
      consumed := consumed + lines;
      assert consumed + [buffer] == Split(Concat(resp.pieces[..i + 1]), '\n');
      i := i + 1;
    }
    assert resp.pieces[..i] == resp.pieces;
    if resp.readerFails {
      return chunks, Failure(StreamFailedMessage);
    }
    return chunks, Success(());
  }

  /** One read extends the lines split off so far by the lines of buffer plus the new text. */
  lemma ReadStep(ps: seq<string>, i: nat, consumed: seq<string>, buffer: string)
    requires i < |ps|
    requires consumed + [buffer] == Split(Concat(ps[..i]), '\n')
    ensures var split := SplitBuffer(buffer, ps[i]);
      consumed + split.0 + [split.1] == Split(Concat(ps[..i + 1]), '\n')
  {
    var before := Concat(ps[..i]);
    assert ps[..i + 1][..i] == ps[..i];
    assert Concat(ps[..i + 1]) == before + ps[i];
    SplitAppend(before, ps[i], '\n');
    var sb := Split(before, '\n');
    assert sb[..|sb| - 1] == consumed;
  }

  /**
   * The `for (const line of lines)` loop over the lines one read completed:
   * the deltas it hands to `onChunk`, in order, and whether it met
   * `data: [DONE]`, at which point it stops.
   */
  method HandleLines(lines: seq<string>, delta: string -> Option<string>)
    returns (emitted: seq<string>, done: bool)
    ensures ProcessLines(lines, delta) == Frames(emitted, done)
  {
    emitted := [];
    var j := 0;
    assert lines[..j] == [];
    while j < |lines|
      invariant 0 <= j <= |lines|
      invariant ProcessLines(lines[..j], delta) == Frames(emitted, false)
    {
      var line := lines[j];
      LineStep(lines, j, emitted, delta);
      if StartsWith(line, DataPrefix) {
        var data := line[|DataPrefix|..];
        if data == DoneSentinel {
          assert lines[..j + 1] + lines[j + 1..] == lines;
          ProcessConcat(lines[..j + 1], lines[j + 1..], delta);
          return emitted, true;
        }
        var content := delta(data);
        if Truthy(content) {
          emitted := emitted + [content.value];
        }
      }
      j := j + 1;
    }
    assert lines[..j] == lines;
    return emitted, false;
  }

  /** Processing one more line of a read. */
  lemma LineStep(lines: seq<string>, j: nat, chunks: seq<string>, delta: string -> Option<string>)
    requires j < |lines|
    requires ProcessLines(lines[..j], delta) == Frames(chunks, false)
    ensures var line := lines[j];
      ProcessLines(lines[..j + 1], delta) ==
        if IsDoneLine(line) then Frames(chunks, true)
        else if IsDataLine(line) && Truthy(delta(Payload(line))) then Frames(chunks + [delta(Payload(line)).value], false)
        else Frames(chunks, false)
  {
    var line := lines[j];
    assert lines[..j + 1] == lines[..j] + [line];
    ProcessConcat(lines[..j], [line], delta);
  }
  /** Text read later only adds complete lines after the ones already split off. */
  lemma {:induction false} ConcatSplit(ps: seq<string>, k: nat)
    requires k <= |ps|
    ensures Concat(ps) == Concat(ps[..k]) + Concat(ps[k..])
    decreases |ps|
  {
    if k < |ps| {
      var n := |ps| - 1;
      ConcatSplit(ps[..n], k);
      assert ps[..n][..k] == ps[..k];
      assert ps[k..][..|ps[k..]| - 1] == ps[..n][k..];
    } else {
      assert ps[k..] == [];
      assert ps[..k] == ps;
    }
  }

  /** The lines completed by the first `k` reads come first among all complete lines. */
  lemma CompletePrefix(ps: seq<string>, k: nat, lines: seq<string>, last: string)
    requires k <= |ps|
    requires lines + [last] == Split(Concat(ps[..k]), '\n')
    ensures CompleteLines(Concat(ps)) == lines + CompleteLines(last + Concat(ps[k..]))
  {
    ConcatSplit(ps, k);
    CompleteLinesAppend(Concat(ps[..k]), Concat(ps[k..]));
    var sx := Split(Concat(ps[..k]), '\n');
    assert sx[..|sx| - 1] == lines;
  }

  /**
   * Once `data: [DONE]` is among the lines completed by read `i`, the
   * whole response's outcome is the chunks handed on so far and success.
   */
  lemma DoneIsFinal(resp: StreamResponse, i: nat, done: seq<string>, last: string, delta: string -> Option<string>)
    requires resp.ok && resp.hasBody && i < |resp.pieces|
    requires ProcessLines(done, delta).done
    requires done + [last] == Split(Concat(resp.pieces[..i + 1]), '\n')
    ensures StreamSpec(resp, delta) == (ProcessLines(done, delta).chunks, Success(()))
  {
    CompletePrefix(resp.pieces, i + 1, done, last);
    ProcessConcat(done, CompleteLines(last + Concat(resp.pieces[i + 1..])), delta);
  }

  /**
   * Unterminated text at the end of the stream is dropped: a last read
   * without a newline changes neither the chunks nor the outcome.
   */
  lemma TrailingTextDiscarded(resp: StreamResponse, tail: string, delta: string -> Option<string>)
    requires '\n' !in tail
    ensures StreamSpec(resp.(pieces := resp.pieces + [tail]), delta) == StreamSpec(resp, delta)
  {
    var ps := resp.pieces + [tail];
    assert ps[..|ps| - 1] == resp.pieces;
    CompleteLinesPlain(Concat(resp.pieces), tail);
  }
}
