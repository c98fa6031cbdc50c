/**
 * The service hook (src/hooks/useOpenRouter.ts): `fetchModels`, which loads
 * the catalogue, puts the vision model in front of it and picks a default
 * model, and `sendMessage`, which formats the conversation for the API and
 * sends it either streamed or buffered. Each dispatch to the store is
 * recorded in an action log, in order.
 */
module UseOpenRouter {
  import opened Types
  import opened AppContext
  import opened OpenRouter

  /** The vision-capable model the hook always puts at the head of the catalogue. */
  const VisionModel := AIModel(
    "openai/gpt-4o-mini",
    "GPT-4o mini (Vision)",
    "Hızlı, multimodal (görüntü) destekli model",
    100000,
    Pricing("-", "-"),
    false,
    Some(true))

  // ---------------------------------------------------------------------------
  // The merged catalogue and the default selection
  // ---------------------------------------------------------------------------

  /** `[visionModel, ...models]`. */
  function Merge(models: seq<AIModel>): (merged: seq<AIModel>)
    ensures |merged| == |models| + 1 && merged[0] == VisionModel && merged[1..] == models
  {
    [VisionModel] + models
  }

  /** Some model of the list is free. */
  predicate HasFree(ms: seq<AIModel>)
  {
    exists k :: 0 <= k < |ms| && ms[k].isFree
  }

  /** Some model of the list has the id. */
  predicate Listed(ms: seq<AIModel>, id: string)
  {
    exists k :: 0 <= k < |ms| && ms[k].id == id
  }

  /** `ms.find(m => m.isFree)`: the first free model. */
  function FindFree(ms: seq<AIModel>): (r: Option<AIModel>)
    ensures r.None? <==> !HasFree(ms)
    ensures r.Some? ==> r.value.isFree
    ensures r.Some? ==>
      exists k :: 0 <= k < |ms| && ms[k] == r.value && forall j :: 0 <= j < k ==> !ms[j].isFree
  {
    if ms == [] then None
    else if ms[0].isFree then Some(ms[0])
    else
      var r := FindFree(ms[1..]);
      assert HasFree(ms) ==> HasFree(ms[1..]) by {
        if HasFree(ms) {
          var k :| 0 <= k < |ms| && ms[k].isFree;
          assert ms[1..][k - 1] == ms[k];
        }
      }
      assert r.Some? ==>
        exists k :: 0 <= k < |ms| && ms[k] == r.value && forall j :: 0 <= j < k ==> !ms[j].isFree
      by {
        if r.Some? {
          var k :| 0 <= k < |ms[1..]| && ms[1..][k] == r.value && forall j :: 0 <= j < k ==> !ms[1..][j].isFree;
          assert ms[k + 1] == r.value;
          forall j | 0 <= j < k + 1
            ensures !ms[j].isFree
          {
            if j > 0 {
              assert ms[j] == ms[1..][j - 1];
            }
          }
        }
      }
      r
  }

  /** `ms.find(m => m.id === id)`: the first model with the id. */
  function FindById(ms: seq<AIModel>, id: string): (r: Option<AIModel>)
    ensures r.None? <==> !Listed(ms, id)
    ensures r.Some? ==> r.value.id == id
    ensures r.Some? ==>
      exists k :: 0 <= k < |ms| && ms[k] == r.value && forall j :: 0 <= j < k ==> ms[j].id != id
  {
    if ms == [] then None
    else if ms[0].id == id then Some(ms[0])
    else
      var r := FindById(ms[1..], id);
      assert Listed(ms, id) ==> Listed(ms[1..], id) by {
        if Listed(ms, id) {
          var k :| 0 <= k < |ms| && ms[k].id == id;
          assert ms[1..][k - 1] == ms[k];
        }
      }
      assert r.Some? ==>
        exists k :: 0 <= k < |ms| && ms[k] == r.value && forall j :: 0 <= j < k ==> ms[j].id != id
      by {
        if r.Some? {
          var k :| 0 <= k < |ms[1..]| && ms[1..][k] == r.value && forall j :: 0 <= j < k ==> ms[1..][j].id != id;
          assert ms[k + 1] == r.value;
          forall j | 0 <= j < k + 1
            ensures ms[j].id != id
          {
            if j > 0 {
              assert ms[j] == ms[1..][j - 1];
            }
          }
        }
      }
      r
  }

  /**
   * The default-selection rule of fetchModels: the model id it dispatches
   * with SET_SELECTED_MODEL, or None when it dispatches nothing.
   */
  function SelectDefault(merged: seq<AIModel>, selected: string): Option<string>
  {
    if |merged| == 0 then None
    else
      var firstFree := FindFree(merged);
      var current := FindById(merged, selected);
      var shouldSelectFree := selected == "" || current.None? || (!current.value.isFree && firstFree.Some?);
      if shouldSelectFree && firstFree.Some? then Some(firstFree.value.id)
      else if selected == "" then Some(merged[0].id)
      else None
  }

  /**
   * The rule case by case. With a free model available, the first free model
   * replaces an empty, missing or non-free selection and a free selection
   * stays. Without one, an empty selection falls back to the head of the list
   * and any other selection stays, even one that is not in the list.
   */
  lemma SelectDefaultCases(merged: seq<AIModel>, selected: string)
    requires |merged| > 0
    ensures var r := SelectDefault(merged, selected);
      && (HasFree(merged) && (selected == "" || !Listed(merged, selected) || !FindById(merged, selected).value.isFree) ==>
            r == Some(FindFree(merged).value.id))
      && (HasFree(merged) && selected != "" && Listed(merged, selected) && FindById(merged, selected).value.isFree ==>
            r == None)
      && (!HasFree(merged) && selected == "" ==> r == Some(merged[0].id))
      && (!HasFree(merged) && selected != "" ==> r == None)
  {
  }

  /** Whatever the rule selects is in the list, and is free when a free model exists. */
  lemma SelectDefaultListed(merged: seq<AIModel>, selected: string)
    ensures var r := SelectDefault(merged, selected);
      && (r.Some? ==> Listed(merged, r.value))
      && (r.Some? && HasFree(merged) ==> exists k :: 0 <= k < |merged| && merged[k].id == r.value && merged[k].isFree)
  {
    var r := SelectDefault(merged, selected);
    if r.Some? {
      var firstFree := FindFree(merged);
      if firstFree.Some? && r.value == firstFree.value.id {
        var k :| 0 <= k < |merged| && merged[k] == firstFree.value;
        assert merged[k].id == r.value;
      } else {
        assert merged[0].id == r.value;
      }
    }
  }

  /** The merged catalogue has a free model exactly when the raw catalogue has a free entry. */
  lemma MergedHasFree(raw: seq<RawModel>)
    ensures HasFree(Merge(FreeModels(raw))) <==> CountFree(raw) > 0
  {
    var models := FreeModels(raw);
    var merged := Merge(models);
    FreeModelsSpec(raw);
    if CountFree(raw) > 0 {
      assert merged[1].isFree;
    }
    if HasFree(merged) {
      var k :| 0 <= k < |merged| && merged[k].isFree;
      assert k > 0;
    }
  }

  // ---------------------------------------------------------------------------
  // fetchModels
  // ---------------------------------------------------------------------------

  /** The actions fetchModels dispatches, in order. */
  function FetchModelsLog(selected: string, fetched: Result<seq<AIModel>>): seq<Action>
  {
    [SetError(None)] +
    match fetched
    case Failure(msg) => [SetError(Some(msg))]
    case Success(models) =>
      var merged := Merge(models);
      [SetModels(merged)] +
      match SelectDefault(merged, selected)
      case Some(id) => [SetSelectedModel(id)]
      case None => []
  }

  /**
   * `fetchModels`: clears the error, fetches the catalogue, dispatches the
   * merged catalogue and the default selection, or the fetch's error.
   */
  method FetchModels(selected: string, hasApiKey: bool, resp: HttpResponse<seq<RawModel>>)
    returns (log: seq<Action>)
    ensures log == FetchModelsLog(selected, GetModels(hasApiKey, resp))
  {
    log := [SetError(None)];
    var fetched := GetModels(hasApiKey, resp);
    match fetched {
      case Failure(msg) =>
        log := log + [SetError(Some(msg))];
      case Success(models) =>
        var merged := Merge(models);
        log := log + [SetModels(merged)];
        if |merged| > 0 {
          var firstFree := FindFree(merged);
          var current := FindById(merged, selected);
          var shouldSelectFree := selected == "" || current.None? || (!current.value.isFree && firstFree.Some?);
          if shouldSelectFree && firstFree.Some? {
            log := log + [SetSelectedModel(firstFree.value.id)];
          } else if selected == "" {
            log := log + [SetSelectedModel(merged[0].id)];
          }
        }
    }
  }

  /**
   * fetchModels composed with the store. On success the catalogue is the
   * vision model followed by the fetched free models, the error slot is
   * clear, and the selection is a listed model (a free one whenever the
   * catalogue has one) unless it was a non-empty id missing from a catalogue
   * without free models, in which case it is left alone. On failure only the
   * error slot changes. Sessions are never touched.
   */
  lemma FetchModelsEffect(st: AppState, hasApiKey: bool, resp: HttpResponse<seq<RawModel>>, now: Instant)
    ensures var fetched := GetModels(hasApiKey, resp);
      var r := ApplyAll(st, FetchModelsLog(st.selectedModel, fetched), now);
      && r.sessions == st.sessions && r.currentSession == st.currentSession && r.isLoading == st.isLoading
      && (fetched.Success? ==>
            && r.availableModels == [VisionModel] + FreeModels(resp.body)
            && r.error == None
            && (Listed(r.availableModels, r.selectedModel)
                || (r.selectedModel == st.selectedModel && st.selectedModel != ""
                    && !Listed(r.availableModels, st.selectedModel) && CountFree(resp.body) == 0))
            && (CountFree(resp.body) > 0 ==>
                  exists k :: 0 <= k < |r.availableModels| && r.availableModels[k].id == r.selectedModel
                    && r.availableModels[k].isFree))
      && (fetched.Failure? ==>
            && r.error == Some(FetchModelsFailedMessage)
            && r.availableModels == st.availableModels && r.selectedModel == st.selectedModel)
  {
    var fetched := GetModels(hasApiKey, resp);
    var log := FetchModelsLog(st.selectedModel, fetched);
    var s1 := Reduce(st, SetError(None), now);
    ApplyAllConcat(st, [SetError(None)], log[1..], now);
    assert [SetError(None)] + log[1..] == log;
    assert ApplyAll(st, [SetError(None)], now) == s1;
    match fetched {
      case Failure(msg) =>
        assert log[1..] == [SetError(Some(msg))];
        assert ApplyAll(s1, log[1..], now) == Reduce(s1, SetError(Some(msg)), now);
      case Success(models) =>
        var merged := Merge(models);
        var s2 := Reduce(s1, SetModels(merged), now);
        var pick := SelectDefault(merged, st.selectedModel);
        var rest := if pick.Some? then [SetSelectedModel(pick.value)] else [];
        assert log[1..] == [SetModels(merged)] + rest;
        ApplyAllConcat(s1, [SetModels(merged)], rest, now);
        assert ApplyAll(s1, [SetModels(merged)], now) == s2;
        var r := ApplyAll(s2, rest, now);
        assert pick.Some? ==> r == s2.(selectedModel := pick.value);
        assert pick.None? ==> r == s2;
        SelectDefaultCases(merged, st.selectedModel);
        SelectDefaultListed(merged, st.selectedModel);
        MergedHasFree(resp.body);
        if pick.None? && st.selectedModel != "" && HasFree(merged) {
          var c := FindById(merged, st.selectedModel).value;
          var k :| 0 <= k < |merged| && merged[k] == c;
          assert merged[k].id == r.selectedModel && merged[k].isFree;
        }
        if pick.None? && st.selectedModel != "" && Listed(merged, st.selectedModel) {
          assert Listed(r.availableModels, r.selectedModel);
        }
    }
  }

  // ---------------------------------------------------------------------------
  // sendMessage
  // ---------------------------------------------------------------------------

  /** A message as the API receives it: with an image, a text part then an image part. */
  function FormatMessage(m: Message): ApiMessage
  {
    if Truthy(m.imageUrl) then ApiMessage(m.role, Parts([TextPart(m.content), ImageUrlPart(m.imageUrl.value)]))
    else ApiMessage(m.role, Plain(m.content))
  }

  /** `messages.map(format)`. */
  function FormatMessages(ms: seq<Message>): (r: seq<ApiMessage>)
    ensures |r| == |ms|
    ensures forall i :: 0 <= i < |ms| ==> r[i] == FormatMessage(ms[i])
  {
    if ms == [] then [] else [FormatMessage(ms[0])] + FormatMessages(ms[1..])
  }

  /** The text an API message carries: the string, or the text of its first part. */
  function TextOf(c: Content): Option<string>
  {
    match c
    case Plain(t) => Some(t)
    case Parts(ps) => if |ps| > 0 && ps[0].TextPart? then Some(ps[0].text) else None
  }

  /** The image an API message carries: the url of an image part after the text part. */
  function ImageOf(c: Content): Option<string>
  {
    match c
    case Plain(_) => None
    case Parts(ps) => if |ps| == 2 && ps[1].ImageUrlPart? then Some(ps[1].url) else None
  }

  /**
   * Formatting keeps count, order and role; every message's text can be read
   * back from what is sent, and an image is sent exactly when the message has
   * a non-empty image URL, as exactly [text part, image part].
   */
  lemma FormatMessagesFaithful(ms: seq<Message>)
    ensures var r := FormatMessages(ms);
      && |r| == |ms|
      && (forall i :: 0 <= i < |ms| ==>
            && r[i].role == ms[i].role
            && TextOf(r[i].content) == Some(ms[i].content)
            && ImageOf(r[i].content) == (if Truthy(ms[i].imageUrl) then ms[i].imageUrl else None)
            && (r[i].content.Parts? <==> Truthy(ms[i].imageUrl))
            && (r[i].content.Parts? ==> |r[i].content.parts| == 2))
  {
  }

  /**
   * `sendMessage`: clears the error, formats the messages, then streams when a
   * chunk callback is given (resolving to "") and otherwise makes a buffered
   * request. A failure is dispatched to the error slot and rethrown.
   * `request` is the body it posts; `chunks` are the deltas the callback gets.
   */
  method SendMessage(messages: seq<Message>, model: string, withCallback: bool,
                     hasApiKey: bool, completion: HttpResponse<Completion>,
                     stream: StreamResponse, delta: string -> Option<string>)
    returns (request: ChatRequest, log: seq<Action>, chunks: seq<string>, result: Result<string>)
    ensures request == CompletionRequest(FormatMessages(messages), model, withCallback)
    ensures withCallback ==>
      chunks == StreamSpec(stream, delta).0
      && result == (if StreamSpec(stream, delta).1.Success? then Success("") else Failure(StreamFailedMessage))
    ensures !withCallback ==> chunks == [] && result == OpenRouter.SendMessage(hasApiKey, completion)
    ensures log == [SetError(None)] + (if result.Failure? then [SetError(Some(result.error))] else [])
  {
    log := [SetError(None)];
    var formatted := FormatMessages(messages);
    request := CompletionRequest(formatted, model, withCallback);
    if withCallback {
      var outcome;
      chunks, outcome := SendMessageStream(stream, delta);
      result := if outcome.Success? then Success("") else Failure(outcome.error);
    } else {
      chunks := [];
      result := OpenRouter.SendMessage(hasApiKey, completion);
    }
    if result.Failure? {
      log := log + [SetError(Some(result.error))];
    }
  }
}
