/**
 * The "new chat" button's handler (src/components/Chat/NewChatButton.tsx):
 * without a selected model it reports an error; otherwise it opens an empty
 * session on the selected model, named after the clock reading `now`.
 */
module NewChatButton {
  import opened Types
  import opened Text
  import opened AppContext

  const SelectModelFirstMessage := "Lütfen önce bir model seçin"
  const NewChatTitle := "Yeni Sohbet"

  /** The empty session opened at `now` on `model`. */
  function NewSession(model: string, now: Instant): (s: ChatSession)
    ensures s.messages == [] && s.model == model && s.title == NewChatTitle
    ensures s.createdAt == now && s.updatedAt == now
    ensures forall i :: 0 <= i < |s.id| ==> IsDigit(s.id[i])
    ensures DecimalValue(s.id) == now
  {
    DecimalRoundTrip(now);
    ChatSession(NatToString(now), NewChatTitle, [], model, now, now)
  }

  /** The one action `handleNewChat` dispatches. */
  function NewChatLog(selectedModel: string, now: Instant): seq<Action>
  {
    if selectedModel == "" then [SetError(Some(SelectModelFirstMessage))]
    else [CreateSession(NewSession(selectedModel, now))]
  }

  /** `handleNewChat`. */
  method HandleNewChat(selectedModel: string, now: Instant) returns (log: seq<Action>)
    ensures log == NewChatLog(selectedModel, now)
    ensures |log| == 1
    ensures log[0].CreateSession? <==> selectedModel != ""
  {
    if selectedModel == "" {
      log := [SetError(Some(SelectModelFirstMessage))];
      return;
    }
    log := [CreateSession(NewSession(selectedModel, now))];
  }

  /**
   * Pressing the button, composed with the store. Without a model only the
   * error changes. With one, the new empty session is current and heads the
   * list, the earlier sessions follow unchanged, and the state is in lockstep
   * whatever it was before.
   */
  lemma NewChatEffect(st: AppState, now: Instant)
    ensures var r := ApplyAll(st, NewChatLog(st.selectedModel, now), now);
      && (st.selectedModel == "" ==> r == st.(error := Some(SelectModelFirstMessage)))
      && (st.selectedModel != "" ==>
            && r.currentSession.Some? && r.currentSession.value.messages == []
            && r.currentSession.value.model == st.selectedModel
            && r.currentSession.value.id == NatToString(now)
            && |r.sessions| == |st.sessions| + 1
            && r.sessions[0] == r.currentSession.value && r.sessions[1..] == st.sessions
            && Lockstep(r)
            && r.isLoading == st.isLoading && r.error == st.error && r.selectedModel == st.selectedModel)
  {
    var log := NewChatLog(st.selectedModel, now);
    assert ApplyAll(st, log, now) == Reduce(st, log[0], now) by {
      assert log[1..] == [];
    }
    if st.selectedModel != "" {
      CreateSessionEffect(st, NewSession(st.selectedModel, now), now);
    }
  }
}
