/**
 * The chat panel's send handler (src/components/Chat/ChatInterface.tsx):
 * `handleSendMessage` checks its guard, adds the user's message, raises the
 * loading flag, adds the simulated assistant reply (or reports an error) and
 * always lowers the loading flag last; `handleKeyPress` sends on Enter
 * without Shift. Dispatches are recorded in an action log, in order, and the
 * input box's content is returned.
 *
 * The clock is read twice: `sentAt` when the handler starts and `repliedAt`
 * after the awaited delay. `replyFails` says whether the awaited step
 * rejected.
 */
module ChatInterface {
  import opened Types
  import opened Text
  import opened AppContext

  const ReplyPrefix := "Bu bir simüle edilmiş AI yanıtıdır. Gerçek OpenRouter entegrasyonu yakında eklenecek! Kullanıcı mesajı: \""
  const ReplySuffix := "\""
  const SendErrorMessage := "Mesaj gönderilirken bir hata oluştu"

  /** The handler's guard: non-blank input, an open session, and no request in flight. */
  predicate CanSend(input: string, current: Option<ChatSession>, isLoading: bool)
  {
    Trim(input) != "" && current.Some? && !isLoading
  }

  /** The user's message: the trimmed input, stamped with the send time and the session's model. */
  function UserMessage(input: string, session: ChatSession, sentAt: Instant): (m: Message)
    ensures m.role == User && m.content == Trim(input) && m.model == Some(session.model)
    ensures m.id == NatToString(sentAt) && m.timestamp == sentAt && m.imageUrl == None
  {
    Message(NatToString(sentAt), Trim(input), User, sentAt, Some(session.model), None)
  }

  /**
   * The simulated assistant reply: the fixed text, the user's text and a
   * closing quote, so the user's text can be cut back out of it.
   */
  function SimulatedReply(userText: string, session: ChatSession, repliedAt: Instant): (m: Message)
    ensures m.role == Assistant && m.model == Some(session.model) && m.imageUrl == None
    ensures m.id == NatToString(repliedAt + 1) && m.timestamp == repliedAt
    ensures |m.content| == |ReplyPrefix| + |userText| + |ReplySuffix|
    ensures m.content[..|ReplyPrefix|] == ReplyPrefix
    ensures m.content[|ReplyPrefix|..|ReplyPrefix| + |userText|] == userText
    ensures m.content[|ReplyPrefix| + |userText|..] == ReplySuffix
  {
    var content := ReplyPrefix + userText + ReplySuffix;
    assert content[..|ReplyPrefix|] == ReplyPrefix;
    assert content[|ReplyPrefix|..|ReplyPrefix| + |userText|] == userText;
    assert content[|ReplyPrefix| + |userText|..] == ReplySuffix;
    Message(NatToString(repliedAt + 1), content, Assistant, repliedAt, Some(session.model), None)
  }

  /** The actions `handleSendMessage` dispatches, in order. */
  function SendTurnLog(input: string, current: Option<ChatSession>, isLoading: bool,
                       sentAt: Instant, repliedAt: Instant, replyFails: bool): seq<Action>
  {
    if !CanSend(input, current, isLoading) then []
    else
      var session := current.value;
      var user := UserMessage(input, session, sentAt);
      [AddMessage(session.id, user), SetLoading(true)]
      + (if replyFails then [SetError(Some(SendErrorMessage))]
         else [AddMessage(session.id, SimulatedReply(user.content, session, repliedAt))])
      + [SetLoading(false)]
  }

  /**
   * `handleSendMessage`: nothing happens unless the guard holds; otherwise
   * the log is the one SendTurnLog describes and the input box is cleared.
   */
  method HandleSendMessage(input: string, current: Option<ChatSession>, isLoading: bool,
                           sentAt: Instant, repliedAt: Instant, replyFails: bool)
    returns (log: seq<Action>, inputAfter: string)
    ensures log == SendTurnLog(input, current, isLoading, sentAt, repliedAt, replyFails)
    ensures inputAfter == if CanSend(input, current, isLoading) then "" else input
  {
    log := [];
    inputAfter := input;
    if Trim(input) == "" || current.None? || isLoading {
      return;
    }
    var session := current.value;
    var user := UserMessage(input, session, sentAt);
    log := log + [AddMessage(session.id, user)];
    inputAfter := "";
    log := log + [SetLoading(true)];
    if replyFails {
      log := log + [SetError(Some(SendErrorMessage))];
    } else {
      var reply := SimulatedReply(user.content, session, repliedAt);
      log := log + [AddMessage(session.id, reply)];
    }
    log := log + [SetLoading(false)];
  }

  /**
   * The guard: blank input, no open session or a pending request dispatch
   * nothing, and anything else dispatches something.
   */
  lemma SendTurnGuard(input: string, current: Option<ChatSession>, isLoading: bool,
                      sentAt: Instant, repliedAt: Instant, replyFails: bool)
    ensures SendTurnLog(input, current, isLoading, sentAt, repliedAt, replyFails) == [] <==>
      AllWhiteSpace(input) || current.None? || isLoading
  {
    TrimEmptyIff(input);
  }

  /**
   * The shape of a send: exactly four actions, both messages aimed at the
   * current session, and SET_LOADING(false) last, after an error too.
   */
  lemma SendTurnShape(input: string, current: Option<ChatSession>, isLoading: bool,
                      sentAt: Instant, repliedAt: Instant, replyFails: bool)
    requires CanSend(input, current, isLoading)
    ensures var session := current.value;
      var user := UserMessage(input, session, sentAt);
      SendTurnLog(input, current, isLoading, sentAt, repliedAt, replyFails) ==
        [AddMessage(session.id, user),
         SetLoading(true),
         if replyFails then SetError(Some(SendErrorMessage))
         else AddMessage(session.id, SimulatedReply(Trim(input), session, repliedAt)),
         SetLoading(false)]
  {
  }

  /**
   * ADD_MESSAGE aimed at the current session, from a state in lockstep:
   * the message is appended to the current session and to its entry in
   * `sessions`, the invariant holds again, and nothing else moves.
   */
  lemma AddToCurrent(st: AppState, m: Message, now: Instant)
    requires Lockstep(st) && st.currentSession.Some?
    ensures var c := st.currentSession.value;
      var r := Reduce(st, AddMessage(c.id, m), now);
      && r.currentSession.Some? && r.currentSession.value.id == c.id
      && r.currentSession.value.title == c.title
      && r.currentSession.value.messages == c.messages + [m]
      && Lockstep(r)
      && |r.sessions| == |st.sessions|
      && r.isLoading == st.isLoading && r.error == st.error
  {
    var c := st.currentSession.value;
    ReducePreservesLockstep(st, AddMessage(c.id, m), now);
  }

  /**
   * A send composed with the store, starting from the state the panel read
   * its session and loading flag from: the current session gains the user's
   * message and then (unless the reply failed) the reply, and its entry in
   * `sessions` keeps in lockstep; the store ends not loading.
   */
  lemma SendTurnEffect(st: AppState, input: string, sentAt: Instant, repliedAt: Instant, replyFails: bool, now: Instant)
    requires Lockstep(st)
    requires CanSend(input, st.currentSession, st.isLoading)
    ensures var session := st.currentSession.value;
      var user := UserMessage(input, session, sentAt);
      var added := if replyFails then [user] else [user, SimulatedReply(user.content, session, repliedAt)];
      var r := ApplyAll(st, SendTurnLog(input, st.currentSession, st.isLoading, sentAt, repliedAt, replyFails), now);
      && r.currentSession.Some? && r.currentSession.value.id == session.id
      && r.currentSession.value.messages == session.messages + added
      && r.currentSession.value.title == session.title
      && Lockstep(r)
      && Lookup(r.sessions, session.id).Some?
      && Lookup(r.sessions, session.id).value.messages == session.messages + added
      && |r.sessions| == |st.sessions|
      && !r.isLoading
      && r.error == (if replyFails then Some(SendErrorMessage) else st.error)
  {
    var session := st.currentSession.value;
    var user := UserMessage(input, session, sentAt);
    var reply := SimulatedReply(user.content, session, repliedAt);
    var third := if replyFails then SetError(Some(SendErrorMessage)) else AddMessage(session.id, reply);
    SendTurnShape(input, st.currentSession, st.isLoading, sentAt, repliedAt, replyFails);
    ApplyFour(st, AddMessage(session.id, user), SetLoading(true), third, SetLoading(false), now);
    AddToCurrent(st, user, now);
    var s2 := Reduce(st, AddMessage(session.id, user), now).(isLoading := true);
    if !replyFails {
      AddToCurrent(s2, reply, now);
      assert s2.currentSession.value.messages + [reply] == session.messages + [user, reply];
    }
  }

  /** Dispatching four actions is reducing by each in turn. */
  lemma ApplyFour(st: AppState, a: Action, b: Action, c: Action, d: Action, now: Instant)
    ensures ApplyAll(st, [a, b, c, d], now) == Reduce(Reduce(Reduce(Reduce(st, a, now), b, now), c, now), d, now)
  {
    var log := [a, b, c, d];
    var s1 := Reduce(st, a, now);
    var s2 := Reduce(s1, b, now);
    var s3 := Reduce(s2, c, now);
    assert ApplyAll(st, log, now) == ApplyAll(s1, [b, c, d], now) by { assert log[1..] == [b, c, d]; }
    assert ApplyAll(s1, [b, c, d], now) == ApplyAll(s2, [c, d], now) by { assert [b, c, d][1..] == [c, d]; }
    assert ApplyAll(s2, [c, d], now) == ApplyAll(s3, [d], now) by { assert [c, d][1..] == [d]; }
    assert ApplyAll(s3, [d], now) == ApplyAll(Reduce(s3, d, now), [], now) by { assert [d][1..] == []; }
  }

  /** `handleKeyPress`: Enter without Shift sends; every other key does nothing. */
  method HandleKeyPress(key: string, shiftKey: bool, input: string, current: Option<ChatSession>, isLoading: bool,
                        sentAt: Instant, repliedAt: Instant, replyFails: bool)
    returns (sent: bool, log: seq<Action>, inputAfter: string)
    ensures sent <==> key == "Enter" && !shiftKey
    ensures sent ==> log == SendTurnLog(input, current, isLoading, sentAt, repliedAt, replyFails)
    ensures sent ==> inputAfter == if CanSend(input, current, isLoading) then "" else input
    ensures !sent ==> log == [] && inputAfter == input
  {
    sent := key == "Enter" && !shiftKey;
    if sent {
      log, inputAfter := HandleSendMessage(input, current, isLoading, sentAt, repliedAt, replyFails);
    } else {
      log, inputAfter := [], input;
    }
  }
}
