/**
 * The session store (src/context/AppContext.tsx): the eleven actions, the
 * initial state and the reducer `appReducer`, a pure function from a state and
 * an action to the next state. Every `new Date()` the reducer evaluates while
 * handling one action is the parameter `now`.
 */
module AppContext {
  import opened Types

  datatype Action =
    | SetLoading(loading: bool)
    | SetError(error: Option<string>)
    | SetModels(models: seq<AIModel>)
    | SetSelectedModel(modelId: string)
    | SetSessions(sessions: seq<ChatSession>)
    | SetCurrentSession(session: Option<ChatSession>)
    | AddMessage(sessionId: string, message: Message)
    | DeleteMessage(sessionId: string, messageId: string)
    | CreateSession(newSession: ChatSession)
    | DeleteSession(sessionId: string)
    | UpdateSessionTitle(sessionId: string, title: string)

  /** The store's state before any action: empty, idle and without error. */
  function InitialState(): (s: AppState)
    ensures s.currentSession == None && s.sessions == [] && s.availableModels == []
    ensures s.selectedModel == "" && !s.isLoading && s.error == None
    ensures Lockstep(s)
  {
    AppState(None, [], [], "", false, None)
  }

  // ---------------------------------------------------------------------------
  // Per-session edits
  // ---------------------------------------------------------------------------

  /** The three ways the reducer rewrites one session it targets by id. */
  datatype Edit = Append(message: Message) | Remove(messageId: string) | Retitle(newTitle: string)

  /** `{ ...session, <edited field>, updatedAt: new Date() }`. */
  function ApplyEdit(s: ChatSession, e: Edit, now: Instant): (r: ChatSession)
    ensures r.id == s.id && r.model == s.model && r.createdAt == s.createdAt && r.updatedAt == now
    ensures r.messages == match e
      case Append(m) => s.messages + [m]
      case Remove(mid) => WithoutMessage(s.messages, mid)
      case Retitle(_) => s.messages
    ensures r.title == if e.Retitle? then e.newTitle else s.title
  {
    match e
    case Append(m) => s.(messages := s.messages + [m], updatedAt := now)
    case Remove(mid) => s.(messages := WithoutMessage(s.messages, mid), updatedAt := now)
    case Retitle(t) => s.(title := t, updatedAt := now)
  }

  /** `messages.filter(msg => msg.id !== mid)`. */
  function WithoutMessage(ms: seq<Message>, mid: string): (r: seq<Message>)
    ensures |r| <= |ms|
    ensures forall k :: 0 <= k < |r| ==> r[k].id != mid
    ensures forall x :: x in r ==> x in ms
    ensures forall x :: x in ms && x.id != mid ==> x in r
  {
    if ms == [] then []
    else if ms[0].id == mid then WithoutMessage(ms[1..], mid)
    else [ms[0]] + WithoutMessage(ms[1..], mid)
  }

  /** No message of `ms` has the id `mid`. */
  predicate FreshId(ms: seq<Message>, mid: string)
  {
    forall k :: 0 <= k < |ms| ==> ms[k].id != mid
  }

  /** The message filter works element by element, so it keeps relative order. */
  lemma {:induction false} WithoutMessageConcat(a: seq<Message>, b: seq<Message>, mid: string)
    ensures WithoutMessage(a + b, mid) == WithoutMessage(a, mid) + WithoutMessage(b, mid)
  {
    if a != [] {
      assert (a + b)[0] == a[0];
      assert (a + b)[1..] == a[1..] + b;
      WithoutMessageConcat(a[1..], b, mid);
    } else {
      assert a + b == b;
    }
  }

  /** Removing an id no message carries changes nothing. */
  lemma {:induction false} WithoutMessageFresh(ms: seq<Message>, mid: string)
    requires FreshId(ms, mid)
    ensures WithoutMessage(ms, mid) == ms
  {
    if ms != [] {
      WithoutMessageFresh(ms[1..], mid);
      assert [ms[0]] + ms[1..] == ms;
    }
  }

  /** Appending a message with a fresh id and then removing that id restores the messages. */
  lemma AppendThenRemove(ms: seq<Message>, m: Message)
    requires FreshId(ms, m.id)
    ensures WithoutMessage(ms + [m], m.id) == ms
  {
    WithoutMessageConcat(ms, [m], m.id);
    WithoutMessageFresh(ms, m.id);
  }

  // ---------------------------------------------------------------------------
  // Session lists
  // ---------------------------------------------------------------------------

  /** `sessions.map(s => s.id === id ? <edited s> : s)`. */
  function UpdateMatching(ss: seq<ChatSession>, id: string, e: Edit, now: Instant): (r: seq<ChatSession>)
    ensures |r| == |ss|
    ensures forall i :: 0 <= i < |ss| ==> r[i] == if ss[i].id == id then ApplyEdit(ss[i], e, now) else ss[i]
  {
    if ss == [] then []
    else [if ss[0].id == id then ApplyEdit(ss[0], e, now) else ss[0]] + UpdateMatching(ss[1..], id, e, now)
  }

  /** `sessions.filter(s => s.id !== id)`. */
  function WithoutSession(ss: seq<ChatSession>, id: string): (r: seq<ChatSession>)
    ensures |r| <= |ss|
    ensures forall k :: 0 <= k < |r| ==> r[k].id != id
    ensures forall x :: x in r ==> x in ss
    ensures forall x :: x in ss && x.id != id ==> x in r
  {
    if ss == [] then []
    else if ss[0].id == id then WithoutSession(ss[1..], id)
    else [ss[0]] + WithoutSession(ss[1..], id)
  }

  /** The session filter works element by element, so it keeps relative order. */
  lemma {:induction false} WithoutSessionConcat(a: seq<ChatSession>, b: seq<ChatSession>, id: string)
    ensures WithoutSession(a + b, id) == WithoutSession(a, id) + WithoutSession(b, id)
  {
    if a != [] {
      assert (a + b)[0] == a[0];
      assert (a + b)[1..] == a[1..] + b;
      WithoutSessionConcat(a[1..], b, id);
    } else {
      assert a + b == b;
    }
  }

  /**
   * The first session with the given id: the entry the current session is
   * kept in lockstep with, since every id-matched edit of the reducer reaches
   * it.
   */
  function Lookup(ss: seq<ChatSession>, id: string): (r: Option<ChatSession>)
    ensures r.Some? ==> r.value in ss && r.value.id == id
    ensures r.Some? ==>
      exists k :: 0 <= k < |ss| && ss[k] == r.value && forall j :: 0 <= j < k ==> ss[j].id != id
    ensures r.None? ==> forall x :: x in ss ==> x.id != id
  {
    if ss == [] then None
    else if ss[0].id == id then Some(ss[0])
    else
      var r := Lookup(ss[1..], id);
      assert r.Some? ==>
        exists k :: 0 <= k < |ss| && ss[k] == r.value && forall j :: 0 <= j < k ==> ss[j].id != id
      by {
        if r.Some? {
          var k :| 0 <= k < |ss[1..]| && ss[1..][k] == r.value && forall j :: 0 <= j < k ==> ss[1..][j].id != id;
          assert ss[k + 1] == r.value;
          forall j | 0 <= j < k + 1
            ensures ss[j].id != id
          {
            if j > 0 {
              assert ss[j] == ss[1..][j - 1];
            }
          }
        }
      }
      r
  }

  /** Looking a session up after an edit finds the edited first match, or what was there before. */
  lemma {:induction false} LookupUpdateMatching(ss: seq<ChatSession>, id: string, e: Edit, now: Instant, k: string)
    ensures Lookup(UpdateMatching(ss, id, e, now), k) ==
      if k == id && Lookup(ss, k).Some? then Some(ApplyEdit(Lookup(ss, k).value, e, now)) else Lookup(ss, k)
  {
    if ss != [] {
      var r := UpdateMatching(ss, id, e, now);
      assert r[1..] == UpdateMatching(ss[1..], id, e, now);
      LookupUpdateMatching(ss[1..], id, e, now, k);
    }
  }

  /** After deleting an id, no lookup of it succeeds and every other lookup is unchanged. */
  lemma {:induction false} LookupWithoutSession(ss: seq<ChatSession>, id: string, k: string)
    ensures Lookup(WithoutSession(ss, id), k) == if k == id then None else Lookup(ss, k)
  {
    if ss != [] {
      LookupWithoutSession(ss[1..], id, k);
    }
  }

  // ---------------------------------------------------------------------------
  // The reducer
  // ---------------------------------------------------------------------------

  /** `state.currentSession?.id === id`. */
  predicate CurrentIs(st: AppState, id: string)
  {
    st.currentSession.Some? && st.currentSession.value.id == id
  }

  /** The current session after an edit aimed at `id`. */
  function EditCurrent(st: AppState, id: string, e: Edit, now: Instant): Option<ChatSession>
  {
    if CurrentIs(st, id) then Some(ApplyEdit(st.currentSession.value, e, now)) else st.currentSession
  }

  /** `appReducer(state, action)`. */
  function Reduce(st: AppState, a: Action, now: Instant): AppState
  {
    match a
    case SetLoading(b) => st.(isLoading := b)
    case SetError(err) => st.(error := err)
    case SetModels(models) => st.(availableModels := models)
    case SetSelectedModel(id) => st.(selectedModel := id)
    case SetSessions(ss) => st.(sessions := ss)
    case SetCurrentSession(c) => st.(currentSession := c)
    case AddMessage(sid, m) =>
      st.(sessions := UpdateMatching(st.sessions, sid, Append(m), now),
          currentSession := EditCurrent(st, sid, Append(m), now))
    case DeleteMessage(sid, mid) =>
      st.(sessions := UpdateMatching(st.sessions, sid, Remove(mid), now),
          currentSession := EditCurrent(st, sid, Remove(mid), now))
    case CreateSession(s) => st.(sessions := [s] + st.sessions, currentSession := Some(s))
    case DeleteSession(sid) =>
      st.(sessions := WithoutSession(st.sessions, sid),
          currentSession := if CurrentIs(st, sid) then None else st.currentSession)
    case UpdateSessionTitle(sid, t) =>
      st.(sessions := UpdateMatching(st.sessions, sid, Retitle(t), now),
          currentSession := EditCurrent(st, sid, Retitle(t), now))
  }

  /** Dispatching a log of actions in order, every one of them at `now`. */
  function ApplyAll(st: AppState, log: seq<Action>, now: Instant): AppState
    decreases |log|
  {
    if log == [] then st else ApplyAll(Reduce(st, log[0], now), log[1..], now)
  }

  /** Dispatching two logs one after the other is dispatching their concatenation. */
  lemma {:induction false} ApplyAllConcat(st: AppState, a: seq<Action>, b: seq<Action>, now: Instant)
    ensures ApplyAll(st, a + b, now) == ApplyAll(ApplyAll(st, a, now), b, now)
    decreases |a|
  {
    if a == [] {
      assert a + b == b;
    } else {
      assert (a + b)[0] == a[0];
      assert (a + b)[1..] == a[1..] + b;
      ApplyAllConcat(Reduce(st, a[0], now), a[1..], b, now);
    }
  }

  // ---------------------------------------------------------------------------
  // The lockstep invariant between `currentSession` and `sessions`
  // ---------------------------------------------------------------------------

  /** Two versions of a session that agree on everything but `updatedAt`. */
  predicate SameContent(a: ChatSession, b: ChatSession)
  {
    a.id == b.id && a.title == b.title && a.messages == b.messages
    && a.model == b.model && a.createdAt == b.createdAt
  }

  /**
   * The current session, when there is one, is the first session in
   * `sessions` with its id, up to `updatedAt` (each `new Date()` the reducer
   * evaluates is a separate reading of the clock).
   */
  predicate Lockstep(st: AppState)
  {
    st.currentSession.Some? ==>
      var c := st.currentSession.value;
      Lookup(st.sessions, c.id).Some? && SameContent(Lookup(st.sessions, c.id).value, c)
  }

  /**
   * The two pointer-swap actions store what they are given without checking
   * it against the rest of the state; they keep the invariant only when the
   * state they produce has it.
   */
  predicate KeepsLockstep(st: AppState, a: Action)
  {
    match a
    case SetSessions(ss) => Lockstep(st.(sessions := ss))
    case SetCurrentSession(c) => Lockstep(st.(currentSession := c))
    case _ => true
  }

  /** Editing two versions of the same session gives the same result. */
  lemma ApplyEditSameContent(a: ChatSession, b: ChatSession, e: Edit, now: Instant)
    requires SameContent(a, b)
    ensures ApplyEdit(a, e, now) == ApplyEdit(b, e, now)
  {
  }

  /** Every action the handlers dispatch keeps the current session in lockstep with its entry. */
  lemma ReducePreservesLockstep(st: AppState, a: Action, now: Instant)
    requires Lockstep(st) && KeepsLockstep(st, a)
    ensures Lockstep(Reduce(st, a, now))
  {
    match a {
      case AddMessage(sid, m) => EditKeepsLockstep(st, sid, Append(m), now);
      case DeleteMessage(sid, mid) => EditKeepsLockstep(st, sid, Remove(mid), now);
      case UpdateSessionTitle(sid, t) => EditKeepsLockstep(st, sid, Retitle(t), now);
      case DeleteSession(sid) =>
        if st.currentSession.Some? {
          LookupWithoutSession(st.sessions, sid, st.currentSession.value.id);
        }
      case _ =>
    }
  }

  /** An edit aimed at one id, applied to `sessions` and the current session alike, keeps the invariant. */
  lemma EditKeepsLockstep(st: AppState, sid: string, e: Edit, now: Instant)
    requires Lockstep(st)
    ensures Lockstep(st.(sessions := UpdateMatching(st.sessions, sid, e, now),
                         currentSession := EditCurrent(st, sid, e, now)))
  {
    if st.currentSession.Some? {
      var c := st.currentSession.value;
      LookupUpdateMatching(st.sessions, sid, e, now, c.id);
      if c.id == sid {
        ApplyEditSameContent(Lookup(st.sessions, c.id).value, c, e, now);
      }
    }
  }

  /** A log of lockstep-keeping actions keeps the invariant. */
  lemma {:induction false} ApplyAllPreservesLockstep(st: AppState, log: seq<Action>, now: Instant)
    requires Lockstep(st)
    requires forall k :: 0 <= k < |log| ==> !log[k].SetSessions? && !log[k].SetCurrentSession?
    ensures Lockstep(ApplyAll(st, log, now))
    decreases |log|
  {
    if log != [] {
      ReducePreservesLockstep(st, log[0], now);
      ApplyAllPreservesLockstep(Reduce(st, log[0], now), log[1..], now);
    }
  }

  // ---------------------------------------------------------------------------
  // What each action does
  // ---------------------------------------------------------------------------

  /** Each setter changes its own field of the state and nothing else. */
  lemma SettersChangeOneField(st: AppState, a: Action, now: Instant)
    ensures var r := Reduce(st, a, now);
      && (a.SetLoading? ==> r == st.(isLoading := a.loading))
      && (a.SetError? ==> r == st.(error := a.error))
      && (a.SetModels? ==> r == st.(availableModels := a.models))
      && (a.SetSelectedModel? ==> r == st.(selectedModel := a.modelId))
      && (a.SetSessions? ==> r == st.(sessions := a.sessions))
      && (a.SetCurrentSession? ==> r == st.(currentSession := a.session))
  {
  }

  /** The session-level actions leave the catalogue, the selection and the flags alone. */
  lemma SessionActionsKeepSettings(st: AppState, a: Action, now: Instant)
    requires a.AddMessage? || a.DeleteMessage? || a.CreateSession? || a.DeleteSession? || a.UpdateSessionTitle?
    ensures var r := Reduce(st, a, now);
      r.availableModels == st.availableModels && r.selectedModel == st.selectedModel
      && r.isLoading == st.isLoading && r.error == st.error
  {
  }

  /**
   * ADD_MESSAGE appends the message to every session with the target id and
   * to the current session exactly when it has that id, stamping each with
   * `now` as its update time; every other field, every other session and the
   * number of sessions stay as they were.
   */
  lemma AddMessageEffect(st: AppState, sid: string, m: Message, now: Instant)
    ensures var r := Reduce(st, AddMessage(sid, m), now);
      && |r.sessions| == |st.sessions|
      && (forall i :: 0 <= i < |st.sessions| && st.sessions[i].id == sid ==>
            r.sessions[i] == st.sessions[i].(messages := st.sessions[i].messages + [m], updatedAt := now))
      && (forall i :: 0 <= i < |st.sessions| && st.sessions[i].id != sid ==> r.sessions[i] == st.sessions[i])
      && (CurrentIs(st, sid) ==>
            var c := st.currentSession.value;
            r.currentSession == Some(c.(messages := c.messages + [m], updatedAt := now)))
      && (!CurrentIs(st, sid) ==> r.currentSession == st.currentSession)
  {
  }

  /**
   * DELETE_MESSAGE filters every message with the id, not only the first, out
   * of every session with the target id, keeping the other messages in order;
   * the current session is filtered the same way exactly when it has the
   * target id, and every other field of each session stays as it was.
   */
  lemma DeleteMessageEffect(st: AppState, sid: string, mid: string, now: Instant)
    ensures var r := Reduce(st, DeleteMessage(sid, mid), now);
      && |r.sessions| == |st.sessions|
      && (forall i :: 0 <= i < |st.sessions| && st.sessions[i].id == sid ==>
            && r.sessions[i] == st.sessions[i].(messages := WithoutMessage(st.sessions[i].messages, mid), updatedAt := now)
            && (forall x :: x in r.sessions[i].messages ==> x in st.sessions[i].messages && x.id != mid)
            && (forall x :: x in st.sessions[i].messages && x.id != mid ==> x in r.sessions[i].messages))
      && (forall i :: 0 <= i < |st.sessions| && st.sessions[i].id != sid ==> r.sessions[i] == st.sessions[i])
      && (CurrentIs(st, sid) ==>
            var c := st.currentSession.value;
            && r.currentSession == Some(c.(messages := WithoutMessage(c.messages, mid), updatedAt := now))
            && (forall x :: x in r.currentSession.value.messages ==> x.id != mid))
      && (!CurrentIs(st, sid) ==> r.currentSession == st.currentSession)
  {
  }

  /** Whether every copy of session `sid` in the state lacks the message id `mid`. */
  predicate FreshInState(st: AppState, sid: string, mid: string)
  {
    && (forall i :: 0 <= i < |st.sessions| && st.sessions[i].id == sid ==> FreshId(st.sessions[i].messages, mid))
    && (CurrentIs(st, sid) ==> FreshId(st.currentSession.value.messages, mid))
  }

  /**
   * ADD_MESSAGE of a message whose id is new, followed by DELETE_MESSAGE of
   * that id, restores every message sequence, in `sessions` and in the
   * current session; only `updatedAt` records that anything happened.
   */
  lemma AddThenDeleteRestores(st: AppState, sid: string, m: Message, t1: Instant, t2: Instant)
    requires FreshInState(st, sid, m.id)
    ensures var r := Reduce(Reduce(st, AddMessage(sid, m), t1), DeleteMessage(sid, m.id), t2);
      && |r.sessions| == |st.sessions|
      && (forall i :: 0 <= i < |st.sessions| ==> SameContent(r.sessions[i], st.sessions[i]))
      && r.currentSession.Some? == st.currentSession.Some?
      && (r.currentSession.Some? ==> SameContent(r.currentSession.value, st.currentSession.value))
      && r.availableModels == st.availableModels && r.selectedModel == st.selectedModel
      && r.isLoading == st.isLoading && r.error == st.error
  {
    var mid := Reduce(st, AddMessage(sid, m), t1);
    var r := Reduce(mid, DeleteMessage(sid, m.id), t2);
    forall i | 0 <= i < |st.sessions|
      ensures SameContent(r.sessions[i], st.sessions[i])
    {
      if st.sessions[i].id == sid {
        AppendThenRemove(st.sessions[i].messages, m);
      }
    }
    if CurrentIs(st, sid) {
      AppendThenRemove(st.currentSession.value.messages, m);
    }
  }

  /**
   * CREATE_SESSION puts the new session at the head of `sessions`, keeps the
   * old sessions after it in their order, and makes it the current session;
   * the invariant holds afterwards whatever the state was before.
   */
  lemma CreateSessionEffect(st: AppState, s: ChatSession, now: Instant)
    ensures var r := Reduce(st, CreateSession(s), now);
      && |r.sessions| == |st.sessions| + 1 && r.sessions[0] == s && r.sessions[1..] == st.sessions
      && r.currentSession == Some(s)
      && Lockstep(r)
  {
    var r := Reduce(st, CreateSession(s), now);
    assert r.sessions[1..] == st.sessions;
  }

  /**
   * DELETE_SESSION removes every session with the id and keeps the others
   * (WithoutSessionConcat fixes their order); it clears the current session
   * exactly when that session has the id, and otherwise leaves it as it was.
   */
  lemma DeleteSessionEffect(st: AppState, sid: string, now: Instant)
    ensures var r := Reduce(st, DeleteSession(sid), now);
      && (forall x :: x in r.sessions ==> x in st.sessions && x.id != sid)
      && (forall x :: x in st.sessions && x.id != sid ==> x in r.sessions)
      && (forall k :: k != sid ==> Lookup(r.sessions, k) == Lookup(st.sessions, k))
      && Lookup(r.sessions, sid) == None
      && (r.currentSession == None <==> st.currentSession == None || CurrentIs(st, sid))
      && (!CurrentIs(st, sid) ==> r.currentSession == st.currentSession)
  {
    forall k
      ensures Lookup(WithoutSession(st.sessions, sid), k) == if k == sid then None else Lookup(st.sessions, k)
    {
      LookupWithoutSession(st.sessions, sid, k);
    }
  }

  /**
   * UPDATE_SESSION_TITLE retitles exactly the sessions with the id (and the
   * current session when it has the id), stamping each with `now` as its
   * update time, and leaves every other field and every other session
   * unchanged.
   */
  lemma UpdateTitleEffect(st: AppState, sid: string, t: string, now: Instant)
    ensures var r := Reduce(st, UpdateSessionTitle(sid, t), now);
      && |r.sessions| == |st.sessions|
      && (forall i :: 0 <= i < |st.sessions| && st.sessions[i].id == sid ==>
            r.sessions[i] == st.sessions[i].(title := t, updatedAt := now))
      && (forall i :: 0 <= i < |st.sessions| && st.sessions[i].id != sid ==> r.sessions[i] == st.sessions[i])
      && (CurrentIs(st, sid) ==>
            var c := st.currentSession.value;
            r.currentSession == Some(c.(title := t, updatedAt := now)))
      && (!CurrentIs(st, sid) ==> r.currentSession == st.currentSession)
  {
  }
}
