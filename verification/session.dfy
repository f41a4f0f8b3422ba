/**
 * The session store: lazy creation of a user's history, its removal, and the
 * history change one completion call makes, with the remote service reduced
 * to its outcome.
 */
module Session {
  import opened Messages
  import opened Text

  /** What the completion service produced: reply content, or an exception. */
  datatype Completion = Completed(content: string) | Failed

  /** The store after a history lookup, and the history it yields. */
  datatype Lookup = Lookup(store: Store, history: History)

  /** The result of one completion call: the new store, the text returned to the
      caller, and the transcript that was sent to the service. */
  datatype ChatStep = ChatStep(store: Store, reply: string, request: History)

  /** The user's history, created with the single system entry when the user is new. */
  function GetHistory(store: Store, uid: UserId): (r: Lookup)
    ensures uid in r.store && r.history == r.store[uid]
    ensures r.store.Keys == store.Keys + {uid}
    ensures forall v :: v in store ==> r.store[v] == store[v]
    ensures uid !in store ==> |r.history| == 1 && r.history[0].role == System
  {
    var s := if uid in store then store else store[uid := [SystemEntry]];
    Lookup(s, s[uid])
  }

  /** Removes the user's history if there is one. */
  function ResetHistory(store: Store, uid: UserId): (r: Store)
    ensures r.Keys == store.Keys - {uid}
    ensures forall v :: v in r ==> r[v] == store[v]
  {
    if uid in store then store - {uid} else store
  }

  /** Bounds a history: beyond `MaxHistory` entries, keep the first entry and the
      `KeepRecent` most recent ones. */
  function Trim(h: History): (r: History)
    ensures |r| <= MaxHistory
    ensures |h| <= MaxHistory ==> r == h
    ensures |h| > MaxHistory ==> |r| == KeepRecent + 1 && r[0] == h[0]
    ensures |h| > MaxHistory ==> forall i :: 1 <= i < |r| ==> r[i] == h[|h| - |r| + i]
  {
    if |h| > MaxHistory then [h[0]] + h[|h| - KeepRecent..] else h
  }

  /** One completion call on behalf of `uid` with the user text `text`. The user
      entry is appended before the call; on success the stripped reply is
      appended and the history trimmed; on failure the fallback text is returned
      and the history keeps the user entry alone. */
  function CallChat(store: Store, uid: UserId, text: string, outcome: Completion): (r: ChatStep)
    ensures uid in r.store
    ensures forall v :: v != uid ==> (v in r.store <==> v in store)
    ensures forall v :: v != uid && v in store ==> r.store[v] == store[v]
    ensures r.request == GetHistory(store, uid).history + [Message(User, text)]
    ensures outcome.Failed? ==> r.reply == FallbackReply && r.store[uid] == r.request
    ensures outcome.Completed? ==> r.reply == Strip(outcome.content)
    ensures outcome.Completed? ==> |r.store[uid]| <= MaxHistory
    ensures outcome.Completed? ==>
              var h := r.store[uid];
              |h| >= 2 && h[|h| - 2] == Message(User, text) && h[|h| - 1] == Message(Assistant, r.reply)
  {
    var looked := GetHistory(store, uid);
    var request := looked.history + [Message(User, text)];
    match outcome
    case Failed =>
      ChatStep(looked.store[uid := request], FallbackReply, request)
    case Completed(content) =>
      var reply := Strip(content);
      var extended := request + [Message(Assistant, reply)];
      ChatStep(looked.store[uid := Trim(extended)], reply, request)
  }

  /** A lookup of a new user yields exactly the system entry. */
  lemma GetHistoryNewUser(store: Store, uid: UserId)
    requires uid !in store
    ensures GetHistory(store, uid).history == [SystemEntry]
    ensures WellFormedHistory(GetHistory(store, uid).history)
  {
  }

  /** A lookup of a known user returns the stored history and changes nothing. */
  lemma GetHistoryKnownUser(store: Store, uid: UserId)
    requires uid in store
    ensures GetHistory(store, uid) == Lookup(store, store[uid])
  {
  }

  /** Resetting twice is resetting once; resetting an absent user changes nothing. */
  lemma ResetIdempotent(store: Store, uid: UserId)
    ensures ResetHistory(ResetHistory(store, uid), uid) == ResetHistory(store, uid)
    ensures uid !in store ==> ResetHistory(store, uid) == store
  {
  }

  /** After a reset the next lookup starts over from the system entry alone. */
  lemma ResetThenLookupIsFresh(store: Store, uid: UserId)
    ensures GetHistory(ResetHistory(store, uid), uid).history == [SystemEntry]
  {
  }

  /** Trimming keeps a well-formed history well formed. */
  lemma TrimPreservesWellFormed(h: History)
    requires WellFormedHistory(h)
    ensures WellFormedHistory(Trim(h))
  {
  }

  /** Trimming a trimmed history changes nothing. */
  lemma TrimIdempotent(h: History)
    ensures Trim(Trim(h)) == Trim(h)
  {
  }

  /** A successful call whose extended history fits appends exactly the user
      entry and the assistant entry, and nothing else changes. */
  lemma SuccessAppendsExchange(store: Store, uid: UserId, text: string, content: string)
    requires |GetHistory(store, uid).history| + 2 <= MaxHistory
    ensures var old_h := GetHistory(store, uid).history;
            CallChat(store, uid, text, Completed(content)).store[uid]
              == old_h + [Message(User, text), Message(Assistant, Strip(content))]
  {
  }

  /** A successful call that overflows the cap leaves the system entry followed by
      the 28 most recent entries of the extended history, in order. */
  lemma SuccessTrimsToWindow(store: Store, uid: UserId, text: string, content: string)
    requires |GetHistory(store, uid).history| + 2 > MaxHistory
    ensures var old_h := GetHistory(store, uid).history;
            var ext := old_h + [Message(User, text), Message(Assistant, Strip(content))];
            var h := CallChat(store, uid, text, Completed(content)).store[uid];
            && |h| == KeepRecent + 1
            && h[0] == old_h[0]
            && h[1..] == ext[|ext| - KeepRecent..]
  {
    var old_h := GetHistory(store, uid).history;
    var ext := old_h + [Message(User, text), Message(Assistant, Strip(content))];
    SuccessStoresTrimmed(store, uid, text, content);
    TrimOverflow(ext);
  }

  /** A successful call stores the looked-up history extended by the exchange, trimmed. */
  lemma SuccessStoresTrimmed(store: Store, uid: UserId, text: string, content: string)
    ensures var old_h := GetHistory(store, uid).history;
            CallChat(store, uid, text, Completed(content)).store[uid]
              == Trim(old_h + [Message(User, text), Message(Assistant, Strip(content))])
  {
    var old_h := GetHistory(store, uid).history;
    assert old_h + [Message(User, text)] + [Message(Assistant, Strip(content))]
        == old_h + [Message(User, text), Message(Assistant, Strip(content))];
  }

  /** An overflowing history keeps exactly its `KeepRecent` last entries after the first. */
  lemma TrimOverflow(h: History)
    requires |h| > MaxHistory
    ensures Trim(h)[1..] == h[|h| - KeepRecent..]
  {
  }

  /** A failed call returns the fallback text and leaves the history extended by
      the user entry only, untrimmed. */
  lemma FailureKeepsUserEntry(store: Store, uid: UserId, text: string)
    ensures var r := CallChat(store, uid, text, Failed);
            && r.reply == FallbackReply
            && r.store[uid] == GetHistory(store, uid).history + [Message(User, text)]
            && |r.store[uid]| == |GetHistory(store, uid).history| + 1
  {
  }

  /** For a user who already has a history, the call's effect on that history. */
  lemma CallChatKnownUser(store: Store, uid: UserId, text: string, outcome: Completion)
    requires uid in store
    ensures var h := CallChat(store, uid, text, outcome).store[uid];
            match outcome
            case Failed => h == store[uid] + [Message(User, text)]
            case Completed(content) =>
              h == Trim(store[uid] + [Message(User, text), Message(Assistant, Strip(content))])
  {
    match outcome
    case Failed =>
    case Completed(content) =>
      assert store[uid] + [Message(User, text)] + [Message(Assistant, Strip(content))]
          == store[uid] + [Message(User, text), Message(Assistant, Strip(content))];
  }

  /** Lookup keeps the store well formed. */
  lemma GetHistoryPreservesWellFormed(store: Store, uid: UserId)
    requires WellFormedStore(store)
    ensures WellFormedStore(GetHistory(store, uid).store)
    ensures WellFormedHistory(GetHistory(store, uid).history)
  {
  }

  /** Reset keeps the store well formed. */
  lemma ResetPreservesWellFormed(store: Store, uid: UserId)
    requires WellFormedStore(store)
    ensures WellFormedStore(ResetHistory(store, uid))
  {
  }

  /** A completion call, successful or not, keeps the store well formed. */
  lemma CallChatPreservesWellFormed(store: Store, uid: UserId, text: string, outcome: Completion)
    requires WellFormedStore(store)
    ensures WellFormedStore(CallChat(store, uid, text, outcome).store)
    ensures WellFormedHistory(CallChat(store, uid, text, outcome).request)
  {
    var looked := GetHistory(store, uid);
    GetHistoryPreservesWellFormed(store, uid);
    var request := looked.history + [Message(User, text)];
    assert WellFormedHistory(request);
    match outcome
    case Failed =>
    case Completed(content) =>
      var extended := request + [Message(Assistant, Strip(content))];
      assert WellFormedHistory(extended);
      TrimPreservesWellFormed(extended);
  }
}
