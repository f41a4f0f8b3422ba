/**
 * The message router: the decision an incoming text message leads to, and
 * the store change and reply of each of the four handlers.
 */
module Router {
  import opened Messages
  import opened Text
  import opened Crisis
  import opened Session

  /** Where an incoming text message goes. */
  datatype Route =
    | Drop                  // no message or empty text: no reply, no state change
    | CrisisRoute           // the fixed crisis-resources reply, no model call
    | Forward(text: string) // a completion call with the stripped text

  /** What the bot sends back. The static texts are opaque. */
  datatype Reply = Silent | StartInfo | HelpInfo | ResetDone | CrisisHelp | Answer(body: string)

  /** An inbound event, already sorted by the platform into a command or plain text. */
  datatype Update =
    | StartCommand
    | HelpCommand
    | ResetCommand
    | OtherCommand          // a command no handler is registered for
    | TextMessage(text: Option<string>)

  /** The store after handling an event, and the reply sent. */
  datatype Handled = Handled(store: Store, reply: Reply)

  /** The routing decision for a message whose text may be missing. */
  function Classify(msg: Option<string>): (r: Route)
    ensures r.Drop? <==> msg.None? || msg.value == ""
    ensures r.CrisisRoute? <==> msg.Some? && msg.value != "" && IsCrisisMessage(Strip(msg.value))
    ensures r.Forward? ==> msg.Some? && r.text == Strip(msg.value) && !IsCrisisMessage(r.text)
  {
    match msg
    case None => Drop
    case Some(raw) =>
      if raw == "" then Drop
      else
        var text := Strip(raw);
        if IsCrisisMessage(text) then CrisisRoute else Forward(text)
  }

  /** The plain-text handler: drop, crisis reply, or one completion call. */
  function HandleMessage(store: Store, uid: UserId, msg: Option<string>, outcome: Completion): (r: Handled)
    ensures Classify(msg).Drop? ==> r == Handled(store, Silent)
    ensures Classify(msg).CrisisRoute? ==> r == Handled(store, CrisisHelp)
    ensures Classify(msg).Forward? ==>
              var step := CallChat(store, uid, Classify(msg).text, outcome);
              r == Handled(step.store, Answer(step.reply))
    ensures r.store != store ==> Classify(msg).Forward? && !IsCrisisMessage(Classify(msg).text)
  {
    match Classify(msg)
    case Drop => Handled(store, Silent)
    case CrisisRoute => Handled(store, CrisisHelp)
    case Forward(text) =>
      var step := CallChat(store, uid, text, outcome);
      Handled(step.store, Answer(step.reply))
  }

  /** One event from `uid`: the commands touch the store only through reset. */
  function Dispatch(store: Store, uid: UserId, update: Update, outcome: Completion): (r: Handled)
    ensures update.StartCommand? ==> r == Handled(store, StartInfo)
    ensures update.HelpCommand? ==> r == Handled(store, HelpInfo)
    ensures update.ResetCommand? ==> r.reply == ResetDone && uid !in r.store
    ensures update.OtherCommand? ==> r == Handled(store, Silent)
    ensures forall v :: v != uid ==> (v in r.store <==> v in store)
    ensures forall v :: v != uid && v in store ==> r.store[v] == store[v]
  {
    match update
    case StartCommand => Handled(store, StartInfo)
    case HelpCommand => Handled(store, HelpInfo)
    case ResetCommand => Handled(ResetHistory(store, uid), ResetDone)
    case OtherCommand => Handled(store, Silent)
    case TextMessage(msg) => HandleMessage(store, uid, msg, outcome)
  }

  /** Every handler keeps every stored history well formed. */
  lemma DispatchPreservesWellFormed(store: Store, uid: UserId, update: Update, outcome: Completion)
    requires WellFormedStore(store)
    ensures WellFormedStore(Dispatch(store, uid, update, outcome).store)
  {
    match update
    case StartCommand =>
    case HelpCommand =>
    case ResetCommand => ResetPreservesWellFormed(store, uid);
    case OtherCommand =>
    case TextMessage(msg) =>
      if Classify(msg).Forward? {
        CallChatPreservesWellFormed(store, uid, Classify(msg).text, outcome);
      }
  }

  /** A message containing a crisis phrase anywhere, with any text around it,
      gets the crisis reply and leaves the store as it was, whatever the
      completion service would have said. */
  lemma CrisisLeavesStoreUntouched(store: Store, uid: UserId, before: string, k: nat, after: string, outcome: Completion)
    requires k < |Keywords|
    ensures HandleMessage(store, uid, Some(before + Keywords[k] + after), outcome) == Handled(store, CrisisHelp)
  {
    var text := before + Keywords[k] + after;
    KeywordEnds(k);
    var b, a := StripAround(before, Keywords[k], after);
    KeywordAnywhereDetected(b, k, a);
    assert Classify(Some(text)) == CrisisRoute;
  }

  /** Text with no surrounding whitespace and no crisis phrase reaches the
      completion call unchanged. */
  lemma PlainTextForwarded(text: string)
    requires text != "" && Trimmed(text) && !IsCrisisMessage(text)
    ensures Classify(Some(text)) == Forward(text)
  {
    assert text[0..|text|] == text;
    StripUnique(text, text);
  }

  /** A first forwarded message from a new user is stored, stripped, after the
      system entry, followed by the stripped reply. */
  lemma FirstMessageStored(uid: UserId, first: string, content: string)
    requires Classify(Some(first)).Forward?
    ensures var r := Dispatch(map[], uid, TextMessage(Some(first)), Completed(content));
            && r.store[uid] == [SystemEntry, Message(User, Strip(first)), Message(Assistant, Strip(content))]
            && r.reply == Answer(Strip(content))
  {
    var text := Classify(Some(first)).text;
    var r := Dispatch(map[], uid, TextMessage(Some(first)), Completed(content));
    assert r == HandleMessage(map[], uid, Some(first), Completed(content));
    var step := CallChat(map[], uid, text, Completed(content));
    assert r == Handled(step.store, Answer(step.reply));
    GetHistoryNewUser(map[], uid);
    SuccessAppendsExchange(map[], uid, text, content);
  }

  /** The opening exchange of a conversation: /start creates nothing, a first
      message the router forwards leaves the system entry, the stripped user
      entry and the reply, /reset removes the history, and a message with a
      crisis phrase anywhere in it creates none. */
  lemma OpeningScenario(uid: UserId, first: string, content: string, before: string, k: nat, after: string)
    requires Classify(Some(first)).Forward?
    requires k < |Keywords|
    ensures var empty: Store := map[];
            var s1 := Dispatch(empty, uid, StartCommand, Failed);
            var s2 := Dispatch(s1.store, uid, TextMessage(Some(first)), Completed(content));
            var s3 := Dispatch(s2.store, uid, ResetCommand, Failed);
            var s4 := Dispatch(s3.store, uid, TextMessage(Some(before + Keywords[k] + after)), Completed(content));
            && s1.store == empty
            && s2.store[uid] == [SystemEntry, Message(User, Strip(first)), Message(Assistant, Strip(content))]
            && s2.reply == Answer(Strip(content))
            && uid !in s3.store
            && s4 == Handled(s3.store, CrisisHelp)
            && uid !in s4.store
  {
    var empty: Store := map[];
    var s1 := Dispatch(empty, uid, StartCommand, Failed);
    assert s1 == Handled(empty, StartInfo);
    FirstMessageStored(uid, first, content);
    var s2 := Dispatch(s1.store, uid, TextMessage(Some(first)), Completed(content));
    var s3 := Dispatch(s2.store, uid, ResetCommand, Failed);
    assert uid !in s3.store;
    var crisis := before + Keywords[k] + after;
    CrisisLeavesStoreUntouched(s3.store, uid, before, k, after, Completed(content));
    assert Dispatch(s3.store, uid, TextMessage(Some(crisis)), Completed(content))
        == HandleMessage(s3.store, uid, Some(crisis), Completed(content));
  }
}
