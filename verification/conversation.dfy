/**
 * A run of completion calls for one user, and what the bounded window keeps
 * of everything those calls appended.
 */
module Conversation {
  import opened Messages
  import opened Text
  import opened Session

  /** One call: the user text and what the completion service did with it. */
  datatype Turn = Turn(text: string, outcome: Completion)

  /** The entries one call appends before any trimming: the user entry, then the
      stripped reply when the service answered. */
  function TurnEntries(t: Turn): (r: seq<Message>)
    ensures 1 <= |r| <= 2 && r[0] == Message(User, t.text)
    ensures |r| == 2 <==> t.outcome.Completed?
  {
    match t.outcome
    case Completed(content) => [Message(User, t.text), Message(Assistant, Strip(content))]
    case Failed => [Message(User, t.text)]
  }

  /** Every entry the calls appended, in order, as if nothing were ever trimmed. */
  function Appended(turns: seq<Turn>): (r: seq<Message>)
    ensures |turns| <= |r| <= 2 * |turns|
  {
    if |turns| == 0 then []
    else Appended(turns[..|turns| - 1]) + TurnEntries(turns[|turns| - 1])
  }

  /** The store after the calls, oldest first, all on behalf of `uid`. */
  function Run(store: Store, uid: UserId, turns: seq<Turn>): (r: Store)
    ensures |turns| > 0 ==> uid in r
    ensures forall v :: v != uid ==> (v in r <==> v in store)
    ensures forall v :: v != uid && v in store ==> r[v] == store[v]
  {
    if |turns| == 0 then store
    else
      var last := turns[|turns| - 1];
      CallChat(Run(store, uid, turns[..|turns| - 1]), uid, last.text, last.outcome).store
  }

  /** `a` is a final segment of `b`. */
  predicate IsSuffix(a: seq<Message>, b: seq<Message>)
  {
    |a| <= |b| && a == b[|b| - |a|..]
  }

  /** The last `n` entries of `l`, or all of it when it is shorter. */
  function Last(l: seq<Message>, n: nat): (r: seq<Message>)
    ensures IsSuffix(r, l)
    ensures |r| == if |l| < n then |l| else n
  {
    if |l| < n then l else l[|l| - n..]
  }

  /** Every call succeeded. */
  predicate AllCompleted(turns: seq<Turn>)
  {
    forall i :: 0 <= i < |turns| ==> turns[i].outcome.Completed?
  }

  /** Every call failed. */
  predicate AllFailed(turns: seq<Turn>)
  {
    forall i :: 0 <= i < |turns| ==> turns[i].outcome.Failed?
  }

  lemma SuffixExtend(a: seq<Message>, b: seq<Message>, x: seq<Message>)
    requires IsSuffix(a, b)
    ensures IsSuffix(a + x, b + x)
  {
    assert (b + x)[|b + x| - |a + x|..] == b[|b| - |a|..] + x;
  }

  lemma SuffixOfSuffix(a: seq<Message>, b: seq<Message>, c: seq<Message>)
    requires IsSuffix(a, b) && IsSuffix(b, c)
    ensures IsSuffix(a, c)
  {
    assert c[|c| - |a|..] == c[|c| - |b|..][|b| - |a|..];
  }

  /** When every call succeeds, each adds exactly two entries. */
  lemma {:induction false} AppendedAllCompleted(turns: seq<Turn>)
    requires AllCompleted(turns)
    ensures |Appended(turns)| == 2 * |turns|
  {
    if |turns| > 0 {
      AppendedAllCompleted(turns[..|turns| - 1]);
    }
  }

  /** The entries of a history after its first are a final segment of the log
      `a`; appending `x` and trimming keeps it so for the log `a + x`. */
  lemma TrimKeepsSuffix(h: History, a: seq<Message>, x: seq<Message>)
    requires |h| > 0 && IsSuffix(h[1..], a)
    ensures |Trim(h + x)| > 0 && Trim(h + x)[0] == h[0]
    ensures IsSuffix(Trim(h + x)[1..], a + x)
  {
    var ext := h + x;
    assert ext[1..] == h[1..] + x;
    SuffixExtend(h[1..], a, x);
    if |ext| > MaxHistory {
      assert Trim(ext)[1..] == ext[|ext| - KeepRecent..];
      assert ext[1..][|ext[1..]| - KeepRecent..] == ext[|ext| - KeepRecent..];
      SuffixOfSuffix(ext[|ext| - KeepRecent..], ext[1..], a + x);
    }
  }

  /** Appending `x` to a history, untrimmed, keeps its entries after the first a
      final segment of the log `a + x`. */
  lemma AppendKeepsSuffix(h: History, a: seq<Message>, x: seq<Message>)
    requires |h| > 0 && IsSuffix(h[1..], a)
    ensures (h + x)[0] == h[0]
    ensures IsSuffix((h + x)[1..], a + x)
  {
    assert (h + x)[1..] == h[1..] + x;
    SuffixExtend(h[1..], a, x);
  }

  /** One successful exchange moves the window: the system entry and the last 28
      entries of the log stay the system entry and the last 28 of the longer log. */
  lemma TrimKeepsWindow(e: Message, a: seq<Message>, x: seq<Message>, exchanges: nat)
    requires |a| == 2 * exchanges && |x| == 2
    ensures Trim([e] + Last(a, KeepRecent) + x) == [e] + Last(a + x, KeepRecent)
  {
    var ext := [e] + Last(a, KeepRecent) + x;
    if |a| < KeepRecent {
      assert |ext| <= MaxHistory;
      assert ext == [e] + (a + x);
    } else {
      assert |ext| == KeepRecent + 3;
      assert ext[|ext| - KeepRecent..] == (a + x)[|a + x| - KeepRecent..];
    }
  }

  /** Whatever the outcomes, the history of a user created by the first lookup is
      the system entry followed by a final segment of everything the calls
      appended: trimming only ever drops the oldest non-system entries. */
  lemma {:induction false} HistoryIsSuffixOfLog(store: Store, uid: UserId, turns: seq<Turn>)
    requires uid !in store
    ensures var s := Run(GetHistory(store, uid).store, uid, turns);
            && uid in s
            && |s[uid]| > 0
            && s[uid][0] == SystemEntry
            && IsSuffix(s[uid][1..], Appended(turns))
  {
    var start := GetHistory(store, uid).store;
    if |turns| > 0 {
      var prefix := turns[..|turns| - 1];
      var last := turns[|turns| - 1];
      HistoryIsSuffixOfLog(store, uid, prefix);
      var before := Run(start, uid, prefix);
      CallChatKnownUser(before, uid, last.text, last.outcome);
      var x := TurnEntries(last);
      match last.outcome
      case Failed =>
        AppendKeepsSuffix(before[uid], Appended(prefix), x);
      case Completed(content) =>
        TrimKeepsSuffix(before[uid], Appended(prefix), x);
    }
  }

  /** When every call succeeds, a new user's history is the system entry followed
      by the 28 most recent appended entries (all of them before the cap is
      reached), so its length is 1 + 2N for N calls until it settles at 29. */
  lemma {:induction false} CompletedRunWindow(store: Store, uid: UserId, turns: seq<Turn>)
    requires uid !in store
    requires AllCompleted(turns)
    ensures var h := Run(GetHistory(store, uid).store, uid, turns)[uid];
            && h == [SystemEntry] + Last(Appended(turns), KeepRecent)
            && |h| == 1 + (if 2 * |turns| < KeepRecent then 2 * |turns| else KeepRecent)
  {
    AppendedAllCompleted(turns);
    var start := GetHistory(store, uid).store;
    if |turns| > 0 {
      var prefix := turns[..|turns| - 1];
      var last := turns[|turns| - 1];
      assert AllCompleted(prefix) by {
        assert forall i :: 0 <= i < |prefix| ==> prefix[i] == turns[i];
      }
      CompletedRunWindow(store, uid, prefix);
      AppendedAllCompleted(prefix);
      var before := Run(start, uid, prefix);
      HistoryIsSuffixOfLog(store, uid, prefix);
      var a := Appended(prefix);
      var x := TurnEntries(last);
      assert turns[|turns| - 1].outcome.Completed?;
      var content := last.outcome.content;
      assert x == [Message(User, last.text), Message(Assistant, Strip(content))];
      CallChatKnownUser(before, uid, last.text, last.outcome);
      assert Run(start, uid, turns)[uid] == Trim(before[uid] + x);
      assert before[uid] == [SystemEntry] + Last(a, KeepRecent);
      TrimKeepsWindow(SystemEntry, a, x, |prefix|);
      assert Appended(turns) == a + x;
    } else {
      GetHistoryNewUser(store, uid);
    }
  }

  /** When every call fails, each leaves one more user entry and nothing is
      trimmed, so the history grows past the cap without bound. */
  lemma {:induction false} FailedRunAccumulates(store: Store, uid: UserId, turns: seq<Turn>)
    requires AllFailed(turns)
    ensures var h0 := GetHistory(store, uid).history;
            var h := Run(GetHistory(store, uid).store, uid, turns)[uid];
            && h == h0 + Appended(turns)
            && |h| == |h0| + |turns|
  {
    var start := GetHistory(store, uid).store;
    var h0 := GetHistory(store, uid).history;
    if |turns| > 0 {
      var prefix := turns[..|turns| - 1];
      var last := turns[|turns| - 1];
      assert AllFailed(prefix) by {
        assert forall i :: 0 <= i < |prefix| ==> prefix[i] == turns[i];
      }
      assert last.outcome.Failed?;
      FailedRunAccumulates(store, uid, prefix);
      var before := Run(start, uid, prefix);
      CallChatKnownUser(before, uid, last.text, last.outcome);
      assert Appended(turns) == Appended(prefix) + [Message(User, last.text)];
      assert h0 + Appended(prefix) + [Message(User, last.text)] == h0 + Appended(turns);
    } else {
      assert start[uid] == h0;
    }
  }
}
