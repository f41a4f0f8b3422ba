# psy-helper-bot: conversation store, crisis filter and message router

A Dafny model of the logic in `bot.py` of psy-helper-bot. The bot relays chat
messages to a hosted completion service, with per-user conversation context.
Messages that contain a crisis phrase get a fixed safety reply and never reach
the model. The model covers three parts:

- **Session store** (`session.dfy`, module `Session`). This is `user_histories`, a
  `map<UserId, History>` of role-tagged messages. It has:
  - lazy creation of a user's history, seeded with the single system entry (`GetHistory`);
  - idempotent removal (`ResetHistory`);
  - the history change made by one completion call (`CallChat`).

  The remote call is reduced to its outcome: `Completed(content)` or `Failed`. Before
  the call, the user entry is appended. On success, the stripped reply is appended
  too. When the history then has more than 30 entries, it is cut to the system entry
  plus the 28 most recent entries (`Trim`). On failure, the fixed fallback text is
  returned and the user entry stays, with no assistant entry and no trimming.
- **Crisis filter** (`crisis.dfy`, module `Crisis`). `IsCrisisMessage` is false on
  empty text. Otherwise it is true exactly when one of the ten fixed phrases occurs
  anywhere in the lower-cased text. `Occurs` is the substring relation: a contiguous
  slice. `Contains` is the left-to-right scan that decides it. Both are in
  `text.dfy` (module `Text`), next to Python's `str.strip()` and a restricted
  `str.lower()`.
- **Router** (`router.dfy`, module `Router`). `Classify` is the decision
  `handle_message` makes: drop a missing or empty message, otherwise strip the text,
  then either send the crisis reply or forward the stripped text to the completion
  call. `HandleMessage` and `Dispatch` add the store change and reply of each of the
  four handlers (`/start`, `/help`, `/reset`, plain text). A command with no handler
  (`OtherCommand`, such as `/foo`) matches none of the registrations at
  bot.py:216-221, so it gets no reply and changes nothing.

`conversation.dfy` (module `Conversation`) folds `CallChat` over a run of turns for
one user. It shows three things:
- for a user who starts with no history, whatever the outcomes, the history is always
  the system entry followed by a final segment of everything the calls appended;
- for a user who starts with no history, with only successes, the history holds
  exactly the 28 most recent entries, so its length is `1 + 2N` until it settles at 29;
- with only failures, nothing is trimmed: the history grows by one user entry per
  call and exceeds the 30-entry cap without bound.

A failed call still records the user's message: bot.py:121 appends it before the
`try`, and nothing removes it. The model does the same.

A message that is only whitespace passes the "empty text" guard, because the guard
runs before stripping. It is stripped to `""`, is not a crisis message, and is
forwarded as an empty user entry. The model does the same.

## Model

| member | source | states |
|---|---|---|
| Session.GetHistory | bot.py:39-60 | the user is present afterwards and the returned history is the stored one; no other key appears; every existing history, the caller's included, is returned unchanged; a new user gets a history of length 1 whose entry has role system |
| Session.GetHistoryNewUser | bot.py:44-59 | a new user's history is exactly the single system entry, which is well formed |
| Session.GetHistoryKnownUser | bot.py:44-60 | for a known user the lookup returns the stored history and leaves the store as it was |
| Session.ResetHistory | bot.py:63-66 | the user's key is removed, every other key and history is kept, and nothing is added |
| Session.ResetIdempotent | bot.py:63-66 | resetting twice equals resetting once, and resetting an absent user is a no-op |
| Session.ResetThenLookupIsFresh | bot.py:44-66 | after a reset the next lookup yields a fresh history holding only the system entry |
| Session.Trim | bot.py:133-137 | the result has at most 30 entries; a history of up to 30 is kept as is; a longer one becomes 29 entries, the first entry kept and the other 28 being the most recent ones in order |
| Session.TrimPreservesWellFormed | bot.py:134-137 | trimming keeps the system entry first and adds no other system entry |
| Session.TrimIdempotent | bot.py:134-137 | trimming an already trimmed history changes nothing |
| Session.CallChat | bot.py:116-146 | only the caller's key changes; the request sent is the looked-up history plus the user entry; a failure returns the fallback text and stores exactly the request; a success returns the stripped reply and leaves at most 30 entries ending with the user entry and then the assistant reply |
| Session.SuccessAppendsExchange | bot.py:120-134 | when the extended history fits in 30 entries, a success appends exactly the user entry and then the assistant entry |
| Session.SuccessTrimsToWindow | bot.py:130-137 | when the extended history exceeds 30 entries, a success leaves 29 entries: the first entry, then the last 28 of the extended history in order |
| Session.FailureKeepsUserEntry | bot.py:120-146 | a failure returns the fallback text and leaves the history longer by exactly one user entry, with no assistant entry and no trimming |
| Session.CallChatKnownUser | bot.py:120-137 | for a user with a history, the new history is that history plus the user entry (failure), or that history plus both entries, trimmed (success) |
| Session.GetHistoryPreservesWellFormed | bot.py:44-60 | lookup keeps every history non-empty, with the system entry first and no other system entry |
| Session.ResetPreservesWellFormed | bot.py:63-66 | reset keeps every remaining history well formed |
| Session.CallChatPreservesWellFormed | bot.py:120-137 | a completion call, successful or not, keeps every history well formed, and the transcript it sends is well formed too |
| Text.LeadingSpaces | bot.py:197 | the count is the length of the whitespace run at the start: all counted characters are whitespace and the next one is not |
| Text.TrailingSpaces | bot.py:197 | the count is the length of the whitespace run at the end: all counted characters are whitespace and the one before is not |
| Text.Strip | bot.py:197 | the result neither starts nor ends with whitespace and is the input with a whitespace prefix and a whitespace suffix removed |
| Text.StripBetween | bot.py:197 | when a whitespace prefix and suffix end at non-space characters, removing them is exactly what stripping does |
| Text.StripUnique | bot.py:197 | any non-empty trimmed middle part left by removing a whitespace prefix and suffix is the stripped string |
| Text.StripKeepsInner | bot.py:197 | stripping a text never cuts into a part that starts and ends with a non-space character: the stripped text still contains that part, with only some text before and after it |
| Text.StripIdempotent | bot.py:130 | stripping an already stripped text changes nothing |
| Text.LowerChar | bot.py:77 | the result is never an upper-case Latin or basic Cyrillic letter; every other character is kept; A-Z and U+0410-U+042F move up by 0x20 to their lower-case letters, U+0400-U+040F up by 0x50 |
| Text.Lower | bot.py:77 | the lower-cased text has the same length and each character is the lower case of the one at the same index |
| Text.LowerIdempotent | bot.py:77 | lower-casing twice equals lower-casing once |
| Text.LowerConcat | bot.py:77 | lower-casing a concatenation lower-cases each part |
| Text.Contains | bot.py:92 | the scan answers true exactly when the pattern is a contiguous slice of the text |
| Text.OccursInside | bot.py:92 | a pattern placed anywhere inside a longer text is a slice of it |
| Crisis.AnyKeywordIn | bot.py:92 | true exactly when some keyword of the list occurs in the text |
| Crisis.IsCrisisMessage | bot.py:69-92 | false on empty text; otherwise true exactly when one of the ten phrases occurs in the lower-cased text |
| Crisis.KeywordsAreLowercase | bot.py:79-90 | lower-casing leaves each of the ten phrases as it is |
| Crisis.KeywordAnywhereDetected | bot.py:77-92 | a message that contains a phrase anywhere, with any text before and after it, is a crisis message |
| Crisis.CaseInsensitive | bot.py:77-92 | a message and its lower-cased form are classified the same way |
| Crisis.KeywordEnds | bot.py:79-90 | every phrase is non-empty and starts and ends with a non-space character |
| Crisis.AnyCaseDetected | bot.py:77-92 | any spelling whose lower case is a phrase, in any mix of upper and lower case and with any text around it, makes a crisis message |
| Crisis.UpperCasePhraseDetected | bot.py:77-92 | the all-capitals "ХОЧУ УМЕРЕТЬ" lower-cases to the phrase "хочу умереть" and is a crisis message |
| Router.Classify | bot.py:192-209 | a missing or empty text is dropped, and only then; otherwise the stripped text decides: crisis reply exactly when it holds a phrase, else forwarded as the stripped, non-crisis text |
| Router.HandleMessage | bot.py:192-210 | a dropped message leaves the store and sends nothing; a crisis message leaves the store and sends the crisis reply; a forwarded one makes exactly the completion call; the store changes only for a forwarded non-crisis text |
| Router.Dispatch | bot.py:151-221 | /start and /help leave the store as it was; /reset removes the caller's history and confirms; a command with no handler changes nothing and gets no reply; no handler touches another user's history |
| Router.DispatchPreservesWellFormed | bot.py:151-210 | every handler keeps every stored history well formed |
| Router.CrisisLeavesStoreUntouched | bot.py:192-207 | a raw message that contains a phrase anywhere, with any text (whitespace included) around it, gets the crisis reply and leaves the store unchanged, whatever the completion service would return |
| Router.PlainTextForwarded | bot.py:197-209 | a non-empty, trimmed, non-crisis text is forwarded exactly as it is |
| Router.FirstMessageStored | bot.py:192-210 | a new user's first raw message that the router forwards is stored as system entry, the stripped message as user entry, and the stripped reply as assistant entry, and the stripped reply is sent |
| Router.OpeningScenario | bot.py:151-210 | /start creates no history; a first raw message the router forwards yields a history of three entries holding its stripped text and the stripped reply; /reset removes it; a raw message with a phrase anywhere in it afterwards creates no history |
| Conversation.Run | bot.py:116-137 | after at least one call the user has a history, and no other user's history changes |
| Conversation.HistoryIsSuffixOfLog | bot.py:120-137 | for a user who starts with no history and any outcomes, the history is the system entry followed by a final segment of all entries the calls appended, in order |
| Conversation.CompletedRunWindow | bot.py:130-137 | for a user who starts with no history, with every call successful, the history is the system entry plus the 28 most recent appended entries, and its length is 1 + 2N until it settles at 29 |
| Conversation.FailedRunAccumulates | bot.py:120-146 | with every call failing, the history grows by one user entry per call and is never trimmed |

## Left out

- Telegram transport: sending replies, the typing indicator, handler registration and polling (bot.py:95-113, 151-189, 202, 213-228). Replies are the tags `StartInfo`, `HelpInfo`, `ResetDone` and `CrisisHelp`, and their texts are not modelled. The optional `update.message` guards around sending are not modelled either.
- Command recognition. The platform's `filters.TEXT & ~filters.COMMAND` filter decides whether an event is a command; `Update` arrives with that decision already made.
- The completion SDK call and its parameters: model name, `max_tokens`, `temperature` (bot.py:124-129). This is a foreign network call. It is the `Completion` parameter. A reply whose content is missing makes `.strip()` raise inside the same `try`, so it falls under `Failed`.
- Environment checks, client construction and logging (bot.py:17-33, 142, 153, 199). These are process setup and side effects.
- Text.LowerChar: folds only Latin A-Z and Cyrillic U+0400-U+042F, not the full Unicode case mapping of `str.lower()`. That is enough for the ten Cyrillic phrases but weaker than Python's behaviour.
- Text.Lower: keeps the length of the text, while Python's `str.lower()` can lengthen it for a few characters outside the folded alphabets (U+0130 becomes two characters). The phrases contain none of those characters.
- Concurrency. Handlers are treated as sequential steps on the store. Interleaving of concurrent updates for one user is not modelled.
- Persistence: none exists. The store lives only as long as the process.
