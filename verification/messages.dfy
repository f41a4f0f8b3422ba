/**
 * The conversation entities of the relay: role-tagged messages, one user's
 * history, and the in-memory store that maps user ids to histories.
 */
module Messages {

  /** An optional value, used for the platform's possibly missing message text. */
  datatype Option<+T> = None | Some(value: T)

  /** The three roles a chat-completion message can carry. */
  datatype Role = System | User | Assistant

  /** One entry of a history: a role and its text. */
  datatype Message = Message(role: Role, content: string)

  /** Chat platform user identifier. */
  type UserId = int

  /** One user's ordered conversation, oldest entry first. */
  type History = seq<Message>

  /** The process-wide map from user id to that user's history. */
  type Store = map<UserId, History>

  /** Persona instructions seeded as the first entry of every new history. */
  const SystemPrompt: string :=
    "Ты эмпатичный, тактичный психолог-консультант.\n"
    + "- Отвечай по-русски.\n"
    + "- Твоя цель — поддержать, помочь человеку разобраться в чувствах и ситуации.\n"
    + "- Задавай уточняющие вопросы, помогай видеть разные варианты, предлагай мягкие шаги.\n"
    + "- Не ставь психиатрических диагнозов и не обсуждай лекарства.\n"
    + "- Если человек винит себя, помоги снизить самокритику и увидеть контекст.\n"
    + "- Отвечай обычно 3–6 предложениями, без огромных полотен.\n"
    + "- Будь тёплым, но уважительным, без сюсюканья.\n"

  /** The single system entry every history starts with. */
  const SystemEntry: Message := Message(System, SystemPrompt)

  /** Reply returned to the user when the completion service call fails. */
  const FallbackReply: string :=
    "Я сейчас не могу обратиться к своей нейросети \U{1F614}\n"
    + "Попробуй, пожалуйста, написать позже."

  /** A history longer than this is trimmed after a successful exchange. */
  const MaxHistory: nat := 30

  /** Number of most recent entries a trimmed history keeps after the system entry. */
  const KeepRecent: nat := 28

  /** A well-formed history: the system entry first, and no other system entry. */
  predicate WellFormedHistory(h: History)
  {
    && |h| > 0
    && h[0] == SystemEntry
    && forall i :: 1 <= i < |h| ==> h[i].role != System
  }

  /** Every history present in the store is well formed. */
  predicate WellFormedStore(store: Store)
  {
    forall u :: u in store ==> WellFormedHistory(store[u])
  }
}
