/**
 * The application's data model (src/types/index.ts): messages, chat sessions,
 * catalogue models and the aggregate application state, plus the optional and
 * result wrappers that stand for TypeScript's `T | null`, `field?: T` and
 * thrown errors.
 */
module Types {

  /** `T | null` and optional properties. */
  datatype Option<+T> = None | Some(value: T)

  /** A value or the message of the Error that was thrown instead. */
  datatype Result<+T> = Success(value: T) | Failure(error: string)

  /**
   * A point in time, as the milliseconds since the epoch that `Date.now()`
   * returns and that a `Date` holds. The clock itself is not modelled: every
   * reading of it is a parameter.
   */
  type Instant = nat

  datatype Role = User | Assistant

  datatype Message = Message(
    id: string,
    content: string,
    role: Role,
    timestamp: Instant,
    model: Option<string>,
    imageUrl: Option<string>)

  datatype ChatSession = ChatSession(
    id: string,
    title: string,
    messages: seq<Message>,
    model: string,
    createdAt: Instant,
    updatedAt: Instant)

  datatype Pricing = Pricing(prompt: string, completion: string)

  /** `context_length` is a JSON number; the model keeps whole numbers. */
  datatype AIModel = AIModel(
    id: string,
    name: string,
    description: string,
    contextLength: int,
    pricing: Pricing,
    isFree: bool,
    supportsVision: Option<bool>)

  datatype AppState = AppState(
    currentSession: Option<ChatSession>,
    sessions: seq<ChatSession>,
    availableModels: seq<AIModel>,
    selectedModel: string,
    isLoading: bool,
    error: Option<string>)

  /** JavaScript truthiness of an optional string: absent and "" are falsy. */
  predicate Truthy(s: Option<string>)
  {
    s.Some? && s.value != ""
  }
}
