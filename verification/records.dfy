/**
 * The persisted records of the relay: users, chat instances (sessions), messages and
 * the per-persona chatbot configuration.
 */
module Records {
  import opened Wrappers

  type UserId = int
  type PersonaId = int

  /** Chat-instance ids are uuid4 strings in the program; here they are naturals drawn from a counter. */
  type InstanceId = nat

  /** The JSON metadata column of a message (transport context of a user turn). */
  type ExtraInfo = map<string, string>

  datatype User = User(id: UserId, username: string)

  /** One conversation thread between a user and a persona. */
  datatype ChatInstance = ChatInstance(id: InstanceId, personaId: PersonaId, userId: UserId)

  /**
   * One stored turn. `createdDay` is the creation timestamp truncated to a day number;
   * every text column is nullable, as in the schema.
   */
  datatype Message = Message(
    chatInstanceId: InstanceId,
    message: Option<string>,
    response: Option<string>,
    tokenCount: Option<int>,
    role: string,
    user: string,
    createdDay: int,
    extraInfo: Option<ExtraInfo>)

  /** Per-persona model settings; sampling parameters are passed through untouched. */
  datatype ChatbotConfig = ChatbotConfig(
    systemMessage: string,
    model: string,
    tokens: int,
    temperature: real,
    presencePenalty: real,
    maxMessages: Option<nat>,
    maxTokens: Option<int>,
    maxChars: Option<int>)

  const UserRole: string := "user"
  const AssistantRole: string := "assistant"
}
