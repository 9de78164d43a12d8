/**
 * The persona manager: persona configuration with its defaults, user lookup, and the
 * session registry that resolves (chat, persona, user) to a chat instance.
 */
module PersonaManager {
  import opened Wrappers
  import opened Records
  import opened Limits
  import opened Chatbot

  /** The `model` section of one persona's configuration; an absent key is None. */
  datatype ModelSection = ModelSection(
    systemMessage: Option<string>,
    model: Option<string>,
    tokens: Option<int>,
    temperature: Option<real>,
    presencePenalty: Option<real>,
    maxMessages: Option<nat>,
    maxTokens: Option<int>,
    maxChars: Option<int>)

  const DefaultSystemMessage: string := ""
  const DefaultModel: string := "gpt-4o-mini"
  const DefaultTokens: int := 750
  const DefaultTemperature: real := 1.0
  const DefaultPresencePenalty: real := 0.0

  const EmptySection: ModelSection := ModelSection(None, None, None, None, None, None, None, None)

  function Or<T>(o: Option<T>, default: T): T
  {
    match o
    case Some(v) => v
    case None => default
  }

  /** A configured persona as the manager holds it: database id, access list and runtime. */
  datatype Persona = Persona(id: PersonaId, allowedUsers: set<UserId>, bot: Bot)

  /** The configuration stored for a new persona: each absent key takes its default. */
  function ConfigFromSection(section: Option<ModelSection>): (c: ChatbotConfig)
    ensures section.None? ==> c == ChatbotConfig(DefaultSystemMessage, DefaultModel, DefaultTokens,
                                                 DefaultTemperature, DefaultPresencePenalty, None, None, None)
    ensures section.Some? && section.value.systemMessage.None? ==> c.systemMessage == DefaultSystemMessage
    ensures section.Some? && section.value.model.None? ==> c.model == DefaultModel
    ensures section.Some? && section.value.tokens.None? ==> c.tokens == DefaultTokens
    ensures section.Some? && section.value.temperature.None? ==> c.temperature == DefaultTemperature
    ensures section.Some? && section.value.presencePenalty.None? ==> c.presencePenalty == DefaultPresencePenalty
    ensures section.Some? && section.value.maxMessages.None? ==> c.maxMessages.None?
    ensures section.Some? && section.value.maxTokens.None? ==> c.maxTokens.None?
    ensures section.Some? && section.value.maxChars.None? ==> c.maxChars.None?
    ensures section.Some? && section.value.systemMessage.Some? ==> c.systemMessage == section.value.systemMessage.value
    ensures section.Some? && section.value.model.Some? ==> c.model == section.value.model.value
    ensures section.Some? && section.value.tokens.Some? ==> c.tokens == section.value.tokens.value
    ensures section.Some? && section.value.temperature.Some? ==> c.temperature == section.value.temperature.value
    ensures section.Some? && section.value.presencePenalty.Some? ==> c.presencePenalty == section.value.presencePenalty.value
    ensures section.Some? ==> c.maxMessages == section.value.maxMessages && c.maxTokens == section.value.maxTokens
                              && c.maxChars == section.value.maxChars
  {
    var s := Or(section, EmptySection);
    ChatbotConfig(
      Or(s.systemMessage, DefaultSystemMessage), Or(s.model, DefaultModel), Or(s.tokens, DefaultTokens),
      Or(s.temperature, DefaultTemperature), Or(s.presencePenalty, DefaultPresencePenalty),
      s.maxMessages, s.maxTokens, s.maxChars)
  }

  /** The section that spells out every field of a configuration. */
  function SectionOf(c: ChatbotConfig): ModelSection
  {
    ModelSection(Some(c.systemMessage), Some(c.model), Some(c.tokens), Some(c.temperature),
                 Some(c.presencePenalty), c.maxMessages, c.maxTokens, c.maxChars)
  }

  /** Values that are present in the section are stored unchanged. */
  lemma ExplicitValuesKept(c: ChatbotConfig)
    ensures ConfigFromSection(Some(SectionOf(c))) == c
  {
  }

  /**
   * Loading one persona: a persona already in the database keeps its stored configuration,
   * a new one gets the defaulted configuration; the LimitManager takes its three ceilings.
   */
  function LoadPersona(id: PersonaId, allowedUsers: set<UserId>, stored: Option<ChatbotConfig>,
                       section: Option<ModelSection>): (p: Persona)
    ensures p.id == id && p.allowedUsers == allowedUsers
    ensures stored.Some? ==> p.bot.config == stored.value
    ensures stored.None? ==> p.bot.config == ConfigFromSection(section)
    ensures p.bot.limits == LimitManager(p.bot.config.maxMessages, p.bot.config.maxTokens, p.bot.config.maxChars)
  {
    var c := if stored.Some? then stored.value else ConfigFromSection(section);
    Persona(id, allowedUsers, Bot(c, LimitManager(c.maxMessages, c.maxTokens, c.maxChars)))
  }

  datatype ManagerError = PersonaNotFound(name: string) | UserNotFound(username: string) | UserIdNotFound(id: UserId)

  /**
   * The manager's state: personas by name with their configuration order, the users and
   * chat-instance tables, the cache keyed by (chat id, persona name), and the next id
   * the fresh-id oracle will hand out.
   */
  datatype Manager = Manager(
    personas: map<string, Persona>,
    order: seq<string>,
    users: seq<User>,
    instances: seq<ChatInstance>,
    cache: map<(string, string), ChatInstance>,
    nextId: InstanceId)

  /**
   * Every id issued so far, stored or cached, is below the oracle's next id; user ids are
   * their rows' positions; the configuration order lists every loaded persona exactly once,
   * as iterating the personas dict does; access lists name stored users only.
   */
  predicate Valid(m: Manager)
  {
    && (forall i :: 0 <= i < |m.instances| ==> m.instances[i].id < m.nextId)
    && (forall key :: key in m.cache ==> m.cache[key].id < m.nextId)
    && (forall i :: 0 <= i < |m.users| ==> m.users[i].id == i + 1)
    && (forall i :: 0 <= i < |m.order| ==> m.order[i] in m.personas)
    && (forall name :: name in m.personas ==> name in m.order)
    && (forall i, j :: 0 <= i < j < |m.order| ==> m.order[i] != m.order[j])
    && (forall name, id :: name in m.personas && id in m.personas[name].allowedUsers ==> 1 <= id <= |m.users|)
  }

  /** get_persona: the persona's runtime, raising when the name is not loaded. */
  function GetPersona(m: Manager, name: string): (r: Result<Persona, ManagerError>)
    ensures r.Ok? <==> name in m.personas
    ensures r.Ok? ==> r.value == m.personas[name]
    ensures r.Err? ==> r.error == PersonaNotFound(name)
  {
    if name !in m.personas then Err(PersonaNotFound(name)) else Ok(m.personas[name])
  }

  /** The position of the first user with that name, or the table's length when there is none. */
  function FirstNamed(users: seq<User>, username: string): (i: nat)
    ensures i <= |users|
    ensures forall j :: 0 <= j < i ==> users[j].username != username
    ensures i < |users| ==> users[i].username == username
  {
    if |users| == 0 || users[0].username == username then 0
    else
      var i := FirstNamed(users[1..], username);
      assert forall j :: 1 <= j < i + 1 ==> users[j] == users[1..][j - 1];
      i + 1
  }

  /** get_user_by_username: the first user with that name, raising when there is none. */
  function GetUserByUsername(users: seq<User>, username: string): (r: Result<User, ManagerError>)
    ensures r.Err? <==> forall i :: 0 <= i < |users| ==> users[i].username != username
    ensures r.Err? ==> r.error == UserNotFound(username)
    ensures r.Ok? ==> r.value.username == username && r.value in users
    ensures r.Ok? ==> exists i :: 0 <= i < |users| && users[i] == r.value
                         && forall j :: 0 <= j < i ==> users[j].username != username
  {
    var i := FirstNamed(users, username);
    if i == |users| then Err(UserNotFound(username)) else Ok(users[i])
  }

  /** get_user: the user with that id, raising when there is none. */
  function GetUser(users: seq<User>, id: UserId): (r: Result<User, ManagerError>)
    ensures r.Err? <==> forall i :: 0 <= i < |users| ==> users[i].id != id
    ensures r.Err? ==> r.error == UserIdNotFound(id)
    ensures r.Ok? ==> r.value.id == id && r.value in users
  {
    if |users| == 0 then Err(UserIdNotFound(id))
    else if users[0].id == id then Ok(users[0])
    else
      var r := GetUser(users[1..], id);
      assert forall i :: 1 <= i < |users| ==> users[i] == users[1..][i - 1];
      r
  }

  /** In a valid registry the user stored at position i has id i + 1 and is found by it. */
  lemma GetUserFindsRow(m: Manager, i: nat)
    requires Valid(m)
    requires i < |m.users|
    ensures GetUser(m.users, i + 1) == Ok(m.users[i])
  {
    var r := GetUser(m.users, i + 1);
    assert m.users[i].id == i + 1;
    var k :| 0 <= k < |m.users| && m.users[k] == r.value;
    assert m.users[k].id == k + 1;
  }

  datatype UserLookup = UserLookup(users: seq<User>, user: User)

  /** The adapter's lookup-or-create of a user: a missing user is added with the next row id. */
  function EnsureUser(users: seq<User>, username: string): (r: UserLookup)
    ensures r.user.username == username && r.user in r.users
    ensures GetUserByUsername(r.users, username).Ok?
    ensures GetUserByUsername(users, username).Ok? ==> r.users == users
    ensures GetUserByUsername(users, username).Err? ==> r.users == users + [r.user] && r.user.id == |users| + 1
  {
    match GetUserByUsername(users, username)
    case Ok(u) => UserLookup(users, u)
    case Err(_) => var u := User(|users| + 1, username); UserLookup(users + [u], u)
  }

  /** Adding a missing user keeps the registry valid: the new row's id is its position plus one. */
  lemma EnsureUserPreservesValid(m: Manager, username: string)
    requires Valid(m)
    ensures Valid(m.(users := EnsureUser(m.users, username).users))
  {
    var u := EnsureUser(m.users, username);
    forall i | 0 <= i < |u.users|
      ensures u.users[i].id == i + 1
    {
      if i < |m.users| {
        assert u.users[i] == m.users[i];
      }
    }
  }

  /** Whether the table holds an instance for this user and persona. */
  predicate HasInstanceFor(instances: seq<ChatInstance>, userId: UserId, personaId: PersonaId)
  {
    exists i :: 0 <= i < |instances| && instances[i].userId == userId && instances[i].personaId == personaId
  }

  /** The query by (user id, persona id): the first matching instance. */
  function FindInstance(instances: seq<ChatInstance>, userId: UserId, personaId: PersonaId): (r: Option<ChatInstance>)
    ensures r.None? <==> !HasInstanceFor(instances, userId, personaId)
    ensures r.Some? ==> r.value in instances && r.value.userId == userId && r.value.personaId == personaId
  {
    if |instances| == 0 then None
    else if instances[0].userId == userId && instances[0].personaId == personaId then Some(instances[0])
    else
      var r := FindInstance(instances[1..], userId, personaId);
      assert HasInstanceFor(instances, userId, personaId) ==> HasInstanceFor(instances[1..], userId, personaId) by {
        if HasInstanceFor(instances, userId, personaId) {
          var i :| 0 <= i < |instances| && instances[i].userId == userId && instances[i].personaId == personaId;
          assert instances[1..][i - 1] == instances[i];
        }
      }
      r
  }

  datatype Resolved = Resolved(manager: Manager, instance: ChatInstance)

  /**
   * get_chat_instance for a key that is cached or a persona that is loaded: a cached
   * instance is returned whatever the user; otherwise the stored instance of the user and
   * persona is reused, or a new one with a fresh id is stored; the cache then maps the key
   * to the result.
   */
  function Resolve(m: Manager, chatId: string, name: string, user: User): (r: Resolved)
    requires (chatId, name) in m.cache || name in m.personas
    ensures (chatId, name) in m.cache ==> r == Resolved(m, m.cache[(chatId, name)])
    ensures r.manager == m.(cache := m.cache[(chatId, name) := r.instance],
                            instances := r.manager.instances, nextId := r.manager.nextId)
    ensures (chatId, name) !in m.cache ==>
              r.instance.userId == user.id && r.instance.personaId == m.personas[name].id
    ensures (chatId, name) !in m.cache && HasInstanceFor(m.instances, user.id, m.personas[name].id) ==>
              r.manager.instances == m.instances && r.manager.nextId == m.nextId && r.instance in m.instances
    ensures (chatId, name) !in m.cache && !HasInstanceFor(m.instances, user.id, m.personas[name].id) ==>
              && r.manager.instances == m.instances + [r.instance]
              && r.instance.id == m.nextId && r.manager.nextId == m.nextId + 1
  {
    var key := (chatId, name);
    if key in m.cache then Resolved(m, m.cache[key])
    else
      var personaId := m.personas[name].id;
      match FindInstance(m.instances, user.id, personaId)
      case Some(found) => Resolved(m.(cache := m.cache[key := found]), found)
      case None =>
        var minted := ChatInstance(m.nextId, personaId, user.id);
        Resolved(m.(instances := m.instances + [minted], cache := m.cache[key := minted], nextId := m.nextId + 1), minted)
  }

  /** get_chat_instance: raises only when the key is not cached and the persona is not loaded. */
  function GetChatInstance(m: Manager, chatId: string, name: string, user: User): (r: Result<Resolved, ManagerError>)
    ensures r.Err? <==> (chatId, name) !in m.cache && name !in m.personas
    ensures r.Err? ==> r.error == PersonaNotFound(name)
    ensures r.Ok? ==> r.value == Resolve(m, chatId, name, user)
  {
    if (chatId, name) !in m.cache && name !in m.personas then Err(PersonaNotFound(name))
    else Ok(Resolve(m, chatId, name, user))
  }

  /** Resolving keeps the registry valid. */
  lemma ResolvePreservesValid(m: Manager, chatId: string, name: string, user: User)
    requires Valid(m)
    requires (chatId, name) in m.cache || name in m.personas
    ensures Valid(Resolve(m, chatId, name, user).manager)
  {
    var r := Resolve(m, chatId, name, user);
    if (chatId, name) !in m.cache && HasInstanceFor(m.instances, user.id, m.personas[name].id) {
      var i :| 0 <= i < |m.instances| && m.instances[i] == r.instance;
    }
  }

  /** A minted id differs from every id stored in the table or held in the cache. */
  lemma MintedIdIsFresh(m: Manager, chatId: string, name: string, user: User)
    requires Valid(m)
    requires (chatId, name) !in m.cache && name in m.personas
    requires !HasInstanceFor(m.instances, user.id, m.personas[name].id)
    ensures var id := Resolve(m, chatId, name, user).instance.id;
            (forall i :: 0 <= i < |m.instances| ==> m.instances[i].id != id)
            && (forall key :: key in m.cache ==> m.cache[key].id != id)
  {
  }

  /**
   * Resolving twice gives the same instance and changes nothing the second time, whatever
   * user the second call names.
   */
  lemma ResolveIdempotent(m: Manager, chatId: string, name: string, user: User, other: User)
    requires (chatId, name) in m.cache || name in m.personas
    ensures var r := Resolve(m, chatId, name, user);
            Resolve(r.manager, chatId, name, other) == r
  {
  }
}
