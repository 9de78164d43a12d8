/**
 * The Telegram adapter's state logic: which persona is active in each chat, who may use
 * which persona, the selection keyboard, reset of a chat's context, and the dispatch of an
 * incoming text to reset, generation or a persona prompt.
 */
module TelegramAdapter {
  import opened Wrappers
  import opened Records
  import opened Chatbot
  import opened PersonaManager

  /** The active persona of each chat, and the persona manager. */
  datatype Adapter = Adapter(chatPersonas: map<string, string>, manager: Manager)

  /** The adapter's invariant: a valid registry, and every active persona is loaded. */
  predicate AdapterValid(a: Adapter)
  {
    && Valid(a.manager)
    && forall chat :: chat in a.chatPersonas ==> a.chatPersonas[chat] in a.manager.personas
  }

  /** A persona is open to everyone when its access list is empty, otherwise only to its members. */
  predicate CanAccess(p: Persona, user: User)
  {
    |p.allowedUsers| == 0 || user.id in p.allowedUsers
  }

  datatype Button = Button(caption: string, callbackData: string)

  const HelpChoice: string := "help"
  const HelpButton: Button := Button("\U{2753} Help", HelpChoice)

  /** One single-button row per accessible persona, in configuration order. */
  function PersonaRows(order: seq<string>, personas: map<string, Persona>, user: User): (rows: seq<seq<Button>>)
    requires forall i :: 0 <= i < |order| ==> order[i] in personas
    ensures |rows| <= |order|
    ensures forall k :: 0 <= k < |rows| ==>
              && |rows[k]| == 1 && rows[k][0].caption == rows[k][0].callbackData
              && rows[k][0].caption in order && CanAccess(personas[rows[k][0].caption], user)
    ensures forall i :: 0 <= i < |order| && CanAccess(personas[order[i]], user) ==> [Button(order[i], order[i])] in rows
  {
    if |order| == 0 then []
    else
      var rest := PersonaRows(order[1..], personas, user);
      assert forall i :: 1 <= i < |order| ==> order[i] == order[1..][i - 1];
      (if CanAccess(personas[order[0]], user) then [[Button(order[0], order[0])]] else []) + rest
  }

  /** Rows follow the configuration order: one more persona adds at most one row, at the end. */
  lemma {:induction false} PersonaRowsAppend(order: seq<string>, name: string, personas: map<string, Persona>, user: User)
    requires forall i :: 0 <= i < |order| ==> order[i] in personas
    requires name in personas
    ensures PersonaRows(order + [name], personas, user)
            == PersonaRows(order, personas, user) + (if CanAccess(personas[name], user) then [[Button(name, name)]] else [])
  {
    if |order| == 0 {
      assert ([] + [name])[1..] == [];
    } else {
      assert (order + [name])[1..] == order[1..] + [name];
      PersonaRowsAppend(order[1..], name, personas, user);
    }
  }

  /** No row of the keyboard appears twice. */
  predicate NoRepeatedRows(rows: seq<seq<Button>>)
  {
    forall k, l :: 0 <= k < l < |rows| ==> rows[k] != rows[l]
  }

  /** Over a configuration order without repeats, no persona row appears twice. */
  lemma {:induction false} PersonaRowsDistinct(order: seq<string>, personas: map<string, Persona>, user: User)
    requires forall i :: 0 <= i < |order| ==> order[i] in personas
    requires forall i, j :: 0 <= i < j < |order| ==> order[i] != order[j]
    ensures NoRepeatedRows(PersonaRows(order, personas, user))
  {
    if |order| > 0 {
      var tail := order[1..];
      assert forall i :: 0 <= i < |tail| ==> tail[i] == order[i + 1];
      PersonaRowsDistinct(tail, personas, user);
      var rest := PersonaRows(tail, personas, user);
      if CanAccess(personas[order[0]], user) {
        var head := [Button(order[0], order[0])];
        assert order[0] !in tail;
        assert head !in rest;
        PrependKeepsNoRepeats(head, rest);
        assert PersonaRows(order, personas, user) == [head] + rest;
      } else {
        assert PersonaRows(order, personas, user) == rest;
      }
    }
  }

  lemma PrependKeepsNoRepeats(head: seq<Button>, rest: seq<seq<Button>>)
    requires NoRepeatedRows(rest) && head !in rest
    ensures NoRepeatedRows([head] + rest)
  {
    var rows := [head] + rest;
    forall k, l | 0 <= k < l < |rows|
      ensures rows[k] != rows[l]
    {
      assert rows[l] == rest[l - 1];
      if k > 0 {
        assert rows[k] == rest[k - 1];
      }
    }
  }

  /**
   * The selection keyboard: the persona rows open to the user, then exactly one Help row
   * at the end.
   */
  function BuildPersonaKeyboard(order: seq<string>, personas: map<string, Persona>, user: User): (kb: seq<seq<Button>>)
    requires forall i :: 0 <= i < |order| ==> order[i] in personas
    ensures 1 <= |kb| <= |order| + 1
    ensures kb[|kb| - 1] == [HelpButton]
    ensures forall k :: 0 <= k < |kb| - 1 ==>
              && |kb[k]| == 1 && kb[k][0].caption == kb[k][0].callbackData
              && kb[k][0].caption in order && CanAccess(personas[kb[k][0].caption], user)
    ensures forall i :: 0 <= i < |order| && CanAccess(personas[order[i]], user) ==>
              exists k :: 0 <= k < |kb| - 1 && kb[k] == [Button(order[i], order[i])]
  {
    var rows := PersonaRows(order, personas, user);
    assert forall i :: 0 <= i < |order| && CanAccess(personas[order[i]], user) ==>
             exists k :: 0 <= k < |rows| && rows[k] == [Button(order[i], order[i])];
    var kb := rows + [[HelpButton]];
    assert forall k :: 0 <= k < |rows| ==> kb[k] == rows[k];
    kb
  }

  datatype ChooseReply = PersonaKeyboard(rows: seq<seq<Button>>) | HelpText | PersonaSet(name: string)
                       | AccessDenied | InvalidPersona

  datatype Chosen = Chosen(adapter: Adapter, reply: ChooseReply)

  /**
   * start: look the user up, adding them when missing, and offer the keyboard of the
   * personas open to them. No chat's persona changes.
   */
  function Start(a: Adapter, username: string): (c: Chosen)
    requires AdapterValid(a)
    ensures AdapterValid(c.adapter) && c.adapter.chatPersonas == a.chatPersonas
    ensures c.adapter.manager == a.manager.(users := c.adapter.manager.users)
    ensures GetUserByUsername(a.manager.users, username).Ok? ==> c.adapter == a
    ensures GetUserByUsername(c.adapter.manager.users, username).Ok?
    ensures c.reply.PersonaKeyboard? && |c.reply.rows| >= 1 && c.reply.rows[|c.reply.rows| - 1] == [HelpButton]
    ensures c.reply == PersonaKeyboard(BuildPersonaKeyboard(a.manager.order, a.manager.personas,
                                                            EnsureUser(a.manager.users, username).user))
  {
    var u := EnsureUser(a.manager.users, username);
    var m := a.manager.(users := u.users);
    EnsureUserPreservesValid(a.manager, username);
    var kb := BuildPersonaKeyboard(m.order, m.personas, u.user);
    assert kb[|kb| - 1] == [HelpButton];
    var c := Chosen(a.(manager := m), PersonaKeyboard(kb));
    assert GetUserByUsername(a.manager.users, username).Ok? ==> m == a.manager && c.adapter == a;
    c
  }

  /**
   * The keyboard of start offers every loaded persona the user may access, and so every
   * persona with an empty access list whoever asks.
   */
  lemma StartOffersOpenPersonas(a: Adapter, username: string)
    requires AdapterValid(a)
    ensures var rows := Start(a, username).reply.rows;
            var user := EnsureUser(a.manager.users, username).user;
            forall name :: name in a.manager.personas && CanAccess(a.manager.personas[name], user) ==>
              exists k :: 0 <= k < |rows| - 1 && rows[k] == [Button(name, name)]
    ensures var rows := Start(a, username).reply.rows;
            forall name :: name in a.manager.personas && |a.manager.personas[name].allowedUsers| == 0 ==>
              exists k :: 0 <= k < |rows| - 1 && rows[k] == [Button(name, name)]
  {
    var u := EnsureUser(a.manager.users, username);
    var rows := Start(a, username).reply.rows;
    assert rows == BuildPersonaKeyboard(a.manager.order, a.manager.personas, u.user);
    forall name | name in a.manager.personas && CanAccess(a.manager.personas[name], u.user)
      ensures exists k :: 0 <= k < |rows| - 1 && rows[k] == [Button(name, name)]
    {
      assert name in a.manager.order;
      var i :| 0 <= i < |a.manager.order| && a.manager.order[i] == name;
    }
  }

  /** No persona is offered twice by the keyboard of start. */
  lemma StartOffersEachPersonaOnce(a: Adapter, username: string)
    requires AdapterValid(a)
    ensures NoRepeatedRows(Start(a, username).reply.rows)
  {
    var u := EnsureUser(a.manager.users, username);
    var rows := Start(a, username).reply.rows;
    var prs := PersonaRows(a.manager.order, a.manager.personas, u.user);
    assert rows == prs + [[HelpButton]];
    PersonaRowsDistinct(a.manager.order, a.manager.personas, u.user);
    assert HelpButton.caption != HelpButton.callbackData by {
      assert HelpButton.caption[0] != HelpButton.callbackData[0];
    }
    forall k, l | 0 <= k < l < |rows|
      ensures rows[k] != rows[l]
    {
      assert rows[k] == prs[k];
      if l < |prs| {
        assert rows[l] == prs[l];
      } else {
        assert rows[l] == [HelpButton];
      }
    }
  }

  /** How a selection arrives: a keyboard callback, or the /persona command with its arguments. */
  datatype Selection = Callback(data: string) | Command(args: seq<string>)

  /** The persona a selection names; a command without arguments names none. */
  function Selected(sel: Selection): Option<string>
  {
    match sel
    case Callback(data) => Some(data)
    case Command(args) => if |args| == 0 then None else Some(args[0])
  }

  /** The id of a user added to the session but not committed: it has no row yet. */
  const UnsavedId: UserId := 0

  /**
   * The user the keyboard of a bare /persona is built for: the stored user of that name,
   * or a new user that is only staged, which therefore has no id any access list could hold.
   */
  function PromptUser(users: seq<User>, username: string): (u: User)
    ensures u.username == username
    ensures GetUserByUsername(users, username).Ok? ==> u == GetUserByUsername(users, username).value
    ensures GetUserByUsername(users, username).Err? ==> u.id == UnsavedId
  {
    match GetUserByUsername(users, username)
    case Ok(found) => found
    case Err(_) => User(UnsavedId, username)
  }

  /**
   * A user with no row yet is offered exactly the personas whose access list is empty:
   * a persona row for a loaded persona appears iff that persona is open to everyone.
   */
  lemma UnsavedUserSeesOnlyOpenPersonas(a: Adapter, username: string)
    requires AdapterValid(a)
    requires GetUserByUsername(a.manager.users, username).Err?
    ensures var kb := BuildPersonaKeyboard(a.manager.order, a.manager.personas, PromptUser(a.manager.users, username));
            forall name :: name in a.manager.personas ==>
              ((exists k :: 0 <= k < |kb| - 1 && kb[k] == [Button(name, name)])
                 <==> |a.manager.personas[name].allowedUsers| == 0)
  {
    var user := PromptUser(a.manager.users, username);
    var kb := BuildPersonaKeyboard(a.manager.order, a.manager.personas, user);
    forall name | name in a.manager.personas
      ensures (exists k :: 0 <= k < |kb| - 1 && kb[k] == [Button(name, name)])
                <==> |a.manager.personas[name].allowedUsers| == 0
    {
      assert UnsavedId !in a.manager.personas[name].allowedUsers;
      if |a.manager.personas[name].allowedUsers| == 0 {
        assert name in a.manager.order;
        var i :| 0 <= i < |a.manager.order| && a.manager.order[i] == name;
      }
      if exists k :: 0 <= k < |kb| - 1 && kb[k] == [Button(name, name)] {
        var k :| 0 <= k < |kb| - 1 && kb[k] == [Button(name, name)];
        assert kb[k][0].caption == name;
      }
    }
  }

  /**
   * choose_persona: a bare /persona only shows the keyboard, and the user it stages for a
   * missing name is never committed, so nothing changes; "help" changes nothing; an unknown
   * name or a refused user leaves everything but the user table as it was; a known,
   * accessible name becomes the chat's persona and its chat instance is resolved.
   */
  function ChoosePersona(a: Adapter, chatId: string, sel: Selection, username: string): (c: Chosen)
    requires AdapterValid(a)
    ensures AdapterValid(c.adapter)
    ensures c.reply.PersonaSet? <==>
              (&& Selected(sel).Some? && Selected(sel).value != HelpChoice
               && Selected(sel).value in a.manager.personas
               && CanAccess(a.manager.personas[Selected(sel).value], EnsureUser(a.manager.users, username).user))
    ensures c.reply.PersonaSet? ==>
              var u := EnsureUser(a.manager.users, username);
              && c.reply.name == Selected(sel).value
              && c.adapter.chatPersonas == a.chatPersonas[chatId := c.reply.name]
              && (chatId, c.reply.name) in c.adapter.manager.cache
              && c.adapter.manager == Resolve(a.manager.(users := u.users), chatId, c.reply.name, u.user).manager
    ensures !c.reply.PersonaSet? ==> c.adapter.chatPersonas == a.chatPersonas
    ensures c.reply == AccessDenied <==>
              (&& Selected(sel).Some? && Selected(sel).value != HelpChoice
               && Selected(sel).value in a.manager.personas
               && !CanAccess(a.manager.personas[Selected(sel).value], EnsureUser(a.manager.users, username).user))
    ensures c.reply == InvalidPersona || c.reply == AccessDenied ==>
              c.adapter == a.(manager := a.manager.(users := EnsureUser(a.manager.users, username).users))
    ensures Selected(sel) == Some(HelpChoice) ==> c == Chosen(a, HelpText)
    ensures c.reply == InvalidPersona <==>
              (Selected(sel).Some? && Selected(sel).value != HelpChoice && Selected(sel).value !in a.manager.personas)
    ensures Selected(sel).None? ==>
              && c.adapter == a
              && c.reply == PersonaKeyboard(BuildPersonaKeyboard(a.manager.order, a.manager.personas,
                                                                 PromptUser(a.manager.users, username)))
  {
    match Selected(sel)
    case None =>
      Chosen(a, PersonaKeyboard(BuildPersonaKeyboard(a.manager.order, a.manager.personas, PromptUser(a.manager.users, username))))
    case Some(name) =>
      if name == HelpChoice then Chosen(a, HelpText)
      else
        var u := EnsureUser(a.manager.users, username);
        var m := a.manager.(users := u.users);
        EnsureUserPreservesValid(a.manager, username);
        if name !in m.personas then Chosen(a.(manager := m), InvalidPersona)
        else if !CanAccess(m.personas[name], u.user) then Chosen(a.(manager := m), AccessDenied)
        else
          var r := Resolve(m, chatId, name, u.user);
          ResolvePreservesValid(m, chatId, name, u.user);
          Chosen(Adapter(a.chatPersonas[chatId := name], r.manager), PersonaSet(name))
  }

  /** The instance table without the row of the given id. */
  function RemoveInstance(instances: seq<ChatInstance>, id: InstanceId): (rest: seq<ChatInstance>)
    ensures |rest| <= |instances|
    ensures forall x :: x in rest <==> x in instances && x.id != id
  {
    if |instances| == 0 then []
    else (if instances[0].id == id then [] else [instances[0]]) + RemoveInstance(instances[1..], id)
  }

  datatype ResetReply = ContextReset(name: string) | NoContext(name: string) | NoActivePersona

  datatype ResetDone = ResetDone(adapter: Adapter, reply: ResetReply)

  /**
   * _reset_chat_context: with an active persona whose instance is cached, the instance's
   * row and the cache entry are removed; otherwise nothing changes and the reply says why.
   */
  function ResetChatContext(a: Adapter, chatId: string): (r: ResetDone)
    ensures chatId !in a.chatPersonas ==> r == ResetDone(a, NoActivePersona)
    ensures chatId in a.chatPersonas && (chatId, a.chatPersonas[chatId]) !in a.manager.cache ==>
              r == ResetDone(a, NoContext(a.chatPersonas[chatId]))
    ensures chatId in a.chatPersonas && (chatId, a.chatPersonas[chatId]) in a.manager.cache ==>
              var key := (chatId, a.chatPersonas[chatId]);
              && r.reply == ContextReset(a.chatPersonas[chatId])
              && r.adapter.chatPersonas == a.chatPersonas
              && r.adapter.manager.cache == a.manager.cache - {key}
              && (forall x :: x in r.adapter.manager.instances <==>
                                x in a.manager.instances && x.id != a.manager.cache[key].id)
              && r.adapter.manager == a.manager.(cache := r.adapter.manager.cache,
                                                 instances := r.adapter.manager.instances)
  {
    if chatId !in a.chatPersonas then ResetDone(a, NoActivePersona)
    else
      var name := a.chatPersonas[chatId];
      var key := (chatId, name);
      if key !in a.manager.cache then ResetDone(a, NoContext(name))
      else
        var doomed := a.manager.cache[key];
        var m := a.manager.(instances := RemoveInstance(a.manager.instances, doomed.id), cache := a.manager.cache - {key});
        ResetDone(a.(manager := m), ContextReset(name))
  }

  /** A reset keeps the adapter's invariant. */
  lemma ResetPreservesValid(a: Adapter, chatId: string)
    requires AdapterValid(a)
    ensures AdapterValid(ResetChatContext(a, chatId).adapter)
  {
    var r := ResetChatContext(a, chatId);
    forall i | 0 <= i < |r.adapter.manager.instances|
      ensures r.adapter.manager.instances[i].id < r.adapter.manager.nextId
    {
      var x := r.adapter.manager.instances[i];
      assert x in r.adapter.manager.instances;
      assert x in a.manager.instances;
    }
  }

  /**
   * After a reset, the next resolution of the same chat and persona misses the cache; when
   * the user has no other stored instance of that persona it mints an id different from
   * the one reset.
   */
  lemma ResetThenResolveMintsNewId(a: Adapter, chatId: string, user: User)
    requires AdapterValid(a)
    requires chatId in a.chatPersonas && (chatId, a.chatPersonas[chatId]) in a.manager.cache
    ensures var name := a.chatPersonas[chatId];
            var m := ResetChatContext(a, chatId).adapter.manager;
            && (chatId, name) !in m.cache
            && (!HasInstanceFor(m.instances, user.id, m.personas[name].id) ==>
                  Resolve(m, chatId, name, user).instance.id != a.manager.cache[(chatId, name)].id)
  {
  }

  const ResetText: string := "/reset"

  /** What _handle_message does with a text. */
  datatype Action = ResetContext | Generate(persona: string) | AskForPersona

  /** "/reset" always resets; otherwise a chat with an active persona generates, any other chat is asked to choose. */
  function Dispatch(chatPersonas: map<string, string>, chatId: string, text: string): (act: Action)
    ensures act == ResetContext <==> text == ResetText
    ensures act.Generate? <==> text != ResetText && chatId in chatPersonas
    ensures act.Generate? ==> act.persona == chatPersonas[chatId]
  {
    if text == ResetText then ResetContext
    else if chatId in chatPersonas then Generate(chatPersonas[chatId])
    else AskForPersona
  }

  datatype HandleReply = ResetReplied(reset: ResetReply) | Replied(text: string) | GenerationError(error: TurnError)
                       | PersonaMissing(name: string) | AskedForPersona(prompt: ChooseReply)

  datatype Handled = Handled(adapter: Adapter, store: seq<Message>, reply: HandleReply)

  /**
   * _handle_message: dispatch the text, and on generation resolve the user and the chat
   * instance before running the persona's turn.
   */
  function HandleMessage(a: Adapter, store: seq<Message>, chatId: string, text: string, username: string,
                         extraInfo: Option<ExtraInfo>, today: int,
                         provider: seq<PromptMessage> -> ProviderOutcome,
                         userSaved: bool, replySaved: bool): (h: Handled)
    requires AdapterValid(a)
    ensures AdapterValid(h.adapter)
    ensures |store| <= |h.store| <= |store| + 2 && h.store[..|store|] == store
    ensures text == ResetText ==> h == Handled(ResetChatContext(a, chatId).adapter, store,
                                               ResetReplied(ResetChatContext(a, chatId).reply))
    ensures text != ResetText && chatId !in a.chatPersonas ==>
              && h.store == store && h.adapter == a
              && h.reply == AskedForPersona(PersonaKeyboard(BuildPersonaKeyboard(a.manager.order, a.manager.personas,
                                                                                PromptUser(a.manager.users, username))))
    ensures !h.reply.PersonaMissing?
    ensures h.store != store ==> text != ResetText && chatId in a.chatPersonas
    // generation runs the active persona's turn on the resolved instance, as the found or added user
    ensures text != ResetText && chatId in a.chatPersonas ==>
              var name := a.chatPersonas[chatId];
              var u := EnsureUser(a.manager.users, username);
              var r := Resolve(a.manager.(users := u.users), chatId, name, u.user);
              var t := GenerateMessage(a.manager.personas[name].bot, store, r.instance, text, u.user, extraInfo, today,
                                       provider, userSaved, replySaved);
              && h.adapter == a.(manager := r.manager)
              && h.store == t.store
              && h.reply == (if t.reply.Ok? then Replied(t.reply.value) else GenerationError(t.reply.error))
  {
    match Dispatch(a.chatPersonas, chatId, text)
    case ResetContext =>
      var r := ResetChatContext(a, chatId);
      ResetPreservesValid(a, chatId);
      Handled(r.adapter, store, ResetReplied(r.reply))
    case AskForPersona =>
      var c := ChoosePersona(a, chatId, Command([]), username);
      Handled(c.adapter, store, AskedForPersona(c.reply))
    case Generate(name) =>
      match GetPersona(a.manager, name)
      case Err(_) => Handled(a, store, PersonaMissing(name))
      case Ok(persona) =>
        var u := EnsureUser(a.manager.users, username);
        var m := a.manager.(users := u.users);
        EnsureUserPreservesValid(a.manager, username);
        var r := Resolve(m, chatId, name, u.user);
        ResolvePreservesValid(m, chatId, name, u.user);
        var t := GenerateMessage(persona.bot, store, r.instance, text, u.user, extraInfo, today, provider, userSaved, replySaved);
        Handled(a.(manager := r.manager), t.store,
                match t.reply
                case Ok(s) => Replied(s)
                case Err(e) => GenerationError(e))
  }
}
