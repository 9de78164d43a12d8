/**
 * One turn of a persona: limit gate, history window, gate again, completion provider,
 * then two appended rows (the user's text, then the generated reply).
 */
module Chatbot {
  import opened Wrappers
  import opened Records
  import opened Limits
  import opened Window
  import opened MessageStore

  /** One message of the completion request. */
  datatype PromptMessage = PromptMessage(role: string, content: Option<string>)

  /** What the completion provider returned: text and total tokens, or any failure. */
  datatype ProviderOutcome = Completion(text: string, totalTokens: int) | ProviderFailure

  /** A persona's runtime: its configuration and the LimitManager built from it. */
  datatype Bot = Bot(config: ChatbotConfig, limits: LimitManager)

  /** What generate_message raises: the window's TypeError or a failed save. */
  datatype TurnError = WindowFailed(cause: WindowError) | StorageFailed

  /** Which way the turn left generate_message. */
  datatype Ending = LimitRefused | TooLong | ProviderFailed | Completed | Raised

  datatype Turn = Turn(ending: Ending, reply: Result<string, TurnError>, store: seq<Message>)

  const LimitRefusal: string :=
    "Sorry, I can't answer that. The maximum number of messages or tokens for this persona has been reached."
  const TooLongRefusal: string := "Sorry, I can't answer that. The message is too long."
  const ProviderApology: string := "Sorry, I encountered an error while processing your request."
  const SystemRole: string := "system"

  /** The window entries as request messages, content being the mapped field. */
  function AsPromptMessages(window: seq<Entry>): (msgs: seq<PromptMessage>)
    ensures |msgs| == |window|
    ensures forall k :: 0 <= k < |window| ==> msgs[k] == PromptMessage(window[k].role, window[k].content)
  {
    if |window| == 0 then [] else [PromptMessage(window[0].role, window[0].content)] + AsPromptMessages(window[1..])
  }

  /** The request: the system message, the window in order, then the new user message. */
  function BuildPrompt(systemMessage: string, window: seq<Entry>, message: string): (prompt: seq<PromptMessage>)
    ensures |prompt| == |window| + 2
    ensures prompt[0] == PromptMessage(SystemRole, Some(systemMessage))
    ensures forall k :: 0 <= k < |window| ==> prompt[k + 1] == PromptMessage(window[k].role, window[k].content)
    ensures prompt[|prompt| - 1] == PromptMessage(UserRole, Some(message))
  {
    [PromptMessage(SystemRole, Some(systemMessage))] + AsPromptMessages(window) + [PromptMessage(UserRole, Some(message))]
  }

  /** The row save_message builds: a user row has no response, any other row repeats its text. */
  function MessageRow(instance: ChatInstance, text: string, tokenCount: Option<int>, role: string,
                      user: string, extraInfo: Option<ExtraInfo>, today: int): Message
  {
    Message(instance.id, Some(text), if role == UserRole then None else Some(text), tokenCount, role, user, today, extraInfo)
  }

  /** save_message: build the row and commit it, or roll back. */
  function SaveMessage(store: seq<Message>, instance: ChatInstance, text: string, tokenCount: Option<int>, role: string,
                       user: string, extraInfo: Option<ExtraInfo>, today: int, succeeds: bool): Saved<Message>
  {
    Commit(store, MessageRow(instance, text, tokenCount, role, user, extraInfo, today), succeeds)
  }

  /** The window the turn reads: the instance's rows through get_recent_messages. */
  function TurnWindow(bot: Bot, store: seq<Message>, instance: ChatInstance, today: int): Result<seq<Entry>, WindowError>
  {
    GetRecentMessages(RowsOf(store, instance.id), today, bot.limits.maxMessages)
  }

  /**
   * generate_message. The provider is a function of the request it is sent; `userSaved`
   * and `replySaved` say whether each of the two commits succeeds.
   */
  function GenerateMessage(bot: Bot, store: seq<Message>, instance: ChatInstance, userMessage: string, user: User,
                           extraInfo: Option<ExtraInfo>, today: int,
                           provider: seq<PromptMessage> -> ProviderOutcome,
                           userSaved: bool, replySaved: bool): (t: Turn)
    // the log only grows, by at most the two rows of this turn
    ensures |store| <= |t.store| <= |store| + 2 && t.store[..|store|] == store
    // under the shipped gate neither refusal is ever returned
    ensures t.ending != LimitRefused && t.ending != TooLong
    // a window that raises, or a failed provider call, writes nothing
    ensures TurnWindow(bot, store, instance, today).Err? ==>
              t == Turn(Raised, Err(WindowFailed(CapIsNone)), store)
    ensures TurnWindow(bot, store, instance, today).Ok?
            && provider(BuildPrompt(bot.config.systemMessage, TurnWindow(bot, store, instance, today).value, userMessage)).ProviderFailure?
            ==> t == Turn(ProviderFailed, Ok(ProviderApology), store)
    // a completed turn returns the provider's text and appends the user row, then the reply row
    ensures t.ending == Completed <==> t.reply.Ok? && |t.store| == |store| + 2
    ensures t.ending == Completed ==>
              && TurnWindow(bot, store, instance, today).Ok?
              && var c := provider(BuildPrompt(bot.config.systemMessage, TurnWindow(bot, store, instance, today).value, userMessage));
              && c.Completion? && userSaved && replySaved
              && t.reply == Ok(c.text)
              && var u := t.store[|store|];
              && var a := t.store[|store| + 1];
              && u.chatInstanceId == instance.id && u.role == UserRole && u.message == Some(userMessage)
              && u.response == None && u.tokenCount == None && u.user == user.username && u.extraInfo == extraInfo
              && a.chatInstanceId == instance.id && a.role == AssistantRole && a.message == Some(c.text)
              && a.response == Some(c.text) && a.tokenCount == Some(c.totalTokens) && a.user == user.username
              && a.extraInfo == None
    // once the provider completes, the turn completes iff both saves succeed; a failed first
    // save raises with nothing written, a failed second save raises with the user row kept
    ensures TurnWindow(bot, store, instance, today).Ok?
            && provider(BuildPrompt(bot.config.systemMessage, TurnWindow(bot, store, instance, today).value, userMessage)).Completion?
            ==> && (t.ending == Completed <==> userSaved && replySaved)
                && (!userSaved ==> t == Turn(Raised, Err(StorageFailed), store))
                && (userSaved && !replySaved ==>
                      && t.ending == Raised && t.reply == Err(StorageFailed) && |t.store| == |store| + 1
                      && t.store[|store|] == MessageRow(instance, userMessage, None, UserRole, user.username, extraInfo, today))
    // a failed save raises; a failure of the second save leaves the committed user row in place
    ensures t.ending == Raised && t.reply == Err(StorageFailed) ==>
              (|t.store| == |store| <==> !userSaved) && (|t.store| == |store| + 1 <==> userSaved && !replySaved)
  {
    var history := RowsOf(store, instance.id);
    if !CheckLimits(bot.limits, history, None) then Turn(LimitRefused, Ok(LimitRefusal), store)
    else match GetRecentMessages(history, today, bot.limits.maxMessages)
      case Err(e) => Turn(Raised, Err(WindowFailed(e)), store)
      case Ok(window) =>
        if !CheckLimits(bot.limits, history, Some(userMessage)) then Turn(TooLong, Ok(TooLongRefusal), store)
        else match provider(BuildPrompt(bot.config.systemMessage, window, userMessage))
          case ProviderFailure => Turn(ProviderFailed, Ok(ProviderApology), store)
          case Completion(text, tokens) =>
            var first := SaveMessage(store, instance, userMessage, None, UserRole, user.username, extraInfo, today, userSaved);
            if !first.committed then Turn(Raised, Err(StorageFailed), first.rows)
            else
              var second := SaveMessage(first.rows, instance, text, Some(tokens), AssistantRole, user.username, None, today, replySaved);
              if !second.committed then Turn(Raised, Err(StorageFailed), second.rows)
              else Turn(Completed, Ok(text), second.rows)
  }

  /**
   * The request sent to the provider lists the kept rows of the instance between the
   * system message and the new text, each with its role and mapped field.
   */
  lemma PromptCarriesKeptRows(bot: Bot, store: seq<Message>, instance: ChatInstance, userMessage: string, today: int, cap: nat)
    requires bot.limits.maxMessages == Some(cap)
    ensures var rows := Fetch(RowsOf(store, instance.id), cap);
            var ks := Kept(rows, today, cap);
            var prompt := BuildPrompt(bot.config.systemMessage, TurnWindow(bot, store, instance, today).value, userMessage);
            && |prompt| == |ks| + 2
            && forall k :: 0 <= k < |ks| ==>
                 prompt[k + 1] == PromptMessage(rows[ks[k]].role, Content(rows[ks[k]]))
  {
    var rows := Fetch(RowsOf(store, instance.id), cap);
    BuildProjectsKept(rows, today, cap);
  }

  /** After a completed turn the user row and the reply are the two newest rows of the instance. */
  lemma CompletedTurnIsReadBack(bot: Bot, store: seq<Message>, instance: ChatInstance, userMessage: string, user: User,
                                extraInfo: Option<ExtraInfo>, today: int,
                                provider: seq<PromptMessage> -> ProviderOutcome, limit: nat)
    requires limit >= 2
    requires GenerateMessage(bot, store, instance, userMessage, user, extraInfo, today, provider, true, true).ending == Completed
    ensures var t := GenerateMessage(bot, store, instance, userMessage, user, extraInfo, today, provider, true, true);
            var f := Fetch(RowsOf(t.store, instance.id), limit);
            |f| >= 2 && f[|f| - 2] == t.store[|store|] && f[|f| - 1] == t.store[|store| + 1]
  {
    var t := GenerateMessage(bot, store, instance, userMessage, user, extraInfo, today, provider, true, true);
    var u := t.store[|store|];
    var a := t.store[|store| + 1];
    assert t.store == store + [u] + [a];
    RowsOfAppend(store, u, instance.id);
    RowsOfAppend(store + [u], a, instance.id);
  }
}
