/**
 * The superseded single-file chatbot: a window trimmed by a character budget over the
 * newest rows, a prompt that lists that window newest first, and a turn that saves the
 * user row and a "bot" row only after the provider has answered.
 */
module LegacyChatbot {
  import opened Wrappers

  /** A row of the `chats` table. */
  datatype ChatRow = ChatRow(chatInstance: nat, message: string, tokenCount: Option<int>, role: string, user: string)

  /** One element of the window: the stored text and role of a row. */
  datatype LegacyEntry = LegacyEntry(message: string, role: string)

  datatype LegacyPromptMessage = LegacyPromptMessage(role: string, content: string)

  datatype LegacyOutcome = LegacyCompletion(text: string, totalTokens: int) | LegacyFailure

  datatype LegacyError = ProviderRaised | SaveFailed

  const DefaultMaxChars: int := 12500
  const BotRole: string := "bot"
  const BotUser: string := "chatbot"

  function EntryOf(row: ChatRow): LegacyEntry
  {
    LegacyEntry(row.message, row.role)
  }

  /** Total characters of the rows' messages. */
  function Chars(rows: seq<ChatRow>): nat
  {
    if |rows| == 0 then 0 else |rows[0].message| + Chars(rows[1..])
  }

  /** The character-budget window as a recursive definition: take rows while they fit the remaining budget. */
  function BudgetPrefix(rows: seq<ChatRow>, budget: int): seq<LegacyEntry>
  {
    if |rows| == 0 || |rows[0].message| > budget then []
    else [EntryOf(rows[0])] + BudgetPrefix(rows[1..], budget - |rows[0].message|)
  }

  /**
   * The budget window is the longest prefix of the rows whose character total fits the
   * budget: adding the next row would overflow it. A first row longer than the budget
   * leaves the window empty.
   */
  lemma {:induction false} BudgetPrefixIsLongestFit(rows: seq<ChatRow>, budget: int)
    decreases |rows|
    ensures var w := BudgetPrefix(rows, budget);
            && |w| <= |rows|
            && (forall k :: 0 <= k < |w| ==> w[k] == EntryOf(rows[k]))
            && (|w| > 0 ==> Chars(rows[..|w|]) <= budget)
            && (|w| < |rows| ==> Chars(rows[..|w| + 1]) > budget)
            && (|rows| > 0 && |rows[0].message| > budget ==> w == [])
  {
    if |rows| > 0 && |rows[0].message| <= budget {
      var rest := rows[1..];
      var b := budget - |rows[0].message|;
      BudgetPrefixIsLongestFit(rest, b);
      var w := BudgetPrefix(rest, b);
      assert rows[..|w| + 1][1..] == rest[..|w|];
      if |w| < |rest| {
        assert rows[..|w| + 2][1..] == rest[..|w| + 1];
      }
      assert forall k :: 1 <= k < |w| + 1 ==> rows[k] == rest[k - 1];
    } else if |rows| > 0 {
      assert rows[..1][1..] == [];
    }
  }

  /**
   * get_recent_messages over the instance's rows newest first: a running total of message
   * lengths, stopping at the first row that takes it past the budget. The result is the
   * budget window, whose properties BudgetPrefixIsLongestFit states.
   */
  method RecentMessages(rows: seq<ChatRow>, maxChars: int) returns (result: seq<LegacyEntry>)
    ensures result == BudgetPrefix(rows, maxChars)
  {
    result := [];
    var total := 0;
    var i := 0;
    while i < |rows|
      invariant 0 <= i <= |rows|
      invariant BudgetPrefix(rows, maxChars) == result + BudgetPrefix(rows[i..], maxChars - total)
    {
      total := total + |rows[i].message|;
      if total > maxChars {
        assert BudgetPrefix(rows[i..], maxChars - (total - |rows[i].message|)) == [];
        break;
      }
      assert rows[i..][1..] == rows[i + 1..];
      result := result + [EntryOf(rows[i])];
      i := i + 1;
    }
  }

  /** The role sent for a stored row: "user" stays, every other role becomes "assistant". */
  function PromptRole(role: string): (r: string)
    ensures r == "user" <==> role == "user"
    ensures role != "user" ==> r == "assistant"
  {
    assert "assistant"[0] != "user"[0];
    if role == "user" then "user" else "assistant"
  }

  function AsPromptMessages(window: seq<LegacyEntry>): (msgs: seq<LegacyPromptMessage>)
    ensures |msgs| == |window|
    ensures forall k :: 0 <= k < |window| ==> msgs[k] == LegacyPromptMessage(PromptRole(window[k].role), window[k].message)
  {
    if |window| == 0 then []
    else [LegacyPromptMessage(PromptRole(window[0].role), window[0].message)] + AsPromptMessages(window[1..])
  }

  /** The request: system message, the window newest first with mapped roles, then the new text. */
  function LegacyPrompt(systemMessage: string, window: seq<LegacyEntry>, message: string): (prompt: seq<LegacyPromptMessage>)
    ensures |prompt| == |window| + 2
    ensures prompt[0] == LegacyPromptMessage("system", systemMessage)
    ensures forall k :: 0 <= k < |window| ==>
              prompt[k + 1].content == window[k].message
              && (prompt[k + 1].role == "user" <==> window[k].role == "user")
              && (window[k].role != "user" ==> prompt[k + 1].role == "assistant")
    ensures prompt[|prompt| - 1] == LegacyPromptMessage("user", message)
  {
    var msgs := AsPromptMessages(window);
    var prompt := [LegacyPromptMessage("system", systemMessage)] + msgs + [LegacyPromptMessage("user", message)];
    assert forall k :: 0 <= k < |window| ==> prompt[k + 1] == msgs[k];
    prompt
  }

  /** The instance's rows newest first, taking write order as timestamp order. */
  function RowsNewestFirst(store: seq<ChatRow>, id: nat): (rows: seq<ChatRow>)
    ensures |rows| <= |store|
    ensures forall k :: 0 <= k < |rows| ==> rows[k].chatInstance == id && rows[k] in store
    ensures forall i :: 0 <= i < |store| && store[i].chatInstance == id ==> store[i] in rows
  {
    if |store| == 0 then []
    else
      var rest := RowsNewestFirst(store[1..], id);
      assert forall i :: 1 <= i < |store| ==> store[i] == store[1..][i - 1];
      rest + (if store[0].chatInstance == id then [store[0]] else [])
  }

  /** Every row of the instance is selected as often as it is stored, and no other row is. */
  lemma {:induction false} RowsNewestFirstCounts(store: seq<ChatRow>, id: nat, x: ChatRow)
    ensures multiset(RowsNewestFirst(store, id))[x] == if x.chatInstance == id then multiset(store)[x] else 0
  {
    if |store| > 0 {
      var rest := RowsNewestFirst(store[1..], id);
      RowsNewestFirstCounts(store[1..], id, x);
      CountsStep(store, rest, RowsNewestFirst(store, id), id, x);
    }
  }

  /** The counting step: the rows of the tail, plus the head when it belongs to the instance. */
  lemma CountsStep(store: seq<ChatRow>, rest: seq<ChatRow>, rows: seq<ChatRow>, id: nat, x: ChatRow)
    requires |store| > 0
    requires multiset(rest)[x] == if x.chatInstance == id then multiset(store[1..])[x] else 0
    requires rows == rest + (if store[0].chatInstance == id then [store[0]] else [])
    ensures multiset(rows)[x] == if x.chatInstance == id then multiset(store)[x] else 0
  {
    assert store == [store[0]] + store[1..];
    assert multiset(store) == multiset([store[0]]) + multiset(store[1..]);
  }

  lemma {:induction false} RowsNewestFirstAppend(store: seq<ChatRow>, row: ChatRow)
    ensures RowsNewestFirst(store + [row], row.chatInstance) == [row] + RowsNewestFirst(store, row.chatInstance)
  {
    if |store| == 0 {
      assert ([] + [row])[1..] == [];
    } else {
      assert (store + [row])[1..] == store[1..] + [row];
      RowsNewestFirstAppend(store[1..], row);
    }
  }

  /**
   * generate_message: the provider answers first; a raise saves nothing. On success the
   * user row (token count = length of the text) and then the bot row are committed in order.
   */
  function GenerateMessage(systemMessage: string, store: seq<ChatRow>, chatInstance: nat, userMessage: string, user: string,
                           provider: seq<LegacyPromptMessage> -> LegacyOutcome,
                           userSaved: bool, replySaved: bool): (r: (Result<string, LegacyError>, seq<ChatRow>))
    ensures |store| <= |r.1| <= |store| + 2 && r.1[..|store|] == store
    ensures var prompt := LegacyPrompt(systemMessage, BudgetPrefix(RowsNewestFirst(store, chatInstance), DefaultMaxChars), userMessage);
            && (provider(prompt).LegacyFailure? ==> r == (Err(ProviderRaised), store))
            && (provider(prompt).LegacyCompletion? && userSaved && replySaved ==>
                  && r.0 == Ok(provider(prompt).text)
                  && r.1 == store + [ChatRow(chatInstance, userMessage, Some(|userMessage|), "user", user),
                                     ChatRow(chatInstance, provider(prompt).text, Some(provider(prompt).totalTokens), BotRole, BotUser)])
    ensures r.0 == Err(SaveFailed) ==> (|r.1| == |store| <==> !userSaved)
    ensures r.0.Ok? <==> |r.1| == |store| + 2
    // the reply comes back iff the provider answered and both saves went through
    ensures var prompt := LegacyPrompt(systemMessage, BudgetPrefix(RowsNewestFirst(store, chatInstance), DefaultMaxChars), userMessage);
            r.0.Ok? <==> provider(prompt).LegacyCompletion? && userSaved && replySaved
    // a failed first save adds nothing; a failed second save keeps the user row
    ensures !userSaved ==> r.1 == store && !r.0.Ok?
    ensures var prompt := LegacyPrompt(systemMessage, BudgetPrefix(RowsNewestFirst(store, chatInstance), DefaultMaxChars), userMessage);
            provider(prompt).LegacyCompletion? && userSaved && !replySaved ==>
              r == (Err(SaveFailed), store + [ChatRow(chatInstance, userMessage, Some(|userMessage|), "user", user)])
  {
    var window := BudgetPrefix(RowsNewestFirst(store, chatInstance), DefaultMaxChars);
    match provider(LegacyPrompt(systemMessage, window, userMessage))
    case LegacyFailure => (Err(ProviderRaised), store)
    case LegacyCompletion(text, tokens) =>
      if !userSaved then (Err(SaveFailed), store)
      else
        var afterUser := store + [ChatRow(chatInstance, userMessage, Some(|userMessage|), "user", user)];
        if !replySaved then (Err(SaveFailed), afterUser)
        else (Ok(text), afterUser + [ChatRow(chatInstance, text, Some(tokens), BotRole, BotUser)])
  }

  /** After a completed turn the bot row, then the user row, head the next window's rows. */
  lemma CompletedTurnHeadsNextWindow(systemMessage: string, store: seq<ChatRow>, chatInstance: nat, userMessage: string,
                                     user: string, provider: seq<LegacyPromptMessage> -> LegacyOutcome)
    requires GenerateMessage(systemMessage, store, chatInstance, userMessage, user, provider, true, true).0.Ok?
    ensures var after := GenerateMessage(systemMessage, store, chatInstance, userMessage, user, provider, true, true).1;
            var rows := RowsNewestFirst(after, chatInstance);
            |rows| >= 2 && rows[0] == after[|store| + 1] && rows[1] == after[|store|]
  {
    var after := GenerateMessage(systemMessage, store, chatInstance, userMessage, user, provider, true, true).1;
    var u := after[|store|];
    var b := after[|store| + 1];
    assert after == store + [u] + [b];
    RowsNewestFirstAppend(store, u);
    RowsNewestFirstAppend(store + [u], b);
  }
}
