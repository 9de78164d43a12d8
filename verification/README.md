# Chatgram relay core in Dafny

Chatgram is a Telegram chatbot that relays a chat's messages to a language-model completion
provider. It speaks through one of several configured *personas* and keeps a per-chat history.
This project models the relay's decision logic as pure Dafny functions over immutable state.
That logic covers:

- the persona manager: configuration defaults, user lookup, and the (chat, persona) to
  chat-instance cache with its fresh-id minting;
- the Telegram adapter: the selection keyboard, persona choice with access control,
  `/reset`, `/start`, and message dispatch;
- the limit gate;
- the history window, with its two-tier age filter;
- one generation turn: the prompt layout, the provider call, and the two appended rows;
- the superseded single-file bot: its character-budget window, its prompt, its turn, and
  its own persona registry.

Some inputs are parameters:

- The completion provider is a function from the request to an outcome (text and token
  count, or failure).
- Whether each database commit succeeds is a boolean.
- "Today" is a day number.
- Fresh UUIDs come from a counter, `nextId`. The registry invariant keeps every issued id
  below it.

Files:

| file | models |
|---|---|
| wrappers.dfy | `Option` and `Result` |
| records.dfy | the ORM records |
| limits.dfy | `core/limits.py` |
| window.dfy | `get_recent_messages` |
| store.dfy | the append-only message table |
| chatbot.dfy | `generate_message` |
| manager.dfy | `personas/manager.py` |
| adapter.dfy | `personas/tg_adapter.py` |
| legacy_chatbot.dfy | `Chatbot.py` |
| legacy_personas.dfy | `TGPersonas.py` |

Where the code and its documentation disagree, the model follows the code:

- The limit gate returns `True` before it reaches any ceiling. `Limits.CheckLimits` therefore
  admits everything. The unreachable ceilings are kept as `Limits.CeilingsAllow`, and
  `Limits.GateIgnoresCeilings` shows the difference.
- With `max_messages` absent, the query is unlimited. The comparison `len(result) >= None`
  then raises as soon as a same-day row is reached. `Window.GetRecentMessages` returns an
  error in exactly that case.
- A row dated in the future fails all three age tests and is kept with no cap.
- `reset` deletes the chat-instance row without a delete cascade on its messages (chatgram/data/models.py:45), so
  the ORM keeps the message rows and clears their chat-instance reference rather than deleting them.

## Model

| member | source | states |
|---|---|---|
| Limits.CheckLimits | chatgram/core/limits.py:31-46 | the gate admits every history and every new message: it returns before consulting any ceiling |
| Limits.CeilingsAllow | chatgram/core/limits.py:47-59 | the unreachable ceilings admit exactly when the token total is below a set token ceiling and, for a non-empty new message, history plus new text is at most a set character ceiling; absent ceilings admit |
| Limits.TokenTotalSplit | chatgram/core/limits.py:48-50 | the token sum of a concatenation is the sum of the parts |
| Limits.CharTotalSplit | chatgram/core/limits.py:55-57 | the character sum of a concatenation is the sum of the parts |
| Limits.TokenTotalIgnoresUncounted | chatgram/core/limits.py:48-50 | a row with a null or zero token count, anywhere in the history, does not change the token sum |
| Limits.CharTotalIgnoresEmpty | chatgram/core/limits.py:55-57 | a row with a null or empty message, anywhere in the history, does not change the character sum |
| Limits.CharCeilingBoundary | chatgram/core/limits.py:58 | the character ceiling admits exactly up to equality: a ceiling equal to history plus new text admits, one less refuses |
| Limits.CharCeilingExample | chatgram/core/limits.py:54-59 | 90 stored characters under a ceiling of 100: 20 more refuse, 5 more admit |
| Limits.GateIgnoresCeilings | chatgram/core/limits.py:43-52 | for a token ceiling already reached, the ceilings refuse while the shipped gate admits |
| Window.Fetch | chatgram/core/chatbot.py:181-187 | the query yields the newest `limit` rows of the instance (all of them when fewer), oldest first |
| Window.GetRecentMessages | chatgram/core/chatbot.py:177-213 | raises iff the cap is absent and some row is from today; otherwise the window is no longer than the cap or the rows |
| Window.Kept | chatgram/core/chatbot.py:195-211 | the positions of the rows the loop keeps are in range and strictly increasing |
| Window.KeptRowsPassTheGate | chatgram/core/chatbot.py:199-211 | every kept row has role user or assistant and is at most seven days old; a past-week row only takes one of the first two places, a same-day row one of the first `cap` |
| Window.FutureRowsAreKept | chatgram/core/chatbot.py:199-206 | every future-dated row with a known role is kept: it fails all three age tests and meets no cap |
| Window.BuildProjectsKept | chatgram/core/chatbot.py:195-211 | the loop's window is exactly the kept rows, in order, each mapped to its role and to `message` (user) or `response` (assistant) |
| Window.WindowRowsAreFreshAndKnown | chatgram/core/chatbot.py:199-211 | no row older than seven days and no row with another role reaches the window |
| Window.SameDayCapNeverFires | chatgram/core/chatbot.py:185-206 | over at most `cap` fetched rows every same-day row with a known role is kept: the same-day cap can never trigger |
| Window.WindowMatchesReference | chatgram/core/chatbot.py:195-211 | for rows in creation order, no more than the cap: the window is the first two past-week entries followed by all entries from today on |
| Window.RecentMessagesMatchReference | chatgram/core/chatbot.py:181-213 | with a cap present and rows in creation order, the result equals that reference window over the fetched rows |
| Window.SevenRowExample | chatgram/core/chatbot.py:181-213 | rows aged 10, 8, 3, 1, 0, 0, 0 days under a cap of 2 give two same-day entries |
| MessageStore.RowsOf | chatgram/core/chatbot.py:181-183 | the instance's rows are exactly the table rows with that instance id, in write order |
| MessageStore.RowsOfAppend | chatgram/core/chatbot.py:169-171 | a committed row becomes the newest row of its own instance and leaves every other instance's rows unchanged |
| MessageStore.AppendedRowIsNewest | chatgram/core/chatbot.py:181-187 | after a write, a query with limit at least 1 returns the written row as its newest element |
| MessageStore.RowsOfAscending | chatgram/core/chatbot.py:182-184 | filtering a table in creation order keeps creation order |
| Chatbot.AsPromptMessages | chatgram/core/chatbot.py:114-115 | each window entry becomes one request message with the same role and content, in order |
| Chatbot.BuildPrompt | chatgram/core/chatbot.py:110-116 | the request is the system message, then the window in order, then the new user text |
| Chatbot.GenerateMessage | chatgram/core/chatbot.py:42-96 | the table only grows, by at most two rows; neither refusal occurs; a raising window or a failing provider writes nothing and the latter returns the apology; once the provider completes, the turn completes iff both saves succeed, returning the provider's text with the user row (no response, no token count, with the extra info) before the assistant row (text in both fields, the total tokens); a failed first save raises with nothing written, a failed second save raises with only the user row written |
| Chatbot.PromptCarriesKeptRows | chatgram/core/chatbot.py:66-73 | the request lists the kept rows of the fetched history, with their roles and mapped fields, between the system message and the new text |
| Chatbot.CompletedTurnIsReadBack | chatgram/core/chatbot.py:84-90 | after a completed turn the user row and then the reply are the two newest rows the next query returns |
| PersonaManager.ConfigFromSection | chatgram/personas/manager.py:56-67 | every key present in the model section is stored unchanged and every absent key takes its default ("", "gpt-4o-mini", 750, 1, 0, no ceilings) |
| PersonaManager.ExplicitValuesKept | chatgram/personas/manager.py:56-67 | a section spelling out every field yields exactly that configuration |
| PersonaManager.LoadPersona | chatgram/personas/manager.py:42-98 | a persona already stored keeps its stored configuration, a new one gets the defaulted one; its limit manager takes the configuration's three ceilings |
| PersonaManager.GetPersona | chatgram/personas/manager.py:101-114 | returns the loaded persona iff the name is loaded, otherwise the not-found error |
| PersonaManager.GetUser | chatgram/personas/manager.py:149-156 | raises iff no user has the id; otherwise returns a stored user with that id |
| PersonaManager.GetUserFindsRow | chatgram/personas/manager.py:149-156 | in a valid registry the user at position i is the one found by id i + 1 |
| PersonaManager.GetUserByUsername | chatgram/personas/manager.py:158-165 | raises iff no user has the name; otherwise returns the first stored user with that name |
| PersonaManager.EnsureUser | chatgram/personas/tg_adapter.py:194-201 | an existing user is returned with the table unchanged; a missing one is appended with the next id; either way the name is found afterwards |
| PersonaManager.EnsureUserPreservesValid | chatgram/personas/tg_adapter.py:194-201 | adding a missing user keeps the registry valid: the new row's id is its position plus one |
| PersonaManager.FindInstance | chatgram/personas/manager.py:127-132 | finds a stored instance of that user and persona iff one exists |
| PersonaManager.Resolve | chatgram/personas/manager.py:116-147 | a cached key returns its instance whatever the user, with nothing changed; otherwise the user's stored instance of the persona is reused or a new one with the next id is stored; the cache then maps the key to the result and nothing else changes |
| PersonaManager.GetChatInstance | chatgram/personas/manager.py:116-147 | raises iff the key is not cached and the persona is not loaded |
| PersonaManager.ResolvePreservesValid | chatgram/personas/manager.py:134-145 | resolving keeps every issued id below the next id |
| PersonaManager.MintedIdIsFresh | chatgram/personas/manager.py:134-143 | a minted id differs from every stored and every cached instance id |
| PersonaManager.ResolveIdempotent | chatgram/personas/manager.py:121-147 | resolving the same chat and persona again returns the same instance and changes nothing, whoever the second user is |
| TelegramAdapter.PersonaRows | chatgram/personas/tg_adapter.py:84-88 | one single-button row, caption equal to callback data, for exactly the personas open to the user |
| TelegramAdapter.PersonaRowsAppend | chatgram/personas/tg_adapter.py:84-88 | rows follow configuration order: one more persona adds at most its own row, at the end |
| TelegramAdapter.BuildPersonaKeyboard | chatgram/personas/tg_adapter.py:81-95 | the keyboard is the rows of the accessible personas and then exactly one Help row, last |
| TelegramAdapter.PersonaRowsDistinct | chatgram/personas/tg_adapter.py:84-88 | iterating personas without repeats gives no repeated keyboard row |
| TelegramAdapter.Start | chatgram/personas/tg_adapter.py:44-80 | the user exists afterwards (added only when missing, and otherwise nothing changes); validity is kept; only the user table may change; the reply is exactly the keyboard built for the found or added user, so it offers only personas that user may access, with Help last |
| TelegramAdapter.StartOffersOpenPersonas | chatgram/personas/tg_adapter.py:81-95 | in a valid registry, whose order lists every loaded persona once, the start keyboard offers every loaded persona the user may access, and so every persona with an empty access list whoever asks |
| TelegramAdapter.StartOffersEachPersonaOnce | chatgram/personas/tg_adapter.py:81-95 | the start keyboard offers no persona twice and Help only once |
| TelegramAdapter.ChoosePersona | chatgram/personas/tg_adapter.py:102-179 | a persona is set iff the selection names a loaded persona other than "help" that the user may access; then the chat maps to it and the manager is exactly the one resolving that chat and persona for the found or added user; "help" changes nothing; an unknown name is reported as invalid, and the reply is access denied iff the name is loaded but closed to the user; a refusal keeps everything but the user table; no argument changes nothing and yields the keyboard for the stored user or, when missing, for the staged user with no id |
| TelegramAdapter.PromptUser | chatgram/personas/tg_adapter.py:117-125 | the keyboard of a bare /persona is built for the stored user of that name, or else for an uncommitted user with no row id |
| TelegramAdapter.UnsavedUserSeesOnlyOpenPersonas | chatgram/personas/tg_adapter.py:117-127 | for a name with no stored user, the bare /persona keyboard offers a loaded persona iff its access list is empty |
| TelegramAdapter.RemoveInstance | chatgram/personas/tg_adapter.py:259-261 | the table loses exactly the rows with the reset instance's id |
| TelegramAdapter.ResetChatContext | chatgram/personas/tg_adapter.py:245-276 | with no active persona or no cached instance nothing changes and the reply says which; otherwise exactly that cache entry and the instance's row are removed |
| TelegramAdapter.ResetPreservesValid | chatgram/personas/tg_adapter.py:252-263 | a reset keeps the adapter's invariant |
| TelegramAdapter.ResetThenResolveMintsNewId | chatgram/personas/tg_adapter.py:245-263 | after a reset the key is no longer cached, and a user with no other stored instance of the persona gets a different id |
| TelegramAdapter.Dispatch | chatgram/personas/tg_adapter.py:187-243 | "/reset" resets; otherwise a chat with an active persona generates with that persona, and any other chat is asked to choose |
| TelegramAdapter.HandleMessage | chatgram/personas/tg_adapter.py:181-243 | validity is kept; the table only grows, by at most two rows and only for generation; "/reset" behaves exactly as the reset; a chat without a persona is prompted with exactly the bare /persona keyboard and nothing changes, the user included; a chat with an active persona runs that persona's turn on the instance resolved for the found or added user, and the stored rows and the reply are that turn's |
| LegacyChatbot.BudgetPrefixIsLongestFit | chatgram/Chatbot.py:108-115 | the window is the longest prefix of the newest-first rows whose character total fits the budget; a newest row longer than the budget empties it |
| LegacyChatbot.RecentMessages | chatgram/Chatbot.py:85-115 | the running-total loop with its early exit returns exactly the budget window defined recursively, the longest-fitting prefix |
| LegacyChatbot.AsPromptMessages | chatgram/Chatbot.py:155-157 | each window entry becomes a request message; "user" stays, every other role becomes "assistant" |
| LegacyChatbot.LegacyPrompt | chatgram/Chatbot.py:151-159 | the request is the system message, the window newest first with mapped roles, then the new text |
| LegacyChatbot.RowsNewestFirst | chatgram/Chatbot.py:98-106 | exactly the instance's rows: every selected row belongs to the instance and every stored row of the instance is selected |
| LegacyChatbot.RowsNewestFirstCounts | chatgram/Chatbot.py:98-106 | each row of the instance is selected as often as it is stored, any other row never |
| LegacyChatbot.RowsNewestFirstAppend | chatgram/Chatbot.py:75-83 | a saved row becomes the first row of its instance's next query |
| LegacyChatbot.GenerateMessage | chatgram/Chatbot.py:117-139 | a failing provider raises and saves nothing; the reply is returned iff the provider answered and both saves succeeded, and then the user row (token count = text length) and the "bot"/"chatbot" row with the provider's tokens are added; a failed first save adds nothing; a failed second save keeps only the user row |
| LegacyChatbot.CompletedTurnHeadsNextWindow | chatgram/Chatbot.py:135-137 | after a completed turn the bot row and then the user row head the next query |
| LegacyPersonas.Split | chatgram/TGPersonas.py:96 | the pieces contain no separator and joining them with it gives the text back |
| LegacyPersonas.SplitJoinRoundTrip | chatgram/TGPersonas.py:96 | splitting a join of separator-free pieces gives the pieces back |
| LegacyPersonas.Strip | chatgram/TGPersonas.py:96 | the result is a slice of the text with only whitespace before and after it, and neither starts nor ends with whitespace; all-whitespace text gives the empty string; text without outer whitespace is unchanged |
| LegacyPersonas.ParseAllowedUsers | chatgram/TGPersonas.py:93-97 | no list iff the key is absent; otherwise one stripped name per comma-separated piece, in order |
| LegacyPersonas.ParseJoinedNames | chatgram/TGPersonas.py:93-97 | comma-joined names without commas or outer blanks parse back to the same names |
| LegacyPersonas.CallConstructor | chatgram/Chatbot.py:22-28 | the legacy constructor accepts a call iff every keyword is one of its four parameters |
| LegacyPersonas.Construct | chatgram/TGPersonas.py:98-100 | corrected call: succeeds iff the model section names only declared parameters, keeping given values, defaulting the rest, and storing the access list |
| LegacyPersonas.ConstructAsWrittenAlwaysRaises | chatgram/TGPersonas.py:98-100 | the call as written raises for every model section |
| LegacyPersonas.Initialize | chatgram/TGPersonas.py:89-102 | a name is registered iff some entry with that name constructs without raising; failing entries are skipped; the name order lists every registered persona exactly once |
| LegacyPersonas.RegisterKeepsNamesListed | chatgram/TGPersonas.py:98-100 | storing a persona under a name keeps the name order listing every registered persona exactly once |
| LegacyPersonas.InitializeAsWrittenLoadsNothing | chatgram/TGPersonas.py:89-102 | as written, no persona is ever registered |
| LegacyPersonas.InitializeLoadsWellFormedEntries | chatgram/TGPersonas.py:89-102 | corrected, a name is registered iff some entry of that name has a model section naming only declared parameters |
| LegacyPersonas.NewLegacyBotAsWritten | chatgram/TGPersonas.py:59-75 | as written, the bot starts with no chats and no persona at all |
| LegacyPersonas.NewLegacyBot | chatgram/TGPersonas.py:59-75 | with the corrected constructor call (see Findings), the bot starts with no chats and with exactly the personas whose entries have a model section naming only declared parameters, each listed once |
| LegacyPersonas.GetChatInstance | chatgram/TGPersonas.py:104-119 | a stored id is returned with nothing changed; otherwise the next id is stored for (chat, persona), every other entry is kept and no other entry is added |
| LegacyPersonas.GetChatInstancePreservesValid | chatgram/TGPersonas.py:115-119 | lookups keep every issued id below the next id |
| LegacyPersonas.GetChatInstanceIdempotent | chatgram/TGPersonas.py:115-119 | a second lookup returns the same id and changes nothing |
| LegacyPersonas.ResetChatContext | chatgram/TGPersonas.py:229-250 | only the active persona's entry of the chat is removed, and only when the persona name is non-empty and the entry exists; every other entry is kept and nothing is added |
| LegacyPersonas.ResetPreservesValid | chatgram/TGPersonas.py:234-236 | a reset keeps every issued id below the next id |
| LegacyPersonas.ResetThenGetIsFresh | chatgram/TGPersonas.py:115-118 | after a reset, the next lookup returns an id never issued before |
| LegacyPersonas.BuildPersonaKeyboard | chatgram/TGPersonas.py:131-146 | names two to a row in order; every row has one or two buttons and only the last may have one; the rows flattened are the names' buttons |
| LegacyPersonas.ChoosePersona | chatgram/TGPersonas.py:148-183 | a command without arguments is refused with no change; a selection succeeds iff it names a registered persona, and then exactly the selected name becomes the chat's persona and the bot is exactly the one its instance lookup returns; otherwise the reply is the unknown-persona one and nothing changes; every issued id stays below the next id |
| LegacyPersonas.EchoAll | chatgram/TGPersonas.py:185-199 | "--" behaves exactly as the reset; a chat without a non-empty persona is asked to choose with nothing changed; generation happens iff the chat's non-empty active persona is registered, with its stored or new instance; an unregistered one is a key error with nothing changed; every issued id stays below the next id |
| LegacyPersonas.EchoGenerate | chatgram/TGPersonas.py:200-222 | a call with an undeclared keyword reports an error and saves nothing; otherwise the legacy turn runs, its rows are kept and its reply is sent iff it completed |
| LegacyPersonas.EchoGenerateAsWrittenNeverAnswers | chatgram/TGPersonas.py:200-222 | as written (`extra_info=`), echo_all never answers and never saves a row |
| LegacyPersonas.EchoGenerateCorrectedRunsTurn | chatgram/TGPersonas.py:200-222 | corrected, echo_all answers exactly when the legacy turn completes and keeps that turn's rows |

## Left out

- Telegram I/O is not modelled: reply texts, message editing, the three-attempt send retry in `start`, group reply threading, `help_command`, `register_handlers`, `run`, and the legacy `start`. `TelegramAdapter.Dispatch` stands in for the routing of plain texts.
- `TelegramAdapter.HandleMessage` models `_handle_message` as if every text reached it. The registered filter `Filters.text & ~Filters.command` (chatgram/personas/tg_adapter.py:283-285) keeps command texts away from it, and no command handler for "/reset" is registered. So in the running bot "/reset" most likely never reaches the reset branch. The filter itself is not modelled.
- The completion provider (OpenAI client, configuration, API key) is a function parameter. Network failures map to its failure outcome.
- YAML and environment loading (`config.py`, `load_personas_config`) are not modelled: entries are inputs.
- `load_personas_from_config` creating missing allowed users is not modelled. `Persona.allowedUsers` is given as a set of user ids.
- Commit failures are modelled only for the two message saves. Failures of user creation, instance creation, reset deletion and the adapter's final commit or rollback are not modelled.
- A read failure of the history query is not modelled.
- Row order on equal timestamps: write order stands for creation order. SQL ties are not modelled.
- `Window.GetRecentMessages`: a negative `max_messages` is excluded by its `nat` type. The database's handling of a negative LIMIT is not modelled.
- `TelegramAdapter.ResetChatContext` does not model the ORM clearing the deleted instance's id from its message rows (no delete cascade, chatgram/data/models.py:45; deletion at chatgram/personas/tg_adapter.py:259-261). The model leaves those rows carrying the old id. The difference is observable: one stored instance can serve several chats of the same user and persona (`PersonaManager.FindInstance`), and a reset removes only the resetting chat's cache entry. Another chat still cached on the deleted instance then reads, in the program, a history without those rows, while the model's `MessageStore.RowsOf` still returns them. The deleted id is never minted again (`PersonaManager.MintedIdIsFresh`), so the difference is confined to chats still cached on it.
- `TelegramAdapter.ChoosePersona`: a bare /persona from an unknown user adds a `User` to the session without committing it (chatgram/personas/tg_adapter.py:121-125), and the session does not autoflush (chatgram/data/database.py:42). The model drops that staged user. In the program it is written by the next commit of the shared session, and if that user is created again first (for example by `start`), that commit breaks the unique username constraint (chatgram/data/models.py:23). Neither outcome is modelled.
- `PersonaManager.ConfigFromSection`: a key present with a null YAML value is read as absent. In the program `.get` then returns `None`, which is stored as NULL rather than replaced by the default, and a null `model:` section makes the lookups raise `AttributeError` (chatgram/personas/manager.py:56-67).
- `Chatbot.MessageRow` stamps a new row with the same day number the window measures ages against. The source stamps rows with the database's `func.now()` (chatgram/data/models.py:105), which SQLite gives in UTC, and compares against the local `datetime.now().date()` (chatgram/core/chatbot.py:193). Near midnight a fresh row can therefore be one day off, which moves it into the past-week bucket with its two-row cap; that offset is not modelled.
- `LegacyPersonas.NewLegacyBot` states the start-up with the corrected constructor call. As written no persona loads: that is `LegacyPersonas.NewLegacyBotAsWritten`, and the defect is under Findings.
- UUIDs are modelled as distinct naturals from a counter. Only freshness matters to the logic.
- `LegacyPersonas.EchoAll` stops at the chosen persona and instance; the generate call that follows is `LegacyPersonas.EchoGenerate`, with the `extra_info=` defect under Findings.
- `LegacyPersonas.Strip`: whitespace is the ASCII set (space, tab, line feed, carriage return, vertical tab, form feed, and U+001C to U+001F). Python also strips non-ASCII Unicode whitespace.
- `temperature` and `presence_penalty` are reals passed through unchanged. Floating-point behaviour is not modelled.
- The retrieval stub (`rag/simple_retriever.py`), `main.py` and `model.py` are not part of this model.

## Findings

| source | as written | input that shows it | evidently intended | confidence | as-written member | corrected member |
|---|---|---|---|---|---|---|
| chatgram/TGPersonas.py:98-100 | `initialize_personas` calls the legacy constructor with `allowed_users=`, which the constructor (chatgram/Chatbot.py:22-28) does not declare; the TypeError is caught and the persona is skipped | any persona entry, e.g. `model: {model: gpt-3.5-turbo}` | the access list is handed to the persona and well-formed entries are registered | high, not executed | LegacyPersonas.InitializeAsWrittenLoadsNothing | LegacyPersonas.InitializeLoadsWellFormedEntries |
| chatgram/TGPersonas.py:200-222 | `echo_all` passes `extra_info=` to the legacy `generate_message` (chatgram/Chatbot.py:117-119), which declares no such parameter; the TypeError is caught and reported as an error | any text in a chat with an active persona | the turn runs and its reply is sent | high, not executed | LegacyPersonas.EchoGenerateAsWrittenNeverAnswers | LegacyPersonas.EchoGenerateCorrectedRunsTurn |
