/**
 * The superseded single-file Telegram bot: personas loaded from YAML with a parsed
 * access list, an in-memory map from (chat, persona) to a chat-instance id, a two-per-row
 * keyboard, persona selection, and the "--" reset sentinel.
 */
module LegacyPersonas {
  import opened Wrappers
  import LegacyChatbot

  /** A keyword-argument value of a persona's `model` section. */
  datatype ArgValue = Text(s: string) | Number(n: int)

  /** A constructed legacy chatbot: its three settings and its access list. */
  datatype LegacyPersona = LegacyPersona(systemMessage: ArgValue, model: ArgValue, tokens: ArgValue,
                                         allowedUsers: Option<seq<string>>)

  /** One persona entry of the YAML file: its `model` mapping and raw `allowed_users` text, when present. */
  datatype PersonaYaml = PersonaYaml(model: Option<map<string, ArgValue>>, allowedUsers: Option<string>)

  datatype InitError = MissingModel | UnexpectedKeyword

  /** The keyword parameters the legacy Chatbot constructor declares. */
  const ConstructorParameters: set<string> := {"system_message", "model", "tokens", "db_path"}
  const AllowedUsersKeyword: string := "allowed_users"

  const DefaultSystemMessage: ArgValue := Text("Your name is Turbo")
  const DefaultModel: ArgValue := Text("gpt-3.5-turbo")
  const DefaultTokens: ArgValue := Number(750)

  function ArgOr(args: map<string, ArgValue>, key: string, default: ArgValue): ArgValue
  {
    if key in args then args[key] else default
  }

  // ----- access-list parsing -----

  /**
   * Python's default `str.strip` set, restricted to ASCII: space, tab, line feed, carriage
   * return, vertical tab, form feed, and the separators U+001C to U+001F.
   */
  predicate IsSpace(c: char)
  {
    || c == ' ' || c == '\t' || c == '\n' || c == '\r' || c == '\U{B}' || c == '\U{C}'
    || c == '\U{1C}' || c == '\U{1D}' || c == '\U{1E}' || c == '\U{1F}'
  }

  /** `str.split(sep)`: the pieces between separators, empty pieces included. */
  function Split(s: string, sep: char): (parts: seq<string>)
    ensures |parts| >= 1
    ensures forall i :: 0 <= i < |parts| ==> sep !in parts[i]
    ensures Join(parts, sep) == s
  {
    if |s| == 0 then [""]
    else
      var rest := Split(s[1..], sep);
      if s[0] == sep then
        assert ([""] + rest)[1..] == rest;
        [""] + rest
      else
        var parts := [[s[0]] + rest[0]] + rest[1..];
        assert parts[1..] == rest[1..];
        assert |rest| > 1 ==> Join(rest, sep) == rest[0] + [sep] + Join(rest[1..], sep);
        assert s == [s[0]] + s[1..];
        parts
  }

  /** `sep.join(parts)`. */
  function Join(parts: seq<string>, sep: char): string
    requires |parts| >= 1
  {
    if |parts| == 1 then parts[0] else parts[0] + [sep] + Join(parts[1..], sep)
  }

  lemma {:induction false} SplitWithoutSeparator(p: string, sep: char)
    requires sep !in p
    decreases |p|
    ensures Split(p, sep) == [p]
  {
    if |p| > 0 {
      SplitWithoutSeparator(p[1..], sep);
      assert [p[0]] + p[1..] == p;
    }
  }

  lemma {:induction false} SplitAfterPiece(p: string, sep: char, t: string)
    requires sep !in p
    decreases |p|
    ensures Split(p + [sep] + t, sep) == [p] + Split(t, sep)
  {
    if |p| == 0 {
      assert p + [sep] + t == [sep] + t;
      assert ([sep] + t)[1..] == t;
    } else {
      var s := p + [sep] + t;
      assert s[1..] == p[1..] + [sep] + t;
      SplitAfterPiece(p[1..], sep, t);
      assert [p[0]] + p[1..] == p;
    }
  }

  /** Splitting a join of separator-free pieces gives the pieces back. */
  lemma {:induction false} SplitJoinRoundTrip(parts: seq<string>, sep: char)
    requires |parts| >= 1
    requires forall i :: 0 <= i < |parts| ==> sep !in parts[i]
    decreases |parts|
    ensures Split(Join(parts, sep), sep) == parts
  {
    if |parts| == 1 {
      SplitWithoutSeparator(parts[0], sep);
    } else {
      SplitJoinRoundTrip(parts[1..], sep);
      SplitAfterPiece(parts[0], sep, Join(parts[1..], sep));
      assert [parts[0]] + parts[1..] == parts;
    }
  }

  /** Drop leading whitespace. */
  function StripLeft(s: string): (r: string)
    ensures |r| <= |s| && r == s[|s| - |r|..]
    ensures forall k :: 0 <= k < |s| - |r| ==> IsSpace(s[k])
    ensures |r| > 0 ==> !IsSpace(r[0])
  {
    if |s| > 0 && IsSpace(s[0]) then StripLeft(s[1..]) else s
  }

  /** Drop trailing whitespace. */
  function StripRight(s: string): (r: string)
    ensures |r| <= |s| && r == s[..|r|]
    ensures forall k :: |r| <= k < |s| ==> IsSpace(s[k])
    ensures |r| > 0 ==> !IsSpace(r[|r| - 1])
  {
    if |s| > 0 && IsSpace(s[|s| - 1]) then StripRight(s[..|s| - 1]) else s
  }

  /** `r` is `s` from position `a` on, with only whitespace before it and after it. */
  predicate TrimmedAt(s: string, r: string, a: int)
  {
    && 0 <= a <= |s| - |r| && r == s[a..a + |r|]
    && (forall k :: 0 <= k < a ==> IsSpace(s[k]))
    && (forall k :: a + |r| <= k < |s| ==> IsSpace(s[k]))
  }

  /** `str.strip()`: the text between the leading and trailing whitespace. */
  function Strip(s: string): (r: string)
    ensures |r| <= |s|
    ensures |r| > 0 ==> !IsSpace(r[0]) && !IsSpace(r[|r| - 1])
    ensures (forall k :: 0 <= k < |s| ==> IsSpace(s[k])) ==> r == []
    ensures |s| > 0 && !IsSpace(s[0]) && !IsSpace(s[|s| - 1]) ==> r == s
    // the result is the text with only outer whitespace removed
    ensures exists a :: TrimmedAt(s, r, a)
  {
    var l := StripLeft(s);
    var r := StripRight(l);
    assert |r| > 0 ==> r[0] == l[0];
    assert |l| > 0 ==> l[0] == s[|s| - |l|];
    assert |r| > 0 ==> r == s[|s| - |l|..][..|r|];
    TrimmedBetween(s, l, r);
    r
  }

  /** Leading whitespace cut from `s` gives `l`, trailing whitespace cut from `l` gives `r`. */
  lemma TrimmedBetween(s: string, l: string, r: string)
    requires |l| <= |s| && l == s[|s| - |l|..]
    requires forall k :: 0 <= k < |s| - |l| ==> IsSpace(s[k])
    requires |r| <= |l| && r == l[..|r|]
    requires forall k :: |r| <= k < |l| ==> IsSpace(l[k])
    ensures TrimmedAt(s, r, |s| - |l|)
  {
    var a := |s| - |l|;
    forall k | a + |r| <= k < |s|
      ensures IsSpace(s[k])
    {
      assert s[k] == l[k - a];
    }
  }

  /**
   * The access list of a persona entry: None without the key, otherwise the
   * comma-separated pieces, each stripped, in order.
   */
  function ParseAllowedUsers(raw: Option<string>): (users: Option<seq<string>>)
    ensures users.None? <==> raw.None?
    ensures users.Some? ==> var parts := Split(raw.value, ',');
                            |users.value| == |parts| && forall k :: 0 <= k < |parts| ==> users.value[k] == Strip(parts[k])
  {
    match raw
    case None => None
    case Some(s) =>
      var parts := Split(s, ',');
      Some(seq(|parts|, k requires 0 <= k < |parts| => Strip(parts[k])))
  }

  /** Names written without commas or surrounding blanks and joined by commas parse back to themselves. */
  lemma {:induction false} ParseJoinedNames(names: seq<string>)
    requires |names| >= 1
    requires forall i :: 0 <= i < |names| ==> ',' !in names[i] && Strip(names[i]) == names[i]
    ensures ParseAllowedUsers(Some(Join(names, ','))) == Some(names)
  {
    var parts := Split(Join(names, ','), ',');
    SplitJoinRoundTrip(names, ',');
    assert parts == names;
    var users := ParseAllowedUsers(Some(Join(names, ',')));
    assert |users.value| == |names|;
    forall k | 0 <= k < |names|
      ensures users.value[k] == names[k]
    {
      assert users.value[k] == Strip(parts[k]);
    }
    assert users.value == names;
  }

  // ----- persona initialisation -----

  /** Calling the legacy constructor with these keywords: an undeclared keyword raises. */
  function CallConstructor(keywords: set<string>, args: map<string, ArgValue>, allowedUsers: Option<seq<string>>): (r: Result<LegacyPersona, InitError>)
    ensures r.Ok? <==> keywords <= ConstructorParameters
  {
    if !(keywords <= ConstructorParameters) then Err(UnexpectedKeyword)
    else Ok(LegacyPersona(ArgOr(args, "system_message", DefaultSystemMessage), ArgOr(args, "model", DefaultModel),
                          ArgOr(args, "tokens", DefaultTokens), allowedUsers))
  }

  /** The call as written: the model section plus `allowed_users=`, which the constructor does not declare. */
  function ConstructAsWritten(args: map<string, ArgValue>, allowedUsers: Option<seq<string>>): Result<LegacyPersona, InitError>
  {
    CallConstructor(args.Keys + {AllowedUsersKeyword}, args, allowedUsers)
  }

  /** The evidently intended call: the access list is handed over beside the model section. */
  function Construct(args: map<string, ArgValue>, allowedUsers: Option<seq<string>>): (r: Result<LegacyPersona, InitError>)
    ensures r.Ok? <==> args.Keys <= ConstructorParameters
    ensures r.Ok? ==> r.value.allowedUsers == allowedUsers
                      && r.value.systemMessage == ArgOr(args, "system_message", DefaultSystemMessage)
                      && r.value.model == ArgOr(args, "model", DefaultModel)
                      && r.value.tokens == ArgOr(args, "tokens", DefaultTokens)
  {
    CallConstructor(args.Keys, args, allowedUsers)
  }

  /** The as-written call raises for every model section. */
  lemma ConstructAsWrittenAlwaysRaises(args: map<string, ArgValue>, allowedUsers: Option<seq<string>>)
    ensures ConstructAsWritten(args, allowedUsers).Err?
  {
    assert AllowedUsersKeyword !in ConstructorParameters;
    assert AllowedUsersKeyword in args.Keys + {AllowedUsersKeyword};
  }

  /** One entry: parse the access list, then construct; a missing model section raises. */
  function InitOne(data: PersonaYaml, construct: (map<string, ArgValue>, Option<seq<string>>) -> Result<LegacyPersona, InitError>)
    : Result<LegacyPersona, InitError>
  {
    match data.model
    case None => Err(MissingModel)
    case Some(args) => construct(args, ParseAllowedUsers(data.allowedUsers))
  }

  datatype Loaded = Loaded(personas: map<string, LegacyPersona>, names: seq<string>)

  /** The names list every registered persona exactly once, as iterating the dict does. */
  predicate NamesListed(l: Loaded)
  {
    && (forall i :: 0 <= i < |l.names| ==> l.names[i] in l.personas)
    && (forall name :: name in l.personas ==> name in l.names)
    && (forall i, j :: 0 <= i < j < |l.names| ==> l.names[i] != l.names[j])
  }

  /** `self.personas[name] = ...`: a new key goes to the end of the order, an existing one keeps its place. */
  function Register(l: Loaded, name: string, p: LegacyPersona): Loaded
  {
    Loaded(l.personas[name := p], if name in l.personas then l.names else l.names + [name])
  }

  lemma RegisterKeepsNamesListed(l: Loaded, name: string, p: LegacyPersona)
    requires NamesListed(l)
    ensures NamesListed(Register(l, name, p))
    ensures |Register(l, name, p).names| <= |l.names| + 1
  {
    if name !in l.personas {
      assert name !in l.names;
      var names := l.names + [name];
      forall i, j | 0 <= i < j < |names|
        ensures names[i] != names[j]
      {
        if j == |l.names| {
          assert names[i] == l.names[i];
        }
      }
    }
  }

  /**
   * initialize_personas: every entry whose construction raises is skipped; the others are
   * registered in file order.
   */
  function Initialize(entries: seq<(string, PersonaYaml)>,
                      construct: (map<string, ArgValue>, Option<seq<string>>) -> Result<LegacyPersona, InitError>): (l: Loaded)
    decreases |entries|
    ensures forall name :: name in l.personas <==>
              exists i :: 0 <= i < |entries| && entries[i].0 == name && InitOne(entries[i].1, construct).Ok?
    ensures NamesListed(l)
    ensures |l.names| <= |entries|
  {
    if |entries| == 0 then Loaded(map[], [])
    else
      var prev := Initialize(entries[..|entries| - 1], construct);
      var (name, data) := entries[|entries| - 1];
      assert forall i :: 0 <= i < |entries| - 1 ==> entries[..|entries| - 1][i] == entries[i];
      match InitOne(data, construct)
      case Err(_) => prev
      case Ok(p) =>
        RegisterKeepsNamesListed(prev, name, p);
        Register(prev, name, p)
  }

  /** As written, no persona is ever registered. */
  lemma InitializeAsWrittenLoadsNothing(entries: seq<(string, PersonaYaml)>)
    ensures Initialize(entries, ConstructAsWritten).personas == map[]
  {
    forall i | 0 <= i < |entries|
      ensures InitOne(entries[i].1, ConstructAsWritten).Err?
    {
      if entries[i].1.model.Some? {
        ConstructAsWrittenAlwaysRaises(entries[i].1.model.value, ParseAllowedUsers(entries[i].1.allowedUsers));
      }
    }
  }

  /** Corrected, an entry is registered iff it has a model section that names only declared keywords. */
  lemma InitializeLoadsWellFormedEntries(entries: seq<(string, PersonaYaml)>, name: string)
    ensures name in Initialize(entries, Construct).personas <==>
              exists i :: 0 <= i < |entries| && entries[i].0 == name && entries[i].1.model.Some?
                          && entries[i].1.model.value.Keys <= ConstructorParameters
  {
    if name in Initialize(entries, Construct).personas {
      var i :| 0 <= i < |entries| && entries[i].0 == name && InitOne(entries[i].1, Construct).Ok?;
      assert entries[i].1.model.Some?;
    }
  }

  // ----- in-memory registry -----

  /** The bot's state: personas and their order, chat -> persona -> instance id, active persona per chat, next id. */
  datatype LegacyBot = LegacyBot(
    personas: map<string, LegacyPersona>,
    names: seq<string>,
    chatInstances: map<int, map<string, nat>>,
    chatPersonas: map<int, string>,
    nextId: nat)

  /** Every id handed out so far is below the next one. */
  predicate LegacyValid(b: LegacyBot)
  {
    forall chat, persona :: chat in b.chatInstances && persona in b.chatInstances[chat] ==>
      b.chatInstances[chat][persona] < b.nextId
  }

  /** get_chat_instance: the stored id, or a fresh one stored for (chat, persona). */
  function GetChatInstance(b: LegacyBot, chatId: int, persona: string): (r: (LegacyBot, nat))
    ensures chatId in r.0.chatInstances && persona in r.0.chatInstances[chatId] && r.0.chatInstances[chatId][persona] == r.1
    ensures chatId in b.chatInstances && persona in b.chatInstances[chatId] ==> r == (b, b.chatInstances[chatId][persona])
    ensures !(chatId in b.chatInstances && persona in b.chatInstances[chatId]) ==>
              r.1 == b.nextId && r.0.nextId == b.nextId + 1
    ensures r.0.personas == b.personas && r.0.names == b.names && r.0.chatPersonas == b.chatPersonas
    ensures forall chat, p :: chat in b.chatInstances && p in b.chatInstances[chat] ==>
              chat in r.0.chatInstances && p in r.0.chatInstances[chat]
              && r.0.chatInstances[chat][p] == b.chatInstances[chat][p]
    ensures forall chat, p :: chat in r.0.chatInstances && p in r.0.chatInstances[chat] ==>
              (chat == chatId && p == persona) || (chat in b.chatInstances && p in b.chatInstances[chat])
  {
    var inner := if chatId in b.chatInstances then b.chatInstances[chatId] else map[];
    if persona in inner then (b, inner[persona])
    else (b.(chatInstances := b.chatInstances[chatId := inner[persona := b.nextId]], nextId := b.nextId + 1), b.nextId)
  }

  /** The bot at start-up as written: the as-written constructor call registers no persona. */
  function NewLegacyBotAsWritten(entries: seq<(string, PersonaYaml)>): (b: LegacyBot)
    ensures LegacyValid(b)
    ensures b.chatInstances == map[] && b.chatPersonas == map[]
    ensures b.personas == map[] && NamesListed(Loaded(b.personas, b.names))
  {
    var loaded := Initialize(entries, ConstructAsWritten);
    InitializeAsWrittenLoadsNothing(entries);
    LegacyBot(loaded.personas, loaded.names, map[], map[], 0)
  }

  /** The bot at start-up with the corrected initialisation: the well-formed entries' personas, no chats yet. */
  function NewLegacyBot(entries: seq<(string, PersonaYaml)>): (b: LegacyBot)
    ensures LegacyValid(b)
    ensures b.chatInstances == map[] && b.chatPersonas == map[]
    ensures forall name :: name in b.personas <==>
              exists i :: 0 <= i < |entries| && entries[i].0 == name && entries[i].1.model.Some?
                          && entries[i].1.model.value.Keys <= ConstructorParameters
    ensures NamesListed(Loaded(b.personas, b.names))
  {
    var loaded := Initialize(entries, Construct);
    forall name
      ensures name in loaded.personas <==>
                exists i :: 0 <= i < |entries| && entries[i].0 == name && entries[i].1.model.Some?
                            && entries[i].1.model.value.Keys <= ConstructorParameters
    {
      InitializeLoadsWellFormedEntries(entries, name);
    }
    LegacyBot(loaded.personas, loaded.names, map[], map[], 0)
  }

  lemma GetChatInstancePreservesValid(b: LegacyBot, chatId: int, persona: string)
    requires LegacyValid(b)
    ensures LegacyValid(GetChatInstance(b, chatId, persona).0)
  {
  }

  /** A second call with the same chat and persona returns the same id and changes nothing. */
  lemma GetChatInstanceIdempotent(b: LegacyBot, chatId: int, persona: string)
    ensures var r := GetChatInstance(b, chatId, persona);
            GetChatInstance(r.0, chatId, persona) == r
  {
  }

  datatype LegacyResetReply = Cleared(name: string) | NoContextFor(name: string) | NoPersonaOrContext

  /** The chat's active persona when it is set and non-empty (Python truthiness). */
  function ActivePersona(b: LegacyBot, chatId: int): Option<string>
  {
    if chatId in b.chatPersonas && b.chatPersonas[chatId] != "" then Some(b.chatPersonas[chatId]) else None
  }

  /**
   * reset_chat_context: forget the instance of the chat's active persona; every other
   * persona of the chat and every other chat keeps its instance.
   */
  function ResetChatContext(b: LegacyBot, chatId: int): (r: (LegacyBot, LegacyResetReply))
    ensures r.1.Cleared? ==> ActivePersona(b, chatId) == Some(r.1.name) && chatId in b.chatInstances
                             && r.1.name in b.chatInstances[chatId]
                             && chatId in r.0.chatInstances && r.1.name !in r.0.chatInstances[chatId]
    ensures !r.1.Cleared? ==> r.0 == b
    ensures (ActivePersona(b, chatId).Some? && chatId in b.chatInstances
             && ActivePersona(b, chatId).value in b.chatInstances[chatId]) ==> r.1.Cleared?
    ensures r.0 == b.(chatInstances := r.0.chatInstances)
    ensures forall chat, p :: (chat in b.chatInstances && p in b.chatInstances[chat]
              && (chat != chatId || Some(p) != ActivePersona(b, chatId))) ==>
              chat in r.0.chatInstances && p in r.0.chatInstances[chat]
              && r.0.chatInstances[chat][p] == b.chatInstances[chat][p]
    ensures forall chat, p :: chat in r.0.chatInstances && p in r.0.chatInstances[chat] ==>
              chat in b.chatInstances && p in b.chatInstances[chat]
  {
    match ActivePersona(b, chatId)
    case None => (b, NoPersonaOrContext)
    case Some(name) =>
      if chatId !in b.chatInstances then (b, NoPersonaOrContext)
      else if name !in b.chatInstances[chatId] then (b, NoContextFor(name))
      else (b.(chatInstances := b.chatInstances[chatId := b.chatInstances[chatId] - {name}]), Cleared(name))
  }

  lemma ResetPreservesValid(b: LegacyBot, chatId: int)
    requires LegacyValid(b)
    ensures LegacyValid(ResetChatContext(b, chatId).0)
  {
  }

  /** After a reset, the next lookup for the chat's persona returns an id never handed out before. */
  lemma ResetThenGetIsFresh(b: LegacyBot, chatId: int)
    requires LegacyValid(b)
    requires ResetChatContext(b, chatId).1.Cleared?
    ensures var r := ResetChatContext(b, chatId);
            var id := GetChatInstance(r.0, chatId, r.1.name).1;
            id >= b.nextId
            && forall chat, p :: chat in b.chatInstances && p in b.chatInstances[chat] ==> b.chatInstances[chat][p] != id
  {
  }

  // ----- keyboard -----

  datatype LegacyButton = LegacyButton(caption: string, callbackData: string)

  function ButtonsFor(names: seq<string>): (buttons: seq<LegacyButton>)
    ensures |buttons| == |names|
    ensures forall i :: 0 <= i < |names| ==> buttons[i] == LegacyButton(names[i], names[i])
  {
    seq(|names|, i requires 0 <= i < |names| => LegacyButton(names[i], names[i]))
  }

  /** The buttons of all rows, row after row. */
  function Flatten(rows: seq<seq<LegacyButton>>): seq<LegacyButton>
  {
    if |rows| == 0 then [] else Flatten(rows[..|rows| - 1]) + rows[|rows| - 1]
  }

  /**
   * build_persona_keyboard: persona names two to a row, in order; only the last row may
   * hold a single button.
   */
  method BuildPersonaKeyboard(names: seq<string>) returns (kb: seq<seq<LegacyButton>>)
    ensures |kb| == (|names| + 1) / 2
    ensures forall r :: 0 <= r < |kb| ==> 1 <= |kb[r]| <= 2
    ensures forall r :: 0 <= r < |kb| - 1 ==> |kb[r]| == 2
    ensures Flatten(kb) == ButtonsFor(names)
  {
    kb := [];
    var i := 0;
    while i < |names|
      invariant i == 2 * |kb| && i <= |names| + 1
      invariant i > |names| ==> i == |names| + 1
      invariant Flatten(kb) == ButtonsFor(names[..if i <= |names| then i else |names|])
      invariant forall r :: 0 <= r < |kb| ==> 1 <= |kb[r]| <= 2
      invariant forall r :: 0 <= r < |kb| && |kb[r]| == 1 ==> r == |kb| - 1 && i == |names| + 1
    {
      var row := [LegacyButton(names[i], names[i])];
      if i + 1 < |names| {
        row := row + [LegacyButton(names[i + 1], names[i + 1])];
      }
      assert (kb + [row])[..|kb|] == kb;
      if i + 1 < |names| {
        assert ButtonsFor(names[..i + 2]) == ButtonsFor(names[..i]) + row;
      } else {
        assert ButtonsFor(names[..i + 1]) == ButtonsFor(names[..i]) + row;
      }
      kb := kb + [row];
      i := i + 2;
    }
    assert names[..|names|] == names;
  }

  // ----- selection and dispatch -----

  datatype LegacySelection = LegacyCallback(data: string) | LegacyCommand(args: seq<string>)

  datatype LegacyChooseReply = ChoseVia(name: string) | InvalidUsage | UnknownPersona

  /**
   * choose_persona: a command without arguments is refused; a known name becomes the
   * chat's persona and gets an instance; an unknown name changes nothing.
   */
  function ChoosePersona(b: LegacyBot, chatId: int, sel: LegacySelection): (r: (LegacyBot, LegacyChooseReply))
    ensures r.1.ChoseVia? ==> r.1.name in b.personas && r.0.chatPersonas == b.chatPersonas[chatId := r.1.name]
                              && chatId in r.0.chatInstances && r.1.name in r.0.chatInstances[chatId]
    ensures r.1.ChoseVia? ==> if sel.LegacyCallback? then r.1.name == sel.data else |sel.args| > 0 && r.1.name == sel.args[0]
    ensures !(sel.LegacyCommand? && |sel.args| == 0) && !r.1.ChoseVia? ==> r.1 == UnknownPersona
    ensures r.1.ChoseVia? ==> r.0 == GetChatInstance(b.(chatPersonas := b.chatPersonas[chatId := r.1.name]), chatId, r.1.name).0
    ensures !r.1.ChoseVia? ==> r.0 == b
    ensures sel.LegacyCommand? && |sel.args| == 0 ==> r.1 == InvalidUsage
    ensures sel.LegacyCallback? ==> (r.1.ChoseVia? <==> sel.data in b.personas)
    ensures sel.LegacyCommand? && |sel.args| > 0 ==> (r.1.ChoseVia? <==> sel.args[0] in b.personas)
    ensures LegacyValid(b) ==> LegacyValid(r.0)
  {
    if sel.LegacyCommand? && |sel.args| == 0 then (b, InvalidUsage)
    else
      var name := if sel.LegacyCallback? then sel.data else sel.args[0];
      if name in b.personas then
        var got := GetChatInstance(b.(chatPersonas := b.chatPersonas[chatId := name]), chatId, name);
        (got.0, ChoseVia(name))
      else (b, UnknownPersona)
  }

  const ResetSentinel: string := "--"

  /** The keyword parameters of the legacy generate_message after its two positional ones. */
  const GenerateParameters: set<string> := {"user"}
  const ExtraInfoKeyword: string := "extra_info"
  /** The keywords echo_all passes to generate_message. */
  const EchoKeywords: set<string> := {"user", ExtraInfoKeyword}

  /** What echo_all sends after the call: the reply, or its "Error generating response" text. */
  datatype EchoOutcome = Answered(text: string) | ErrorReported

  /**
   * The generate_message call of echo_all with these keywords: an undeclared keyword
   * raises before the turn starts, so nothing is saved; otherwise the legacy turn runs and
   * its error, if any, is reported.
   */
  function EchoGenerate(keywords: set<string>, systemMessage: string, store: seq<LegacyChatbot.ChatRow>, instance: nat,
                        text: string, user: string,
                        provider: seq<LegacyChatbot.LegacyPromptMessage> -> LegacyChatbot.LegacyOutcome,
                        userSaved: bool, replySaved: bool): (r: (EchoOutcome, seq<LegacyChatbot.ChatRow>))
    ensures !(keywords <= GenerateParameters) ==> r == (ErrorReported, store)
    ensures keywords <= GenerateParameters ==>
              var t := LegacyChatbot.GenerateMessage(systemMessage, store, instance, text, user, provider, userSaved, replySaved);
              && r.1 == t.1
              && (r.0.Answered? <==> t.0.Ok?)
              && (t.0.Ok? ==> r.0.text == t.0.value)
  {
    if !(keywords <= GenerateParameters) then (ErrorReported, store)
    else
      var t := LegacyChatbot.GenerateMessage(systemMessage, store, instance, text, user, provider, userSaved, replySaved);
      (if t.0.Ok? then Answered(t.0.value) else ErrorReported, t.1)
  }

  /** As written, echo_all never answers: the extra keyword raises and no row is saved. */
  lemma EchoGenerateAsWrittenNeverAnswers(systemMessage: string, store: seq<LegacyChatbot.ChatRow>, instance: nat,
                                          text: string, user: string,
                                          provider: seq<LegacyChatbot.LegacyPromptMessage> -> LegacyChatbot.LegacyOutcome,
                                          userSaved: bool, replySaved: bool)
    ensures EchoGenerate(EchoKeywords, systemMessage, store, instance, text, user, provider, userSaved, replySaved)
            == (ErrorReported, store)
  {
    assert ExtraInfoKeyword in EchoKeywords && ExtraInfoKeyword !in GenerateParameters;
  }

  /**
   * Corrected, without `extra_info=`, echo_all answers exactly when the legacy turn
   * completes, and keeps the rows that turn saves.
   */
  lemma EchoGenerateCorrectedRunsTurn(systemMessage: string, store: seq<LegacyChatbot.ChatRow>, instance: nat,
                                      text: string, user: string,
                                      provider: seq<LegacyChatbot.LegacyPromptMessage> -> LegacyChatbot.LegacyOutcome,
                                      userSaved: bool, replySaved: bool)
    ensures var r := EchoGenerate(EchoKeywords - {ExtraInfoKeyword}, systemMessage, store, instance, text, user,
                                  provider, userSaved, replySaved);
            var t := LegacyChatbot.GenerateMessage(systemMessage, store, instance, text, user, provider, userSaved, replySaved);
            r == (if t.0.Ok? then Answered(t.0.value) else ErrorReported, t.1)
  {
    assert EchoKeywords - {ExtraInfoKeyword} == {"user"} by {
      assert "user" != ExtraInfoKeyword;
    }
  }

  datatype EchoReply = ResetReplied(reply: LegacyResetReply) | GenerateWith(persona: string, instance: nat)
                     | ChooseFirst | PersonaKeyError(name: string)

  /**
   * echo_all up to the generation call: "--" resets; an active persona gets its instance
   * for generation; a chat without one is asked to choose.
   */
  function EchoAll(b: LegacyBot, chatId: int, text: string): (r: (LegacyBot, EchoReply))
    ensures text == ResetSentinel ==> r.1.ResetReplied? && r == (ResetChatContext(b, chatId).0, ResetReplied(ResetChatContext(b, chatId).1))
    ensures r.1.GenerateWith? ==> text != ResetSentinel && ActivePersona(b, chatId) == Some(r.1.persona)
                                  && r.1.persona in b.personas
                                  && chatId in r.0.chatInstances && r.1.persona in r.0.chatInstances[chatId]
                                  && r.0.chatInstances[chatId][r.1.persona] == r.1.instance
    ensures r.1.GenerateWith? ==> (r.0, r.1.instance) == GetChatInstance(b, chatId, r.1.persona)
    ensures text != ResetSentinel && ActivePersona(b, chatId).None? ==> r == (b, ChooseFirst)
    ensures text != ResetSentinel && ActivePersona(b, chatId).Some? && ActivePersona(b, chatId).value in b.personas ==>
              r.1.GenerateWith?
    ensures text != ResetSentinel && ActivePersona(b, chatId).Some? && ActivePersona(b, chatId).value !in b.personas ==>
              r == (b, PersonaKeyError(ActivePersona(b, chatId).value))
    ensures r.0.chatPersonas == b.chatPersonas
    ensures LegacyValid(b) ==> LegacyValid(r.0)
  {
    if text == ResetSentinel then
      var reset := ResetChatContext(b, chatId);
      (reset.0, ResetReplied(reset.1))
    else match ActivePersona(b, chatId)
      case None => (b, ChooseFirst)
      case Some(name) =>
        if name !in b.personas then (b, PersonaKeyError(name))
        else
          var got := GetChatInstance(b, chatId, name);
          (got.0, GenerateWith(name, got.1))
  }
}
