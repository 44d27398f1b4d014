/** The chat half of `QuestGuiListener`: a chat message answers the pending
    request of its sender (`onChat`), which creates, renames or duplicates a
    quest file (`handleCreate`, `handleRename`, `handleDuplicate`). The
    source consumes the request on the chat thread and applies it later on
    the main thread; here the two steps run back to back. */
module ChatInput {
  import opened Wrappers
  import opened JavaText
  import opened QuestStore
  import opened QuestNames
  import opened Session

  /** The guild name that stands for "no guild". */
  const NoGuild: string := "Без гильдии"

  /** What the collaborators outside the model decide for one message:
      the guild `getSelectedGuild` reports, and whether the file operation
      throws an `IOException`. */
  datatype ChatEnv = ChatEnv(selectedGuild: Option<string>, ioFails: bool)

  datatype ChatOutcome =
    | Ignored                          // no pending request: an ordinary chat line
    | Cancelled
    | Conflict(target: Path)           // the target exists; the same request is armed again
    | Created(file: Path)
    | Renamed(from: Path, to: Path)
    | Duplicated(from: Path, to: Path)
    | Failed(target: Path)             // the file operation threw

  datatype ChatStep = ChatStep(outcome: ChatOutcome, world: World)

  /** `message.trim().equalsIgnoreCase("cancel")`. */
  predicate IsCancel(message: string) {
    EqualsIgnoreCase(Trim(message), "cancel")
  }

  /** The directory a new quest goes to: the quests directory when no guild
      or the no-guild sentinel is selected, else the guild's subdirectory. */
  function CreateDir(selectedGuild: Option<string>): (d: seq<string>)
    ensures selectedGuild.None? ==> d == Root
    ensures selectedGuild == Some(NoGuild) ==> d == Root
    ensures selectedGuild.Some? && selectedGuild.value != NoGuild ==>
      d == GuildDir(selectedGuild.value)
  {
    if selectedGuild.None? || selectedGuild.value == NoGuild then Root
    else GuildDir(selectedGuild.value)
  }

  /** What a step's outcome means for the quests directory: it changes only
      when a file was created, renamed or duplicated, and then exactly as
      that action says. */
  predicate StoreEffect(o: ChatOutcome, before: Store, after: Store) {
    match o
    case Created(file) =>
      && file !in before
      && after.Keys == before.Keys + {file}
      && after[file] == DefaultTemplate
      && forall q :: q in before ==> after[q] == before[q]
    case Renamed(from, to) =>
      && from in before && to !in before
      && after.Keys == before.Keys - {from} + {to}
      && after[to] == before[from]
      && forall q :: q in before && q != from ==> after[q] == before[q]
    case Duplicated(from, to) =>
      && from in before && to !in before
      && after.Keys == before.Keys + {to}
      && after[to] == before[from]
      && forall q :: q in before ==> after[q] == before[q]
    case _ => after == before
  }

  /** A rename leaves the old path empty and the content under the new one. */
  lemma RenamedStore(from: Path, to: Path, before: Store, after: Store)
    requires StoreEffect(Renamed(from, to), before, after)
    ensures from !in after && to in after && after[to] == before[from]
  {
  }

  /** A duplicate puts the content of the source under the new path and
      keeps the source. */
  lemma DuplicatedStore(from: Path, to: Path, before: Store, after: Store)
    requires StoreEffect(Duplicated(from, to), before, after)
    ensures from in after && to in after && after[to] == before[from] && after[from] == before[from]
  {
  }

  /** What a step's outcome means for the pending requests of `player`,
      answering `request`: only a conflict arms one, the same one again;
      every other player's request is kept. */
  ghost predicate PendingEffect(o: ChatOutcome, player: PlayerId, request: ChatRequest,
                          before: map<PlayerId, ChatRequest>, after: map<PlayerId, ChatRequest>) {
    && (o.Conflict? ==> Get(after, player) == Some(request))
    && (!o.Conflict? ==> Get(after, player) == Get(before, player))
    && forall p :: p != player ==> Get(after, p) == Get(before, p)
  }

  /** `handleCreate`: refuses an existing target and arms a new create
      request; otherwise writes the default template and opens the editor
      on the new file. */
  function HandleCreate(w: World, player: PlayerId, fileName: string, env: ChatEnv): (r: ChatStep)
    ensures var target := ResolveQuestFile(CreateDir(env.selectedGuild), fileName);
      && (target in w.store ==>
            && r.outcome == Conflict(target)
            && r.world.manager == BeginChatInput(w.manager, player, Create))
      && (target !in w.store && env.ioFails ==>
            r.outcome == Failed(target) && r.world == w)
      && (target !in w.store && !env.ioFails ==>
            && r.outcome == Created(target)
            && Get(r.world.manager.editingQuest, player) == Some(target)
            && r.world.manager == w.manager.(editingQuest := w.manager.editingQuest[player := target]))
    ensures StoreEffect(r.outcome, w.store, r.world.store)
    ensures PendingEffect(r.outcome, player, Create,
                          w.manager.pendingChatInputs, r.world.manager.pendingChatInputs)
  {
    var target := ResolveQuestFile(CreateDir(env.selectedGuild), fileName);
    if target in w.store then
      ChatStep(Conflict(target), World(BeginChatInput(w.manager, player, Create), w.store))
    else
      match WriteFile(w.store, target, DefaultTemplate, env.ioFails)
      case IoError => ChatStep(Failed(target), w)
      case Done(s') =>
        // only the editing record outlives `openEditor` here; the book's
        // pages, and so the outcome of its read, are not part of the step
        ChatStep(Created(target), World(OpenEditor(w.manager, s', player, target, false).manager, s'))
  }

  /** `handleRename`: the new name always resolves in the quests directory,
      not in the quest's own directory. An existing target re-arms the same
      rename; otherwise the file moves and becomes the selected quest. */
  function HandleRename(w: World, player: PlayerId, quest: Path, fileName: string, env: ChatEnv)
    : (r: ChatStep)
    ensures var target := ResolveQuestFile(Root, fileName);
      && (target in w.store ==>
            && r.outcome == Conflict(target)
            && r.world.manager == BeginChatInput(w.manager, player, Rename(quest)))
      && (target !in w.store && (env.ioFails || quest !in w.store) ==>
            r.outcome == Failed(target) && r.world == w)
      && (target !in w.store && !env.ioFails && quest in w.store ==>
            && r.outcome == Renamed(quest, target)
            && r.world.manager == SelectQuest(w.manager, player, target))
    ensures StoreEffect(r.outcome, w.store, r.world.store)
    ensures PendingEffect(r.outcome, player, Rename(quest),
                          w.manager.pendingChatInputs, r.world.manager.pendingChatInputs)
  {
    var target := ResolveQuestFile(Root, fileName);
    if target in w.store then
      ChatStep(Conflict(target), World(BeginChatInput(w.manager, player, Rename(quest)), w.store))
    else
      match MoveFile(w.store, quest, target, env.ioFails)
      case IoError => ChatStep(Failed(target), w)
      case Done(s') => ChatStep(Renamed(quest, target), World(SelectQuest(w.manager, player, target), s'))
  }

  /** `handleDuplicate`: like a rename, but the source file stays. */
  function HandleDuplicate(w: World, player: PlayerId, quest: Path, fileName: string, env: ChatEnv)
    : (r: ChatStep)
    ensures var target := ResolveQuestFile(Root, fileName);
      && (target in w.store ==>
            && r.outcome == Conflict(target)
            && r.world.manager == BeginChatInput(w.manager, player, Duplicate(quest)))
      && (target !in w.store && (env.ioFails || quest !in w.store) ==>
            r.outcome == Failed(target) && r.world == w)
      && (target !in w.store && !env.ioFails && quest in w.store ==>
            && r.outcome == Duplicated(quest, target)
            && r.world.manager == SelectQuest(w.manager, player, target))
    ensures StoreEffect(r.outcome, w.store, r.world.store)
    ensures PendingEffect(r.outcome, player, Duplicate(quest),
                          w.manager.pendingChatInputs, r.world.manager.pendingChatInputs)
  {
    var target := ResolveQuestFile(Root, fileName);
    if target in w.store then
      ChatStep(Conflict(target), World(BeginChatInput(w.manager, player, Duplicate(quest)), w.store))
    else
      match CopyFile(w.store, quest, target, env.ioFails)
      case IoError => ChatStep(Failed(target), w)
      case Done(s') => ChatStep(Duplicated(quest, target), World(SelectQuest(w.manager, player, target), s'))
  }

  /** Hands a consumed request to its handler. */
  function Dispatch(w: World, player: PlayerId, request: ChatRequest, fileName: string, env: ChatEnv)
    : (r: ChatStep)
    requires player !in w.manager.pendingChatInputs
    ensures r.outcome != Ignored && r.outcome != Cancelled
    ensures StoreEffect(r.outcome, w.store, r.world.store)
    ensures PendingEffect(r.outcome, player, request,
                          w.manager.pendingChatInputs, r.world.manager.pendingChatInputs)
    ensures r.outcome.Renamed? || r.outcome.Duplicated? ==> r.outcome.to.dir == Root
    ensures r.outcome.Created? ==> r.outcome.file.dir == CreateDir(env.selectedGuild)
  {
    match request
    case Create => HandleCreate(w, player, fileName, env)
    case Rename(quest) => HandleRename(w, player, quest, fileName, env)
    case Duplicate(quest) => HandleDuplicate(w, player, quest, fileName, env)
  }

  /** `onChat`: consumes the sender's request before anything else; a
      message without one is left alone, `cancel` in any case only drops the
      request, and anything else is handed to the request's handler with the
      trimmed message as the proposed file name. */
  function OnChat(w: World, player: PlayerId, message: string, env: ChatEnv): (r: ChatStep)
    // no pending request: nothing happens
    ensures player !in w.manager.pendingChatInputs <==> r.outcome == Ignored
    ensures r.outcome == Ignored ==> r.world == w
    // cancel: the request is gone and no file changes
    ensures player in w.manager.pendingChatInputs && IsCancel(message) ==>
      && r.outcome == Cancelled
      && r.world.manager == ConsumeChatInput(w.manager, player).manager
    ensures r.outcome == Cancelled ==> IsCancel(message)
    // the request is answered once: only a conflict leaves one pending, and it is the same one
    ensures r.outcome.Conflict? ==>
      Get(r.world.manager.pendingChatInputs, player) == Get(w.manager.pendingChatInputs, player)
    ensures !r.outcome.Conflict? && !r.outcome.Ignored? ==>
      player !in r.world.manager.pendingChatInputs
    // other players' requests are untouched
    ensures forall p :: p != player ==>
      Get(r.world.manager.pendingChatInputs, p) == Get(w.manager.pendingChatInputs, p)
    // the store changes only on success, and then exactly as the action says
    ensures StoreEffect(r.outcome, w.store, r.world.store)
    // a rename or a duplicate always lands in the quests directory
    ensures r.outcome.Renamed? || r.outcome.Duplicated? ==> r.outcome.to.dir == Root
    ensures r.outcome.Created? ==> r.outcome.file.dir == CreateDir(env.selectedGuild)
  {
    var c := ConsumeChatInput(w.manager, player);
    if c.request.None? then ChatStep(Ignored, w)
    else
      var text := Trim(message);
      if EqualsIgnoreCase(text, "cancel") then ChatStep(Cancelled, World(c.manager, w.store))
      else Dispatch(World(c.manager, w.store), player, c.request.value, text, env)
  }

  /** The message of the scenario below is no cancel and names
      `strength_quest.yml` in the quests directory. */
  lemma StrengthQuestMessage()
    ensures Trim("strength quest") == "strength quest"
    ensures !IsCancel("strength quest")
    ensures ResolveQuestFile(CreateDir(None), "strength quest") == Path(Root, "strength_quest.yml")
  {
    var s := "strength quest";
    SanitizeExample();
    assert Trim(s) == s;
    assert !EqualsIgnoreCase(s, "cancel");
  }

  /** A create answered in an empty quests directory with no guild selected
      makes `strength_quest.yml`; answering a second create the same way is
      refused and re-arms the create request. */
  lemma CreateScenario(m: Manager, player: PlayerId)
    requires Get(m.pendingChatInputs, player) == Some(Create)
    ensures var env := ChatEnv(None, false);
      var first := OnChat(World(m, map[]), player, "strength quest", env);
      var target := Path(Root, "strength_quest.yml");
      && first.outcome == Created(target)
      && first.world.store.Keys == {target}
      && var again := BeginChatInput(first.world.manager, player, Create);
         var second := OnChat(World(again, first.world.store), player, "strength quest", env);
         && second.outcome == Conflict(target)
         && second.world.store == first.world.store
         && Get(second.world.manager.pendingChatInputs, player) == Some(Create)
  {
    var env := ChatEnv(None, false);
    var s := "strength quest";
    var target := Path(Root, "strength_quest.yml");
    StrengthQuestMessage();
    AnswerPending(World(m, map[]), player, s, env);
    var first := OnChat(World(m, map[]), player, s, env);
    var again := BeginChatInput(first.world.manager, player, Create);
    AnswerPending(World(again, first.world.store), player, s, env);
  }

  /** A pending request answered with anything but `cancel` goes to its
      handler with the trimmed message. */
  lemma AnswerPending(w: World, player: PlayerId, message: string, env: ChatEnv)
    requires player in w.manager.pendingChatInputs
    requires !IsCancel(message)
    ensures var c := ConsumeChatInput(w.manager, player);
      OnChat(w, player, message, env)
        == Dispatch(World(c.manager, w.store), player, w.manager.pendingChatInputs[player], Trim(message), env)
  {
    var c := ConsumeChatInput(w.manager, player);
    assert c.request == Some(w.manager.pendingChatInputs[player]);
    assert !EqualsIgnoreCase(Trim(message), "cancel");
  }
}
