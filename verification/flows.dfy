/** Whole interactions of a player with the editor, each a click followed by
    a chat answer or a second click, stated over the handlers of
    `QuestGuiListener`. */
module Flows {
  import opened Wrappers
  import opened JavaText
  import opened QuestStore
  import opened QuestNames
  import opened Session
  import opened ChatInput
  import opened Clicks
  import Pagination

  /** Renaming from the quest menu: the name tag arms a rename of the
      selected quest; a free name then moves the file into the quests
      directory and selects it there. */
  lemma RenameFlow(w: World, player: PlayerId, item: Clicked, message: string)
    requires player in w.manager.selectedQuest && w.manager.selectedQuest[player] in w.store
    requires item.material == NameTag
    requires !IsCancel(message)
    requires ResolveQuestFile(Root, message) !in w.store
    ensures var q := w.manager.selectedQuest[player];
      var target := ResolveQuestFile(Root, message);
      var click := QuestMenuClick(w, player, item, false);
      var answer := OnChat(click.world, player, message, ChatEnv(None, false));
      && click.screen == Closed
      && answer.outcome == Renamed(q, target)
      && q !in answer.world.store && target in answer.world.store
      && answer.world.store[target] == w.store[q]
      && Get(answer.world.manager.selectedQuest, player) == Some(target)
      && player !in answer.world.manager.pendingChatInputs
  {
    var q := w.manager.selectedQuest[player];
    var target := ResolveQuestFile(Root, message);
    NameTagArmsRename(w, player, item);
    var click := QuestMenuClick(w, player, item, false);
    RenameAnswered(click.world, player, q, message);
    ResolveTrimmed(Root, message);
    var answer := OnChat(click.world, player, message, ChatEnv(None, false));
    RenamedStore(q, target, w.store, answer.world.store);
  }

  /** The name tag closes the quest menu and arms a rename of the selected
      quest. */
  lemma NameTagArmsRename(w: World, player: PlayerId, item: Clicked)
    requires player in w.manager.selectedQuest
    requires item.material == NameTag
    ensures QuestMenuClick(w, player, item, false)
         == ClickStep(Closed, World(BeginChatInput(w.manager, player, Rename(w.manager.selectedQuest[player])), w.store))
  {
  }

  /** A pending rename answered with anything but `cancel` goes to
      `handleRename` with the trimmed message. */
  lemma RenameAnswered(w: World, player: PlayerId, q: Path, message: string)
    requires Get(w.manager.pendingChatInputs, player) == Some(Rename(q))
    requires !IsCancel(message)
    ensures var c := ConsumeChatInput(w.manager, player);
      OnChat(w, player, message, ChatEnv(None, false))
        == HandleRename(World(c.manager, w.store), player, q, Trim(message), ChatEnv(None, false))
  {
    AnswerPending(w, player, message, ChatEnv(None, false));
  }

  /** Duplicating from the quest menu: the labelled paper arms a duplicate of
      the selected quest; a free name then copies the file and selects the
      copy, and the original stays. */
  lemma DuplicateFlow(w: World, player: PlayerId, message: string)
    requires player in w.manager.selectedQuest && w.manager.selectedQuest[player] in w.store
    requires !IsCancel(message)
    requires ResolveQuestFile(Root, message) !in w.store
    ensures var q := w.manager.selectedQuest[player];
      var target := ResolveQuestFile(Root, message);
      var click := QuestMenuClick(w, player, DuplicateButton, false);
      var answer := OnChat(click.world, player, message, ChatEnv(None, false));
      && click.screen == Closed
      && answer.outcome == Duplicated(q, target)
      && answer.world.store.Keys == w.store.Keys + {target}
      && answer.world.store[target] == w.store[q]
      && answer.world.store[q] == w.store[q]
      && Get(answer.world.manager.selectedQuest, player) == Some(target)
  {
    var q := w.manager.selectedQuest[player];
    var target := ResolveQuestFile(Root, message);
    PaperArmsDuplicate(w, player);
    var click := QuestMenuClick(w, player, DuplicateButton, false);
    DuplicateAnswered(click.world, player, q, message);
    ResolveTrimmed(Root, message);
    var answer := OnChat(click.world, player, message, ChatEnv(None, false));
    DuplicatedStore(q, target, w.store, answer.world.store);
  }

  /** The duplicate button of the quest menu: a paper named "Duplicate
      quest" in aqua. */
  const DuplicateButton: Clicked := Clicked(Paper, Some([ColorChar, 'b'] + "Duplicate quest"))

  /** The duplicate button closes the quest menu and arms a duplicate of the
      selected quest. */
  lemma PaperArmsDuplicate(w: World, player: PlayerId)
    requires player in w.manager.selectedQuest
    ensures QuestMenuClick(w, player, DuplicateButton, false)
         == ClickStep(Closed, World(BeginChatInput(w.manager, player, Duplicate(w.manager.selectedQuest[player])), w.store))
  {
    DuplicateButtonLabel();
  }

  /** A pending duplicate answered with anything but `cancel` goes to
      `handleDuplicate` with the trimmed message. */
  lemma DuplicateAnswered(w: World, player: PlayerId, q: Path, message: string)
    requires Get(w.manager.pendingChatInputs, player) == Some(Duplicate(q))
    requires !IsCancel(message)
    ensures var c := ConsumeChatInput(w.manager, player);
      OnChat(w, player, message, ChatEnv(None, false))
        == HandleDuplicate(World(c.manager, w.store), player, q, Trim(message), ChatEnv(None, false))
  {
    AnswerPending(w, player, message, ChatEnv(None, false));
  }

  /** Creating from a guild's quest list: the create slot arms a create,
      and `cancel` answered in any letter case drops it with no file
      written. */
  lemma CreateThenCancel(w: World, player: PlayerId, guildQuests: map<int, Path>, guildPage: int,
                         listing: Option<seq<string>>, env: ChatEnv)
    requires Pagination.CreateSlot !in guildQuests
    ensures var click := GuildQuestMenuClick(w, player, Pagination.CreateSlot, guildQuests, guildPage, listing);
      var answer := OnChat(click.world, player, "CaNcEl", env);
      && click.screen == Closed
      && answer.outcome == Cancelled
      && answer.world.store == w.store
      && player !in answer.world.manager.pendingChatInputs
  {
    var message := "CaNcEl";
    assert Trim(message) == message;
    assert IsCancel(message);
  }

  /** Deleting from the quest menu: the barrier asks for confirmation, red
      wool removes the file and nothing else, and closing the confirmation
      forgets the selection. */
  lemma DeleteFlow(w: World, player: PlayerId, barrier: Clicked, redWool: Clicked)
    requires player in w.manager.selectedQuest
    requires barrier.material == Barrier && redWool.material == RedWool
    ensures var q := w.manager.selectedQuest[player];
      var ask := QuestMenuClick(w, player, barrier, false);
      var confirm := DeleteMenuClick(ask.world, player, redWool, false);
      var closed := OnInventoryClose(confirm.world.manager, player, DeleteView);
      && ask.screen == DeleteConfirm(q)
      && confirm.world.store.Keys == w.store.Keys - {q}
      && (forall p :: p in confirm.world.store ==> confirm.world.store[p] == w.store[p])
      && player !in closed.selectedQuest
  {
  }

  /** Green wool in the confirmation reopens the quest menu; the server then
      reports the confirmation as closed, which forgets the selection, so the
      next click in that quest menu only closes it. */
  lemma KeepThenClickClosesMenu(w: World, player: PlayerId, greenWool: Clicked, next: Clicked, readFails: bool)
    requires player in w.manager.selectedQuest
    requires greenWool.material == GreenWool
    ensures var q := w.manager.selectedQuest[player];
      var keep := DeleteMenuClick(w, player, greenWool, false);
      var closed := World(OnInventoryClose(keep.world.manager, player, DeleteView), keep.world.store);
      var click := QuestMenuClick(closed, player, next, readFails);
      && keep.screen == QuestMenu(q)
      && click == ClickStep(Closed, closed)
  {
  }
}
