/** The inventory half of `QuestGuiListener`: clicks in the editor's menus
    (`onInventoryClick` and its per-menu handlers) and the closing of the
    delete confirmation (`onInventoryClose`). A handler answers with the
    screen it opens and the world after its own bookkeeping; screens the
    manager renders elsewhere (the guild list, a guild's quest list, the task
    list) are named, not rendered; the quest list of `createMainMenu` is
    rendered through `Session.ShowMainMenu`. */
module Clicks {
  import opened Wrappers
  import opened JavaText
  import opened QuestStore
  import opened Session
  import Pagination
  import QuestListing

  /** The item types the handlers tell apart; `Air` is an empty slot. */
  datatype Material =
    | WritableBook | NetherStar | NameTag | Paper | Barrier | Arrow
    | RedWool | GreenWool | Air | OtherMaterial

  /** The clicked stack: its type and its display name, `None` when it has no
      item meta. */
  datatype Clicked = Clicked(material: Material, displayName: Option<string>)

  /** The menu a click lands in, as the title prefix identifies it. */
  datatype View = GuildListView | GuildQuestsView | DeleteView | TaskView | QuestView | OtherView

  /** A change to a quest's tasks, applied by the manager's task editor,
      which writes the quest file outside this model. */
  datatype TaskEdit = AddTask | CycleDifficulty(taskKey: string)

  datatype Screen =
    | Unchanged                                   // nothing is opened or closed
    | Closed
    | Book(quest: Path, pages: seq<string>)       // the book editor on `quest`
    | QuestMenu(quest: Path)
    | DeleteConfirm(quest: Path)
    | TaskMenu(quest: Path)
    | TaskEdited(quest: Path, edit: TaskEdit)     // the edit, then the task list again
    | QuestsOfGuild(guild: string, page: int)
    | QuestsOfGuildOf(quest: Path, page: int)     // the guild the quest belongs to
    | QuestsOfSelectedGuild(page: int)
    | MainList(menu: MainMenu)                    // the quest list `createMainMenu` rendered

  datatype ClickStep = ClickStep(screen: Screen, world: World)

  /** The slot maps the manager keeps for the guild list, a guild's quest
      list and the task list (`getGuildMenuSlots`, `getGuildQuestMenuSlots`,
      `getTaskMenuSlots`), and the guild page (`getCurrentGuildPage`). */
  datatype MenuSlots = MenuSlots(
    guilds: map<int, string>,
    guildQuests: map<int, Path>,
    tasks: map<int, string>,
    guildPage: int)

  /** The control slots the guild and task lists add to the main list's
      `CreateSlot`, `ReloadSlot`, `PrevSlot` and `NextSlot`. */
  const GuildListSlot: int := 48
  const TaskBackSlot: int := 49

  /** The char that starts a colour code. */
  const ColorChar: char := '§'

  /** The chars that may follow `ColorChar` in a colour code, either case. */
  predicate IsColorCode(c: char) {
    c in "0123456789AaBbCcDdEeFfKkLlMmNnOoRrXx"
  }

  /** `s` starts with a colour code. */
  predicate StartsWithCode(s: string) {
    |s| >= 2 && s[0] == ColorChar && IsColorCode(s[1])
  }

  /** A colour code starts at index `i` of `s`. */
  predicate CodeAt(s: string, i: int) {
    0 <= i < |s| - 1 && s[i] == ColorChar && IsColorCode(s[i + 1])
  }

  /** Some colour code occurs in `s`. */
  predicate HasColorCode(s: string) {
    exists i :: 0 <= i < |s| - 1 && CodeAt(s, i)
  }

  /** `ChatColor.stripColor`: drops every colour code, scanning left to
      right; a leading code is dropped before the rest is scanned. */
  function StripColor(s: string): string
    decreases |s|
  {
    if s == [] then []
    else if StartsWithCode(s) then StripColor(s[2..])
    else [s[0]] + StripColor(s[1..])
  }

  /** Stripping removes chars two at a time and keeps only chars of the
      name. */
  lemma {:induction false} StripColorChars(s: string)
    ensures var r := StripColor(s);
      && |r| <= |s| && (|s| - |r|) % 2 == 0
      && (forall i :: 0 <= i < |r| ==> r[i] in s)
    decreases |s|
  {
    if s == [] {
    } else if StartsWithCode(s) {
      StripColorChars(s[2..]);
      DropChars(s, StripColor(s[2..]));
    } else {
      StripColorChars(s[1..]);
      KeepChars(s, StripColor(s[1..]));
    }
  }

  /** Stripping gives the name back unchanged exactly when it holds no
      colour code, so always when it holds no `§`. */
  lemma {:induction false} StripColorShape(s: string)
    ensures var r := StripColor(s);
      && (r == s <==> !HasColorCode(s))
      && (ColorChar !in s ==> r == s)
    decreases |s|
  {
    if s == [] {
    } else if StartsWithCode(s) {
      StripColorChars(s[2..]);
      DropStep(s, StripColor(s[2..]));
    } else {
      StripColorShape(s[1..]);
      KeepStep(s, StripColor(s[1..]));
    }
  }

  /** The chars left after a leading code are chars of the name. */
  lemma DropChars(s: string, rest: string)
    requires |s| >= 2
    requires |rest| <= |s| - 2 && (|s| - 2 - |rest|) % 2 == 0
    requires forall i :: 0 <= i < |rest| ==> rest[i] in s[2..]
    ensures |rest| <= |s| && (|s| - |rest|) % 2 == 0
    ensures forall i :: 0 <= i < |rest| ==> rest[i] in s
  {
    forall i | 0 <= i < |rest| ensures rest[i] in s {
      var j :| 0 <= j < |s| - 2 && s[2..][j] == rest[i];
      assert s[j + 2] == rest[i];
    }
  }

  /** Keeping the first char keeps the result made of chars of the name. */
  lemma KeepChars(s: string, rest: string)
    requires s != []
    requires |rest| <= |s| - 1 && (|s| - 1 - |rest|) % 2 == 0
    requires forall i :: 0 <= i < |rest| ==> rest[i] in s[1..]
    ensures var r := [s[0]] + rest;
      && |r| <= |s| && (|s| - |r|) % 2 == 0
      && (forall i :: 0 <= i < |r| ==> r[i] in s)
  {
    var r := [s[0]] + rest;
    forall i | 0 <= i < |r| ensures r[i] in s {
      if i > 0 {
        assert r[i] == rest[i - 1];
        var j :| 0 <= j < |s| - 1 && s[1..][j] == rest[i - 1];
        assert s[j + 1] == r[i];
      }
    }
  }

  /** A name that starts with a code holds one, and the shorter stripped
      rest differs from it. */
  lemma DropStep(s: string, rest: string)
    requires StartsWithCode(s)
    requires |rest| <= |s| - 2
    ensures rest != s && HasColorCode(s) && ColorChar in s
  {
    assert CodeAt(s, 0);
  }

  /** Keeping a first char that starts no code keeps the name unchanged
      exactly when the tail is kept unchanged. */
  lemma KeepStep(s: string, rest: string)
    requires s != [] && !StartsWithCode(s)
    requires rest == s[1..] <==> !HasColorCode(s[1..])
    requires ColorChar !in s[1..] ==> rest == s[1..]
    ensures var r := [s[0]] + rest;
      && (r == s <==> !HasColorCode(s))
      && (ColorChar !in s ==> r == s)
  {
    var r := [s[0]] + rest;
    CodeShift(s);
    assert s == [s[0]] + s[1..];
    assert r == s <==> rest == s[1..];
    if ColorChar !in s {
      assert ColorChar !in s[1..];
    }
  }

  /** Without a code at its start, `s` holds a code exactly when its tail
      does. */
  lemma CodeShift(s: string)
    requires s != [] && !StartsWithCode(s)
    ensures HasColorCode(s) <==> HasColorCode(s[1..])
  {
    var t := s[1..];
    if HasColorCode(s) {
      var i :| 0 <= i < |s| - 1 && CodeAt(s, i);
      assert s[i] == ColorChar && IsColorCode(s[i + 1]);
      assert i != 0;
      assert t[i - 1] == s[i] && t[i] == s[i + 1];
      assert CodeAt(t, i - 1);
    }
    if HasColorCode(t) {
      var i :| 0 <= i < |t| - 1 && CodeAt(t, i);
      assert s[i + 1] == t[i] && s[i + 2] == t[i + 1];
      assert CodeAt(s, i + 1);
    }
  }

  /** A name without `§` is not touched by stripping. */
  lemma KeptWithoutColorChar(s: string)
    requires ColorChar !in s
    ensures StripColor(s) == s
  {
    StripColorShape(s);
  }

  /** The label test of the duplicate button: its name, colours stripped and
      lower-cased, contains "duplicate"; for a name without colour codes
      that is the lower-cased name itself. */
  predicate IsDuplicateLabel(name: string)
    ensures !HasColorCode(name) ==>
      (IsDuplicateLabel(name) <==> Contains(ToLowerAscii(name), "duplicate"))
  {
    StripColorShape(name);
    Contains(ToLowerAscii(StripColor(name)), "duplicate")
  }

  /** The label the quest menu gives its duplicate button passes the test. */
  lemma DuplicateButtonLabel()
    ensures IsDuplicateLabel([ColorChar, 'b'] + "Duplicate quest")
  {
    var name := [ColorChar, 'b'] + "Duplicate quest";
    assert StartsWithCode(name);
    assert name[2..] == "Duplicate quest";
    assert StripColor(name) == StripColor("Duplicate quest");
    PlainLabel("Duplicate quest");
    DuplicateWord("Duplicate quest");
  }

  /** The text of the duplicate button carries no colour code. */
  lemma PlainLabel(text: string)
    requires text == "Duplicate quest"
    ensures StripColor(text) == text
  {
    assert ColorChar !in text;
    KeptWithoutColorChar(text);
  }

  /** That text lower-cases to a string starting with "duplicate". */
  lemma DuplicateWord(text: string)
    requires text == "Duplicate quest"
    ensures Contains(ToLowerAscii(text), "duplicate")
  {
    assert text[..9] == "Duplicate";
    LowerLabel(text);
  }

  /** A label whose lower-cased first nine chars spell "duplicate" passes
      the word test. */
  lemma LowerLabel(text: string)
    requires |text| >= 9 && ToLowerAscii(text[..9]) == "duplicate"
    ensures Contains(ToLowerAscii(text), "duplicate")
  {
    var lower := ToLowerAscii(text);
    assert lower[..9] == ToLowerAscii(text[..9]);
    assert SliceAt(lower, 0, "duplicate");
  }

  /** `handleQuestMenuClick`: without a selected quest the menu closes and
      nothing happens; otherwise the book opens the editor, the name tag arms
      a rename, a paper labelled "duplicate" arms a duplicate, the barrier
      asks for confirmation, the star lists the tasks and the arrow goes back
      to the quest's guild. Files are never touched; `readFails` is the
      editor's read of the quest file. */
  function QuestMenuClick(w: World, player: PlayerId, item: Clicked, readFails: bool): (r: ClickStep)
    ensures r.world.store == w.store
    ensures player !in w.manager.selectedQuest ==> r == ClickStep(Closed, w)
    ensures player in w.manager.selectedQuest ==>
      var q := w.manager.selectedQuest[player];
      var dup := item.material == Paper && IsDuplicateLabel(item.displayName.GetOr(""));
      && (item.material == WritableBook ==>
            && r.screen.Book? && r.screen.quest == q
            && r.screen.pages == OpenEditor(w.manager, w.store, player, q, readFails).pages
            && r.world.manager == OpenEditor(w.manager, w.store, player, q, readFails).manager)
      && (item.material == NameTag ==>
            r.screen == Closed && r.world.manager == BeginChatInput(w.manager, player, Rename(q)))
      && (dup ==>
            r.screen == Closed && r.world.manager == BeginChatInput(w.manager, player, Duplicate(q)))
      && (item.material != WritableBook && item.material != NameTag && !dup ==> r.world == w)
      && (item.material == NetherStar ==> r.screen == TaskMenu(q))
      && (item.material == Barrier ==> r.screen == DeleteConfirm(q))
      && (item.material == Arrow ==> r.screen == QuestsOfGuildOf(q, CurrentPage(w.manager, player)))
      && (item.material !in {WritableBook, NetherStar, NameTag, Barrier, Arrow} && !dup ==>
            r.screen == Unchanged)
  {
    match Get(w.manager.selectedQuest, player)
    case None => ClickStep(Closed, w)
    case Some(q) =>
      if item.material == WritableBook then
        var editor := OpenEditor(w.manager, w.store, player, q, readFails);
        ClickStep(Book(q, editor.pages), World(editor.manager, w.store))
      else if item.material == NetherStar then
        ClickStep(TaskMenu(q), w)
      else if item.material == NameTag then
        ClickStep(Closed, World(BeginChatInput(w.manager, player, Rename(q)), w.store))
      else if item.material == Paper && IsDuplicateLabel(item.displayName.GetOr("")) then
        ClickStep(Closed, World(BeginChatInput(w.manager, player, Duplicate(q)), w.store))
      else if item.material == Barrier then
        ClickStep(DeleteConfirm(q), w)
      else if item.material == Arrow then
        ClickStep(QuestsOfGuildOf(q, CurrentPage(w.manager, player)), w)
      else
        ClickStep(Unchanged, w)
  }

  /** `handleDeleteMenuClick`: without a selected quest the menu closes;
      red wool deletes the selected file (an absent file is no error) and
      returns to the quest's guild, whether or not the delete failed; green
      wool returns to the quest menu. The manager's records are unchanged:
      the quest menu reselects the quest that is already selected. */
  function DeleteMenuClick(w: World, player: PlayerId, item: Clicked, ioFails: bool): (r: ClickStep)
    ensures r.world.manager == w.manager
    ensures player !in w.manager.selectedQuest ==> r == ClickStep(Closed, w)
    ensures player in w.manager.selectedQuest ==>
      var q := w.manager.selectedQuest[player];
      && (item.material == RedWool ==> r.screen == QuestsOfGuildOf(q, CurrentPage(w.manager, player)))
      && (item.material == RedWool && !ioFails ==>
            && q !in r.world.store
            && r.world.store.Keys == w.store.Keys - {q}
            && forall p :: p in r.world.store ==> r.world.store[p] == w.store[p])
      && (item.material == GreenWool ==> r.screen == QuestMenu(q))
      && (item.material != RedWool ==> r.world.store == w.store)
      && (item.material != RedWool && item.material != GreenWool ==> r.screen == Unchanged)
    ensures ioFails ==> r.world.store == w.store
  {
    match Get(w.manager.selectedQuest, player)
    case None => ClickStep(Closed, w)
    case Some(q) =>
      if item.material == RedWool then
        var store := StoreAfter(w.store, DeleteIfExists(w.store, q, ioFails));
        ClickStep(QuestsOfGuildOf(q, CurrentPage(w.manager, player)), World(w.manager, store))
      else if item.material == GreenWool then
        assert SelectQuest(w.manager, player, q).selectedQuest == w.manager.selectedQuest;
        ClickStep(QuestMenu(q), World(SelectQuest(w.manager, player, q), w.store))
      else
        ClickStep(Unchanged, w)
  }

  /** `handleTaskMenuClick`: without a selected quest the menu closes;
      slot 45 adds a task, slot 49 goes back to the quest menu, and a task's
      slot cycles its difficulty. The edits (`addTask`,
      `updateTaskDifficulty`) write the quest file through manager members
      outside this model: the step names the edit in a `TaskEdited` screen
      and leaves the world as the listener's own bookkeeping does, which is
      untouched. */
  function TaskMenuClick(w: World, player: PlayerId, slot: int, tasks: map<int, string>): (r: ClickStep)
    ensures r.world == w
    ensures player !in w.manager.selectedQuest ==> r.screen == Closed
    ensures player in w.manager.selectedQuest ==>
      var q := w.manager.selectedQuest[player];
      && (slot == Pagination.CreateSlot ==> r.screen == TaskEdited(q, AddTask))
      && (slot == TaskBackSlot ==> r.screen == QuestMenu(q))
      && (slot != Pagination.CreateSlot && slot != TaskBackSlot && slot in tasks ==>
            r.screen == TaskEdited(q, CycleDifficulty(tasks[slot])))
      && (slot != Pagination.CreateSlot && slot != TaskBackSlot && slot !in tasks ==> r.screen == Unchanged)
  {
    match Get(w.manager.selectedQuest, player)
    case None => ClickStep(Closed, w)
    case Some(q) =>
      if slot == Pagination.CreateSlot then ClickStep(TaskEdited(q, AddTask), w)
      else if slot == TaskBackSlot then
        assert SelectQuest(w.manager, player, q) == w.manager;
        ClickStep(QuestMenu(q), World(SelectQuest(w.manager, player, q), w.store))
      else if slot in tasks then ClickStep(TaskEdited(q, CycleDifficulty(tasks[slot])), w)
      else ClickStep(Unchanged, w)
  }

  /** The main list rendered for `requested`: its screen and the manager
      with the player's page and slot map replaced. */
  function ToMainList(w: World, player: PlayerId, listing: Option<seq<string>>, requested: int)
    : (r: ClickStep)
    ensures var shown := ShowMainMenu(w.manager, player, listing, requested);
      r == ClickStep(MainList(shown.menu), World(shown.manager, w.store))
    ensures CurrentPage(r.world.manager, player)
         == Pagination.SafePage(requested, Pagination.TotalPages(|QuestListing.ListQuestFiles(listing)|))
    ensures forall p :: p != player ==> RecordOf(r.world.manager, p) == RecordOf(w.manager, p)
  {
    var shown := ShowMainMenu(w.manager, player, listing, requested);
    ClickStep(MainList(shown.menu), World(shown.manager, w.store))
  }

  /** `handleGuildQuestMenuClick`: a quest's slot opens its menu and selects
      it; slot 45 closes the menu and arms a create; slot 48 renders the
      main list at the guild page `guildPage`, storing the clamped page and
      the new slot map; the other controls reload or turn the guild's
      page. */
  function GuildQuestMenuClick(w: World, player: PlayerId, slot: int, guildQuests: map<int, Path>,
                               guildPage: int, listing: Option<seq<string>>)
    : (r: ClickStep)
    ensures r.world.store == w.store
    ensures slot in guildQuests ==>
      && r.screen == QuestMenu(guildQuests[slot])
      && r.world.manager == SelectQuest(w.manager, player, guildQuests[slot])
    ensures slot !in guildQuests && slot == Pagination.CreateSlot ==>
      r.screen == Closed && r.world.manager == BeginChatInput(w.manager, player, Create)
    ensures slot !in guildQuests && slot == GuildListSlot ==>
      r == ToMainList(w, player, listing, guildPage)
    ensures slot !in guildQuests && slot != Pagination.CreateSlot && slot != GuildListSlot ==> r.world == w
    ensures slot !in guildQuests ==>
      var page := CurrentPage(w.manager, player);
      && (slot == Pagination.ReloadSlot ==> r.screen == QuestsOfSelectedGuild(page))
      && (slot == Pagination.PrevSlot ==> r.screen == QuestsOfSelectedGuild(page - 1))
      && (slot == Pagination.NextSlot ==> r.screen == QuestsOfSelectedGuild(page + 1))
      && ((slot != Pagination.CreateSlot && slot != Pagination.ReloadSlot && slot != GuildListSlot &&
           slot != Pagination.PrevSlot && slot != Pagination.NextSlot) ==> r == ClickStep(Unchanged, w))
  {
    if slot in guildQuests then
      var q := guildQuests[slot];
      ClickStep(QuestMenu(q), World(SelectQuest(w.manager, player, q), w.store))
    else if slot == Pagination.CreateSlot then
      ClickStep(Closed, World(BeginChatInput(w.manager, player, Create), w.store))
    else if slot == Pagination.ReloadSlot then
      ClickStep(QuestsOfSelectedGuild(CurrentPage(w.manager, player)), w)
    else if slot == GuildListSlot then
      ToMainList(w, player, listing, guildPage)
    else if slot == Pagination.PrevSlot then
      ClickStep(QuestsOfSelectedGuild(CurrentPage(w.manager, player) - 1), w)
    else if slot == Pagination.NextSlot then
      ClickStep(QuestsOfSelectedGuild(CurrentPage(w.manager, player) + 1), w)
    else
      ClickStep(Unchanged, w)
  }

  /** `handleGuildMenuClick`: a guild's slot lists its quests from the first
      page; slots 46, 52 and 53 render the main list at the guild page
      `guildPage`, one below it or one above it, which stores the clamped
      page as the player's current page and replaces the slot map. */
  function GuildMenuClick(w: World, player: PlayerId, slot: int, guilds: map<int, string>,
                          guildPage: int, listing: Option<seq<string>>): (r: ClickStep)
    ensures r.world.store == w.store
    ensures slot in guilds ==> r == ClickStep(QuestsOfGuild(guilds[slot], 0), w)
    ensures slot !in guilds ==>
      && (slot == Pagination.ReloadSlot ==> r == ToMainList(w, player, listing, guildPage))
      && (slot == Pagination.PrevSlot ==> r == ToMainList(w, player, listing, guildPage - 1))
      && (slot == Pagination.NextSlot ==> r == ToMainList(w, player, listing, guildPage + 1))
      && (slot != Pagination.ReloadSlot && slot != Pagination.PrevSlot && slot != Pagination.NextSlot ==>
            r == ClickStep(Unchanged, w))
    ensures forall p :: p != player ==> RecordOf(r.world.manager, p) == RecordOf(w.manager, p)
  {
    if slot in guilds then ClickStep(QuestsOfGuild(guilds[slot], 0), w)
    else if slot == Pagination.ReloadSlot then ToMainList(w, player, listing, guildPage)
    else if slot == Pagination.PrevSlot then ToMainList(w, player, listing, guildPage - 1)
    else if slot == Pagination.NextSlot then ToMainList(w, player, listing, guildPage + 1)
    else ClickStep(Unchanged, w)
  }

  /** The next-page control on the last page re-renders the last page: with
      an empty quests directory any stored page falls back to page 0. */
  lemma NextOnEmptyListStoresFirstPage(w: World, player: PlayerId, guilds: map<int, string>, guildPage: int)
    requires Pagination.NextSlot !in guilds
    ensures var click := GuildMenuClick(w, player, Pagination.NextSlot, guilds, guildPage, Some([]));
      CurrentPage(click.world.manager, player) == 0
  {
  }

  /** `onInventoryClick`: clicks outside the editor's menus and clicks on
      empty slots are ignored; the rest go to the handler of the menu. Of
      the file operations in the model only the delete confirmation's
      changes the store; the task edits run in the manager, on the selected
      quest; no click changes another player's records. `listing` is the
      quests directory as `createMainMenu` lists it, and `ioFails` the
      outcome of the one file operation a click may do. */
  function OnInventoryClick(w: World, player: PlayerId, view: View, slot: int, item: Option<Clicked>,
                            slots: MenuSlots, listing: Option<seq<string>>, ioFails: bool): (r: ClickStep)
    ensures view == OtherView || item.None? || item.value.material == Air ==>
      r == ClickStep(Unchanged, w)
    ensures r.world.store != w.store ==>
      view == DeleteView && item.Some? && item.value.material == RedWool
    ensures r.screen.TaskEdited? ==>
      view == TaskView && Get(w.manager.selectedQuest, player) == Some(r.screen.quest)
    ensures ((view == DeleteView || view == TaskView || view == QuestView)
             && item.Some? && item.value.material != Air && player !in w.manager.selectedQuest) ==>
      r.screen == Closed && r.world == w
    ensures forall p :: p != player ==> RecordOf(r.world.manager, p) == RecordOf(w.manager, p)
  {
    if view == OtherView || item.None? || item.value.material == Air then ClickStep(Unchanged, w)
    else
      match view
      case GuildListView => GuildMenuClick(w, player, slot, slots.guilds, slots.guildPage, listing)
      case GuildQuestsView => GuildQuestMenuClick(w, player, slot, slots.guildQuests, slots.guildPage, listing)
      case DeleteView => DeleteMenuClick(w, player, item.value, ioFails)
      case TaskView => TaskMenuClick(w, player, slot, slots.tasks)
      case QuestView => QuestMenuClick(w, player, item.value, ioFails)
  }

  /** `onInventoryClose`: closing the delete confirmation forgets the
      player's selected quest; closing any other menu changes nothing. */
  function OnInventoryClose(m: Manager, player: PlayerId, view: View): (m': Manager)
    ensures view == DeleteView ==> player !in m'.selectedQuest
    ensures view != DeleteView ==> m' == m
    ensures m'.pendingChatInputs == m.pendingChatInputs && m'.editingQuest == m.editingQuest
    ensures forall p :: p != player ==> RecordOf(m', p) == RecordOf(m, p)
  {
    if view == DeleteView then ClearSelections(m, player) else m
  }
}
