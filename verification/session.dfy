/** The per-player state kept by `QuestGuiManager`: one map per concern,
    each keyed by the player's UUID, gathered into one immutable record.
    Every operation returns the next record. */
module Session {
  import opened Wrappers
  import opened QuestStore
  import QuestListing
  import Pagination
  import BookCodec
  import JavaText

  /** A player's UUID. */
  type PlayerId = nat

  /** A pending chat request (`PendingChatInput`): the action and, for rename
      and duplicate, the quest file it applies to. The listener only arms a
      rename or a duplicate with the currently selected quest, which it has
      checked is non-null, so only `Create` goes without a file. */
  datatype ChatRequest = Create | Rename(quest: Path) | Duplicate(quest: Path)

  datatype Manager = Manager(
    currentPage: map<PlayerId, int>,
    mainMenuSlots: map<PlayerId, map<int, Path>>,
    selectedQuest: map<PlayerId, Path>,
    editingQuest: map<PlayerId, Path>,
    pendingChatInputs: map<PlayerId, ChatRequest>)

  /** Everything the editor's handlers read or change: the manager's maps
      and the quests directory. */
  datatype World = World(manager: Manager, store: Store)

  /** The manager as constructed: every map empty. */
  const Initial: Manager := Manager(map[], map[], map[], map[], map[])

  /** `getCurrentPage`: the page the player's last quest-list render stored,
      0 when there was none. */
  function CurrentPage(m: Manager, player: PlayerId): (page: int)
    ensures player in m.currentPage ==> page == m.currentPage[player]
    ensures player !in m.currentPage ==> page == 0
  {
    Get(m.currentPage, player).GetOr(0)
  }

  /** Everything the manager keeps about one player. */
  datatype PlayerRecord = PlayerRecord(
    currentPage: Option<int>,
    mainMenuSlots: Option<map<int, Path>>,
    selectedQuest: Option<Path>,
    editingQuest: Option<Path>,
    pendingChatInput: Option<ChatRequest>)

  function RecordOf(m: Manager, player: PlayerId): PlayerRecord {
    PlayerRecord(Get(m.currentPage, player), Get(m.mainMenuSlots, player), Get(m.selectedQuest, player),
                 Get(m.editingQuest, player), Get(m.pendingChatInputs, player))
  }

  /** `beginChatInput`: arms `request` for `player`, silently replacing any
      request already pending for that player. */
  function BeginChatInput(m: Manager, player: PlayerId, request: ChatRequest): (m': Manager)
    ensures Get(m'.pendingChatInputs, player) == Some(request)
    ensures m'.pendingChatInputs.Keys == m.pendingChatInputs.Keys + {player}
    ensures forall p :: p != player ==> Get(m'.pendingChatInputs, p) == Get(m.pendingChatInputs, p)
    ensures m' == m.(pendingChatInputs := m'.pendingChatInputs)
  {
    m.(pendingChatInputs := m.pendingChatInputs[player := request])
  }

  /** What `consumeChatInput` hands back, and the manager after it. */
  datatype Consumed = Consumed(request: Option<ChatRequest>, manager: Manager)

  /** `consumeChatInput`: removes and returns the pending request of
      `player`; nobody else's request is touched. */
  function ConsumeChatInput(m: Manager, player: PlayerId): (r: Consumed)
    ensures r.request.Some? <==> player in m.pendingChatInputs
    ensures r.request.Some? ==> r.request.value == m.pendingChatInputs[player]
    ensures player !in r.manager.pendingChatInputs
    ensures r.manager.pendingChatInputs.Keys == m.pendingChatInputs.Keys - {player}
    ensures forall p :: p != player ==> Get(r.manager.pendingChatInputs, p) == Get(m.pendingChatInputs, p)
    ensures r.manager == m.(pendingChatInputs := r.manager.pendingChatInputs)
  {
    Consumed(Get(m.pendingChatInputs, player), m.(pendingChatInputs := m.pendingChatInputs - {player}))
  }

  /** A request is handed out once: consuming again right away finds none
      and changes nothing more. */
  lemma ConsumeTwice(m: Manager, player: PlayerId)
    ensures var first := ConsumeChatInput(m, player);
      var second := ConsumeChatInput(first.manager, player);
      second.request == None && second.manager == first.manager
  {
  }

  /** Arming then consuming returns the request just armed, and leaves no
      request for that player, whatever was pending before. */
  lemma BeginThenConsume(m: Manager, player: PlayerId, request: ChatRequest)
    ensures var c := ConsumeChatInput(BeginChatInput(m, player, request), player);
      && c.request == Some(request)
      && c.manager == m.(pendingChatInputs := m.pendingChatInputs - {player})
  {
  }

  /** The later of two requests wins. */
  lemma BeginOverwrites(m: Manager, player: PlayerId, first: ChatRequest, second: ChatRequest)
    ensures BeginChatInput(BeginChatInput(m, player, first), player, second)
         == BeginChatInput(m, player, second)
  {
  }

  /** `clearSelections`: forgets the selected quest of `player` and nothing
      else; in particular a pending chat request survives. */
  function ClearSelections(m: Manager, player: PlayerId): (m': Manager)
    ensures player !in m'.selectedQuest
    ensures m'.selectedQuest.Keys == m.selectedQuest.Keys - {player}
    ensures forall p :: p != player ==> Get(m'.selectedQuest, p) == Get(m.selectedQuest, p)
    ensures m' == m.(selectedQuest := m'.selectedQuest)
  {
    m.(selectedQuest := m.selectedQuest - {player})
  }

  /** The bookkeeping of `createQuestMenu`: `quest` becomes the player's
      selected quest. */
  function SelectQuest(m: Manager, player: PlayerId, quest: Path): (m': Manager)
    ensures Get(m'.selectedQuest, player) == Some(quest)
    ensures forall p :: p != player ==> Get(m'.selectedQuest, p) == Get(m.selectedQuest, p)
    ensures m' == m.(selectedQuest := m'.selectedQuest)
  {
    m.(selectedQuest := m.selectedQuest[player := quest])
  }

  /** What `openEditor` does: the book's pages, and the manager with the
      editing record of the player set to `quest`. */
  datatype EditorOpened = EditorOpened(manager: Manager, pages: seq<string>)

  /** `openEditor`: reads the quest (an absent or unreadable file reads as
      empty), cuts it into 240-char pages, and records which file the book
      belongs to. The record is set whether or not the read failed. */
  function OpenEditor(m: Manager, s: Store, player: PlayerId, quest: Path, readFails: bool)
    : (r: EditorOpened)
    ensures Get(r.manager.editingQuest, player) == Some(quest)
    ensures forall p :: p != player ==> Get(r.manager.editingQuest, p) == Get(m.editingQuest, p)
    ensures r.manager == m.(editingQuest := r.manager.editingQuest)
    ensures |r.pages| >= 1
    ensures forall i :: 0 <= i < |r.pages| ==> |r.pages[i]| <= BookCodec.PageWidth
    ensures forall i :: 0 <= i < |r.pages| - 1 ==> |r.pages[i]| == BookCodec.PageWidth
    ensures quest in s && !readFails && s[quest] != [] ==> forall i :: 0 <= i < |r.pages| ==> 0 < |r.pages[i]|
    ensures quest in s && !readFails && s[quest] != [] ==> JavaText.Join("", r.pages) == s[quest]
    ensures quest !in s || readFails || s[quest] == [] ==> r.pages == [""]
  {
    var pages := BookCodec.SplitIntoPages(ReadContent(s, quest, readFails), BookCodec.PageWidth);
    EditorOpened(m.(editingQuest := m.editingQuest[player := quest]), pages)
  }

  /** The outcome of a book save. */
  datatype SaveOutcome = NotEditing | Saved(quest: Path) | SaveFailed(quest: Path)

  datatype BookSaved = BookSaved(outcome: SaveOutcome, manager: Manager, store: Store)

  /** `updateQuestFromBook`: takes the player's editing record out first;
      without one nothing is written, with one the file is overwritten with
      `SaveText(pages)` unless the write fails. The record is gone either
      way. */
  function UpdateQuestFromBook(m: Manager, s: Store, player: PlayerId, pages: seq<string>, ioFails: bool)
    : (r: BookSaved)
    ensures player !in r.manager.editingQuest
    ensures r.manager == m.(editingQuest := m.editingQuest - {player})
    ensures player !in m.editingQuest ==> r.outcome == NotEditing && r.store == s
    ensures player in m.editingQuest && ioFails ==>
      r.outcome == SaveFailed(m.editingQuest[player]) && r.store == s
    ensures player in m.editingQuest && !ioFails ==>
      var quest := m.editingQuest[player];
      && r.outcome == Saved(quest)
      && r.store.Keys == s.Keys + {quest}
      && r.store[quest] == BookCodec.SaveText(pages)
      && forall q :: q in s && q != quest ==> r.store[q] == s[q]
  {
    var m' := m.(editingQuest := m.editingQuest - {player});
    if player !in m.editingQuest then BookSaved(NotEditing, m', s)
    else
      var quest := m.editingQuest[player];
      match WriteFile(s, quest, BookCodec.SaveText(pages), ioFails)
      case Done(s') => BookSaved(Saved(quest), m', s')
      case IoError => BookSaved(SaveFailed(quest), m', s)
  }

  /** A book is saved at most once per opening: a second save finds no
      editing record and writes nothing. */
  lemma SecondSaveIsNoOp(m: Manager, s: Store, player: PlayerId,
                         pages1: seq<string>, pages2: seq<string>, fail1: bool, fail2: bool)
    ensures var first := UpdateQuestFromBook(m, s, player, pages1, fail1);
      var second := UpdateQuestFromBook(first.manager, first.store, player, pages2, fail2);
      && second.outcome == NotEditing
      && second.store == first.store
      && second.manager == first.manager
  {
  }

  /** Opening the editor and saving the unchanged book rewrites the file with
      the round-trip text of the book codec. */
  lemma OpenThenSave(m: Manager, s: Store, player: PlayerId, quest: Path)
    requires quest in s
    ensures var editor := OpenEditor(m, s, player, quest, false);
      var saved := UpdateQuestFromBook(editor.manager, s, player, editor.pages, false);
      && saved.outcome == Saved(quest)
      && saved.store[quest] == BookCodec.SaveText(BookCodec.SplitIntoPages(s[quest], BookCodec.PageWidth))
      && player !in saved.manager.editingQuest
  {
  }

  /** A file the editor cannot read opens as one empty page, but the book
      is still bound to it: saving that book unchanged replaces the whole
      file by a single newline. */
  lemma UnreadableFileOverwritten(m: Manager, s: Store, player: PlayerId, quest: Path)
    requires quest in s
    ensures var editor := OpenEditor(m, s, player, quest, true);
      var saved := UpdateQuestFromBook(editor.manager, s, player, editor.pages, false);
      && editor.pages == [""]
      && saved.outcome == Saved(quest)
      && saved.store[quest] == "\n"
      && saved.store.Keys == s.Keys
  {
    assert JavaText.Join("\n", [""]) == "";
    assert BookCodec.SaveText([""]) == "\n";
  }

  /** Slot `k` of a page of the quest list holds the quest file at index
      `page * 45 + k` of the sorted listing, directly under the quests
      directory. */
  lemma MenuSlotShowsQuest(names: seq<string>, page: nat, k: int)
    requires Pagination.PageStart(page) <= |names|
    requires k in Pagination.PageSlots(QuestListing.QuestPaths(names), page)
    ensures 0 <= k < Pagination.VisibleCount(|names|, page)
    ensures Pagination.PageSlots(QuestListing.QuestPaths(names), page)[k]
         == Path(Root, names[Pagination.PageStart(page) + k])
  {
  }

  /** What the quest list menu shows. */
  datatype MainMenu = MainMenu(
    page: nat,
    totalPages: nat,
    slots: map<int, Path>,
    hasPrev: bool,
    hasNext: bool)

  /** What a render of the quest list leaves behind: the manager with the
      player's page and slot map replaced, and the menu shown. */
  datatype MenuShown = MenuShown(manager: Manager, menu: MainMenu)

  /** `createMainMenu(player, page)`: lists the quests directory (`None` when
      it is missing or cannot be listed), clamps the requested page into the
      pages the listing fills, shows that page's quests in slots 0 up, and
      stores the clamped page and the slot map as the player's. */
  function ShowMainMenu(m: Manager, player: PlayerId, listing: Option<seq<string>>, page: int)
    : (r: MenuShown)
    ensures var quests := QuestListing.ListQuestFiles(listing);
      var menu := r.menu;
      && menu.totalPages == Pagination.TotalPages(|quests|)
      && menu.page == Pagination.SafePage(page, menu.totalPages)
      && (menu.hasPrev <==> menu.page > 0)
      && (menu.hasNext <==> menu.page < menu.totalPages - 1)
      && Pagination.PageStart(menu.page) <= |quests|
      && menu.slots == Pagination.PageSlots(QuestListing.QuestPaths(quests), menu.page)
    ensures forall k :: k in r.menu.slots ==> 0 <= k < Pagination.PageSize
    ensures Get(r.manager.currentPage, player) == Some(r.menu.page as int)
    ensures Get(r.manager.mainMenuSlots, player) == Some(r.menu.slots)
    ensures forall p :: p != player ==> RecordOf(r.manager, p) == RecordOf(m, p)
    ensures r.manager == m.(currentPage := r.manager.currentPage, mainMenuSlots := r.manager.mainMenuSlots)
  {
    var quests := QuestListing.QuestPaths(QuestListing.ListQuestFiles(listing));
    var total := Pagination.TotalPages(|quests|);
    var safe := Pagination.SafePage(page, total);
    Pagination.ClampedPageStartInRange(|quests|, page);
    var slots := Pagination.PageSlots(quests, safe);
    MenuShown(m.(currentPage := m.currentPage[player := safe], mainMenuSlots := m.mainMenuSlots[player := slots]),
              MainMenu(safe, total, slots, safe > 0, safe < total - 1))
  }

  /** `getCurrentPage` after a render reads back the page the render
      showed, and a player never shown the list is on page 0. */
  lemma PageAfterRender(m: Manager, player: PlayerId, listing: Option<seq<string>>, page: int)
    ensures var shown := ShowMainMenu(m, player, listing, page);
      CurrentPage(shown.manager, player) == shown.menu.page
    ensures CurrentPage(Initial, player) == 0
  {
  }

  /** The quest list rendered by `createMainMenu`'s loop is the one
      `ShowMainMenu` describes. */
  method CreateMainMenu(m: Manager, player: PlayerId, listing: Option<seq<string>>, page: int)
    returns (m': Manager, menu: MainMenu)
    ensures MenuShown(m', menu) == ShowMainMenu(m, player, listing, page)
  {
    var names := QuestListing.ListQuestFiles(listing);
    var quests := QuestListing.QuestPaths(names);
    var view := Pagination.RenderPage(quests, page);
    var total := Pagination.TotalPages(|quests|);
    var safe := Pagination.SafePage(page, total);
    assert view.totalPages == total && view.page == safe;
    assert view.slots == Pagination.PageSlots(quests, safe);
    menu := MainMenu(view.page, view.totalPages, view.slots, view.hasPrev, view.hasNext);
    m' := m.(currentPage := m.currentPage[player := view.page],
             mainMenuSlots := m.mainMenuSlots[player := view.slots]);
  }
}
