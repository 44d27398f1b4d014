# Quest editor and potion key of the AuroraQuests potion add-on

The add-on has two parts, both modelled here.

The first part is an in-game editor for the quest files of AuroraQuests (`QuestGuiListener` and `QuestGuiManager`). It works like this:

- A player browses the `.yml`/`.yaml` files of the quests directory in a paged chest menu of 45 quests per page.
- Picking a quest opens its menu. From there the player can open it in a writable book, rename or duplicate it through a chat prompt, or delete it after a confirmation.
- Creating a quest also goes through a chat prompt.
- The player's typed file name is sanitised into a safe quest file name.

The second part is `PotionConsumeAddon.onPlayerConsume`. It reduces a drunk potion to the key that quests list in a consume objective, such as `strength`, `strong_strength` or `long_strength`.

The model is functional throughout:

- The manager's per-player maps form one immutable `Session.Manager` record.
- The quests directory is a map from paths to file contents (`QuestStore.Store`).
- Each event handler is a function from the current `World` (manager and store) to an outcome and the next `World`.

Modules:

| module | file | models |
|---|---|---|
| `Wrappers` | wrappers.dfy | `Option` and map lookup |
| `JavaText` | text.dfy | `trim`, `stripTrailing`, ASCII case mapping, `contains`, `String.join`, `compareTo` |
| `QuestStore` | store.dfy | the quests directory and the `Files` operations the editor uses |
| `QuestNames` | quest_names.dfy | `resolveQuestFile` |
| `QuestListing` | listing.dfy | `listQuestFiles` |
| `Pagination` | pagination.dfy | the page clamp and slot map of `createMainMenu` |
| `BookCodec` | book.dfy | `splitIntoPages` and the text `updateQuestFromBook` writes |
| `Session` | session.dfy | the manager's per-player records and the operations on them |
| `ChatInput` | chat.dfy | `onChat`, `handleCreate`, `handleRename`, `handleDuplicate` |
| `Clicks` | clicks.dfy | `onInventoryClick` with its per-menu handlers, and `onInventoryClose` |
| `Flows` | flows.dfy | multi-step interactions: a click followed by a chat answer or a second click |
| `PotionKey` | potion.dfy | the variant key of `onPlayerConsume` |

The listener calls manager members that `QuestGuiManager.java` does not declare. These are `GUILD_TITLE_PREFIX`, `TASKS_TITLE_PREFIX`, `getGuildMenuSlots`, `getGuildQuestMenuSlots`, `createGuildQuestMenu`, `getCurrentGuildPage`, `getSelectedGuild`, `createTaskMenu`, `getTaskMenuSlots`, `addTask`, `getTaskDifficulty`, `updateTaskDifficulty` and `getGuildForQuest`. The model handles them as follows:

- What those members return is a parameter: the fields of `MenuSlots` (the three slot maps and the guild page), `ChatEnv.selectedGuild`, or the menu's `View`.
- What they open is named, not rendered: `QuestsOfGuild`, `QuestsOfGuildOf`, `QuestsOfSelectedGuild`, `TaskMenu` and `TaskEdited`.
- The declared `createMainMenu` is modelled: the controls that call it render the quest list through `Session.ShowMainMenu`, which stores the clamped page and the slot map.

Rename and duplicate resolve the new name in the quests directory itself (src/main/java/gg/auroramc/potionaddon/gui/QuestGuiListener.java:308-309 and 322-323), not in the directory of the quest being renamed or copied. `ChatInput.OnChat` states that every renamed or duplicated file lands directly in the quests directory, whichever directory the quest was in.

## Model

| member | source | states |
|---|---|---|
| JavaText.Trim | src/main/java/gg/auroramc/potionaddon/gui/QuestGuiListener.java:336 | the result is a contiguous slice of the input whose dropped prefix and suffix consist only of chars up to U+0020, and which starts and ends with a char above U+0020; it is empty exactly when every char is at most U+0020; an input with no such char at either end is kept |
| JavaText.TrimIdempotent | src/main/java/gg/auroramc/potionaddon/gui/QuestGuiListener.java:101 | trimming an already trimmed message changes nothing, so the second trim in `resolveQuestFile` is harmless |
| JavaText.StripTrailing | src/main/java/gg/auroramc/potionaddon/gui/QuestGuiManager.java:152 | the result is a prefix of the input; every dropped char is whitespace; the result does not end in whitespace |
| JavaText.JoinShape | src/main/java/gg/auroramc/potionaddon/gui/QuestGuiManager.java:152 | the joined length is the page lengths plus one separator between neighbours; the text starts with the first page and ends with the last |
| JavaText.JoinPieces | src/main/java/gg/auroramc/potionaddon/gui/QuestGuiManager.java:152 | `String.join` lays every page out in order: page i starts after the pages before it and one separator per page, and a separator follows every page but the last |
| JavaText.EqualsIgnoreCase | src/main/java/gg/auroramc/potionaddon/gui/QuestGuiListener.java:102 | a message equals a lower-case word ignoring case exactly when lower-casing it gives the word |
| JavaText.EndsWithSplit | src/main/java/gg/auroramc/potionaddon/gui/QuestGuiManager.java:202-203 | `endsWith` holds exactly when the name is some text followed by the suffix |
| JavaText.ToLowerAscii | src/main/java/gg/auroramc/potionaddon/PotionConsumeAddon.java:88 | the same length, with every ASCII capital mapped to its small letter and every other char kept |
| JavaText.Contains | src/main/java/gg/auroramc/potionaddon/gui/QuestGuiListener.java:210 | true exactly when the substring occurs at some index of the string |
| JavaText.LexLePrefix | src/main/java/gg/auroramc/potionaddon/gui/QuestGuiManager.java:204 | in the sort order a name comes no later than its extensions, and an extension comes no earlier than its proper prefix |
| JavaText.LexLeTotal | src/main/java/gg/auroramc/potionaddon/gui/QuestGuiManager.java:204 | any two file-name keys are comparable |
| JavaText.LexLeTransitive | src/main/java/gg/auroramc/potionaddon/gui/QuestGuiManager.java:204 | the comparator order is transitive |
| JavaText.LexLeAntisymmetric | src/main/java/gg/auroramc/potionaddon/gui/QuestGuiManager.java:204 | keys that compare both ways are equal |
| QuestStore.WriteFile | src/main/java/gg/auroramc/potionaddon/gui/QuestGuiListener.java:302 | a successful write adds or overwrites exactly the one path with the given text and keeps every other file; it fails exactly when the I/O oracle says so |
| QuestStore.MoveFile | src/main/java/gg/auroramc/potionaddon/gui/QuestGuiListener.java:316 | a move succeeds exactly when the source exists and the target is free; the source then disappears and its content appears under the target, and the other files are untouched |
| QuestStore.CopyFile | src/main/java/gg/auroramc/potionaddon/gui/QuestGuiListener.java:330 | a copy has the same success condition as a move; the target gets the source's content and every existing file, the source included, keeps its content |
| QuestStore.DeleteIfExists | src/main/java/gg/auroramc/potionaddon/gui/QuestGuiListener.java:235 | a delete removes exactly the one path and keeps every other file's content; deleting an absent path succeeds and changes nothing |
| QuestNames.ReplaceDisallowed | src/main/java/gg/auroramc/potionaddon/gui/QuestGuiListener.java:343 | the same length; allowed chars are kept at their positions and every other char becomes `_`, so the result holds only `[A-Za-z0-9._-]` |
| QuestNames.ReplaceKeepsQuestSuffix | src/main/java/gg/auroramc/potionaddon/gui/QuestGuiListener.java:340-343 | replacement cannot remove a `.yml` or `.yaml` suffix |
| QuestNames.ReplaceIdentity | src/main/java/gg/auroramc/potionaddon/gui/QuestGuiListener.java:343 | a name made only of allowed chars is left as it is |
| QuestNames.ReplaceAppend | src/main/java/gg/auroramc/potionaddon/gui/QuestGuiListener.java:341-343 | replacing in `name + ".yml"` is replacing in `name` followed by `.yml` |
| QuestNames.BaseName | src/main/java/gg/auroramc/potionaddon/gui/QuestGuiListener.java:336-339 | the base name is never empty and already trimmed; an all-blank input gives `new-quest.yml`, and any other input gives the slice of it left after removing only chars up to U+0020 from both ends |
| QuestNames.Suffixed | src/main/java/gg/auroramc/potionaddon/gui/QuestGuiListener.java:340-342 | the result always has a quest suffix; a name that has one is kept, and any other name gains `.yml` |
| QuestNames.DefaultNameAccepted | src/main/java/gg/auroramc/potionaddon/gui/QuestGuiListener.java:338 | the fallback name is itself a valid quest file name |
| QuestNames.BlankShape | src/main/java/gg/auroramc/potionaddon/gui/QuestGuiListener.java:336-344 | a blank or whitespace-only input resolves to `new-quest.yml` |
| QuestNames.AppendedShape | src/main/java/gg/auroramc/potionaddon/gui/QuestGuiListener.java:340-343 | a name without a quest suffix becomes its sanitised text followed by `.yml` |
| QuestNames.SanitizeName | src/main/java/gg/auroramc/potionaddon/gui/QuestGuiListener.java:335-344 | the file name holds only `[A-Za-z0-9._-]` and ends in `.yml` or `.yaml`, and each input shape (blank, suffixed, unsuffixed) gives its own result |
| QuestNames.SanitizeIdempotent | src/main/java/gg/auroramc/potionaddon/gui/QuestGuiListener.java:335-345 | sanitising a sanitised name gives the same name |
| QuestNames.SanitizeFixesAccepted | src/main/java/gg/auroramc/potionaddon/gui/QuestGuiListener.java:335-345 | every valid quest file name is a fixed point of sanitising |
| QuestNames.SanitizeExample | src/main/java/gg/auroramc/potionaddon/gui/QuestGuiListener.java:335-345 | `"strength quest"` becomes `strength_quest.yml` |
| QuestNames.ExampleTrimmed | src/main/java/gg/auroramc/potionaddon/gui/QuestGuiListener.java:336-340 | the example has nothing to trim and no quest suffix |
| QuestNames.ExampleReplaced | src/main/java/gg/auroramc/potionaddon/gui/QuestGuiListener.java:341-343 | the space of the example becomes `_` and `.yml` follows |
| QuestNames.ResolveTrimmed | src/main/java/gg/auroramc/potionaddon/gui/QuestGuiListener.java:101 | resolving the trimmed message and resolving the raw message give the same file |
| QuestNames.ResolveQuestFile | src/main/java/gg/auroramc/potionaddon/gui/QuestGuiListener.java:335-345 | the file lies directly in the given directory and its name is the sanitised form of the typed name, so it holds only `[A-Za-z0-9._-]` and ends in `.yml` or `.yaml` |
| QuestNames.ResolveStable | src/main/java/gg/auroramc/potionaddon/gui/QuestGuiListener.java:335-345 | resolving the resolved file's own name again gives the same file |
| QuestListing.FilterQuestNames | src/main/java/gg/auroramc/potionaddon/gui/QuestGuiManager.java:202-203 | keeps exactly the names ending in `.yml` or `.yaml`, each as often as it occurs in the input |
| QuestListing.Insert | src/main/java/gg/auroramc/potionaddon/gui/QuestGuiManager.java:204 | inserting into a sorted list adds exactly one occurrence of the new name and keeps the list sorted |
| QuestListing.SortByKey | src/main/java/gg/auroramc/potionaddon/gui/QuestGuiManager.java:204 | the output is a permutation of the input, sorted by lower-cased file name |
| QuestListing.ListQuestFiles | src/main/java/gg/auroramc/potionaddon/gui/QuestGuiManager.java:196-210 | a missing or unlistable directory gives the empty list; otherwise the list is a permutation of the directory's quest files, sorted by lower-cased name |
| Pagination.TotalPages | src/main/java/gg/auroramc/potionaddon/gui/QuestGuiManager.java:59 | at least one page; no items give exactly one page; otherwise the last page is non-empty and every item fits on the pages |
| Pagination.SafePage | src/main/java/gg/auroramc/potionaddon/gui/QuestGuiManager.java:60 | a requested page inside the range is kept, a negative one becomes 0, and one past the end becomes the last page |
| Pagination.SafePageIdempotent | src/main/java/gg/auroramc/potionaddon/gui/QuestGuiManager.java:60 | clamping an already clamped page changes nothing |
| Pagination.ClampedPageStartInRange | src/main/java/gg/auroramc/potionaddon/gui/QuestGuiManager.java:66 | the first index of any clamped page is inside the list, or the list is empty |
| Pagination.VisibleCount | src/main/java/gg/auroramc/potionaddon/gui/QuestGuiManager.java:67 | a page shows at most 45 items and never runs past the list; a short page ends exactly at the list's end |
| Pagination.PageSlots | src/main/java/gg/auroramc/potionaddon/gui/QuestGuiManager.java:64-83 | the slots of a page are exactly 0 up to the visible count, and slot k holds the item at index `page * 45 + k` |
| Pagination.BuildSlotMap | src/main/java/gg/auroramc/potionaddon/gui/QuestGuiManager.java:64-83 | the loop gives slot k the item at index `page * 45 + k` for exactly the visible slots |
| Pagination.RenderPage | src/main/java/gg/auroramc/potionaddon/gui/QuestGuiManager.java:57-99 | for any requested page: the clamped page, `hasPrev` iff the page is above 0, `hasNext` iff it is below the last, and the slot map of that page |
| Pagination.SlotsAvoidControls | src/main/java/gg/auroramc/potionaddon/gui/QuestGuiManager.java:80-97 | no quest lands on control slots 45, 46, 52 or 53 |
| Pagination.EveryItemHasASlot | src/main/java/gg/auroramc/potionaddon/gui/QuestGuiManager.java:59-83 | every quest appears on page `i / 45`, which the clamp keeps, at slot `i % 45` |
| BookCodec.Chunks | src/main/java/gg/auroramc/potionaddon/gui/QuestGuiManager.java:236-243 | the pieces concatenate to the text; each is 1 to width chars long; all but the last are full |
| BookCodec.SplitIntoPages | src/main/java/gg/auroramc/potionaddon/gui/QuestGuiManager.java:232-244 | empty text is one empty page; otherwise the pages concatenate to the text, each holds 1 to 240 chars, and all but the last are full |
| BookCodec.SaveText | src/main/java/gg/auroramc/potionaddon/gui/QuestGuiManager.java:152 | the saved text ends in exactly one newline, preceded by a non-whitespace char unless the text is just that newline; before it comes the joined pages with only trailing whitespace removed |
| BookCodec.ShortContentOnePage | src/main/java/gg/auroramc/potionaddon/gui/QuestGuiManager.java:135 | text of at most 240 chars comes back unchanged when its pages are joined |
| BookCodec.ShortRoundTrip | src/main/java/gg/auroramc/potionaddon/gui/QuestGuiManager.java:135 | opening and saving an unchanged book of at most 240 chars gives the text without trailing whitespace, plus a newline |
| BookCodec.LongContentSplit | src/main/java/gg/auroramc/potionaddon/gui/QuestGuiManager.java:238-242 | a longer text splits into one full page followed by the pages of the rest |
| BookCodec.LongContentJoined | src/main/java/gg/auroramc/potionaddon/gui/QuestGuiManager.java:152 | joining a longer text's pages puts a newline after the first full page |
| BookCodec.JoinedLength | src/main/java/gg/auroramc/potionaddon/gui/QuestGuiManager.java:152 | joining adds exactly `(n - 1) / 240` newlines to an n-char text |
| BookCodec.JoinedCharPositions | src/main/java/gg/auroramc/potionaddon/gui/QuestGuiManager.java:152 | char i of the text moves right by `i / 240` |
| BookCodec.JoinedBreakPositions | src/main/java/gg/auroramc/potionaddon/gui/QuestGuiManager.java:152 | the k-th page break is a newline at index `k * 241 - 1` |
| BookCodec.LongContentGainsBreaks | src/main/java/gg/auroramc/potionaddon/gui/QuestGuiManager.java:152 | a text longer than one page does not survive splitting and joining: it grows |
| BookCodec.LongRoundTripExample | src/main/java/gg/auroramc/potionaddon/gui/QuestGuiManager.java:135 | 241 letters saved unchanged come back with a newline after the 240th |
| Session.BeginChatInput | src/main/java/gg/auroramc/potionaddon/gui/QuestGuiManager.java:156-158 | the player's request is set, replacing any earlier one; the other players' requests and every other record are kept |
| Session.ConsumeChatInput | src/main/java/gg/auroramc/potionaddon/gui/QuestGuiManager.java:160-162 | returns the player's request exactly when one is pending, and removes only that one |
| Session.ConsumeTwice | src/main/java/gg/auroramc/potionaddon/gui/QuestGuiManager.java:160-162 | a second consume returns nothing and changes nothing |
| Session.BeginThenConsume | src/main/java/gg/auroramc/potionaddon/gui/QuestGuiManager.java:156-162 | consuming right after arming returns the armed request and leaves the player with none |
| Session.BeginOverwrites | src/main/java/gg/auroramc/potionaddon/gui/QuestGuiManager.java:157 | of two requests armed in a row, only the later one counts |
| Session.ClearSelections | src/main/java/gg/auroramc/potionaddon/gui/QuestGuiManager.java:184-186 | forgets only the player's selected quest; pending requests and the other records are kept |
| Session.SelectQuest | src/main/java/gg/auroramc/potionaddon/gui/QuestGuiManager.java:105 | the quest becomes the player's selection, and nobody else's changes |
| Session.OpenEditor | src/main/java/gg/auroramc/potionaddon/gui/QuestGuiManager.java:133-144 | the player's editing record is set to the quest even when the read fails; the book holds at least one page, no page is longer than 240 chars and every page but the last is exactly 240; for a non-empty readable file every page is non-empty and the pages spell the file, and a missing, unreadable or empty file gives one empty page |
| Session.UnreadableFileOverwritten | src/main/java/gg/auroramc/potionaddon/gui/QuestGuiManager.java:221-230 | an existing file whose read throws opens as one empty page, and saving that book unchanged replaces the whole file by a single newline |
| Session.UpdateQuestFromBook | src/main/java/gg/auroramc/potionaddon/gui/QuestGuiManager.java:146-154 | the editing record is removed first; without one nothing is written; with one, exactly that file gets the saved text unless the write fails |
| Session.SecondSaveIsNoOp | src/main/java/gg/auroramc/potionaddon/gui/QuestGuiManager.java:147-150 | a second save after one opening writes nothing and changes nothing |
| Session.OpenThenSave | src/main/java/gg/auroramc/potionaddon/gui/QuestGuiManager.java:133-154 | opening and saving unchanged rewrites the file with the codec's round-trip text and consumes the editing record |
| Session.MenuSlotShowsQuest | src/main/java/gg/auroramc/potionaddon/gui/QuestGuiManager.java:66-81 | slot k of a page shows file `page * 45 + k` of the sorted listing |
| Session.CreateMainMenu | src/main/java/gg/auroramc/potionaddon/gui/QuestGuiManager.java:57-99 | the loop-built render (page clamp, slot loop, stored page and slot map) gives exactly the manager and menu of `Session.ShowMainMenu` |
| Session.ShowMainMenu | src/main/java/gg/auroramc/potionaddon/gui/QuestGuiManager.java:57-99 | the page count is that of the sorted quest listing; the shown and stored page is the clamped request; the previous and next controls are live exactly off the first and last page; the slot map is the page's slice of the listing, in slots below 45; only the player's page and slot map change, and no other player's records |
| Session.CurrentPage | src/main/java/gg/auroramc/potionaddon/gui/QuestGuiManager.java:172-174 | a player's current page is the stored one, and 0 for a player with none |
| Session.PageAfterRender | src/main/java/gg/auroramc/potionaddon/gui/QuestGuiManager.java:172-174 | after a render the current page reads back as the page shown, and a player never shown the list is on page 0 |
| ChatInput.CreateDir | src/main/java/gg/auroramc/potionaddon/gui/QuestGuiListener.java:289-293 | a new quest goes to the quests directory when no guild or the no-guild sentinel is selected, and to the guild's directory otherwise |
| ChatInput.RenamedStore | src/main/java/gg/auroramc/potionaddon/gui/QuestGuiListener.java:316 | after a rename the old path is gone and the new one holds its content |
| ChatInput.DuplicatedStore | src/main/java/gg/auroramc/potionaddon/gui/QuestGuiListener.java:330 | after a duplicate both paths hold the original content |
| ChatInput.HandleCreate | src/main/java/gg/auroramc/potionaddon/gui/QuestGuiListener.java:288-305 | an existing target leaves the files as they are and arms a new create; an I/O failure changes nothing; otherwise exactly the new file is added with the template, and the editor opens on it, which sets the player's editing record and changes no other record |
| ChatInput.HandleRename | src/main/java/gg/auroramc/potionaddon/gui/QuestGuiListener.java:307-319 | the target is resolved in the quests directory; a taken target re-arms the same rename; a failure changes nothing; otherwise the file moves and becomes the selection |
| ChatInput.HandleDuplicate | src/main/java/gg/auroramc/potionaddon/gui/QuestGuiListener.java:321-333 | like the rename, but the original file stays and the copy becomes the selection |
| ChatInput.Dispatch | src/main/java/gg/auroramc/potionaddon/gui/QuestGuiListener.java:110-116 | each request goes to its own handler; the store changes only as the outcome says; only a conflict re-arms a request |
| ChatInput.OnChat | src/main/java/gg/auroramc/potionaddon/gui/QuestGuiListener.java:92-121 | a message is ignored exactly when no request is pending; `cancel` in any letter case only drops the request; no request survives unless re-armed by a conflict; other players' requests and files change only as the outcome says; renames and duplicates land in the quests directory |
| ChatInput.StrengthQuestMessage | src/main/java/gg/auroramc/potionaddon/gui/QuestGuiListener.java:101-102 | `"strength quest"` is no cancel and names `strength_quest.yml` in the quests directory |
| ChatInput.CreateScenario | src/main/java/gg/auroramc/potionaddon/gui/QuestGuiListener.java:295-302 | in an empty directory the first create makes the file; the same answer to a second create is refused with the files unchanged and re-arms the create |
| ChatInput.AnswerPending | src/main/java/gg/auroramc/potionaddon/gui/QuestGuiListener.java:101-116 | a pending request answered with anything but `cancel` reaches its handler with the trimmed message |
| Clicks.StripColorChars | src/main/java/gg/auroramc/potionaddon/gui/QuestGuiListener.java:210 | removing colour codes drops chars two at a time and only keeps chars of the input |
| Clicks.StripColorShape | src/main/java/gg/auroramc/potionaddon/gui/QuestGuiListener.java:210 | a name comes back unchanged exactly when it holds no colour code, and always when it holds no `§` |
| Clicks.IsDuplicateLabel | src/main/java/gg/auroramc/potionaddon/gui/QuestGuiListener.java:210 | for a label without colour codes the duplicate test is whether the lower-cased label contains `duplicate` |
| Clicks.DuplicateButtonLabel | src/main/java/gg/auroramc/potionaddon/gui/QuestGuiManager.java:109 | the aqua "Duplicate quest" label of the quest menu passes the duplicate test |
| Clicks.PlainLabel | src/main/java/gg/auroramc/potionaddon/gui/QuestGuiListener.java:210 | the button's text holds no colour code, so stripping keeps it whole |
| Clicks.DuplicateWord | src/main/java/gg/auroramc/potionaddon/gui/QuestGuiListener.java:210 | the button's text, lower-cased, contains `duplicate` |
| Clicks.QuestMenuClick | src/main/java/gg/auroramc/potionaddon/gui/QuestGuiListener.java:185-224 | no files change; without a selection the menu closes with nothing else changed; the book opens the editor, the name tag arms a rename, the labelled paper arms a duplicate, the barrier asks for confirmation, the star and the arrow change no records, and any other item changes neither the screen nor the records |
| Clicks.DeleteMenuClick | src/main/java/gg/auroramc/potionaddon/gui/QuestGuiListener.java:226-247 | without a selection the menu only closes; red wool removes exactly the selected file, an absent file included, and returns to its guild even when the delete failed; green wool reopens the quest menu; no record changes |
| Clicks.TaskMenuClick | src/main/java/gg/auroramc/potionaddon/gui/QuestGuiListener.java:249-286 | without a selection the menu closes; slot 45 names an add-task edit and a task slot a difficulty edit of the selected quest; slot 49 reopens the quest menu; the listener's own records and the modelled store stay as they are, the edits being the manager's |
| Clicks.GuildQuestMenuClick | src/main/java/gg/auroramc/potionaddon/gui/QuestGuiListener.java:147-183 | a quest slot selects its quest; slot 45 closes the list and arms a create; slot 48 renders the main list at the guild page, storing the clamped page and slot map; the other controls reload or turn the guild's page with nothing changed, and any other slot changes neither the screen nor the records |
| Clicks.GuildMenuClick | src/main/java/gg/auroramc/potionaddon/gui/QuestGuiListener.java:123-145 | no file changes; a guild slot opens its first page with nothing changed; slots 46, 52 and 53 render the main list at the guild page, one below or one above it, storing the clamped page and slot map; other players' records are kept |
| Clicks.NextOnEmptyListStoresFirstPage | src/main/java/gg/auroramc/potionaddon/gui/QuestGuiListener.java:141-143 | with an empty quests directory the next-page control stores page 0, whatever the guild page was |
| Clicks.OnInventoryClick | src/main/java/gg/auroramc/potionaddon/gui/QuestGuiListener.java:32-71 | clicks outside the editor or on empty slots change nothing; of the modelled file operations only red wool in the delete confirmation changes the store; a task edit is named only from the task menu and on the selected quest; with no selection the quest, delete and task menus only close; no other player's records change |
| Clicks.OnInventoryClose | src/main/java/gg/auroramc/potionaddon/gui/QuestGuiListener.java:73-79 | closing the delete confirmation forgets the player's selection and keeps pending requests and editing records; other menus change nothing |
| Flows.RenameFlow | src/main/java/gg/auroramc/potionaddon/gui/QuestGuiListener.java:204-209 | name tag then a free name: the file moves to the quests directory with its content, becomes the selection, and no request is left pending |
| Flows.NameTagArmsRename | src/main/java/gg/auroramc/potionaddon/gui/QuestGuiListener.java:204-208 | the name tag closes the menu and arms a rename of the selected quest |
| Flows.RenameAnswered | src/main/java/gg/auroramc/potionaddon/gui/QuestGuiListener.java:101-112 | a pending rename answered without `cancel` goes to the rename handler with the trimmed name |
| Flows.DuplicateFlow | src/main/java/gg/auroramc/potionaddon/gui/QuestGuiListener.java:210-215 | duplicate button then a free name: the directory gains exactly the copy, the original keeps its content, and the copy becomes the selection |
| Flows.PaperArmsDuplicate | src/main/java/gg/auroramc/potionaddon/gui/QuestGuiListener.java:210-214 | the menu's duplicate button closes the menu and arms a duplicate of the selected quest |
| Flows.DuplicateAnswered | src/main/java/gg/auroramc/potionaddon/gui/QuestGuiListener.java:101-113 | a pending duplicate answered without `cancel` goes to the duplicate handler with the trimmed name |
| Flows.CreateThenCancel | src/main/java/gg/auroramc/potionaddon/gui/QuestGuiListener.java:157-162 | the create slot then `CaNcEl`: nothing is written and no request is left |
| Flows.DeleteFlow | src/main/java/gg/auroramc/potionaddon/gui/QuestGuiListener.java:216-243 | barrier, red wool, then closing: the selected file and only it is gone, and the selection is forgotten |
| Flows.KeepThenClickClosesMenu | src/main/java/gg/auroramc/potionaddon/gui/QuestGuiListener.java:244-246 | keeping the quest reopens its menu, but the confirmation's close event forgets the selection, so the next click there only closes the menu |
| PotionKey.BaseKey | src/main/java/gg/auroramc/potionaddon/PotionConsumeAddon.java:88 | the base key is the type name with each capital lowered and every other char kept, so it has the name's length and no capitals |
| PotionKey.VariantKey | src/main/java/gg/auroramc/potionaddon/PotionConsumeAddon.java:88-96 | `strong_` plus the base for an upgraded potion, even an extended one; `long_` plus the base for an extended one; the bare base otherwise |
| PotionKey.ConsumeKey | src/main/java/gg/auroramc/potionaddon/PotionConsumeAddon.java:68-99 | a key is produced exactly for a non-cancelled drink of a `POTION` with potion meta whose type is not UNCRAFTABLE, WATER, MUNDANE, THICK or AWKWARD, and it is that potion's variant key |
| PotionKey.UpperLower | src/main/java/gg/auroramc/potionaddon/PotionConsumeAddon.java:88 | upper-casing the base key of a constant's name gives the name back |
| PotionKey.BasePrefix | src/main/java/gg/auroramc/potionaddon/PotionConsumeAddon.java:88 | a base key starts with `strong_` or `long_` only when the constant starts with `STRONG_` or `LONG_` |
| PotionKey.KeyRoundTrip | src/main/java/gg/auroramc/potionaddon/PotionConsumeAddon.java:88-96 | for type names that do not themselves start with `STRONG_` or `LONG_`, the key can be read back to the variant and the type name |
| PotionKey.KeyInjective | src/main/java/gg/auroramc/potionaddon/PotionConsumeAddon.java:88-96 | under the same naming condition, different potions get different keys |
| PotionKey.LongNamedTypeCollides | src/main/java/gg/auroramc/potionaddon/PotionConsumeAddon.java:88-96 | without that condition keys can clash: a plain `LONG_SWIFTNESS` and an extended `SWIFTNESS` get the same key |
| PotionKey.StrengthKeys | src/main/java/gg/auroramc/potionaddon/PotionConsumeAddon.java:86-96 | plain, upgraded-and-extended and extended strength give `strength`, `strong_strength` and `long_strength` |

## Left out

- File I/O is modelled as a map. An `IOException` from `Files` is a boolean oracle: a failed write, move, copy or delete leaves the map unchanged, and a failed read in `readQuestContent` reads as the empty string. In `handleCreate`, the `createDirectories` failure and the `writeString` failure are folded into that one oracle.
- ChatInput.HandleCreate: the editor opened on the new file is given a successful read, since only its editing record is part of the step.
- Threading: `onChat` consumes the request on the chat thread and applies it later on the main thread. The model runs the two steps back to back.
- Player messages and the rendering of inventories are not modelled. This covers items, lore, titles, sizes and dates (src/main/java/gg/auroramc/potionaddon/gui/QuestGuiManager.java:63-131, 212-219, 246-261).
- `onPlayerEditBook`'s error message is not modelled; its save is `Session.UpdateQuestFromBook`.
- The reflection bridge `progressConsumeObjectives` (src/main/java/gg/auroramc/potionaddon/PotionConsumeAddon.java:110-170) calls a foreign API and swallows every failure, so it is not modelled. The model stops at the key handed to it.
- `onEnable`'s plugin-presence check is left out.
- Manager members the listener calls but `QuestGuiManager.java` does not declare are parameters or named screens, not behaviour. The guild menus, guild assignment, task menu, `addTask` and difficulty cycling are among them.
- The title-prefix dispatch of `onInventoryClick` is abstracted to a `View` value, because the guild and task title constants are not declared anywhere visible.
- `QuestGuiCommand.java` (a permission gate opening the menu) and `build.gradle.kts` are not part of this model.
- JavaText.ToLowerAscii: folds ASCII letters only, while `toLowerCase(Locale.ENGLISH/ROOT)` also folds non-ASCII letters. The potion type names and the sanitised file names are ASCII, but a listing sort key with non-ASCII letters may order differently.
- JavaText.LexLe: compares Unicode scalar values, while `compareTo` compares UTF-16 code units. The two differ only for chars outside the Basic Multilingual Plane.
- Pagination.TotalPages: integer ceiling division stands in for `Math.ceil(n / 45.0)`, which agrees for every list size below 2^53.
- Clicks.GuildQuestMenuClick: `page - 1` and `page + 1` are unbounded integers; Java's 32-bit wrap-around at `Integer.MAX_VALUE` is not modelled.
- Clicks.GuildMenuClick: the guild page plus or minus one is likewise unbounded; the wrap-around is not modelled.
- Clicks.TaskMenuClick: `addTask` and `updateTaskDifficulty` write the quest file and may throw, but they are manager members not declared in `QuestGuiManager.java`; the step names the edit in a `TaskEdited` screen and the modelled store does not change.
- Clicks.OnInventoryClick: for the same reason its "only red wool changes the store" holds of the modelled store only; the task menu's edits change the selected quest file in the program.
- ChatInput.CreateDir: in Java a guild named `.` resolves to the quests directory itself, and a name containing `/` or `..` to a deeper or outer directory; here every guild other than the sentinel is its own segment below the quests directory.
- BookCodec.SplitIntoPages: Java's `substring(0, 240)` counts UTF-16 code units and can split a surrogate pair across two pages; the model counts Unicode scalar values.
- QuestListing.ListQuestFiles: the directory listing is a parameter, not derived from the store, so nothing ties the names listed to the files the handlers create, move or delete.
- PotionKey.ConsumeKey: the potion type is its enum constant's name. Which constants exist depends on the server API version, which is not part of this model.
