/** The quests directory as the editor sees it: a finite map from file paths
    to file contents. The key set is the set of existing files. Every write
    takes an `ioFails` oracle standing for an `IOException` from the host;
    a failed operation leaves the map unchanged. */
module QuestStore {

  /** A path below the quests directory: the directory segments under the
      root, then the file name. */
  datatype Path = Path(dir: seq<string>, name: string)

  type Store = map<Path, string>

  /** The quests directory itself. */
  const Root: seq<string> := []

  /** `questsDir.resolve(guild)`; resolving the empty string yields the
      directory itself. */
  function GuildDir(guild: string): (d: seq<string>)
    ensures guild == "" ==> d == Root
    ensures guild != "" ==> d == [guild]
  {
    if guild == "" then Root else Root + [guild]
  }

  /** The text written into a newly created quest file. */
  const DefaultTemplate: string :=
    "tasks:\n"
    + "  example_task:\n"
    + "    task: CONSUME\n"
    + "    args:\n"
    + "      amount: 1\n"
    + "      types:\n"
    + "        - \"strength\"\n"

  /** What a file operation did: the store afterwards, or an I/O error with
      the store untouched. */
  datatype IoResult = Done(store: Store) | IoError

  /** `Files.writeString`: creates or truncates the file. */
  function WriteFile(s: Store, p: Path, content: string, ioFails: bool): (r: IoResult)
    ensures r.Done? <==> !ioFails
    ensures r.Done? ==> r.store.Keys == s.Keys + {p} && r.store[p] == content
    ensures r.Done? ==> forall q :: q in s && q != p ==> r.store[q] == s[q]
  {
    if ioFails then IoError else Done(s[p := content])
  }

  /** `Files.move` without options: the source must exist and the target
      must not, unless both are the same file, which is then left alone. */
  function MoveFile(s: Store, from: Path, to: Path, ioFails: bool): (r: IoResult)
    ensures r.Done? <==> !ioFails && from in s && (to !in s || to == from)
    ensures r.Done? && to != from ==>
      && r.store.Keys == s.Keys - {from} + {to}
      && r.store[to] == s[from]
      && forall q :: q in s && q != from && q != to ==> r.store[q] == s[q]
    ensures r.Done? && to == from ==> r.store == s
  {
    if ioFails || from !in s || (to in s && to != from) then IoError
    else if to == from then Done(s)
    else Done((s - {from})[to := s[from]])
  }

  /** `Files.copy` without options: the same preconditions as `MoveFile`,
      but the source stays. */
  function CopyFile(s: Store, from: Path, to: Path, ioFails: bool): (r: IoResult)
    ensures r.Done? <==> !ioFails && from in s && (to !in s || to == from)
    ensures r.Done? ==> r.store.Keys == s.Keys + {to}
    ensures r.Done? ==> r.store[to] == s[from]
    ensures r.Done? ==> forall q :: q in s && q != to ==> r.store[q] == s[q]
  {
    if ioFails || from !in s || (to in s && to != from) then IoError
    else Done(s[to := s[from]])
  }

  /** `Files.deleteIfExists`: an absent file is not an error. */
  function DeleteIfExists(s: Store, p: Path, ioFails: bool): (r: IoResult)
    ensures r.Done? <==> !ioFails
    ensures r.Done? ==> r.store.Keys == s.Keys - {p}
    ensures r.Done? ==> forall q :: q in r.store ==> r.store[q] == s[q]
    ensures r.Done? && p !in s ==> r.store == s
  {
    if ioFails then IoError else Done(s - {p})
  }

  /** `readQuestContent`: the text of a quest file, or "" when it does not
      exist or `Files.readString` throws (`readFails`), for instance on bytes
      that are not UTF-8. */
  function ReadContent(s: Store, p: Path, readFails: bool): (text: string)
    ensures p in s && !readFails ==> text == s[p]
    ensures p !in s || readFails ==> text == ""
  {
    if p in s && !readFails then s[p] else ""
  }

  /** The store after an operation: unchanged when it failed. */
  function StoreAfter(s: Store, r: IoResult): Store {
    if r.Done? then r.store else s
  }
}
