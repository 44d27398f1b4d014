/** Page arithmetic and slot assignment of the quest list menu
    (`QuestGuiManager.createMainMenu`): a 54-slot chest whose first 45 slots
    show one page of quests and whose bottom row holds the controls. */
module Pagination {

  /** Quests shown on one page. */
  const PageSize: nat := 45

  /** The control items of the bottom row. */
  const CreateSlot: int := 45
  const ReloadSlot: int := 46
  const PrevSlot: int := 52
  const NextSlot: int := 53

  function Min(a: int, b: int): int {
    if a < b then a else b
  }

  function Max(a: int, b: int): int {
    if a < b then b else a
  }

  /** `Math.max(1, ceil(n / 45.0))`, computed on integers. */
  function TotalPages(n: nat): (t: nat)
    ensures t >= 1
    ensures n == 0 ==> t == 1
    ensures n > 0 ==> (t - 1) * PageSize < n <= t * PageSize
  {
    Max(1, (n + PageSize - 1) / PageSize)
  }

  /** `Math.min(Math.max(page, 0), totalPages - 1)`. */
  function SafePage(page: int, totalPages: nat): (p: nat)
    requires totalPages >= 1
    ensures p < totalPages
    ensures 0 <= page < totalPages ==> p == page
    ensures page < 0 ==> p == 0
    ensures page >= totalPages ==> p == totalPages - 1
  {
    Min(Max(page, 0), totalPages - 1)
  }

  /** Clamping an already clamped page changes nothing, so the reload
      control re-renders the page the player was on. */
  lemma SafePageIdempotent(page: int, totalPages: nat)
    requires totalPages >= 1
    ensures SafePage(SafePage(page, totalPages), totalPages) == SafePage(page, totalPages)
  {
  }

  /** Index of the first item of a page. */
  function PageStart(page: nat): nat {
    page * PageSize
  }

  /** The first item of any clamped page exists, or the list is empty. */
  lemma ClampedPageStartInRange(n: nat, page: int)
    ensures PageStart(SafePage(page, TotalPages(n))) <= n
    ensures n > 0 ==> PageStart(SafePage(page, TotalPages(n))) < n
  {
    var t := TotalPages(n);
    var p := SafePage(page, t);
    assert p <= t - 1;
    assert p * PageSize <= (t - 1) * PageSize;
  }

  /** How many items page `page` shows: at most a page, and no more than
      remain after its start. */
  function VisibleCount(n: nat, page: nat): (k: nat)
    requires PageStart(page) <= n
    ensures k <= PageSize
    ensures PageStart(page) + k <= n
    ensures k < PageSize ==> PageStart(page) + k == n
  {
    Min(PageStart(page) + PageSize, n) - PageStart(page)
  }

  /** The slot map of a page: slot `i` shows item `page * 45 + i`. */
  function PageSlots<T>(items: seq<T>, page: nat): (m: map<int, T>)
    requires PageStart(page) <= |items|
    ensures forall k :: k in m <==> 0 <= k < VisibleCount(|items|, page)
    ensures forall k :: k in m ==>
      0 <= k < VisibleCount(|items|, page) && m[k] == items[PageStart(page) + k]
  {
    map i | 0 <= i < VisibleCount(|items|, page) :: ItemAt(items, page, i)
  }

  /** The item shown at slot `i` of page `page`. */
  function ItemAt<T>(items: seq<T>, page: nat, i: int): T
    requires 0 <= i && PageStart(page) + i < |items|
  {
    items[PageStart(page) + i]
  }

  /** The `for` loop of `createMainMenu` that fills slots 0, 1, ... with the
      items of one page and records each in a fresh slot map. */
  method BuildSlotMap<T>(items: seq<T>, page: nat) returns (slots: map<int, T>)
    requires PageStart(page) <= |items|
    ensures forall k :: k in slots <==> 0 <= k < VisibleCount(|items|, page)
    ensures forall k :: k in slots ==>
      0 <= k < VisibleCount(|items|, page) && slots[k] == items[PageStart(page) + k]
  {
    var startIndex := PageStart(page);
    var endIndex := Min(startIndex + PageSize, |items|);
    slots := map[];
    var slot := 0;
    var i := startIndex;
    while i < endIndex
      invariant startIndex <= i <= endIndex
      invariant slot == i - startIndex
      invariant forall k :: k in slots <==> 0 <= k < slot
      invariant forall k :: k in slots ==> slots[k] == items[startIndex + k]
    {
      slots := slots[slot := items[i]];
      slot := slot + 1;
      i := i + 1;
    }
  }

  /** What one render of a page decides. */
  datatype PageView<T> = PageView(
    page: nat,
    totalPages: nat,
    slots: map<int, T>,
    hasPrev: bool,
    hasNext: bool)

  /** The page arithmetic of `createMainMenu` for any requested page,
      negative and past-the-end requests included. */
  method RenderPage<T>(items: seq<T>, requested: int) returns (v: PageView<T>)
    ensures v.totalPages >= 1 && v.page < v.totalPages
    ensures |items| == 0 ==> v.totalPages == 1
    ensures |items| > 0 ==> (v.totalPages - 1) * PageSize < |items| <= v.totalPages * PageSize
    ensures 0 <= requested < v.totalPages ==> v.page == requested
    ensures requested < 0 ==> v.page == 0
    ensures requested >= v.totalPages ==> v.page == v.totalPages - 1
    ensures v.hasPrev <==> v.page > 0
    ensures v.hasNext <==> v.page < v.totalPages - 1
    ensures PageStart(v.page) <= |items| && v.slots == PageSlots(items, v.page)
    ensures forall k :: k in v.slots <==> 0 <= k < VisibleCount(|items|, v.page)
    ensures forall k :: k in v.slots ==>
      0 <= k < VisibleCount(|items|, v.page) && v.slots[k] == items[PageStart(v.page) + k]
    ensures forall k :: k in v.slots ==> 0 <= k < PageSize
  {
    var totalPages := TotalPages(|items|);
    var safePage := SafePage(requested, totalPages);
    ClampedPageStartInRange(|items|, requested);
    var slots := BuildSlotMap(items, safePage);
    v := PageView(safePage, totalPages, slots, safePage > 0, safePage < totalPages - 1);
  }

  /** No quest ever lands on a control slot. */
  lemma SlotsAvoidControls<T>(items: seq<T>, page: nat, k: int)
    requires PageStart(page) <= |items|
    requires k in PageSlots(items, page)
    ensures k != CreateSlot && k != ReloadSlot && k != PrevSlot && k != NextSlot
  {
  }

  /** Every quest is reachable: item `i` sits on page `i / 45`, which the
      clamp keeps, at slot `i % 45`. */
  lemma {:induction false} EveryItemHasASlot<T>(items: seq<T>, i: nat)
    requires i < |items|
    ensures SafePage(i / PageSize, TotalPages(|items|)) == i / PageSize
    ensures PageStart(i / PageSize) <= |items|
    ensures i % PageSize in PageSlots(items, i / PageSize)
    ensures PageSlots(items, i / PageSize)[i % PageSize] == items[i]
  {
    var p := i / PageSize;
    var t := TotalPages(|items|);
    assert PageStart(p) + i % PageSize == i;
    assert p * PageSize < |items|;
    assert (t - p) * PageSize > 0;
    assert i % PageSize < VisibleCount(|items|, p);
  }
}
