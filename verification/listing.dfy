/** The quest list shown in the main menu (`QuestGuiManager.listQuestFiles`):
    the `.yml` and `.yaml` entries of the quests directory, sorted by their
    lower-cased file name. */
module QuestListing {
  import opened Wrappers
  import opened JavaText
  import opened QuestNames
  import opened QuestStore

  /** The comparator key: the file name lower-cased with `Locale.ENGLISH`. */
  function SortKey(name: string): string {
    ToLowerAscii(name)
  }

  /** `a` may come before `b` in the listing. */
  predicate KeyLe(a: string, b: string) {
    LexLe(SortKey(a), SortKey(b))
  }

  predicate Sorted(s: seq<string>) {
    forall i, j :: 0 <= i < j < |s| ==> KeyLe(s[i], s[j])
  }

  /** The stream's `filter` step: the quest file names, in directory order. */
  function FilterQuestNames(names: seq<string>): (r: seq<string>)
    ensures forall x :: multiset(r)[x] == if HasQuestSuffix(x) then multiset(names)[x] else 0
    ensures forall x :: x in r <==> x in names && HasQuestSuffix(x)
  {
    if names == [] then []
    else
      var rest := FilterQuestNames(names[1..]);
      assert names == [names[0]] + names[1..];
      if HasQuestSuffix(names[0]) then [names[0]] + rest else rest
  }

  /** Inserts `x` after every element whose key is at most its own, which
      keeps equal keys in arrival order. The directory listing has no order
      of its own, so this is one of the orders the source may produce. */
  function Insert(x: string, s: seq<string>): (r: seq<string>)
    requires Sorted(s)
    ensures multiset(r) == multiset(s) + multiset{x}
    ensures forall y :: y in r ==> y in s || y == x
    ensures Sorted(r)
  {
    if s == [] then [x]
    else if KeyLe(s[0], x) then
      var rest := Insert(x, s[1..]);
      assert s == [s[0]] + s[1..];
      forall j | 0 <= j < |rest| ensures KeyLe(s[0], rest[j]) {
        assert rest[j] in rest;
      }
      [s[0]] + rest
    else
      LexLeTotal(SortKey(s[0]), SortKey(x));
      forall j | 0 <= j < |s| ensures KeyLe(x, s[j]) {
        if j > 0 {
          LexLeTransitive(SortKey(x), SortKey(s[0]), SortKey(s[j]));
        }
      }
      [x] + s
  }

  /** A stable insertion sort by `SortKey`. `Files.list` gives an unordered
      stream, for which `Stream.sorted` promises no order among equal keys;
      the model fixes one of the orders it allows (equal keys in arrival
      order), and only `Sorted` and the multiset are promised. */
  function SortByKey(s: seq<string>): (r: seq<string>)
    ensures multiset(r) == multiset(s)
    ensures Sorted(r)
  {
    if s == [] then []
    else
      assert s == s[..|s| - 1] + [s[|s| - 1]];
      Insert(s[|s| - 1], SortByKey(s[..|s| - 1]))
  }

  /** `listQuestFiles`: `None` stands for a missing directory or a failed
      `Files.list`, both of which give the empty list. */
  function ListQuestFiles(listing: Option<seq<string>>): (r: seq<string>)
    ensures Sorted(r)
    ensures listing.None? ==> r == []
    ensures listing.Some? ==>
      forall x :: multiset(r)[x] == if HasQuestSuffix(x) then multiset(listing.value)[x] else 0
    ensures listing.Some? ==>
      forall x :: x in r <==> x in listing.value && HasQuestSuffix(x)
  {
    if listing.None? then []
    else
      var kept := FilterQuestNames(listing.value);
      var r := SortByKey(kept);
      assert forall x :: x in r <==> x in multiset(r);
      r
  }

  /** The listed files as paths directly under the quests directory. */
  function QuestPaths(names: seq<string>): (ps: seq<Path>)
    ensures |ps| == |names|
    ensures forall i :: 0 <= i < |names| ==> ps[i] == Path(Root, names[i])
  {
    seq(|names|, i requires 0 <= i < |names| => Path(Root, names[i]))
  }
}
