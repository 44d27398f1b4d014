/** The file name a player types in chat, turned into a quest file name
    (`QuestGuiListener.resolveQuestFile`). */
module QuestNames {
  import opened JavaText
  import opened QuestStore

  /** The name used when the player types nothing but blanks. */
  const DefaultName: string := "new-quest.yml"

  /** The characters kept by the sanitiser: `[a-zA-Z0-9._-]`. */
  predicate IsAllowed(c: char) {
    || 'a' <= c <= 'z'
    || 'A' <= c <= 'Z'
    || '0' <= c <= '9'
    || c == '.' || c == '_' || c == '-'
  }

  predicate AllAllowed(s: string) {
    forall i :: 0 <= i < |s| ==> IsAllowed(s[i])
  }

  /** A name the editor recognises as a quest file. */
  predicate HasQuestSuffix(name: string) {
    EndsWith(name, ".yml") || EndsWith(name, ".yaml")
  }

  /** `replaceAll("[^a-zA-Z0-9._-]", "_")`: one `_` per rejected char. */
  function ReplaceDisallowed(s: string): (r: string)
    ensures |r| == |s| && AllAllowed(r)
    ensures forall i :: 0 <= i < |s| && IsAllowed(s[i]) ==> r[i] == s[i]
    ensures forall i :: 0 <= i < |s| && !IsAllowed(s[i]) ==> r[i] == '_'
  {
    seq(|s|, i requires 0 <= i < |s| => if IsAllowed(s[i]) then s[i] else '_')
  }

  /** Replacement touches no allowed char, so it keeps an allowed suffix. */
  lemma ReplaceKeepsSuffix(s: string, suffix: string)
    requires AllAllowed(suffix) && EndsWith(s, suffix)
    ensures EndsWith(ReplaceDisallowed(s), suffix)
  {
    var r := ReplaceDisallowed(s);
    var k := |s| - |suffix|;
    forall i | 0 <= i < |suffix| ensures r[k + i] == suffix[i] {
      assert s[k + i] == suffix[i];
    }
  }

  /** Replacement keeps the quest suffix of its input. */
  lemma ReplaceKeepsQuestSuffix(s: string)
    requires HasQuestSuffix(s)
    ensures HasQuestSuffix(ReplaceDisallowed(s))
  {
    if EndsWith(s, ".yml") {
      ReplaceKeepsSuffix(s, ".yml");
    } else {
      ReplaceKeepsSuffix(s, ".yaml");
    }
  }

  /** Replacement is the identity on names it already accepts. */
  lemma ReplaceIdentity(s: string)
    requires AllAllowed(s)
    ensures ReplaceDisallowed(s) == s
  {
  }

  /** Replacement works char by char, so it distributes over `+`. */
  lemma ReplaceAppend(a: string, b: string)
    ensures ReplaceDisallowed(a + b) == ReplaceDisallowed(a) + ReplaceDisallowed(b)
  {
    var l := ReplaceDisallowed(a + b);
    var r := ReplaceDisallowed(a) + ReplaceDisallowed(b);
    forall i | 0 <= i < |l| ensures l[i] == r[i] {
      if i < |a| {
        assert (a + b)[i] == a[i];
      } else {
        assert (a + b)[i] == b[i - |a|];
      }
    }
  }

  /** The trimmed name, or `new-quest.yml` when nothing is left: never
      blank, already trimmed, and a blank-free slice of the input unless the
      input was all blanks. */
  function BaseName(fileName: string): (n: string)
    ensures n != [] && Trim(n) == n
    ensures AllTrimmable(fileName) ==> n == DefaultName
    ensures !AllTrimmable(fileName) ==> BlankPadded(fileName, n)
  {
    var t := Trim(fileName);
    if t == [] then
      DefaultTrimmed();
      DefaultName
    else
      assert !IsTrimmable(t[0]) && !IsTrimmable(t[|t| - 1]);
      t
  }

  /** The fallback name has no blanks to trim. */
  lemma DefaultTrimmed()
    ensures Trim(DefaultName) == DefaultName
  {
    assert DefaultName[0] == 'n' && DefaultName[|DefaultName| - 1] == 'l';
  }

  /** `n`, with `.yml` appended unless it already has a quest suffix. */
  function Suffixed(n: string): (s: string)
    ensures HasQuestSuffix(s)
    ensures HasQuestSuffix(n) ==> s == n
    ensures !HasQuestSuffix(n) ==> s == n + ".yml"
  {
    if HasQuestSuffix(n) then n
    else
      var s := n + ".yml";
      assert s[|s| - 4..] == ".yml";
      s
  }

  lemma DefaultNameAccepted()
    ensures AllAllowed(DefaultName) && HasQuestSuffix(DefaultName)
  {
  }

  /** A blank name falls back to `new-quest.yml`, which replacement keeps. */
  lemma BlankShape(fileName: string)
    requires Trim(fileName) == []
    ensures ReplaceDisallowed(Suffixed(BaseName(fileName))) == DefaultName
  {
    assert BaseName(fileName) == DefaultName;
    DefaultNameAccepted();
    assert Suffixed(DefaultName) == DefaultName;
    ReplaceIdentity(DefaultName);
  }

  /** A trimmed name without a quest suffix gets `.yml` after replacement. */
  lemma AppendedShape(fileName: string)
    requires Trim(fileName) != [] && !HasQuestSuffix(Trim(fileName))
    ensures ReplaceDisallowed(Suffixed(BaseName(fileName)))
         == ReplaceDisallowed(Trim(fileName)) + ".yml"
  {
    var t := Trim(fileName);
    assert BaseName(fileName) == t;
    assert Suffixed(t) == t + ".yml";
    ReplaceAppend(t, ".yml");
    YmlAccepted();
    ReplaceIdentity(".yml");
  }

  lemma YmlAccepted()
    ensures AllAllowed(".yml")
  {
  }

  /** The sanitised file name: trimmed, `new-quest.yml` when blank, `.yml`
      appended unless it already ends in `.yml` or `.yaml`, and every char
      outside `[a-zA-Z0-9._-]` replaced by `_`. The suffix test looks at the
      text before replacement. */
  function SanitizeName(fileName: string): (r: string)
    ensures AllAllowed(r)
    ensures HasQuestSuffix(r)
    ensures Trim(fileName) == [] ==> r == DefaultName
    ensures Trim(fileName) != [] && HasQuestSuffix(Trim(fileName)) ==>
      r == ReplaceDisallowed(Trim(fileName))
    ensures Trim(fileName) != [] && !HasQuestSuffix(Trim(fileName)) ==>
      r == ReplaceDisallowed(Trim(fileName)) + ".yml"
  {
    var s := Suffixed(BaseName(fileName));
    ReplaceKeepsQuestSuffix(s);
    if Trim(fileName) == [] then
      BlankShape(fileName);
      ReplaceDisallowed(s)
    else if !HasQuestSuffix(Trim(fileName)) then
      AppendedShape(fileName);
      ReplaceDisallowed(s)
    else
      ReplaceDisallowed(s)
  }

  /** The listener trims a chat message before resolving it, and resolving
      trims again; the second trim changes nothing. */
  lemma ResolveTrimmed(dir: seq<string>, fileName: string)
    ensures ResolveQuestFile(dir, Trim(fileName)) == ResolveQuestFile(dir, fileName)
  {
    TrimIdempotent(fileName);
  }

  /** A sanitised name has no char outside `[a-zA-Z0-9._-]`, so sanitising it
      again changes nothing. */
  lemma {:induction false} SanitizeIdempotent(fileName: string)
    ensures SanitizeName(SanitizeName(fileName)) == SanitizeName(fileName)
  {
    SanitizeFixesAccepted(SanitizeName(fileName));
  }

  /** A name already made of allowed chars and ending in a quest suffix is
      its own sanitised form. */
  lemma SanitizeFixesAccepted(r: string)
    requires AllAllowed(r) && HasQuestSuffix(r)
    ensures SanitizeName(r) == r
  {
    assert |r| >= 4;
    assert IsAllowed(r[0]) && IsAllowed(r[|r| - 1]);
    assert Trim(r) == r;
    ReplaceIdentity(r);
    assert SanitizeName(r) == ReplaceDisallowed(r);
  }

  /** The example from the editor's own prompt: the space becomes `_` and
      `.yml` is appended. */
  lemma SanitizeExample()
    ensures SanitizeName("strength quest") == "strength_quest.yml"
  {
    var s := "strength quest";
    ExampleTrimmed();
    ExampleReplaced();
    assert SanitizeName(s) == ReplaceDisallowed(s) + ".yml";
  }

  /** The example has no quest suffix and nothing to trim. */
  lemma ExampleTrimmed()
    ensures Trim("strength quest") == "strength quest"
    ensures !HasQuestSuffix("strength quest")
  {
    var s := "strength quest";
    assert s[|s| - 4..] != ".yml";
    assert s[|s| - 5..] != ".yaml";
  }

  lemma ExampleReplaced()
    ensures ReplaceDisallowed("strength quest") + ".yml" == "strength_quest.yml"
  {
    var r := ReplaceDisallowed("strength quest");
    assert |r| == 14;
    assert r[8] == '_';
  }

  /** `resolveQuestFile(dir, fileName)`: the sanitised form of the typed
      name, inside `dir`. */
  function ResolveQuestFile(dir: seq<string>, fileName: string): (p: Path)
    ensures p.dir == dir
    ensures p.name == SanitizeName(fileName)
    ensures AllAllowed(p.name) && HasQuestSuffix(p.name)
  {
    Path(dir, SanitizeName(fileName))
  }

  /** The resolved name is a fixed point of sanitising: resolving the file's
      own name again gives the same file. */
  lemma ResolveStable(dir: seq<string>, fileName: string)
    ensures var p := ResolveQuestFile(dir, fileName);
      ResolveQuestFile(dir, p.name) == p
  {
    SanitizeIdempotent(fileName);
  }
}
