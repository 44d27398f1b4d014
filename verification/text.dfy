/** The few `java.lang.String` operations the quest editor relies on, stated
    over `seq<char>`. Chars are Unicode scalar values; Java's UTF-16 code
    units only differ for characters outside the Basic Multilingual Plane. */
module JavaText {

  /** `String.trim` strips every leading and trailing char whose code is at
      most U+0020 (all ASCII control characters and the space). */
  predicate IsTrimmable(c: char) {
    c <= ' '
  }

  /** `Character.isWhitespace`, which `String.stripTrailing` uses: the ASCII
      layout characters, the four information separators, and the Unicode
      space, line and paragraph separators except the three non-breaking ones
      (U+00A0, U+2007, U+202F). */
  predicate IsWhitespace(c: char) {
    || c == ' '
    || '\t' <= c <= '\r'
    || '\U{1C}' <= c <= '\U{1F}'
    || c == '\U{1680}'
    || '\U{2000}' <= c <= '\U{2006}'
    || '\U{2008}' <= c <= '\U{200A}'
    || c == '\U{2028}' || c == '\U{2029}' || c == '\U{205F}' || c == '\U{3000}'
  }

  /** Drops the leading chars up to U+0020. */
  function TrimStart(s: string): (r: string)
    ensures |r| <= |s| && r == s[|s| - |r|..]
    ensures forall i :: 0 <= i < |s| - |r| ==> IsTrimmable(s[i])
    ensures r != [] ==> !IsTrimmable(r[0])
    decreases |s|
  {
    if s != [] && IsTrimmable(s[0]) then TrimStart(s[1..]) else s
  }

  /** Drops the trailing chars up to U+0020. */
  function TrimEnd(s: string): (r: string)
    ensures |r| <= |s| && r == s[..|r|]
    ensures forall i :: |r| <= i < |s| ==> IsTrimmable(s[i])
    ensures r != [] ==> !IsTrimmable(r[|r| - 1])
    decreases |s|
  {
    if s != [] && IsTrimmable(s[|s| - 1]) then TrimEnd(s[..|s| - 1]) else s
  }

  /** `r` occurs in `s` starting at index `k`. */
  predicate SliceAt(s: string, k: int, r: string) {
    0 <= k <= |s| - |r| && r == s[k..k + |r|]
  }

  /** Every char of `s` is at most U+0020. */
  predicate AllTrimmable(s: string) {
    forall i :: 0 <= i < |s| ==> IsTrimmable(s[i])
  }

  /** `r` sits at index `k` of `s` with only chars up to U+0020 before and
      after it. */
  predicate PaddedAt(s: string, k: int, r: string) {
    SliceAt(s, k, r) && AllTrimmable(s[..k]) && AllTrimmable(s[k + |r|..])
  }

  /** `r` is `s` with some chars up to U+0020 taken off either end. */
  ghost predicate BlankPadded(s: string, r: string) {
    exists k :: PaddedAt(s, k, r)
  }

  /** `String.trim`: the slice of `s` left once leading and trailing chars up
      to U+0020 are removed. */
  function Trim(s: string): (r: string)
    ensures r == [] <==> AllTrimmable(s)
    ensures r != [] ==> !IsTrimmable(r[0]) && !IsTrimmable(r[|r| - 1])
    ensures BlankPadded(s, r)
    ensures s != [] && !IsTrimmable(s[0]) && !IsTrimmable(s[|s| - 1]) ==> r == s
  {
    var e := TrimEnd(s);
    var r := TrimStart(e);
    TrimSteps(s, e, r);
    r
  }

  /** The two passes of `Trim`: `e` is `s` without its trailing trimmable
      chars, and `r` is `e` without its leading ones. */
  lemma TrimSteps(s: string, e: string, r: string)
    requires |e| <= |s| && e == s[..|e|]
    requires forall i :: |e| <= i < |s| ==> IsTrimmable(s[i])
    requires e != [] ==> !IsTrimmable(e[|e| - 1])
    requires |r| <= |e| && r == e[|e| - |r|..]
    requires forall i :: 0 <= i < |e| - |r| ==> IsTrimmable(e[i])
    requires r != [] ==> !IsTrimmable(r[0])
    ensures PaddedAt(s, |e| - |r|, r)
    ensures r == [] <==> AllTrimmable(s)
    ensures r != [] ==> !IsTrimmable(r[0]) && !IsTrimmable(r[|r| - 1])
    ensures s != [] && !IsTrimmable(s[0]) && !IsTrimmable(s[|s| - 1]) ==> r == s
  {
    var k := |e| - |r|;
    assert s[k..|e|] == r;
    var head, tail := s[..k], s[k + |r|..];
    forall i | 0 <= i < |head| ensures IsTrimmable(head[i]) {
      assert head[i] == e[i];
    }
    forall i | 0 <= i < |tail| ensures IsTrimmable(tail[i]) {
      assert tail[i] == s[|e| + i];
    }
    if s != [] && !IsTrimmable(s[0]) && !IsTrimmable(s[|s| - 1]) {
      assert |e| == |s|;
      assert e[0] == s[0];
    }
  }

  /** Trimming twice trims no more than trimming once. */
  lemma TrimIdempotent(s: string)
    ensures Trim(Trim(s)) == Trim(s)
  {
  }

  /** `String.stripTrailing`: `s` without its trailing whitespace. */
  function StripTrailing(s: string): (r: string)
    ensures |r| <= |s| && r == s[..|r|]
    ensures forall i :: |r| <= i < |s| ==> IsWhitespace(s[i])
    ensures r != [] ==> !IsWhitespace(r[|r| - 1])
    decreases |s|
  {
    if s != [] && IsWhitespace(s[|s| - 1]) then StripTrailing(s[..|s| - 1]) else s
  }

  /** `String.endsWith`: `s` is some text followed by `suffix`. */
  predicate EndsWith(s: string, suffix: string) {
    |suffix| <= |s| && s[|s| - |suffix|..] == suffix
  }

  /** The tail test agrees with splitting `s` into some text followed by
      the suffix. */
  lemma EndsWithSplit(s: string, suffix: string)
    ensures EndsWith(s, suffix) <==> exists t :: s == t + suffix
  {
    if EndsWith(s, suffix) {
      assert s == s[..|s| - |suffix|] + suffix;
    }
    if exists t :: s == t + suffix {
      var t :| s == t + suffix;
      assert s[|t|..] == suffix;
    }
  }

  /** `Character.toLowerCase` restricted to ASCII letters. */
  function LowerChar(c: char): (r: char)
    ensures 'A' <= c <= 'Z' ==> 'a' <= r <= 'z' && r as int == c as int + 32
    ensures !('A' <= c <= 'Z') ==> r == c
  {
    if 'A' <= c <= 'Z' then (c as int + 32) as char else c
  }

  /** `Character.toUpperCase` restricted to ASCII letters. */
  function UpperChar(c: char): (r: char)
    ensures 'a' <= c <= 'z' ==> 'A' <= r <= 'Z' && r as int == c as int - 32
    ensures !('a' <= c <= 'z') ==> r == c
  {
    if 'a' <= c <= 'z' then (c as int - 32) as char else c
  }

  /** `String.toLowerCase` for ASCII text: each letter lowered, nothing else
      touched, the length kept. */
  function ToLowerAscii(s: string): (r: string)
    ensures |r| == |s|
    ensures forall i :: 0 <= i < |s| ==> r[i] == LowerChar(s[i])
  {
    seq(|s|, i requires 0 <= i < |s| => LowerChar(s[i]))
  }

  function ToUpperAscii(s: string): (r: string)
    ensures |r| == |s|
    ensures forall i :: 0 <= i < |s| ==> r[i] == UpperChar(s[i])
  {
    seq(|s|, i requires 0 <= i < |s| => UpperChar(s[i]))
  }

  /** `String.equalsIgnoreCase` against an all-lower-case ASCII `word`:
      the two agree char by char once `s` is lowered. */
  predicate EqualsIgnoreCase(s: string, word: string)
    ensures EqualsIgnoreCase(s, word) <==> ToLowerAscii(s) == word
  {
    |s| == |word| && forall i :: 0 <= i < |s| ==> LowerChar(s[i]) == word[i]
  }

  /** `String.contains`: `sub` occurs somewhere in `s`. */
  function Contains(s: string, sub: string): (b: bool)
    ensures b <==> exists k :: SliceAt(s, k, sub)
    decreases |s|
  {
    if |sub| <= |s| && s[..|sub|] == sub then
      assert SliceAt(s, 0, sub);
      true
    else if s == [] then
      false
    else
      ContainsShift(s, sub);
      Contains(s[1..], sub)
  }

  /** An occurrence not at the start of `s` is an occurrence in its tail. */
  lemma ContainsShift(s: string, sub: string)
    requires s != [] && !SliceAt(s, 0, sub)
    ensures (exists k :: SliceAt(s, k, sub)) <==> (exists k :: SliceAt(s[1..], k, sub))
  {
    if exists k :: SliceAt(s, k, sub) {
      var k :| SliceAt(s, k, sub);
      assert k > 0;
      var t := s[1..];
      forall j | 0 <= j < |sub| ensures t[k - 1 + j] == sub[j] {
        assert s[k + j] == sub[j];
      }
      assert t[k - 1..k - 1 + |sub|] == sub;
      assert SliceAt(t, k - 1, sub);
    }
    if exists k :: SliceAt(s[1..], k, sub) {
      var t := s[1..];
      var k :| SliceAt(t, k, sub);
      forall j | 0 <= j < |sub| ensures s[k + 1 + j] == sub[j] {
        assert t[k + j] == sub[j];
      }
      assert s[k + 1..k + 1 + |sub|] == sub;
      assert SliceAt(s, k + 1, sub);
    }
  }

  /** The total length of `parts`. */
  function LengthSum(parts: seq<string>): nat {
    if parts == [] then 0 else |parts[0]| + LengthSum(parts[1..])
  }

  /** `String.join(sep, parts)`: the parts in order with `sep` between
      neighbours; an empty list joins to the empty string. */
  function Join(sep: string, parts: seq<string>): string
  {
    if |parts| == 0 then ""
    else if |parts| == 1 then parts[0]
    else parts[0] + sep + Join(sep, parts[1..])
  }

  /** What `Join` builds: every char of every part plus one separator
      between neighbours, starting with the first part and ending with the
      last. */
  lemma {:induction false} JoinShape(sep: string, parts: seq<string>)
    requires |parts| >= 1
    ensures |Join(sep, parts)| == LengthSum(parts) + (|parts| - 1) * |sep|
    ensures Join(sep, parts)[..|parts[0]|] == parts[0]
    ensures |parts[|parts| - 1]| <= |Join(sep, parts)|
    ensures var r := Join(sep, parts);
      r[|r| - |parts[|parts| - 1]|..] == parts[|parts| - 1]
  {
    if |parts| >= 2 {
      var rest := Join(sep, parts[1..]);
      JoinShape(sep, parts[1..]);
      var r := parts[0] + sep + rest;
      assert Join(sep, parts) == r;
      assert (|parts| - 1) * |sep| == |sep| + (|parts| - 2) * |sep|;
      assert r[|r| - |rest|..] == rest;
    }
  }

  /** Where part `i` starts in `Join(sep, parts)`: after the parts before
      it and one separator for each of them. */
  function PartOffset(sep: string, parts: seq<string>, i: nat): nat
    requires i <= |parts|
  {
    LengthSum(parts[..i]) + i * |sep|
  }

  /** Part `i` sits at its offset in the joined text. */
  predicate PartAt(sep: string, parts: seq<string>, i: nat)
    requires i < |parts|
  {
    SliceAt(Join(sep, parts), PartOffset(sep, parts, i), parts[i])
  }

  /** A separator follows part `i` in the joined text. */
  predicate SepAfter(sep: string, parts: seq<string>, i: nat)
    requires i < |parts|
  {
    SliceAt(Join(sep, parts), PartOffset(sep, parts, i) + |parts[i]|, sep)
  }

  /** A slice of `s` is a slice of `p + s`, shifted by `|p|`. */
  lemma SliceShift(p: string, s: string, k: int, x: string)
    requires SliceAt(s, k, x)
    ensures SliceAt(p + s, |p| + k, x)
  {
    assert (p + s)[|p| + k..|p| + k + |x|] == s[k..k + |x|];
  }

  /** Offsets in the tail of a list are the offsets in the whole list less
      the head and its separator. */
  lemma OffsetShift(sep: string, parts: seq<string>, j: nat)
    requires j + 1 <= |parts|
    ensures PartOffset(sep, parts, j + 1) == |parts[0]| + |sep| + PartOffset(sep, parts[1..], j)
  {
    assert parts[..j + 1][1..] == parts[1..][..j];
    assert parts[..j + 1][0] == parts[0];
  }

  /** `Join` lays the parts out in order, each at its offset, with one
      separator after every part but the last. */
  lemma {:induction false} JoinPieces(sep: string, parts: seq<string>)
    requires |parts| >= 1
    ensures forall i :: 0 <= i < |parts| ==> PartAt(sep, parts, i)
    ensures forall i :: 0 <= i < |parts| - 1 ==> SepAfter(sep, parts, i)
  {
    JoinFirst(sep, parts);
    if |parts| >= 2 {
      JoinPieces(sep, parts[1..]);
      forall i | 1 <= i < |parts| ensures PartAt(sep, parts, i) {
        TailPart(sep, parts, i);
      }
      forall i | 1 <= i < |parts| - 1 ensures SepAfter(sep, parts, i) {
        TailSep(sep, parts, i);
      }
    }
  }

  /** The first part opens the joined text, and a separator follows it when
      more parts come. */
  lemma JoinFirst(sep: string, parts: seq<string>)
    requires |parts| >= 1
    ensures PartAt(sep, parts, 0)
    ensures |parts| >= 2 ==> SepAfter(sep, parts, 0)
  {
    var r := Join(sep, parts);
    assert PartOffset(sep, parts, 0) == 0 by { assert parts[..0] == []; }
    if |parts| == 1 {
      assert r[0..|parts[0]|] == parts[0];
    } else {
      assert r == parts[0] + sep + Join(sep, parts[1..]);
      assert r[0..|parts[0]|] == parts[0];
      assert r[|parts[0]|..|parts[0]| + |sep|] == sep;
    }
  }

  /** A part placed in the join of the tail is placed in the whole join. */
  lemma TailPart(sep: string, parts: seq<string>, i: nat)
    requires 1 <= i < |parts| && PartAt(sep, parts[1..], i - 1)
    ensures PartAt(sep, parts, i)
  {
    var tail := parts[1..];
    assert Join(sep, parts) == (parts[0] + sep) + Join(sep, tail);
    OffsetShift(sep, parts, i - 1);
    SliceShift(parts[0] + sep, Join(sep, tail), PartOffset(sep, tail, i - 1), tail[i - 1]);
  }

  /** A separator placed in the join of the tail is placed in the whole
      join. */
  lemma TailSep(sep: string, parts: seq<string>, i: nat)
    requires 1 <= i < |parts| && SepAfter(sep, parts[1..], i - 1)
    ensures SepAfter(sep, parts, i)
  {
    var tail := parts[1..];
    assert Join(sep, parts) == (parts[0] + sep) + Join(sep, tail);
    OffsetShift(sep, parts, i - 1);
    SliceShift(parts[0] + sep, Join(sep, tail), PartOffset(sep, tail, i - 1) + |tail[i - 1]|, sep);
  }

  /** `String.compareTo(a, b) <= 0`: lexicographic order on chars, a proper
      prefix first. */
  predicate LexLe(a: string, b: string)
    decreases |a|
  {
    if a == [] then true
    else if b == [] then false
    else if a[0] != b[0] then a[0] < b[0]
    else LexLe(a[1..], b[1..])
  }

  /** A proper prefix comes first: a string is at most each of its
      extensions, and an extension is at most its prefix only when the two
      are equal. */
  lemma {:induction false} LexLePrefix(a: string, b: string)
    requires |a| <= |b| && a == b[..|a|]
    ensures LexLe(a, b)
    ensures LexLe(b, a) ==> a == b
    decreases |a|
  {
    if a != [] {
      assert a[1..] == b[1..][..|a| - 1];
      LexLePrefix(a[1..], b[1..]);
      if LexLe(b, a) {
        assert a == [a[0]] + a[1..] && b == [b[0]] + b[1..];
      }
    }
  }

  lemma {:induction false} LexLeTotal(a: string, b: string)
    ensures LexLe(a, b) || LexLe(b, a)
    decreases |a|
  {
    if a != [] && b != [] && a[0] == b[0] {
      LexLeTotal(a[1..], b[1..]);
    }
  }

  lemma {:induction false} LexLeTransitive(a: string, b: string, c: string)
    requires LexLe(a, b) && LexLe(b, c)
    ensures LexLe(a, c)
    decreases |a|
  {
    if a != [] && b != [] && c != [] && a[0] == b[0] && b[0] == c[0] {
      LexLeTransitive(a[1..], b[1..], c[1..]);
    }
  }

  lemma {:induction false} LexLeAntisymmetric(a: string, b: string)
    requires LexLe(a, b) && LexLe(b, a)
    ensures a == b
    decreases |a|
  {
    if a != [] && b != [] {
      LexLeAntisymmetric(a[1..], b[1..]);
      assert a == [a[0]] + a[1..] && b == [b[0]] + b[1..];
    }
  }
}
