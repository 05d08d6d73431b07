/** String operations of Python's `str` that the pipeline relies on, on `seq<char>`.
    Case folding is ASCII-only; whitespace is the set Python's `str.isspace` accepts. */
module Text {
  import opened Wrappers

  // ---------------------------------------------------------------- case

  function ToLowerChar(c: char): char {
    if 'A' <= c <= 'Z' then (c as int + 32) as char else c
  }

  /** `str.lower()` restricted to ASCII letters. */
  function Lower(s: string): (r: string)
    ensures |r| == |s|
    ensures forall i :: 0 <= i < |s| ==> r[i] == ToLowerChar(s[i])
  {
    seq(|s|, i requires 0 <= i < |s| => ToLowerChar(s[i]))
  }

  lemma LowerIdempotent(s: string)
    ensures Lower(Lower(s)) == Lower(s)
  {
  }

  // ---------------------------------------------------------------- search

  predicate IsPrefix(p: string, s: string) {
    |p| <= |s| && s[..|p|] == p
  }

  predicate IsSuffix(p: string, s: string) {
    |p| <= |s| && s[|s| - |p|..] == p
  }

  /** `pat` occurs in `s` starting at index `i`. */
  predicate OccursAt(s: string, pat: string, i: int) {
    0 <= i && i + |pat| <= |s| && s[i..i + |pat|] == pat
  }

  /** `pat in s`. */
  predicate Contains(s: string, pat: string) {
    exists i | 0 <= i <= |s| - |pat| :: OccursAt(s, pat, i)
  }

  /** `s.find(pat, from)`, with `None` for Python's -1. */
  function FindFrom(s: string, pat: string, from: nat): (r: Option<nat>)
    requires from <= |s|
    ensures r.Some? ==> from <= r.value <= |s| && OccursAt(s, pat, r.value)
    ensures r.Some? ==> forall j :: from <= j < r.value ==> !OccursAt(s, pat, j)
    ensures r.None? ==> forall j :: from <= j <= |s| ==> !OccursAt(s, pat, j)
    decreases |s| - from
  {
    if OccursAt(s, pat, from) then Some(from)
    else if from == |s| then None
    else FindFrom(s, pat, from + 1)
  }

  function Find(s: string, pat: string): (r: Option<nat>)
    ensures r.Some? ==> OccursAt(s, pat, r.value)
    ensures r.Some? ==> forall j :: 0 <= j < r.value ==> !OccursAt(s, pat, j)
    ensures r.None? <==> !Contains(s, pat)
  {
    FindFrom(s, pat, 0)
  }

  // ---------------------------------------------------------------- replace

  /** `s.replace(pat, rep)`: every non-overlapping occurrence, scanning left to right. */
  function ReplaceAll(s: string, pat: string, rep: string): string
    requires pat != []
    decreases |s|
  {
    if |s| < |pat| then s
    else if s[..|pat|] == pat then rep + ReplaceAll(s[|pat|..], pat, rep)
    else [s[0]] + ReplaceAll(s[1..], pat, rep)
  }

  /** Replacing a single character by a text that lacks it leaves none of it behind. */
  lemma {:induction false} ReplaceCharRemoves(s: string, c: char, rep: string)
    requires c !in rep
    ensures c !in ReplaceAll(s, [c], rep)
    decreases |s|
  {
    if |s| >= 1 {
      ReplaceCharRemoves(s[1..], c, rep);
    }
  }

  /** A character in neither the text nor the replacement is not in the result. */
  lemma {:induction false} ReplaceKeepsAbsent(s: string, pat: string, rep: string, c: char)
    requires pat != []
    requires c !in s && c !in rep
    ensures c !in ReplaceAll(s, pat, rep)
    decreases |s|
  {
    if |s| >= |pat| {
      if s[..|pat|] == pat {
        ReplaceKeepsAbsent(s[|pat|..], pat, rep, c);
      } else {
        ReplaceKeepsAbsent(s[1..], pat, rep, c);
      }
    }
  }

  /** No `a` is directly followed by `b`. */
  predicate LacksPair(s: string, a: char, b: char) {
    forall i :: 0 <= i < |s| - 1 ==> !(s[i] == a && s[i + 1] == b)
  }

  /** The first character of a replacement result. */
  lemma ReplaceHead(s: string, pat: string, rep: string)
    requires pat != [] && rep != [] && s != []
    ensures ReplaceAll(s, pat, rep) != []
    ensures ReplaceAll(s, pat, rep)[0] == if |s| >= |pat| && s[..|pat|] == pat then rep[0] else s[0]
  {
  }

  /** Replacing with a text that neither holds the pair `a b` nor can form it with its
      neighbours leaves no such pair, when the text had none or the pair is what is
      replaced. */
  lemma {:induction false} ReplaceLacksPair(s: string, pat: string, rep: string, a: char, b: char)
    requires pat != [] && rep != []
    requires LacksPair(rep, a, b) && rep[0] != b && rep[|rep| - 1] != a
    requires pat == [a, b] || LacksPair(s, a, b)
    ensures LacksPair(ReplaceAll(s, pat, rep), a, b)
    decreases |s|
  {
    if |s| >= |pat| {
      var r := ReplaceAll(s, pat, rep);
      if s[..|pat|] == pat {
        var tail := s[|pat|..];
        ReplaceLacksPair(tail, pat, rep, a, b);
        var t := ReplaceAll(tail, pat, rep);
        if tail != [] {
          ReplaceHead(tail, pat, rep);
        }
        assert r == rep + t;
        forall i | 0 <= i < |r| - 1
          ensures !(r[i] == a && r[i + 1] == b)
        {
          if i < |rep| - 1 {
            assert r[i] == rep[i] && r[i + 1] == rep[i + 1];
          } else if i == |rep| - 1 {
            assert r[i] == rep[|rep| - 1];
          } else {
            assert r[i] == t[i - |rep|] && r[i + 1] == t[i - |rep| + 1];
          }
        }
      } else {
        var tail := s[1..];
        ReplaceLacksPair(tail, pat, rep, a, b);
        var t := ReplaceAll(tail, pat, rep);
        assert r == [s[0]] + t;
        if tail != [] {
          ReplaceHead(tail, pat, rep);
        }
        forall i | 1 <= i < |r| - 1
          ensures !(r[i] == a && r[i + 1] == b)
        {
          assert r[i] == t[i - 1] && r[i + 1] == t[i];
        }
      }
    }
  }

  /** Replacing a character that does not occur changes nothing. */
  lemma {:induction false} ReplaceAbsentChar(s: string, c: char, rep: string)
    requires c !in s
    ensures ReplaceAll(s, [c], rep) == s
    decreases |s|
  {
    if |s| >= 1 {
      assert s[..1] == [s[0]];
      ReplaceAbsentChar(s[1..], c, rep);
    }
  }

  /** Replacing a pattern whose first character does not occur changes nothing. */
  lemma {:induction false} ReplaceAbsentHead(s: string, pat: string, rep: string)
    requires pat != [] && pat[0] !in s
    ensures ReplaceAll(s, pat, rep) == s
    decreases |s|
  {
    if |s| >= |pat| {
      assert s[..|pat|][0] == s[0];
      ReplaceAbsentHead(s[1..], pat, rep);
    }
  }

  // ---------------------------------------------------------------- join and split

  /** `sep.join(parts)`. */
  function Join(sep: string, parts: seq<string>): string
    decreases |parts|
  {
    if parts == [] then ""
    else if |parts| == 1 then parts[0]
    else Join(sep, parts[..|parts| - 1]) + sep + parts[|parts| - 1]
  }

  lemma JoinAppend(sep: string, parts: seq<string>, p: string)
    requires parts != []
    ensures Join(sep, parts + [p]) == Join(sep, parts) + sep + p
  {
    assert (parts + [p])[..|parts|] == parts;
  }

  /** Joining two non-empty lists one after the other puts one separator between them. */
  lemma {:induction false} JoinConcat(sep: string, a: seq<string>, b: seq<string>)
    requires a != [] && b != []
    ensures Join(sep, a + b) == Join(sep, a) + sep + Join(sep, b)
    decreases |b|
  {
    var init, x := b[..|b| - 1], b[|b| - 1];
    assert b == init + [x];
    if init == [] {
      JoinAppend(sep, a, x);
    } else {
      JoinConcat(sep, a, init);
      assert a + b == (a + init) + [x];
      JoinAppend(sep, a + init, x);
      JoinAppend(sep, init, x);
    }
  }

  /** Two or more parts join to a text at least as long as the separator. */
  lemma JoinLong(sep: string, parts: seq<string>)
    requires |parts| >= 2
    ensures |Join(sep, parts)| >= |sep|
  {
  }

  /** A joined text holds a character only if a part or the separator does. */
  lemma {:induction false} JoinLacks(sep: string, parts: seq<string>, c: char)
    requires c !in sep
    requires forall i :: 0 <= i < |parts| ==> c !in parts[i]
    ensures c !in Join(sep, parts)
    decreases |parts|
  {
    if |parts| > 1 {
      JoinLacks(sep, parts[..|parts| - 1], c);
    }
  }

  /** `s.split(sep)` for a non-empty separator. */
  function Split(s: string, sep: string): (r: seq<string>)
    requires sep != []
    ensures r != []
    decreases |s|
  {
    match Find(s, sep)
    case None => [s]
    case Some(i) => [s[..i]] + Split(s[i + |sep|..], sep)
  }

  lemma JoinPrepend(sep: string, p: string, parts: seq<string>)
    requires parts != []
    ensures Join(sep, [p] + parts) == p + sep + Join(sep, parts)
    decreases |parts|
  {
    if |parts| == 1 {
      assert [p] + parts == [p, parts[0]];
      assert ([p] + parts)[..1] == [p];
    } else {
      var init := parts[..|parts| - 1];
      assert ([p] + parts)[..|parts|] == [p] + init;
      JoinPrepend(sep, p, init);
    }
  }

  /** A character that does not occur is not found. */
  lemma FindAbsentChar(p: string, c: char)
    requires c !in p
    ensures Find(p, [c]).None?
  {
    forall j | 0 <= j <= |p| - 1
      ensures !OccursAt(p, [c], j)
    {
      assert p[j] in p;
    }
  }

  /** The first occurrence of a character is found right after a part lacking it. */
  lemma FindAfterPart(p: string, c: char, t: string)
    requires c !in p
    ensures Find(p + [c] + t, [c]) == Some(|p|)
  {
    var s := p + [c] + t;
    assert OccursAt(s, [c], |p|);
    forall j | 0 <= j < |p|
      ensures !OccursAt(s, [c], j)
    {
      assert s[j] == p[j] && p[j] in p;
    }
  }

  /** Splitting at a character that no part holds gives the parts back. */
  lemma {:induction false} SplitJoinChar(parts: seq<string>, c: char)
    requires parts != []
    requires forall i :: 0 <= i < |parts| ==> c !in parts[i]
    ensures Split(Join([c], parts), [c]) == parts
    decreases |parts|
  {
    var p := parts[0];
    if |parts| == 1 {
      FindAbsentChar(p, [c][0]);
      assert parts == [p];
    } else {
      var rest := parts[1..];
      assert parts == [p] + rest;
      JoinPrepend([c], p, rest);
      var t := Join([c], rest);
      FindAfterPart(p, c, t);
      var s := p + [c] + t;
      assert s[..|p|] == p && s[|p| + 1..] == t;
      SplitJoinChar(rest, c);
      assert Split(s, [c]) == [p] + Split(t, [c]);
    }
  }

  /** A pattern is first found right after a part that lacks its first character. */
  lemma FindAfterLacking(p: string, pat: string, t: string)
    requires pat != [] && pat[0] !in p
    ensures Find(p + pat + t, pat) == Some(|p|)
  {
    var s := p + pat + t;
    assert OccursAt(s, pat, |p|);
    forall j | 0 <= j < |p|
      ensures !OccursAt(s, pat, j)
    {
      assert s[j] == p[j] && p[j] in p;
    }
  }

  /** The parts of a split at a character do not hold it. */
  lemma {:induction false} SplitCharLacks(s: string, c: char)
    ensures forall k :: 0 <= k < |Split(s, [c])| ==> c !in Split(s, [c])[k]
    decreases |s|
  {
    match Find(s, [c])
    case None =>
      forall j | 0 <= j < |s|
        ensures s[j] != c
      {
        assert !OccursAt(s, [c], j);
      }
    case Some(i) =>
      SplitCharLacks(s[i + 1..], c);
      forall j | 0 <= j < i
        ensures s[j] != c
      {
        assert !OccursAt(s, [c], j);
      }
  }

  /** Joining the parts of a split at a character gives the text back. */
  lemma {:induction false} JoinSplitChar(s: string, c: char)
    ensures Join([c], Split(s, [c])) == s
    decreases |s|
  {
    match Find(s, [c])
    case None =>
      assert Split(s, [c]) == [s];
    case Some(i) =>
      JoinSplitChar(s[i + 1..], c);
      assert s[i..i + 1][0] == c;
      assert Split(s, [c]) == [s[..i]] + Split(s[i + 1..], [c]);
      JoinSplitStep(s, c, i, Split(s[i + 1..], [c]));
  }

  lemma JoinSplitStep(s: string, c: char, i: nat, parts: seq<string>)
    requires i < |s| && s[i] == c
    requires parts != [] && Join([c], parts) == s[i + 1..]
    ensures Join([c], [s[..i]] + parts) == s
  {
    JoinPrepend([c], s[..i], parts);
    assert s[i..] == [c] + s[i + 1..];
    assert s == s[..i] + s[i..];
  }

  /** `s.split(sep, 1)[0]`: the text before the first `sep`, or all of `s`. */
  function Before(s: string, sep: string): (r: string)
    ensures IsPrefix(r, s)
    ensures Contains(s, sep) ==> OccursAt(s, sep, |r|)
    ensures !Contains(s, sep) ==> r == s
  {
    match Find(s, sep)
    case None => s
    case Some(i) => s[..i]
  }

  /** The text before the first separator holds no separator. */
  lemma BeforeLacks(s: string, sep: string)
    requires sep != []
    ensures !Contains(Before(s, sep), sep)
  {
    match Find(s, sep)
    case None =>
    case Some(i) =>
      var r := s[..i];
      forall j | 0 <= j <= |r| - |sep|
        ensures !OccursAt(r, sep, j)
      {
        assert j < i && !OccursAt(s, sep, j);
        assert r[j..j + |sep|] == s[j..j + |sep|];
      }
  }

  // ---------------------------------------------------------------- whitespace and strip

  /** The characters `str.isspace` accepts (and the regex class `\s` matches). */
  predicate IsSpace(c: char) {
    var n := c as int;
    n == 0x20 || 0x09 <= n <= 0x0D || 0x1C <= n <= 0x1F || n == 0x85 || n == 0xA0
    || n == 0x1680 || 0x2000 <= n <= 0x200A || n == 0x2028 || n == 0x2029
    || n == 0x202F || n == 0x205F || n == 0x3000
  }

  /** Drop the longest prefix whose characters satisfy `drop`. */
  function TrimStart(s: string, drop: char -> bool): (r: string)
    ensures |r| <= |s| && r == s[|s| - |r|..]
    ensures r != [] ==> !drop(r[0])
    ensures forall i :: 0 <= i < |s| - |r| ==> drop(s[i])
    decreases |s|
  {
    if s != [] && drop(s[0]) then TrimStart(s[1..], drop) else s
  }

  /** Drop the longest suffix whose characters satisfy `drop`. */
  function TrimEnd(s: string, drop: char -> bool): (r: string)
    ensures |r| <= |s| && r == s[..|r|]
    ensures r != [] ==> !drop(r[|r| - 1])
    ensures forall i :: |r| <= i < |s| ==> drop(s[i])
    decreases |s|
  {
    if s != [] && drop(s[|s| - 1]) then TrimEnd(s[..|s| - 1], drop) else s
  }

  /** The characters at `i` and `i + 1` are not both of the class. */
  predicate NoPairAt(s: string, inClass: char -> bool, i: int)
    requires 0 <= i < |s| - 1
  {
    !(inClass(s[i]) && inClass(s[i + 1]))
  }

  /** No two characters of the class side by side. */
  ghost predicate NoPairs(s: string, inClass: char -> bool) {
    forall i :: 0 <= i < |s| - 1 ==> NoPairAt(s, inClass, i)
  }

  /** No character of the class at either end and no two of them side by side. */
  ghost predicate Tidy(s: string, inClass: char -> bool) {
    && (s != [] ==> !inClass(s[0]) && !inClass(s[|s| - 1]))
    && NoPairs(s, inClass)
  }

  /** A slice of a text with no two characters of the class side by side has none either. */
  lemma NoPairsSlice(s: string, inClass: char -> bool, lo: int, hi: int)
    requires 0 <= lo <= hi <= |s| && NoPairs(s, inClass)
    ensures NoPairs(s[lo..hi], inClass)
  {
    var t := s[lo..hi];
    forall i | 0 <= i < |t| - 1
      ensures NoPairAt(t, inClass, i)
    {
      assert NoPairAt(s, inClass, lo + i);
      assert t[i] == s[lo + i] && t[i + 1] == s[lo + i + 1];
    }
  }

  /** Trimming both ends of a text with no two characters of the class side by side
      leaves a tidy text. */
  lemma TrimTidy(s: string, drop: char -> bool)
    requires NoPairs(s, drop)
    ensures Tidy(TrimStart(TrimEnd(s, drop), drop), drop)
  {
    var e := TrimEnd(s, drop);
    var r := TrimStart(e, drop);
    var k := |e| - |r|;
    assert r == s[k..|e|] by {
      assert r == e[k..] && e == s[..|e|];
    }
    NoPairsSlice(s, drop, k, |e|);
    if r != [] {
      assert r[|r| - 1] == e[|e| - 1];
    }
  }

  /** Trimming both ends keeps a property every character has, and leaves no dropped
      character at either end. */
  lemma TrimBothKeeps(s: string, drop: char -> bool, keep: char -> bool)
    requires forall i :: 0 <= i < |s| ==> keep(s[i])
    ensures var r := TrimStart(TrimEnd(s, drop), drop);
      && (forall i :: 0 <= i < |r| ==> keep(r[i]))
      && (r != [] ==> !drop(r[0]) && !drop(r[|r| - 1]))
  {
    var e := TrimEnd(s, drop);
    var r := TrimStart(e, drop);
    var k := |e| - |r|;
    assert r == s[k..|e|] by {
      assert r == e[k..] && e == s[..|e|];
    }
    if r != [] {
      assert r[|r| - 1] == e[|e| - 1];
    }
  }

  /** Trimming a prefix of one class and then a prefix of another: what goes is a
      maximal run of the first class followed by a maximal run of the second. */
  lemma TrimStartTwice(s: string, p: char -> bool, q: char -> bool, h: string, r: string)
    requires h == TrimStart(s, p) && r == TrimStart(h, q)
    ensures r == s[|s| - |r|..] && |s| - |h| <= |s| - |r|
    ensures forall i :: 0 <= i < |s| - |h| ==> p(s[i])
    ensures h != [] ==> !p(s[|s| - |h|])
    ensures forall i :: |s| - |h| <= i < |s| - |r| ==> q(s[i])
    ensures r != [] ==> !q(r[0])
  {
    TrimStartOfSuffix(s, q, h, r);
  }

  /** Trimming a suffix of `s` drops characters of `s` that all satisfy `drop`. */
  lemma TrimStartOfSuffix(s: string, drop: char -> bool, h: string, r: string)
    requires |h| <= |s| && h == s[|s| - |h|..] && r == TrimStart(h, drop)
    ensures r == s[|s| - |r|..]
    ensures forall i :: |s| - |h| <= i < |s| - |r| ==> drop(s[i])
  {
    var k := |s| - |h|;
    forall i | k <= i < |s| - |r|
      ensures drop(s[i])
    {
      assert s[i] == h[i - k];
    }
    assert r == h[|h| - |r|..];
  }

  /** `s.strip()`. */
  function Strip(s: string): string {
    TrimStart(TrimEnd(s, IsSpace), IsSpace)
  }

  /** A text with no whitespace at either end is its own strip. */
  lemma StripClean(s: string)
    requires s != [] ==> !IsSpace(s[0]) && !IsSpace(s[|s| - 1])
    ensures Strip(s) == s
  {
  }

  /** A stripped text has no whitespace at either end. */
  lemma StripEnds(s: string)
    ensures var r := Strip(s); r != [] ==> !IsSpace(r[0]) && !IsSpace(r[|r| - 1])
  {
    var e := TrimEnd(s, IsSpace);
    var r := TrimStart(e, IsSpace);
    if r != [] {
      assert r[|r| - 1] == e[|e| - 1];
    }
  }

  /** `s.rstrip()`. */
  function RStrip(s: string): string {
    TrimEnd(s, IsSpace)
  }

  // ---------------------------------------------------------------- regular-expression rewrites

  /** `re.sub("[C]+", rep, s)` for a character class `C`: every maximal run of
      characters of the class becomes one `rep`. */
  function CollapseRuns(s: string, inClass: char -> bool, rep: string): string
    decreases |s|
  {
    if s == [] then []
    else if inClass(s[0]) then rep + CollapseRuns(TrimStart(s[1..], inClass), inClass, rep)
    else [s[0]] + CollapseRuns(s[1..], inClass, rep)
  }

  /** A replacement outside the class leaves no character of the class behind. */
  lemma {:induction false} CollapseRunsClean(s: string, inClass: char -> bool, rep: string)
    requires forall i :: 0 <= i < |rep| ==> !inClass(rep[i])
    ensures forall i :: 0 <= i < |CollapseRuns(s, inClass, rep)| ==> !inClass(CollapseRuns(s, inClass, rep)[i])
    decreases |s|
  {
    if s != [] {
      if inClass(s[0]) {
        CollapseRunsClean(TrimStart(s[1..], inClass), inClass, rep);
      } else {
        CollapseRunsClean(s[1..], inClass, rep);
      }
    }
  }

  /** A text with no character of the class is left as it is. */
  lemma {:induction false} CollapseRunsNone(s: string, inClass: char -> bool, rep: string)
    requires forall i :: 0 <= i < |s| ==> !inClass(s[i])
    ensures CollapseRuns(s, inClass, rep) == s
    decreases |s|
  {
    if s != [] {
      CollapseRunsNone(s[1..], inClass, rep);
      assert s == [s[0]] + s[1..];
    }
  }

  /** The rewrite starts with the first character when that one is outside the class. */
  lemma CollapseRunsHead(s: string, inClass: char -> bool, rep: string)
    requires s != [] && !inClass(s[0])
    ensures CollapseRuns(s, inClass, rep) != [] && CollapseRuns(s, inClass, rep)[0] == s[0]
  {
  }

  lemma NoPairsCons(x: char, t: string, inClass: char -> bool)
    requires NoPairs(t, inClass)
    requires t != [] && inClass(x) ==> !inClass(t[0])
    ensures NoPairs([x] + t, inClass)
  {
    var r := [x] + t;
    forall i | 0 <= i < |r| - 1
      ensures NoPairAt(r, inClass, i)
    {
      if i > 0 {
        assert NoPairAt(t, inClass, i - 1);
      }
    }
  }

  /** Collapsing runs into one character of the class leaves no two characters of the
      class side by side. */
  lemma {:induction false} CollapseRunsSingle(s: string, inClass: char -> bool, c: char)
    requires inClass(c)
    ensures NoPairs(CollapseRuns(s, inClass, [c]), inClass)
    decreases |s|
  {
    if s != [] {
      var r := CollapseRuns(s, inClass, [c]);
      if inClass(s[0]) {
        var t := TrimStart(s[1..], inClass);
        CollapseRunsSingle(t, inClass, c);
        if t != [] {
          CollapseRunsHead(t, inClass, [c]);
        }
        assert r == [c] + CollapseRuns(t, inClass, [c]);
        NoPairsCons(c, CollapseRuns(t, inClass, [c]), inClass);
      } else {
        CollapseRunsSingle(s[1..], inClass, c);
        assert r == [s[0]] + CollapseRuns(s[1..], inClass, [c]);
        NoPairsCons(s[0], CollapseRuns(s[1..], inClass, [c]), inClass);
      }
    }
  }

  /** `re.sub(r"<[^>]+>", rep, s)`: a `<`, at least one character other than `>`, and
      the first `>` after them form a tag, which becomes `rep`. */
  function RemoveTags(s: string, rep: string): string
    decreases |s|
  {
    if s == [] then []
    else
      var body := Before(s[1..], ">");
      if s[0] == '<' && Contains(s[1..], ">") && body != [] then
        rep + RemoveTags(s[|body| + 2..], rep)
      else [s[0]] + RemoveTags(s[1..], rep)
  }

  // ---------------------------------------------------------------- lines

  /** The line boundaries of `str.splitlines` ("\r\n" counts as one). */
  predicate IsLineBreak(c: char) {
    var n := c as int;
    0x0A <= n <= 0x0D || 0x1C <= n <= 0x1E || n == 0x85 || n == 0x2028 || n == 0x2029
  }

  function LineEnd(s: string, i: nat): (r: nat)
    requires i <= |s|
    ensures i <= r <= |s|
    ensures r < |s| ==> IsLineBreak(s[r])
    ensures forall j :: i <= j < r ==> !IsLineBreak(s[j])
    decreases |s| - i
  {
    if i == |s| || IsLineBreak(s[i]) then i else LineEnd(s, i + 1)
  }

  /** `s.splitlines()`: no trailing empty line, boundaries dropped. */
  function SplitLines(s: string): (r: seq<string>)
    ensures forall k, j :: 0 <= k < |r| && 0 <= j < |r[k]| ==> !IsLineBreak(r[k][j])
    decreases |s|
  {
    if s == [] then []
    else
      var e := LineEnd(s, 0);
      if e == |s| then [s]
      else
        var next := if s[e] == '\r' && e + 1 < |s| && s[e + 1] == '\n' then e + 2 else e + 1;
        [s[..e]] + SplitLines(s[next..])
  }

  // ---------------------------------------------------------------- numbers

  function DigitChar(d: nat): char
    requires d < 10
  {
    "0123456789"[d]
  }

  function NatToString(n: nat): (r: string)
    ensures r != []
    ensures forall i :: 0 <= i < |r| ==> '0' <= r[i] <= '9'
  {
    if n < 10 then [DigitChar(n)] else NatToString(n / 10) + [DigitChar(n % 10)]
  }

  /** `str(n)` for an integer. */
  function IntToString(n: int): (r: string)
    ensures r != []
    ensures forall i :: 0 <= i < |r| ==> r[i] == '-' || '0' <= r[i] <= '9'
  {
    if n < 0 then "-" + NatToString(-n) else NatToString(n)
  }

  /** The value of a decimal digit. */
  function DigitValue(c: char): nat
    requires '0' <= c <= '9'
  {
    (c as int) - ('0' as int)
  }

  lemma DigitRoundTrip(d: nat)
    requires d < 10
    ensures '0' <= DigitChar(d) <= '9' && DigitValue(DigitChar(d)) == d
  {
    assert "0123456789" == ['0', '1', '2', '3', '4', '5', '6', '7', '8', '9'];
  }

  /** Read a non-empty run of decimal digits; anything else is `None`. */
  function ParseNat(s: string): Option<nat>
    decreases |s|
  {
    if s == [] || !('0' <= s[|s| - 1] <= '9') then None
    else if |s| == 1 then Some(DigitValue(s[0]))
    else match ParseNat(s[..|s| - 1])
      case None => None
      case Some(v) => Some(10 * v + DigitValue(s[|s| - 1]))
  }

  function Negated(r: Option<nat>): Option<int> {
    match r
    case None => None
    case Some(v) => Some(-(v as int))
  }

  function Widened(r: Option<nat>): Option<int> {
    match r
    case None => None
    case Some(v) => Some(v)
  }

  /** Read an optional minus sign followed by decimal digits. */
  function ParseInt(s: string): Option<int> {
    if s != [] && s[0] == '-' then Negated(ParseNat(s[1..])) else Widened(ParseNat(s))
  }

  lemma ParseNatStep(init: string, d: char, v: nat)
    requires init != [] && '0' <= d <= '9'
    requires ParseNat(init) == Some(v)
    ensures ParseNat(init + [d]) == Some(10 * v + DigitValue(d))
  {
    var s := init + [d];
    assert s[|s| - 1] == d && s[..|s| - 1] == init;
  }

  lemma {:induction false} ParseNatRoundTrip(n: nat)
    ensures ParseNat(NatToString(n)) == Some(n)
    decreases n
  {
    var q, r := n / 10, n % 10;
    DigitRoundTrip(r);
    if n >= 10 {
      ParseNatRoundTrip(q);
      ParseNatStep(NatToString(q), DigitChar(r), q);
      assert n == 10 * q + r;
    }
  }

  /** Printing an integer and reading it back gives the integer. */
  lemma IntRoundTrip(n: int)
    ensures ParseInt(IntToString(n)) == Some(n)
  {
    if n < 0 {
      NegativeRoundTrip(n);
    } else {
      var digits := NatToString(n);
      ParseNatRoundTrip(n);
      assert IntToString(n) == digits;
      assert digits[0] != '-';
    }
  }

  lemma NegativeRoundTrip(n: int)
    requires n < 0
    ensures ParseInt(IntToString(n)) == Some(n)
  {
    var m: nat := -n;
    ParseNatRoundTrip(m);
    SignedParse(NatToString(m), m);
  }

  lemma SignedParse(digits: string, m: nat)
    requires ParseNat(digits) == Some(m)
    ensures ParseInt("-" + digits) == Some(-(m as int))
  {
    var s := "-" + digits;
    assert s[0] == '-' && s[1..] == digits;
  }

  /** No integer prints as a lone minus sign. */
  lemma IntToStringNotDash(n: int)
    ensures IntToString(n) != "-"
  {
    if n < 0 {
      assert |IntToString(n)| == 1 + |NatToString(-n)|;
    } else {
      assert '0' <= IntToString(n)[0] <= '9';
    }
  }

  // ---------------------------------------------------------------- ordering

  /** Python's `<=` on strings: lexicographic by code point. */
  predicate LexLe(a: string, b: string)
    decreases |a|
  {
    a == [] || (b != [] && (a[0] < b[0] || (a[0] == b[0] && LexLe(a[1..], b[1..]))))
  }

  lemma LexLeTotal(a: string, b: string)
    ensures LexLe(a, b) || LexLe(b, a)
    decreases |a|
  {
    if a != [] && b != [] && a[0] == b[0] {
      LexLeTotal(a[1..], b[1..]);
    }
  }

  lemma LexLeTransitive(a: string, b: string, c: string)
    requires LexLe(a, b) && LexLe(b, c)
    ensures LexLe(a, c)
    decreases |a|
  {
    if a != [] && b != [] && c != [] && a[0] == b[0] == c[0] {
      LexLeTransitive(a[1..], b[1..], c[1..]);
    }
  }

  lemma LexLeAntisymmetric(a: string, b: string)
    requires LexLe(a, b) && LexLe(b, a)
    ensures a == b
    decreases |a|
  {
    if a != [] && b != [] {
      LexLeAntisymmetric(a[1..], b[1..]);
      assert a == [a[0]] + a[1..] && b == [b[0]] + b[1..];
    }
  }
}
