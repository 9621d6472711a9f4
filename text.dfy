/** The Python `str` operations the scripts rely on: `strip`, `replace`, `split(sep, 1)`,
    `os.path.basename`, `os.path.join`, substring tests and `<` on strings. */
module Text {

  import opened Outcomes
  import opened Seqs

  /** Python's `str.isspace` for one character (the characters `str.strip()` removes). */
  predicate IsSpace(c: char) {
    var n := c as int;
    (9 <= n <= 13) || (0x1C <= n <= 0x20) || n == 0x85 || n == 0xA0 || n == 0x1680
    || (0x2000 <= n <= 0x200A) || n == 0x2028 || n == 0x2029 || n == 0x202F
    || n == 0x205F || n == 0x3000
  }

  predicate AllSpace(s: string) {
    forall k :: 0 <= k < |s| ==> IsSpace(s[k])
  }

  /** Neither the first nor the last character is whitespace. */
  predicate IsStripped(s: string) {
    s == [] || (!IsSpace(s[0]) && !IsSpace(s[|s| - 1]))
  }

  /** Where the text of `s` starts when looking from `i`: the first position at or after
      `i` that is not whitespace, or `|s|`. */
  function ContentStart(s: string, i: nat): (n: nat)
    requires i <= |s|
    ensures i <= n <= |s| && (forall k :: i <= k < n ==> IsSpace(s[k]))
    ensures n < |s| ==> !IsSpace(s[n])
    decreases |s| - i
  {
    if i < |s| && IsSpace(s[i]) then ContentStart(s, i + 1) else i
  }

  /** Where the text of `s[lo..j]` ends: the position after its last character that is
      not whitespace, or `lo`. */
  function ContentEnd(s: string, lo: nat, j: nat): (n: nat)
    requires lo <= j <= |s|
    ensures lo <= n <= j && (forall k :: n <= k < j ==> IsSpace(s[k]))
    ensures n > lo ==> !IsSpace(s[n - 1])
    decreases j
  {
    if j > lo && IsSpace(s[j - 1]) then ContentEnd(s, lo, j - 1) else j
  }

  /** Python's `s.strip()`: `r` is the infix of `s` left once every leading and every
      trailing whitespace character is removed. */
  function Strip(s: string): (r: string)
    ensures IsStripped(r) && |r| <= |s|
    ensures var i := ContentStart(s, 0);
      i + |r| <= |s| && r == s[i..i + |r|] && AllSpace(s[..i]) && AllSpace(s[i + |r|..])
  {
    var i := ContentStart(s, 0);
    var j := ContentEnd(s, i, |s|);
    assert AllSpace(s[..i]) by {
      forall k | 0 <= k < i
        ensures IsSpace(s[..i][k])
      {
        assert s[..i][k] == s[k];
      }
    }
    assert AllSpace(s[j..]) by {
      forall k | 0 <= k < |s| - j
        ensures IsSpace(s[j..][k])
      {
        assert s[j..][k] == s[j + k];
      }
    }
    s[i..j]
  }

  /** Every character of `r` is one of `s`'s: stripping adds nothing. */
  lemma StripKeepsCharacters(s: string, c: char)
    requires c in Strip(s)
    ensures c in s
  {
    var r := Strip(s);
    var i := ContentStart(s, 0);
    var k :| 0 <= k < |r| && r[k] == c;
    assert s[i + k] == c;
  }

  /** Stripping a string with no outer whitespace changes nothing. */
  lemma StrippedUnchanged(s: string)
    requires IsStripped(s)
    ensures Strip(s) == s
  {
    if s != [] {
      assert ContentStart(s, 0) == 0;
      assert ContentEnd(s, 0, |s|) == |s|;
      assert s[0..|s|] == s;
    }
  }

  /** `pat` occurs in `s` as a contiguous substring (Python's `pat in s`). */
  predicate Occurs(s: string, pat: string)
    decreases |s|
  {
    |pat| <= |s| && (s[..|pat|] == pat || Occurs(s[1..], pat))
  }

  /** Python's `s.replace(pat, rep)`: scan left to right, replacing every non-overlapping
      occurrence of `pat`. */
  function ReplaceAll(s: string, pat: string, rep: string): (r: string)
    requires pat != []
    decreases |s|
  {
    if |s| < |pat| then s
    else if s[..|pat|] == pat then rep + ReplaceAll(s[|pat|..], pat, rep)
    else [s[0]] + ReplaceAll(s[1..], pat, rep)
  }

  /** Replacing a pattern that does not occur changes nothing. */
  lemma {:induction false} ReplaceAbsent(s: string, pat: string, rep: string)
    requires pat != [] && !Occurs(s, pat)
    ensures ReplaceAll(s, pat, rep) == s
    decreases |s|
  {
    if |s| >= |pat| {
      ReplaceAbsent(s[1..], pat, rep);
      assert [s[0]] + s[1..] == s;
    }
  }

  /** A character in neither `s` nor `rep` is not in the result. */
  lemma {:induction false} ReplaceKeepsOut(s: string, pat: string, rep: string, c: char)
    requires pat != [] && c !in s && c !in rep
    ensures c !in ReplaceAll(s, pat, rep)
    decreases |s|
  {
    if |s| >= |pat| {
      if s[..|pat|] == pat {
        ReplaceKeepsOut(s[|pat|..], pat, rep, c);
      } else {
        ReplaceKeepsOut(s[1..], pat, rep, c);
      }
    }
  }

  /** `s.replace(c, "")` deletes every `c` and keeps the other characters, in their order
      and as many times as they occur. */
  lemma {:induction false} ReplaceDeletesChar(s: string, c: char)
    ensures c !in ReplaceAll(s, [c], [])
    ensures forall x :: x in ReplaceAll(s, [c], []) ==> x in s
    ensures IsSubsequence(ReplaceAll(s, [c], []), s)
    ensures forall x :: Count(ReplaceAll(s, [c], []), x) == if x == c then 0 else Count(s, x)
    decreases |s|
  {
    if |s| >= 1 {
      ReplaceDeletesChar(s[1..], c);
    }
    ReplaceCharIsFilter(s, c);
    FilterIsSubsequence(Other(c), s);
    forall x
      ensures Count(ReplaceAll(s, [c], []), x) == if x == c then 0 else Count(s, x)
    {
      FilterCount(Other(c), s, x);
    }
  }

  /** The test "is not `c`". */
  function Other(c: char): char -> bool {
    x => x != c
  }

  lemma {:induction false} ReplaceCharIsFilter(s: string, c: char)
    ensures ReplaceAll(s, [c], []) == Filter(Other(c), s)
    decreases |s|
  {
    if s != [] {
      ReplaceCharIsFilter(s[1..], c);
      FilterAppend(Other(c), [s[0]], s[1..]);
      assert [s[0]] + s[1..] == s;
      assert [s[0]][..0] == [];
      assert s[..1] == [c] <==> s[0] == c;
    }
  }

  /** A character that does not occur is a one-character pattern that does not occur. */
  lemma {:induction false} AbsentCharNotOccurs(s: string, c: char)
    requires c !in s
    ensures !Occurs(s, [c])
    decreases |s|
  {
    if |s| >= 1 {
      assert s[0] in s && s[..1] == [s[0]];
      AbsentCharNotOccurs(s[1..], c);
    }
  }

  /** Every `a` in `s` replaced by `b`, character by character. */
  function SwapChar(s: string, a: char, b: char): (r: string)
    ensures |r| == |s|
    ensures forall k :: 0 <= k < |s| ==> r[k] == (if s[k] == a then b else s[k])
  {
    seq(|s|, k requires 0 <= k < |s| => if s[k] == a then b else s[k])
  }

  /** `s.replace(a, b)` for one-character strings is `SwapChar`; no `a` survives. */
  lemma {:induction false} ReplaceSingleChar(s: string, a: char, b: char)
    ensures ReplaceAll(s, [a], [b]) == SwapChar(s, a, b)
    ensures a != b ==> a !in ReplaceAll(s, [a], [b])
    decreases |s|
  {
    if s != [] {
      ReplaceSingleChar(s[1..], a, b);
      assert SwapChar(s, a, b) == [if s[0] == a then b else s[0]] + SwapChar(s[1..], a, b);
    }
  }

  /** Swapping `a` for `b` creates no occurrence of a pattern that contains neither. */
  lemma {:induction false} SwapCharKeepsAbsence(s: string, a: char, b: char, pat: string)
    requires a !in pat && b !in pat && !Occurs(s, pat)
    ensures !Occurs(SwapChar(s, a, b), pat)
    decreases |s|
  {
    var t := SwapChar(s, a, b);
    if |pat| <= |s| {
      SwapCharKeepsAbsence(s[1..], a, b, pat);
      assert SwapChar(s[1..], a, b) == t[1..];
    }
  }

  /** When `pat` starts with a character it never repeats and does not occur in `s`, the
      only occurrence in `s + pat` is the trailing one: replacing gives `s + rep`. */
  lemma {:induction false} ReplaceTrailing(s: string, pat: string, rep: string)
    requires pat != [] && pat[0] !in pat[1..] && !Occurs(s, pat)
    ensures ReplaceAll(s + pat, pat, rep) == s + rep
    decreases |s|
  {
    var t := s + pat;
    if s == [] {
      assert t == pat && t[|pat|..] == [];
    } else {
      NoMatchBeforeTrailing(s, pat);
      assert ReplaceAll(t, pat, rep) == [t[0]] + ReplaceAll(t[1..], pat, rep);
      DropFirstAppend(s, pat);
      assert !Occurs(s[1..], pat);
      ReplaceTrailing(s[1..], pat, rep);
      ConsTail(s);
      AppendAssoc([s[0]], s[1..], rep);
    }
  }

  lemma NoMatchBeforeTrailing(s: string, pat: string)
    requires pat != [] && pat[0] !in pat[1..] && !Occurs(s, pat) && s != []
    ensures (s + pat)[..|pat|] != pat
  {
    var t := s + pat;
    if |s| >= |pat| {
      assert s[..|pat|] == t[..|pat|];
    } else {
      assert pat[|s|] == pat[1..][|s| - 1];
      assert t[..|pat|][|s|] == pat[0];
    }
  }

  /** Index of the first `c` in `s`, if any (Python's `s.find(c)`). */
  function IndexOf(s: string, c: char): (r: Option<nat>)
    ensures r.None? <==> c !in s
    ensures r.Some? ==> r.value < |s| && s[r.value] == c && c !in s[..r.value]
  {
    if s == [] then None
    else if s[0] == c then Some(0)
    else match IndexOf(s[1..], c)
      case None => None
      case Some(i) =>
        assert s[..i + 1] == [s[0]] + s[1..][..i];
        Some(i + 1)
  }

  /** Index of the last `c` in `s`, if any (Python's `s.rfind(c)`). */
  function LastIndexOf(s: string, c: char): (r: Option<nat>)
    ensures r.None? <==> c !in s
    ensures r.Some? ==> r.value < |s| && s[r.value] == c && c !in s[r.value + 1..]
  {
    if s == [] then None
    else if s[|s| - 1] == c then Some(|s| - 1)
    else
      var r := LastIndexOf(s[..|s| - 1], c);
      if r.Some? then
        assert s[r.value + 1..] == s[..|s| - 1][r.value + 1..] + [s[|s| - 1]];
        r
      else r
  }
  /** An occurrence of `c` with no `c` after it is the last one. */
  lemma {:induction false} LastIndexOfAt(s: string, c: char, i: nat)
    requires i < |s| && s[i] == c && c !in s[i + 1..]
    ensures LastIndexOf(s, c) == Some(i)
    decreases |s|
  {
    var n := |s| - 1;
    if i < n {
      assert s[i + 1..][n - i - 1] == s[n];
      assert s[..n][i + 1..] == s[i + 1..][..n - i - 1];
      LastIndexOfAt(s[..n], c, i);
    }
  }


  /** Python's `s.split(sep, 1)` when it yields two parts: the text before the first `sep`
      and everything after it, later separators included; `None` when `sep` is absent. */
  function SplitOnce(s: string, sep: char): (r: Option<(string, string)>)
    ensures r.None? <==> sep !in s
    ensures r.Some? ==> sep !in r.value.0 && s == r.value.0 + [sep] + r.value.1
  {
    match IndexOf(s, sep)
    case None => None
    case Some(i) =>
      assert s == s[..i] + [sep] + s[i + 1..];
      Some((s[..i], s[i + 1..]))
  }

  /** The split happens at the first separator: the head, which holds none, and the rest
      are recovered exactly, whatever the rest contains. */
  lemma SplitOnceInverse(head: string, sep: char, rest: string)
    requires sep !in head
    ensures SplitOnce(head + [sep] + rest, sep) == Some((head, rest))
  {
    var s := head + [sep] + rest;
    var r := SplitOnce(s, sep);
    assert sep in s by { assert s[|head|] == sep; }
    IndexOfAfterHead(head, sep, rest);
    var i := |head|;
    assert s[..i] == head;
    assert s[i + 1..] == rest;
  }

  lemma {:induction false} IndexOfAfterHead(head: string, c: char, rest: string)
    requires c !in head
    ensures IndexOf(head + [c] + rest, c) == Some(|head|)
    decreases |head|
  {
    var s := head + [c] + rest;
    if head != [] {
      assert s[0] == head[0];
      assert s[1..] == head[1..] + [c] + rest;
      IndexOfAfterHead(head[1..], c, rest);
    }
  }

  /** `os.path.basename(p)`: the text after the last `/`. */
  function Basename(p: string): (r: string)
    ensures '/' !in r
    ensures |r| <= |p| && r == p[|p| - |r|..]
    ensures |r| < |p| ==> p[|p| - |r| - 1] == '/'
  {
    match LastIndexOf(p, '/')
    case None => p
    case Some(i) => p[i + 1..]
  }

  /** The base name of a path ending in `/name` is `name`. */
  lemma BasenameOfName(dir: string, name: string)
    requires '/' !in name
    ensures Basename(dir + "/" + name) == name
  {
    var p := dir + "/" + name;
    assert p[|dir|] == '/' && p[|dir| + 1..] == name;
  }

  /** `os.path.join(a, b)` for two POSIX path components. */
  function Join(a: string, b: string): string {
    if b != [] && b[0] == '/' then b
    else if a == [] || a[|a| - 1] == '/' then a + b
    else a + "/" + b
  }

  /** Joining onto the same directory keeps names apart that start with the same
      character (as every name produced for one mask does). */
  lemma JoinInjective(a: string, b1: string, b2: string)
    requires b1 != [] && b2 != [] && b1[0] == b2[0]
    ensures Join(a, b1) == Join(a, b2) ==> b1 == b2
  {
    if b1[0] != '/' && Join(a, b1) == Join(a, b2) {
      if a == [] || a[|a| - 1] == '/' {
        assert b1 == (a + b1)[|a|..];
        assert b2 == (a + b2)[|a|..];
      } else {
        assert b1 == (a + "/" + b1)[|a| + 1..];
        assert b2 == (a + "/" + b2)[|a| + 1..];
      }
    }
  }

  /** Python's `<` on `str`: lexicographic by code point, a proper prefix first. */
  predicate Less(a: string, b: string)
    decreases |a|
  {
    if a == [] then b != []
    else if b == [] then false
    else if a[0] != b[0] then a[0] < b[0]
    else Less(a[1..], b[1..])
  }

  lemma {:induction false} LessIrreflexive(a: string)
    ensures !Less(a, a)
    decreases |a|
  {
    if a != [] { LessIrreflexive(a[1..]); }
  }

  lemma {:induction false} LessTransitive(a: string, b: string, c: string)
    requires Less(a, b) && Less(b, c)
    ensures Less(a, c)
    decreases |a|
  {
    if a != [] && b != [] && c != [] && a[0] == b[0] && b[0] == c[0] {
      LessTransitive(a[1..], b[1..], c[1..]);
    }
  }

  lemma {:induction false} LessTotal(a: string, b: string)
    requires a != b
    ensures Less(a, b) || Less(b, a)
    decreases |a|
  {
    if a != [] && b != [] && a[0] == b[0] {
      assert a == [a[0]] + a[1..] && b == [b[0]] + b[1..];
      LessTotal(a[1..], b[1..]);
    }
  }
}
