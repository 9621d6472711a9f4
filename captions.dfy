/** The caption post-processing shared by the benchmark script and the web app: every
    generated caption loses its non-ASCII characters and surrounding whitespace, empty
    captions are dropped, and an all-empty result becomes `["Unknown."]`. */
module Captions {

  import opened Seqs
  import opened Text

  predicate IsAscii(c: char) {
    c as int <= 0x7F
  }

  predicate AllAscii(s: string) {
    forall k :: 0 <= k < |s| ==> IsAscii(s[k])
  }

  /** `re.sub(r'[^\x00-\x7F]+', '', text)`: removing every run of non-ASCII characters
      is removing every non-ASCII character. */
  function DropNonAscii(s: string): (r: string)
    ensures AllAscii(r) && |r| <= |s|
    ensures AllAscii(s) ==> r == s
  {
    if s == [] then []
    else DropNonAscii(s[..|s| - 1]) + (if IsAscii(s[|s| - 1]) then [s[|s| - 1]] else [])
  }

  /** Exactly the ASCII characters of `s` stay, in their order and as many times as
      they occur. */
  lemma DropNonAsciiKeepsAscii(s: string)
    ensures IsSubsequence(DropNonAscii(s), s)
    ensures forall x :: Count(DropNonAscii(s), x) == if IsAscii(x) then Count(s, x) else 0
  {
    DropNonAsciiIsFilter(s);
    FilterIsSubsequence(IsAscii, s);
    forall x
      ensures Count(DropNonAscii(s), x) == if IsAscii(x) then Count(s, x) else 0
    {
      FilterCount(IsAscii, s, x);
    }
  }

  lemma {:induction false} DropNonAsciiIsFilter(s: string)
    ensures DropNonAscii(s) == Filter(IsAscii, s)
    decreases |s|
  {
    if s != [] {
      DropNonAsciiIsFilter(s[..|s| - 1]);
    }
  }

  /** One caption, cleaned: ASCII only, then stripped. */
  function CleanOne(s: string): (r: string)
    ensures AllAscii(r) && IsStripped(r)
  {
    var a := DropNonAscii(s);
    var r := Strip(a);
    forall k | 0 <= k < |r|
      ensures IsAscii(r[k])
    {
      StripKeepsCharacters(a, r[k]);
    }
    r
  }

  predicate NonEmpty(s: string) {
    s != []
  }

  /** A caption as the cleaning leaves it. */
  predicate Clean(s: string) {
    s != [] && AllAscii(s) && IsStripped(s)
  }

  /** The cleaning step of `evaluate_image` and `caption_image_from_path`. */
  function CleanCaptions(outputs: seq<string>): (r: seq<string>)
    ensures r != []
    ensures forall s :: s in r ==> Clean(s)
    ensures Filter(NonEmpty, Map(CleanOne, outputs)) == [] ==> r == ["Unknown."]
    ensures Filter(NonEmpty, Map(CleanOne, outputs)) != [] ==>
      IsSubsequence(r, Map(CleanOne, outputs)) && |r| <= |outputs|
    ensures forall k :: 0 <= k < |outputs| && CleanOne(outputs[k]) != [] ==> CleanOne(outputs[k]) in r
    ensures Filter(NonEmpty, Map(CleanOne, outputs)) != [] ==>
      forall x :: x != [] ==> Count(r, x) == Count(Map(CleanOne, outputs), x)
  {
    var cleaned := Map(CleanOne, outputs);
    var kept := Filter(NonEmpty, cleaned);
    FilterIsSubsequence(NonEmpty, cleaned);
    forall x | x != []
      ensures Count(kept, x) == Count(cleaned, x)
    {
      FilterCount(NonEmpty, cleaned, x);
    }
    forall k | 0 <= k < |outputs| && CleanOne(outputs[k]) != []
      ensures CleanOne(outputs[k]) in kept
    {
      FilterKeeps(cleaned, k);
    }
    CleanedAreClean(outputs);
    UnknownIsClean();
    if kept == [] then ["Unknown."] else kept
  }

  lemma CleanedAreClean(outputs: seq<string>)
    ensures forall s :: s in Filter(NonEmpty, Map(CleanOne, outputs)) ==> Clean(s)
  {
    forall s | s in Filter(NonEmpty, Map(CleanOne, outputs))
      ensures Clean(s)
    {
      var k :| 0 <= k < |outputs| && Map(CleanOne, outputs)[k] == s;
    }
  }

  /** The fallback caption is itself a clean caption. */
  lemma UnknownIsClean()
    ensures Clean("Unknown.")
  {
    assert "Unknown."[0] == 'U' && "Unknown."[7] == '.';
  }

  /** The fallback is used exactly when every caption comes back empty after cleaning,
      unless a model caption already cleans to `Unknown.`. */
  lemma FallbackOnlyWhenAllEmpty(outputs: seq<string>)
    requires forall k :: 0 <= k < |outputs| ==> CleanOne(outputs[k]) != "Unknown."
    ensures CleanCaptions(outputs) == ["Unknown."] <==>
      forall k :: 0 <= k < |outputs| ==> CleanOne(outputs[k]) == []
  {
    var cleaned := Map(CleanOne, outputs);
    KeptEmptyIff(cleaned);
  }

  lemma KeptEmptyIff(s: seq<string>)
    requires forall k :: 0 <= k < |s| ==> s[k] != "Unknown."
    ensures Filter(NonEmpty, s) != ["Unknown."]
    ensures Filter(NonEmpty, s) == [] <==> forall k :: 0 <= k < |s| ==> s[k] == []
  {
    assert "Unknown." !in s;
    if forall k :: 0 <= k < |s| ==> s[k] == [] {
      AllEmptyFilter(s);
    } else {
      var i :| 0 <= i < |s| && s[i] != [];
      FilterKeeps(s, i);
    }
  }

  lemma {:induction false} AllEmptyFilter(s: seq<string>)
    requires forall k :: 0 <= k < |s| ==> s[k] == []
    ensures Filter(NonEmpty, s) == []
    decreases |s|
  {
    if s != [] {
      AllEmptyFilter(s[..|s| - 1]);
    }
  }

  lemma {:induction false} FilterKeeps(s: seq<string>, i: nat)
    requires i < |s| && s[i] != []
    ensures s[i] in Filter(NonEmpty, s)
    decreases |s|
  {
    var n := |s| - 1;
    if i < n {
      FilterKeeps(s[..n], i);
    }
  }

  /** Captions that are already clean pass through unchanged, so cleaning twice is
      cleaning once. */
  lemma {:induction false} CleanCaptionsOfClean(outputs: seq<string>)
    requires outputs != [] && forall s :: s in outputs ==> Clean(s)
    ensures CleanCaptions(outputs) == outputs
  {
    forall k | 0 <= k < |outputs|
      ensures CleanOne(outputs[k]) == outputs[k] && outputs[k] != []
    {
      assert outputs[k] in outputs;
      StrippedUnchanged(outputs[k]);
    }
    assert Map(CleanOne, outputs) == outputs;
    NonEmptyFilterIdentity(outputs);
  }

  lemma CleanTwice(outputs: seq<string>)
    ensures CleanCaptions(CleanCaptions(outputs)) == CleanCaptions(outputs)
  {
    CleanCaptionsOfClean(CleanCaptions(outputs));
  }

  lemma {:induction false} NonEmptyFilterIdentity(s: seq<string>)
    requires forall k :: 0 <= k < |s| ==> s[k] != []
    ensures Filter(NonEmpty, s) == s
    decreases |s|
  {
    if s != [] {
      NonEmptyFilterIdentity(s[..|s| - 1]);
      AppendSnoc([], s);
    }
  }
}
