/** The integer part of the evaluation script: cleaning the label texts, selecting the
    rows of the prediction table, building the list of classes from the ground-truth
    labels, and tallying per class how often the mapped prediction equals the truth.
    Embeddings, similarities, the nearest-class choice, statistics and plots are not
    modelled; the nearest-class choice arrives as indices into the class list. */
module Visualize {

  import opened Outcomes
  import opened Seqs
  import opened Text

  /** `clean_text`: `None` becomes `""`; otherwise every `#` is deleted, then the
      surrounding whitespace is stripped. */
  function CleanText(s: Option<string>): (r: string)
    ensures '#' !in r && IsStripped(r)
    ensures s.None? ==> r == []
    ensures s.Some? ==> forall c :: c in r ==> c in s.value && c != '#'
  {
    match s
    case None => ""
    case Some(t) =>
      var r := Strip(ReplaceAll(t, "#", ""));
      ReplaceDeletesChar(t, '#');
      forall c | c in r
        ensures c in t && c != '#'
      {
        StripKeepsCharacters(ReplaceAll(t, "#", ""), c);
      }
      r
  }

  /** Cleaning a cleaned text changes nothing. */
  lemma CleanTextIdempotent(s: Option<string>)
    ensures CleanText(Some(CleanText(s))) == CleanText(s)
  {
    var r := CleanText(s);
    AbsentCharNotOccurs(r, '#');
    ReplaceAbsent(r, "#", "");
    StrippedUnchanged(r);
  }

  /** One kept row: the file path as written, and the cleaned truth and prediction. */
  datatype Row = Row(path: string, truth: string, predicted: string)

  /** The rows `read_tsv` keeps are those with at least three columns. */
  predicate Full(cols: seq<string>) {
    |cols| >= 3
  }

  function RowOf(cols: seq<string>): (r: Row)
    requires Full(cols)
    ensures r.path == cols[0]
  {
    Row(cols[0], CleanText(Some(cols[1])), CleanText(Some(cols[2])))
  }

  /** The rows of a table given as its lines' column lists, defined line by line. */
  function Rows(lines: seq<seq<string>>): (r: seq<Row>)
    ensures |r| <= |lines|
  {
    if lines == [] then []
    else
      var last := lines[|lines| - 1];
      Rows(lines[..|lines| - 1]) + (if Full(last) then [RowOf(last)] else [])
  }

  /** `read_tsv` over the lines the CSV reader produced: empty and short lines are
      skipped, every other line gives one row. */
  method ReadTsv(lines: seq<seq<string>>) returns (rows: seq<Row>)
    ensures rows == Rows(lines)
  {
    rows := [];
    for i := 0 to |lines|
      invariant rows == Rows(lines[..i])
    {
      var cols := lines[i];
      assert lines[..i + 1][..i] == lines[..i];
      if cols == [] {
        continue;
      }
      if |cols| < 3 {
        continue;
      }
      var path := cols[0];
      var gt := CleanText(Some(cols[1]));
      var pred := CleanText(Some(cols[2]));
      rows := rows + [Row(path, gt, pred)];
    }
    assert lines[..|lines|] == lines;
  }

  /** Rows are read line by line in order: the rows of two tables one after the other
      are the rows of the first followed by the rows of the second. */
  lemma {:induction false} RowsAppend(a: seq<seq<string>>, b: seq<seq<string>>)
    ensures Rows(a + b) == Rows(a) + Rows(b)
    decreases |b|
  {
    if b == [] {
      assert a + b == a;
    } else {
      var b', x := b[..|b| - 1], b[|b| - 1];
      AppendSnoc(a, b);
      RowsAppend(a, b');
      RowsSnoc(a + b', x);
      RowsSnoc(b', x);
      AppendAssoc(Rows(a), Rows(b'), if Full(x) then [RowOf(x)] else []);
    }
  }

  /** One more line adds its row, if it has one, after the others. */
  lemma RowsSnoc(lines: seq<seq<string>>, x: seq<string>)
    ensures Rows(lines + [x]) == Rows(lines) + (if Full(x) then [RowOf(x)] else [])
  {
    assert (lines + [x])[..|lines|] == lines;
  }

  /** One row per line with at least three columns. */
  lemma {:induction false} RowsCount(lines: seq<seq<string>>)
    ensures |Rows(lines)| == |Filter(Full, lines)|
    decreases |lines|
  {
    if lines != [] {
      RowsCount(lines[..|lines| - 1]);
    }
  }

  /** Columns after the third never reach the row. */
  lemma ExtraColumnsIgnored(cols: seq<string>, extra: seq<string>)
    requires Full(cols)
    ensures Rows([cols + extra]) == Rows([cols])
  {
    assert [cols + extra][..0] == [] && [cols][..0] == [];
  }

  /** Strictly increasing under Python's string order, hence free of duplicates. */
  predicate StrictlySorted(s: seq<string>) {
    forall i, j :: 0 <= i < j < |s| ==> Less(s[i], s[j])
  }

  /** `x` put in its place in a strictly sorted list, unless it is already there. */
  function Insert(x: string, s: seq<string>): (r: seq<string>)
    requires StrictlySorted(s)
    ensures StrictlySorted(r)
    ensures forall y :: y in r <==> y == x || y in s
  {
    if s == [] then [x]
    else if x == s[0] then s
    else if Less(x, s[0]) then
      forall j | 0 < j < |s|
        ensures Less(x, s[j])
      {
        LessTransitive(x, s[0], s[j]);
      }
      [x] + s
    else
      LessTotal(x, s[0]);
      var rest := Insert(x, s[1..]);
      assert forall y :: y in rest ==> Less(s[0], y);
      [s[0]] + rest
  }

  /** `sorted(list(set(gts)))`. */
  function SortedSet(gts: seq<string>): (r: seq<string>)
    ensures StrictlySorted(r)
    ensures forall y :: y in r <==> y in gts
  {
    if gts == [] then []
    else Insert(gts[|gts| - 1], SortedSet(gts[..|gts| - 1]))
  }

  /** `list.index(x)` when `x` is present: the position of the first `x`. */
  function FirstIndex(s: seq<string>, x: string): (i: nat)
    requires x in s
    ensures i < |s| && s[i] == x && x !in s[..i]
  {
    if s[0] == x then 0
    else
      var i := FirstIndex(s[1..], x);
      assert s[..i + 1] == [s[0]] + s[1..][..i];
      i + 1
  }

  /** `list.remove(x)` when `x` is present: the first `x` is taken out. */
  function RemoveFirst(s: seq<string>, x: string): (r: seq<string>)
    requires x in s
    ensures |r| == |s| - 1
  {
    var i := FirstIndex(s, x);
    s[..i] + s[i + 1..]
  }

  /** The class list: the distinct ground-truth labels in sorted order, without the
      empty label. */
  function Classes(gts: seq<string>): (r: seq<string>)
    ensures StrictlySorted(r)
    ensures forall c :: c in r <==> c in gts && c != []
  {
    var s := SortedSet(gts);
    if [] in s then
      var i := FirstIndex(s, []);
      // The empty label is the least string, so it heads the sorted list.
      assert !Less(s[0], s[i]);
      assert i == 0;
      var r := RemoveFirst(s, []);
      assert r == s[1..];
      forall c | c in r
        ensures c != []
      {
        var k :| 0 <= k < |r| && r[k] == c;
        assert Less(s[0], s[k + 1]);
      }
      r
    else s
  }

  /** Every class has a positive ground-truth count, so no per-class accuracy divides by
      zero; there are no classes exactly when every label is empty. */
  lemma ClassesHaveLabels(gts: seq<string>)
    ensures forall c :: c in Classes(gts) ==> Count(gts, c) > 0
    ensures Classes(gts) == [] <==> forall k :: 0 <= k < |gts| ==> gts[k] == []
  {
    if Classes(gts) == [] {
      forall k | 0 <= k < |gts|
        ensures gts[k] == []
      {
        assert gts[k] in gts;
      }
    } else {
      assert Classes(gts)[0] in Classes(gts);
    }
  }

  /** `[classes[i] for i in mapped_idx]`: the class each prediction was mapped to. */
  function MappedClasses(classes: seq<string>, idx: seq<nat>): (r: seq<string>)
    requires forall k :: 0 <= k < |idx| ==> idx[k] < |classes|
    ensures |r| == |idx| && forall k :: 0 <= k < |idx| ==> r[k] in classes
  {
    seq(|idx|, k requires 0 <= k < |idx| => classes[idx[k]])
  }

  /** The number of rows whose truth and mapped prediction are both `c`. */
  function Agree(truth: seq<string>, mapped: seq<string>, c: string): (n: nat)
    requires |truth| == |mapped|
    ensures n <= Count(truth, c)
  {
    if truth == [] then 0
    else
      var k := |truth| - 1;
      Agree(truth[..k], mapped[..k], c) + (if truth[k] == c && mapped[k] == c then 1 else 0)
  }

  /** The number of rows whose truth equals their mapped prediction. */
  function Agreements(truth: seq<string>, mapped: seq<string>): nat
    requires |truth| == |mapped|
  {
    if truth == [] then 0
    else
      var k := |truth| - 1;
      Agreements(truth[..k], mapped[..k]) + (if truth[k] == mapped[k] then 1 else 0)
  }

  /** A `Counter` lookup: a missing key reads as 0. */
  function Get(m: map<string, nat>, c: string): nat {
    if c in m then m[c] else 0
  }

  /** The `per_class_correct` loop: for each class, the rows where the truth is that
      class and the mapped prediction equals it. */
  method PerClassCorrect(truth: seq<string>, mapped: seq<string>) returns (correct: map<string, nat>)
    requires |truth| == |mapped|
    ensures forall c :: Get(correct, c) == Agree(truth, mapped, c)
    ensures forall c :: c in correct ==> correct[c] > 0
  {
    correct := map[];
    for i := 0 to |truth|
      invariant forall c :: Get(correct, c) == Agree(truth[..i], mapped[..i], c)
      invariant forall c :: c in correct ==> correct[c] > 0
    {
      assert truth[..i + 1][..i] == truth[..i] && mapped[..i + 1][..i] == mapped[..i];
      var t, p := truth[i], mapped[i];
      ghost var before := correct;
      if t == p {
        correct := correct[t := Get(correct, t) + 1];
      }
      forall c | true
        ensures Get(correct, c) == Agree(truth[..i + 1], mapped[..i + 1], c)
      {
        if c != t {
          assert Get(correct, c) == Get(before, c);
        }
      }
    }
    assert truth[..|truth|] == truth && mapped[..|mapped|] == mapped;
  }

  /** The sum over the classes `cs` of their correct counts. */
  function SumAgree(truth: seq<string>, mapped: seq<string>, cs: seq<string>): nat
    requires |truth| == |mapped|
  {
    if cs == [] then 0
    else SumAgree(truth, mapped, cs[..|cs| - 1]) + Agree(truth, mapped, cs[|cs| - 1])
  }

  /** One more row adds one to the sum exactly when it agrees, and then once per
      occurrence of its label among the classes. */
  lemma {:induction false} SumAgreeStep(truth: seq<string>, mapped: seq<string>, cs: seq<string>)
    requires |truth| == |mapped| && truth != []
    ensures var k := |truth| - 1;
      SumAgree(truth, mapped, cs) == SumAgree(truth[..k], mapped[..k], cs)
        + (if truth[k] == mapped[k] then Count(cs, truth[k]) else 0)
    decreases |cs|
  {
    if cs != [] {
      SumAgreeStep(truth, mapped, cs[..|cs| - 1]);
    }
  }

  /** A label occurs once in a strictly sorted list that holds it. */
  lemma {:induction false} CountInSorted(cs: seq<string>, c: string)
    requires StrictlySorted(cs) && c in cs
    ensures Count(cs, c) == 1
    decreases |cs|
  {
    var init := cs[..|cs| - 1];
    assert StrictlySorted(init);
    if cs[|cs| - 1] == c {
      forall k | 0 <= k < |init|
        ensures init[k] != c
      {
        LessIrreflexive(c);
      }
      assert c !in init;
    } else {
      CountInSorted(init, c);
    }
  }

  /** The per-class correct counts add up to the number of rows whose mapped prediction
      equals the truth, when the predictions are mapped onto the class list. */
  lemma {:induction false} TotalCorrect(truth: seq<string>, mapped: seq<string>, cs: seq<string>)
    requires |truth| == |mapped| && StrictlySorted(cs)
    requires forall k :: 0 <= k < |mapped| ==> mapped[k] in cs
    ensures SumAgree(truth, mapped, cs) == Agreements(truth, mapped)
    decreases |truth|
  {
    if truth == [] {
      ZeroSum(cs);
    } else {
      var k := |truth| - 1;
      SumAgreeStep(truth, mapped, cs);
      TotalCorrect(truth[..k], mapped[..k], cs);
      if truth[k] == mapped[k] {
        CountInSorted(cs, mapped[k]);
      }
    }
  }

  lemma {:induction false} ZeroSum(cs: seq<string>)
    ensures SumAgree([], [], cs) == 0
    decreases |cs|
  {
    if cs != [] {
      ZeroSum(cs[..|cs| - 1]);
    }
  }

  /** Per-class accuracy is a proper fraction: for every class the correct count is at
      most the class's count, which is positive. */
  lemma AccuracyWellDefined(gts: seq<string>, mapped: seq<string>, c: string)
    requires |gts| == |mapped| && c in Classes(gts)
    ensures 0 < Count(gts, c) && Agree(gts, mapped, c) <= Count(gts, c)
  {
    ClassesHaveLabels(gts);
  }
}
