/** The cap-per-caption rebalancer: count the records of each caption, cap every caption
    at twice the average number of records per caption, keep each caption's records up
    to the cap in input order, and name the result `<stem>_balanced.json` beside the
    input. Reading and writing the files is not modelled: the records arrive as the
    list `json.load` produced. */
module Balance {

  import opened Outcomes
  import opened Seqs
  import opened Text
  import opened Json

  /** The JSON values a `Counter` can use as keys: everything but lists and dicts. */
  predicate Hashable(v: Value) {
    !v.Arr? && !v.Obj?
  }

  /** The key a `Counter` files `v` under: `True` and `False` are equal to 1 and 0. */
  function CounterKey(v: Value): (k: Value)
    ensures !k.Bool? && Hashable(k) == Hashable(v)
    ensures v.Bool? ==> k == Num(if v.b then 1 else 0)
    ensures !v.Bool? ==> k == v
  {
    match v
    case Bool(b) => Num(if b then 1 else 0)
    case _ => v
  }

  /** `obj['caption']` used as a `Counter` key: a `TypeError` when `obj` is not a dict or
      the caption is unhashable, a `KeyError` when the key is missing. */
  function CaptionKey(obj: Value): (r: Result<Value>)
    ensures r.Ok? <==> obj.Obj? && "caption" in obj.fields && Hashable(obj.fields["caption"])
    ensures r.Ok? ==> Hashable(r.value) && !r.value.Bool?
    ensures obj.Obj? && "caption" !in obj.fields ==> r == Fail(KeyError("caption"))
  {
    if !obj.Obj? then Fail(TypeError)
    else if "caption" !in obj.fields then Fail(KeyError("caption"))
    else if !Hashable(obj.fields["caption"]) then Fail(TypeError)
    else Ok(CounterKey(obj.fields["caption"]))
  }

  /** The caption keys of all records, or the error of the first record that has none;
      the first counting loop stops with exactly that error. */
  function Keys(objs: seq<Value>): (r: Result<seq<Value>>)
    ensures r.Ok? <==> forall i :: 0 <= i < |objs| ==> CaptionKey(objs[i]).Ok?
    ensures r.Ok? ==> |r.value| == |objs|
    ensures r.Ok? ==> forall i :: 0 <= i < |objs| ==> r.value[i] == CaptionKey(objs[i]).value
    ensures r.Fail? ==> exists i :: (0 <= i < |objs| && CaptionKey(objs[i]) == Fail(r.error)
      && forall j :: 0 <= j < i ==> CaptionKey(objs[j]).Ok?)
  {
    if objs == [] then Ok([])
    else
      var n := |objs| - 1;
      assert forall j :: 0 <= j < n ==> objs[..n][j] == objs[j];
      match Keys(objs[..n])
      case Fail(e) => Fail(e)
      case Ok(ks) =>
        match CaptionKey(objs[n])
        case Fail(e) => Fail(e)
        case Ok(k) => Ok(ks + [k])
  }

  /** Once a record without a usable caption has been met, later records change nothing. */
  lemma {:induction false} KeysFailExtends(a: seq<Value>, b: seq<Value>)
    requires Keys(a).Fail?
    ensures Keys(a + b) == Keys(a)
    decreases |b|
  {
    if b == [] {
      assert a + b == a;
    } else {
      var b' := b[..|b| - 1];
      KeysFailExtends(a, b');
      assert (a + b)[..|a + b| - 1] == a + b';
    }
  }

  /** The distinct caption keys (`len(class_counts)` counts them). */
  function Distinct(ks: seq<Value>): set<Value> {
    set k | k in ks
  }

  /** There are at least one and at most `|ks|` distinct keys in a non-empty list. */
  lemma {:induction false} DistinctBound(ks: seq<Value>)
    ensures |Distinct(ks)| <= |ks|
    ensures ks != [] ==> |Distinct(ks)| >= 1
    decreases |ks|
  {
    if ks != [] {
      var init := ks[..|ks| - 1];
      DistinctBound(init);
      assert Distinct(ks) == Distinct(init) + {ks[|ks| - 1]};
    }
  }

  /** `2 * (len(list_objs) // total_num_classes)`. */
  function Cap(n: nat, distinct: nat): (c: nat)
    requires distinct > 0
    ensures distinct <= n ==> c >= 2
  {
    assert n == (n / distinct) * distinct + n % distinct;
    2 * (n / distinct)
  }

  function Min(a: int, b: int): int {
    if a < b then a else b
  }

  /** The records the rebalancer keeps, defined by position rather than by the loop's
      running counts: record `i` is kept when fewer than `cap` earlier records have its
      key, so every key keeps exactly its first `cap` records. Applied to the keys
      themselves it gives the kept records' keys. */
  function Capped<T>(ks: seq<Value>, objs: seq<T>, cap: nat): (r: seq<T>)
    requires |ks| == |objs|
    ensures |r| <= |objs|
  {
    if objs == [] then []
    else
      var n := |objs| - 1;
      Capped(ks[..n], objs[..n], cap) + (if Count(ks[..n], ks[n]) < cap then [objs[n]] else [])
  }

  /** A `Counter` lookup: a missing key reads as 0. */
  function Get(m: map<Value, nat>, k: Value): nat {
    if k in m then m[k] else 0
  }

  /** The first loop of `rebalance_json`: the number of records of every caption, or the
      error of the first record without a usable caption. */
  method CountCaptions(objs: seq<Value>) returns (r: Result<map<Value, nat>>)
    ensures r.Fail? <==> Keys(objs).Fail?
    ensures r.Fail? ==> r.error == Keys(objs).error
    ensures r.Ok? ==> r.value.Keys == Distinct(Keys(objs).value)
    ensures r.Ok? ==> forall k :: k in r.value ==> r.value[k] == Count(Keys(objs).value, k)
  {
    var counts: map<Value, nat> := map[];
    ghost var ks: seq<Value> := [];
    for i := 0 to |objs|
      invariant Keys(objs[..i]) == Ok(ks)
      invariant Tallies(counts, ks)
    {
      var key := CaptionKey(objs[i]);
      KeysPrefixStep(objs, i);
      if key.Fail? {
        KeysFailAt(objs, i);
        return Fail(key.error);
      }
      var k := key.value;
      TalliesStep(counts, ks, k);
      counts := counts[k := Get(counts, k) + 1];
      ks := ks + [k];
    }
    assert objs[..|objs|] == objs;
    return Ok(counts);
  }

  /** `counts` is the Counter of the keys `ks`: it holds exactly their distinct values,
      each with its number of occurrences. */
  ghost predicate Tallies(counts: map<Value, nat>, ks: seq<Value>) {
    (forall k :: k in counts <==> k in ks)
    && forall k :: k in counts ==> counts[k] == Count(ks, k)
  }

  /** `class_counts[k] += 1` keeps the Counter in step with the keys seen. */
  lemma TalliesStep(counts: map<Value, nat>, ks: seq<Value>, k: Value)
    requires Tallies(counts, ks)
    ensures Tallies(counts[k := Get(counts, k) + 1], ks + [k])
  {
    var next := counts[k := Get(counts, k) + 1];
    forall k' | true
      ensures (k' in next <==> k' in ks + [k]) && (k' in next ==> next[k'] == Count(ks + [k], k'))
    {
      CountAppend(ks, [k], k');
      assert Count([k], k') == if k == k' then 1 else 0;
    }
  }

  /** The first record without a usable key decides the failure of the whole list. */
  lemma KeysFailAt(objs: seq<Value>, i: nat)
    requires i < |objs| && Keys(objs[..i]).Ok? && CaptionKey(objs[i]).Fail?
    ensures Keys(objs) == Fail(CaptionKey(objs[i]).error)
  {
    var p := objs[..i + 1];
    assert Keys(p) == Fail(CaptionKey(objs[i]).error) by {
      KeysPrefixStep(objs, i);
    }
    TakeDrop(objs, i + 1);
    KeysFailExtends(p, objs[i + 1..]);
  }

  /** One more record, as the first loop sees it: its key is appended, or its error ends
      the loop. */
  lemma KeysPrefixStep(objs: seq<Value>, i: nat)
    requires i < |objs| && Keys(objs[..i]).Ok?
    ensures Keys(objs[..i + 1]) ==
      match CaptionKey(objs[i])
      case Fail(e) => Fail(e)
      case Ok(k) => Ok(Keys(objs[..i]).value + [k])
  {
    assert objs[..i + 1][..i] == objs[..i];
  }

  /** The second loop of `rebalance_json`: a fresh counter of kept records per caption,
      and a record is kept while its caption's counter is below the cap. */
  method KeepUnderCap(objs: seq<Value>, ghost ks: seq<Value>, cap: nat) returns (balanced: seq<Value>)
    requires |ks| == |objs| && forall i :: 0 <= i < |objs| ==> CaptionKey(objs[i]) == Ok(ks[i])
    ensures balanced == Capped(ks, objs, cap)
  {
    var kept: map<Value, nat> := map[];
    balanced := [];
    for i := 0 to |objs|
      invariant balanced == Capped(ks[..i], objs[..i], cap)
      invariant forall k :: Get(kept, k) == Min(Count(ks[..i], k), cap)
    {
      var k := CaptionKey(objs[i]).value;
      CappedStep(ks, objs, i, cap);
      ghost var before := kept;
      if Get(kept, k) < cap {
        balanced := balanced + [objs[i]];
        kept := kept[k := Get(kept, k) + 1];
      }
      forall k' | true
        ensures Get(kept, k') == Min(Count(ks[..i + 1], k'), cap)
      {
        if k' != k {
          assert Get(kept, k') == Get(before, k');
        }
      }
    }
    assert ks[..|objs|] == ks && objs[..|objs|] == objs;
  }

  /** One more record, as the second loop sees it: its key's count goes up by one, and
      it is kept when the count before it was below the cap. */
  lemma CappedStep(ks: seq<Value>, objs: seq<Value>, i: nat, cap: nat)
    requires |ks| == |objs| && i < |objs|
    ensures Capped(ks[..i + 1], objs[..i + 1], cap)
      == Capped(ks[..i], objs[..i], cap) + (if Count(ks[..i], ks[i]) < cap then [objs[i]] else [])
    ensures forall k :: Count(ks[..i + 1], k) == Count(ks[..i], k) + (if ks[i] == k then 1 else 0)
  {
    assert ks[..i + 1][..i] == ks[..i] && objs[..i + 1][..i] == objs[..i];
  }

  /** `rebalance_json` on the loaded list: the error of the first record without a usable
      caption; a `ZeroDivisionError` for an empty list; otherwise each caption's first
      `cap` records in input order. */
  method Rebalance(objs: seq<Value>) returns (r: Result<seq<Value>>)
    ensures Keys(objs).Fail? ==> r == Fail(Keys(objs).error)
    ensures Keys(objs).Ok? && objs == [] ==> r == Fail(ZeroDivisionError)
    ensures Keys(objs).Ok? && objs != [] ==>
      var ks := Keys(objs).value;
      |Distinct(ks)| > 0 && r == Ok(Capped(ks, objs, Cap(|objs|, |Distinct(ks)|)))
  {
    var counted := CountCaptions(objs);
    if counted.Fail? {
      return Fail(counted.error);
    }
    var counts := counted.value;
    ghost var ks := Keys(objs).value;
    var total := |counts|;
    DistinctBound(ks);
    if total == 0 {
      return Fail(ZeroDivisionError);
    }
    var cap := Cap(|objs|, total);
    var balanced := KeepUnderCap(objs, ks, cap);
    return Ok(balanced);
  }

  /** The output keeps the input's relative order: it is a subsequence of the input. */
  lemma {:induction false} CappedIsSubsequence<T>(ks: seq<Value>, objs: seq<T>, cap: nat)
    requires |ks| == |objs|
    ensures IsSubsequence(Capped(ks, objs, cap), objs)
    decreases |objs|
  {
    if objs != [] {
      var n := |objs| - 1;
      var prev := Capped(ks[..n], objs[..n], cap);
      CappedIsSubsequence(ks[..n], objs[..n], cap);
      if Count(ks[..n], ks[n]) < cap {
        assert Capped(ks, objs, cap)[..|prev|] == prev;
      } else if prev != [] {
        assert Capped(ks, objs, cap) == prev;
        SubsequenceOfLonger(prev, objs[..n], objs[n]);
        assert objs[..n] + [objs[n]] == objs;
      }
    }
  }

  /** Every caption keeps `min(count, cap)` records. */
  lemma {:induction false} CappedCount(ks: seq<Value>, cap: nat, k: Value)
    ensures Count(Capped(ks, ks, cap), k) == Min(Count(ks, k), cap)
    decreases |ks|
  {
    if ks != [] {
      var n := |ks| - 1;
      var prev := Capped(ks[..n], ks[..n], cap);
      CappedCount(ks[..n], cap, k);
      var tail := if Count(ks[..n], ks[n]) < cap then [ks[n]] else [];
      assert Capped(ks, ks, cap) == prev + tail;
      CountAppend(prev, tail, k);
      var here := if ks[n] == k then 1 else 0;
      assert Count(ks, k) == Count(ks[..n], k) + here;
      assert Count(tail, k) == if tail == [] then 0 else here by {
        if tail != [] {
          assert tail[..0] == [];
        }
      }
    }
  }

  /** Appending a record with a usable caption appends its key. */
  lemma KeysSnoc(a: seq<Value>, o: Value)
    requires Keys(a).Ok? && CaptionKey(o).Ok?
    ensures Keys(a + [o]) == Ok(Keys(a).value + [CaptionKey(o).value])
  {
    assert (a + [o])[..|a|] == a;
  }

  /** The captions of the kept records are the capped list of the input's captions, so
      `CappedCount` speaks about the records the rebalancer writes. */
  lemma {:induction false} CappedKeys(objs: seq<Value>, ks: seq<Value>, cap: nat)
    requires |ks| == |objs| && forall i :: 0 <= i < |objs| ==> CaptionKey(objs[i]) == Ok(ks[i])
    ensures Keys(Capped(ks, objs, cap)) == Ok(Capped(ks, ks, cap))
    decreases |objs|
  {
    if objs != [] {
      var n := |objs| - 1;
      var o := objs[n];
      CappedKeys(objs[..n], ks[..n], cap);
      var prevO := Capped(ks[..n], objs[..n], cap);
      var prevK := Capped(ks[..n], ks[..n], cap);
      assert Keys(prevO) == Ok(prevK);
      if Count(ks[..n], ks[n]) < cap {
        assert Capped(ks, objs, cap) == prevO + [o];
        assert Capped(ks, ks, cap) == prevK + [ks[n]];
        KeysSnoc(prevO, o);
      } else {
        assert Capped(ks, objs, cap) == prevO;
        assert ks != [] && |ks| - 1 == n;
        assert Capped(ks, ks, cap) == prevK + [];
        assert prevK + [] == prevK;
      }
    }
  }

  /** For a non-empty input the cap is at least 2, so every caption of the input keeps at
      least `min(count, 2)` records: no caption disappears. */
  lemma EveryCaptionSurvives(ks: seq<Value>, k: Value)
    requires ks != []
    ensures var d := |Distinct(ks)|;
      d > 0 && Count(Capped(ks, ks, Cap(|ks|, d)), k) >= Min(Count(ks, k), 2)
  {
    DistinctBound(ks);
    CappedCount(ks, Cap(|ks|, |Distinct(ks)|), k);
  }

  /** A path as `pathlib` holds it once parsed: whether it has a root, and its non-empty
      components. */
  datatype PurePath = PurePath(absolute: bool, parts: seq<string>)

  /** `Path.name`: the last component, or `""` for a path without components. */
  function Name(p: PurePath): string {
    if p.parts == [] then "" else p.parts[|p.parts| - 1]
  }

  /** `Path.parent`'s components. */
  function ParentParts(p: PurePath): seq<string> {
    if p.parts == [] then [] else p.parts[..|p.parts| - 1]
  }

  /** Where `Path.suffix` starts: the last dot, unless it opens or ends the name. */
  function SuffixStart(name: string): (r: Option<nat>)
    ensures r.Some? ==> 0 < r.value < |name| - 1 && name[r.value] == '.' && '.' !in name[r.value + 1..]
    ensures r.None? ==> forall i :: 0 < i < |name| - 1 && name[i] == '.' ==> '.' in name[i + 1..]
  {
    match LastIndexOf(name, '.')
    case None => None
    case Some(i) => if 0 < i < |name| - 1 then Some(i) else None
  }

  /** `Path.stem`. */
  function Stem(name: string): (r: string)
    ensures |r| <= |name| && r == name[..|r|]
  {
    match SuffixStart(name)
    case None => name
    case Some(i) => name[..i]
  }

  /** `Path.suffix`. */
  function Suffix(name: string): (r: string)
    ensures '/' !in name ==> '/' !in r
  {
    match SuffixStart(name)
    case None => ""
    case Some(i) => name[i..]
  }

  /** The stem and the suffix make up the name. */
  lemma StemSuffix(name: string)
    ensures Stem(name) + Suffix(name) == name
  {
    if SuffixStart(name).Some? {
      var i := SuffixStart(name).value;
      assert name == name[..i] + name[i..];
    }
  }

  /** `Path(json_file).with_name(Path(json_file).stem + "_balanced.json")`: the sibling
      of the input named after its stem; `with_name` raises a `ValueError` for a path with
      an empty name. */
  function BalancedPath(p: PurePath): (r: Result<PurePath>)
    ensures r.Fail? <==> p.parts == []
    ensures r.Ok? ==> (r.value.absolute == p.absolute && ParentParts(r.value) == ParentParts(p)
      && Name(r.value) == Stem(Name(p)) + "_balanced.json")
  {
    if p.parts == [] then Fail(ValueError("empty name"))
    else Ok(p.(parts := ParentParts(p) + [Stem(Name(p)) + "_balanced.json"]))
  }

  /** The balanced file's name has the suffix `.json` and the stem `<stem>_balanced`,
      whatever the stem was. */
  lemma BalancedNameSplits(stem: string)
    ensures Suffix(stem + "_balanced.json") == ".json"
    ensures Stem(stem + "_balanced.json") == stem + "_balanced"
  {
    var t := stem + "_balanced.json";
    var i := |stem| + 9;
    assert t[i] == '.' && t[i + 1..] == "json";
    LastIndexOfAt(t, '.', i);
    assert t[i..] == ".json" && t[..i] == stem + "_balanced";
  }
}
