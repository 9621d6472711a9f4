/** The corpus step of the extraction script: the records of all runs are pooled, shuffled
    in place, cut into training, validation and test parts at 80% and 90%, and the
    training records have their one-element caption list replaced by its element. */
module CryoetCorpus {

  import opened Seqs
  import opened CryoetRecords

  /** The lists of `lists` joined in order, as repeated `extend` does. */
  function Concat<T>(lists: seq<seq<T>>): (r: seq<T>)
  {
    if lists == [] then [] else Concat(lists[..|lists| - 1]) + lists[|lists| - 1]
  }

  lemma {:induction false} ConcatAppend<T>(a: seq<seq<T>>, b: seq<seq<T>>)
    ensures Concat(a + b) == Concat(a) + Concat(b)
    decreases |b|
  {
    if b != [] {
      var b' := b[..|b| - 1];
      assert (a + b)[..|a + b| - 1] == a + b';
      assert (a + b)[|a + b| - 1] == b[|b| - 1];
      ConcatAppend(a, b');
      calc {
        Concat(a + b);
        Concat(a + b') + b[|b| - 1];
        Concat(a) + Concat(b') + b[|b| - 1];
        Concat(a) + (Concat(b') + b[|b| - 1]);
        Concat(a) + Concat(b);
      }
    } else {
      assert a + b == a;
    }
  }

  /** Pooling the runs in any completion order gives the same records: the pool is fixed
      up to order by the runs themselves. */
  lemma {:induction false} ConcatPermutation<T>(rs: seq<seq<T>>, qs: seq<seq<T>>)
    requires multiset(rs) == multiset(qs)
    ensures multiset(Concat(rs)) == multiset(Concat(qs))
    decreases |rs|
  {
    if rs == [] {
      assert |qs| == |multiset(qs)| == 0;
    } else {
      var i := |rs| - 1;
      assert rs[i] in multiset(qs) by {
        assert rs[i] in rs;
      }
      var j :| 0 <= j < |qs| && qs[j] == rs[i];
      ConcatRemove(rs, i);
      ConcatRemove(qs, j);
      ConcatPermutation(rs[..i] + rs[i + 1..], qs[..j] + qs[j + 1..]);
    }
  }

  /** Taking list `j` out of `lists` takes its elements out of the joined list. */
  lemma ConcatRemove<T>(lists: seq<seq<T>>, j: nat)
    requires j < |lists|
    ensures multiset(lists[..j] + lists[j + 1..]) == multiset(lists) - multiset{lists[j]}
    ensures multiset(Concat(lists)) == multiset(Concat(lists[..j] + lists[j + 1..])) + multiset(lists[j])
  {
    MultisetRemove(lists, j);
    var a, x, b := lists[..j], lists[j], lists[j + 1..];
    SplitAt(lists, j);
    ConcatAppend(a + [x], b);
    ConcatAppend(a, [x]);
    ConcatAppend(a, b);
    ConcatOne(x);
    var ca, cb := Concat(a), Concat(b);
    assert Concat(lists) == ca + x + cb;
    assert Concat(a + b) == ca + cb;
    assert multiset(ca + x + cb) == multiset(ca) + multiset(x) + multiset(cb);
  }

  lemma ConcatOne<T>(x: seq<T>)
    ensures Concat([x]) == x
  {
    assert [x][..0] == [];
  }

  /** The collecting loop of `main`: each run's records are appended as its worker
      finishes; `completed` lists the runs' record lists in completion order. */
  method CollectPool(completed: seq<seq<Record>>) returns (pool: seq<Record>)
    ensures pool == Concat(completed)
  {
    pool := [];
    for i := 0 to |completed|
      invariant pool == Concat(completed[..i])
    {
      assert completed[..i + 1][..i] == completed[..i];
      pool := pool + completed[i];
    }
    assert completed[..|completed|] == completed;
  }

  /** `int(0.8 * n)`; the double nearest 0.8 lies slightly above it, so for every pool of
      fewer than 10^15 records this is the exact floor of eight tenths. */
  function TrainCut(n: nat): (c: nat)
    ensures c <= n && 10 * c <= 8 * n < 10 * c + 10
  {
    8 * n / 10
  }

  /** `int(0.9 * n)`, as for `TrainCut`. */
  function ValCut(n: nat): (c: nat)
    ensures c <= n && 10 * c <= 9 * n < 10 * c + 10
  {
    9 * n / 10
  }

  /** The cut points never cross, so the three parts are well defined. */
  lemma CutsOrdered(n: nat)
    ensures 0 <= TrainCut(n) <= ValCut(n) <= n
  {
  }

  /** `np.random.shuffle` on a one-dimensional array: the Fisher-Yates pass from the last
      position down to the second, swapping each with a position drawn at or before it.
      The generator's draws are the oracle `pick`. */
  method Shuffle(a: array<Record>, pick: nat -> nat)
    modifies a
    ensures multiset(a[..]) == old(multiset(a[..]))
  {
    var i := a.Length - 1;
    while i > 0
      invariant -1 <= i < a.Length || a.Length == 0
      invariant multiset(a[..]) == old(multiset(a[..]))
      decreases i
    {
      var j := pick(i) % (i + 1);
      a[i], a[j] := a[j], a[i];
      i := i - 1;
    }
  }

  /** A record still carrying the caption list it was created with. */
  predicate HasCaptionList(e: Record) {
    e.caption.Many? && |e.caption.items| >= 1
  }

  /** `entry["caption"] = entry["caption"][0]` */
  function Collapse(e: Record): (r: Record)
    requires HasCaptionList(e)
    ensures r.image == e.image && r.imageId == e.imageId && r.caption == One(e.caption.items[0])
  {
    e.(caption := One(e.caption.items[0]))
  }

  /** The inverse of `Collapse` on a one-element caption list. */
  function Expand(e: Record): Record {
    if e.caption.One? then e.(caption := Many([e.caption.text])) else e
  }

  lemma ExpandCollapse(e: Record)
    requires e.caption.Many? && |e.caption.items| == 1
    ensures Expand(Collapse(e)) == e
  {
    assert e.caption.items == [e.caption.items[0]];
  }

  function ExpandAll(s: seq<Record>): (r: seq<Record>)
    ensures |r| == |s| && forall k :: 0 <= k < |s| ==> r[k] == Expand(s[k])
  {
    seq(|s|, k requires 0 <= k < |s| => Expand(s[k]))
  }

  /** `np.split` at the two cut points, then the collapse loop over the training part.
      The parts share their records with the array, so the collapse shows in `a` too. */
  method SplitCorpus(a: array<Record>) returns (train: seq<Record>, val: seq<Record>, test: seq<Record>)
    requires forall k :: 0 <= k < a.Length ==> HasCaptionList(a[k])
    modifies a
    ensures |train| == TrainCut(a.Length) && |val| == ValCut(a.Length) - TrainCut(a.Length)
    ensures |test| == a.Length - ValCut(a.Length)
    ensures train + val + test == a[..]
    ensures forall k :: 0 <= k < |train| ==> train[k] == Collapse(old(a[k]))
    ensures val + test == old(a[TrainCut(a.Length)..])
  {
    var n := a.Length;
    var c1, c2 := TrainCut(n), ValCut(n);
    for k := 0 to c1
      invariant forall q :: 0 <= q < k ==> a[q] == Collapse(old(a[q]))
      invariant forall q :: k <= q < n ==> a[q] == old(a[q])
    {
      a[k] := Collapse(a[k]);
    }
    assert a[c1..] == old(a[c1..]);
    train, val, test := a[..c1], a[c1..c2], a[c2..];
    CutTwice(a[..], c1, c2);
  }

  /** A record whose caption is a list of exactly one string. */
  predicate SingleCaption(e: Record) {
    e.caption.Many? && |e.caption.items| == 1
  }

  /** Undoing the collapse of the training part gives back the shuffled array. */
  lemma SplitRestores(shuffled: seq<Record>, train: seq<Record>, rest: seq<Record>)
    requires |train| <= |shuffled| && rest == shuffled[|train|..]
    requires forall k :: 0 <= k < |train| ==> SingleCaption(shuffled[k]) && train[k] == Collapse(shuffled[k])
    ensures ExpandAll(train) + rest == shuffled
  {
    forall k | 0 <= k < |train|
      ensures ExpandAll(train)[k] == shuffled[k]
    {
      ExpandCollapse(shuffled[k]);
    }
    assert ExpandAll(train) == shuffled[..|train|];
    assert shuffled == shuffled[..|train|] + shuffled[|train|..];
  }

  /** What the split of a shuffled pool guarantees: the training records all have a
      collapsed caption, the others keep their lists, and undoing the collapse gives back
      the pool up to order. */
  lemma SplitOfShuffledPool(pool: seq<Record>, shuffled: seq<Record>,
                            train: seq<Record>, val: seq<Record>, test: seq<Record>)
    requires forall e :: e in pool ==> HasCaptionList(e)
    requires multiset(shuffled) == multiset(pool)
    requires |train| <= |shuffled| && val + test == shuffled[|train|..]
    requires forall k :: 0 <= k < |train| ==>
      HasCaptionList(shuffled[k]) && train[k] == Collapse(shuffled[k])
    ensures forall e :: e in train ==> e.caption.One?
    ensures forall e :: e in val + test ==> HasCaptionList(e)
    ensures (forall e :: e in pool ==> SingleCaption(e)) ==>
      multiset(ExpandAll(train) + val + test) == multiset(pool)
  {
    forall e | e in val + test
      ensures HasCaptionList(e)
    {
      assert e in shuffled;
      assert e in multiset(pool);
    }
    if forall e :: e in pool ==> SingleCaption(e) {
      forall k | 0 <= k < |train|
        ensures SingleCaption(shuffled[k])
      {
        assert shuffled[k] in multiset(pool);
      }
      SplitRestores(shuffled, train, val + test);
      assert ExpandAll(train) + val + test == shuffled;
    }
  }

  /** The whole corpus step of `main`: pool the runs' records in completion order, copy
      them into an array, shuffle it with the draws `pick`, split it and collapse the
      training captions. */
  method BuildCorpus(completed: seq<seq<Record>>, pick: nat -> nat)
    returns (train: seq<Record>, val: seq<Record>, test: seq<Record>)
    requires forall e :: e in Concat(completed) ==> HasCaptionList(e)
    ensures var n := |Concat(completed)|;
      |train| == TrainCut(n) && |val| == ValCut(n) - TrainCut(n) && |test| == n - ValCut(n)
    ensures forall e :: e in train ==> e.caption.One?
    ensures forall e :: e in val + test ==> HasCaptionList(e)
    ensures (forall e :: e in Concat(completed) ==> SingleCaption(e)) ==>
      multiset(ExpandAll(train) + val + test) == multiset(Concat(completed))
  {
    var pool := CollectPool(completed);
    var a := new Record[|pool|](k requires 0 <= k < |pool| => pool[k]);
    assert a[..] == pool;
    Shuffle(a, pick);
    ghost var shuffled := a[..];
    forall k | 0 <= k < a.Length
      ensures HasCaptionList(a[k])
    {
      assert a[k] in multiset(pool);
    }
    train, val, test := SplitCorpus(a);
    SplitOfShuffledPool(pool, shuffled, train, val, test);
  }
}
