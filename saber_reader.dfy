/** The read-only archive reader: runs, masks and mask attributes of a SABER zarr store.
    The store is an immutable value, so no operation here can write to it. */
module SaberReader {

  import opened Outcomes
  import opened Seqs
  import Json

  /** One zarr group: its sub-group keys in listing order and its attributes. */
  datatype Group = Group(groupKeys: seq<string>, attrs: map<string, Json.Value>)

  /** A zarr hierarchy: every group addressed by its path of keys from the root `[]`. */
  datatype Store = Store(groups: map<seq<string>, Group>)

  /** The root is a group and every key it lists names an existing group, as in any
      zarr hierarchy. */
  ghost predicate WellFormed(st: Store) {
    && [] in st.groups
    && forall k :: k in st.groups[[]].groupKeys ==> [k] in st.groups
  }

  /** `SABERRun(run_name, store)`; the store handle is implicit. */
  datatype RunRef = RunRef(runName: string)

  /** `SABERMask(run_name, mask_name, store)`. */
  datatype MaskRef = MaskRef(runName: string, maskName: string)

  function RootKeys(st: Store): seq<string>
    requires [] in st.groups
  {
    st.groups[[]].groupKeys
  }

  /** A top-level group counts as a run when it holds a `masks` sub-group. */
  predicate IsRun(st: Store, key: string)
    requires WellFormed(st)
  {
    key in RootKeys(st) && "masks" in st.groups[[key]].groupKeys
  }

  function RunNames(runs: seq<RunRef>): seq<string> {
    Map((r: RunRef) => r.runName, runs)
  }

  /** The runs among `keys`, in order; every listed key names a group in a well-formed
      store, so the membership test is the only one that matters there. */
  function RunsAmong(st: Store, keys: seq<string>): seq<RunRef> {
    if keys == [] then []
    else
      var k := keys[|keys| - 1];
      var isRun := [k] in st.groups && "masks" in st.groups[[k]].groupKeys;
      RunsAmong(st, keys[..|keys| - 1]) + (if isRun then [RunRef(k)] else [])
  }

  /** `SABERZarr.runs`: the top-level groups that hold `masks`, in the store's key order. */
  function Runs(st: Store): (runs: seq<RunRef>)
    requires WellFormed(st)
    ensures forall k :: RunRef(k) in runs <==> IsRun(st, k)
    ensures IsSubsequence(RunNames(runs), RootKeys(st))
  {
    RunsAmongFacts(st, RootKeys(st));
    RunsAmong(st, RootKeys(st))
  }

  lemma {:induction false} RunsAmongFacts(st: Store, keys: seq<string>)
    requires WellFormed(st)
    requires forall k :: k in keys ==> k in RootKeys(st)
    ensures forall k :: RunRef(k) in RunsAmong(st, keys) <==> k in keys && IsRun(st, k)
    ensures IsSubsequence(RunNames(RunsAmong(st, keys)), keys)
    decreases |keys|
  {
    if keys != [] {
      var init := keys[..|keys| - 1];
      var k := keys[|keys| - 1];
      assert k in keys;
      RunsAmongFacts(st, init);
      var runs := RunsAmong(st, keys);
      var prev := RunsAmong(st, init);
      assert forall x :: x in keys <==> x in init || x == k;
      assert [k] in st.groups;
      if "masks" in st.groups[[k]].groupKeys {
        assert RunNames(runs) == RunNames(prev) + [k];
        assert RunNames(runs)[..|RunNames(runs)| - 1] == RunNames(prev);
      } else {
        assert runs == prev;
        SubsequenceOfLonger(RunNames(prev), init, k);
        assert init + [k] == keys;
      }
    }
  }

  /** `SABERRun.masks`: one mask per sub-group key of `<run>/masks`, in order, each
      carrying the run's name; a missing run or `masks` group is a `KeyError`. */
  function Masks(st: Store, runName: string): (r: Result<seq<MaskRef>>)
    ensures r.Ok? <==> [runName] in st.groups && [runName, "masks"] in st.groups
    ensures r.Ok? ==>
      var keys := st.groups[[runName, "masks"]].groupKeys;
      |r.value| == |keys| &&
      forall i :: 0 <= i < |keys| ==> r.value[i].runName == runName && r.value[i].maskName == keys[i]
  {
    if [runName] !in st.groups then Fail(KeyError(runName))
    else if [runName, "masks"] !in st.groups then Fail(KeyError("masks"))
    else
      var keys := st.groups[[runName, "masks"]].groupKeys;
      Ok(seq(|keys|, i requires 0 <= i < |keys| => MaskRef(runName, keys[i])))
  }

  function MaskPath(m: MaskRef): seq<string> {
    [m.runName, "masks", m.maskName]
  }

  /** `store[run]['masks'][mask]` resolves: every group on the way exists. */
  predicate Resolves(st: Store, m: MaskRef) {
    [m.runName] in st.groups && [m.runName, "masks"] in st.groups && MaskPath(m) in st.groups
  }

  /** The attribute `key` of a mask's group, read afresh from the store. */
  function Attr(st: Store, m: MaskRef, key: string): (r: Result<Json.Value>)
    ensures r.Ok? <==> Resolves(st, m) && key in st.groups[MaskPath(m)].attrs
    ensures r.Ok? ==> r.value == st.groups[MaskPath(m)].attrs[key]
    ensures r.Fail? ==> r.error.KeyError?
  {
    if [m.runName] !in st.groups then Fail(KeyError(m.runName))
    else if [m.runName, "masks"] !in st.groups then Fail(KeyError("masks"))
    else if MaskPath(m) !in st.groups then Fail(KeyError(m.maskName))
    else if key !in st.groups[MaskPath(m)].attrs then Fail(KeyError(key))
    else Ok(st.groups[MaskPath(m)].attrs[key])
  }

  /** The mask's group exists and holds `v` under `key`. */
  predicate Stored(st: Store, m: MaskRef, key: string, v: Json.Value) {
    Resolves(st, m) && key in st.groups[MaskPath(m)].attrs && st.groups[MaskPath(m)].attrs[key] == v
  }

  /** `SABERMask.area`: the stored attribute, unchanged. */
  function Area(st: Store, m: MaskRef): (r: Result<Json.Value>)
    ensures forall v :: r == Ok(v) <==> Stored(st, m, "area", v)
  {
    Attr(st, m, "area")
  }

  /** `SABERMask.bbox`: the stored attribute, unchanged. */
  function BBox(st: Store, m: MaskRef): (r: Result<Json.Value>)
    ensures forall v :: r == Ok(v) <==> Stored(st, m, "bbox", v)
  {
    Attr(st, m, "bbox")
  }

  /** `SABERMask.description`: the stored attribute, unchanged. */
  function Description(st: Store, m: MaskRef): (r: Result<Json.Value>)
    ensures forall v :: r == Ok(v) <==> Stored(st, m, "description", v)
  {
    Attr(st, m, "description")
  }

  /** `SABERMask.original_segmentation_id`: the stored attribute, unchanged. */
  function OriginalSegmentationId(st: Store, m: MaskRef): (r: Result<Json.Value>)
    ensures forall v :: r == Ok(v) <==> Stored(st, m, "original_segmentation_id", v)
  {
    Attr(st, m, "original_segmentation_id")
  }

  /** `SABERMask.segmentation_id`: the stored attribute, unchanged. */
  function SegmentationId(st: Store, m: MaskRef): (r: Result<Json.Value>)
    ensures forall v :: r == Ok(v) <==> Stored(st, m, "segmentation_id", v)
  {
    Attr(st, m, "segmentation_id")
  }

  /** `SABERMask.hashtags`: `json.loads` of the stored text; an attribute that is not a
      string is a `TypeError`. */
  function Hashtags(st: Store, m: MaskRef): (r: Result<seq<string>>)
    ensures forall tags :: Stored(st, m, "hashtags", Json.Str(Json.EncodeStringArray(tags))) ==> r == Ok(tags)
    ensures !(Resolves(st, m) && "hashtags" in st.groups[MaskPath(m)].attrs) ==> r.Fail? && r.error.KeyError?
  {
    HashtagsRoundTrip(st, m);
    match Attr(st, m, "hashtags")
    case Fail(e) => Fail(e)
    case Ok(v) => if v.Str? then Json.DecodeStringArray(v.s) else Fail(TypeError)
  }

  lemma HashtagsRoundTrip(st: Store, m: MaskRef)
    ensures forall tags :: Stored(st, m, "hashtags", Json.Str(Json.EncodeStringArray(tags))) ==>
      Attr(st, m, "hashtags") == Ok(Json.Str(Json.EncodeStringArray(tags)))
      && Json.DecodeStringArray(Json.EncodeStringArray(tags)) == Ok(tags)
  {
    forall tags | Stored(st, m, "hashtags", Json.Str(Json.EncodeStringArray(tags))) {
      Json.DecodeEncode(tags);
    }
  }

  /** A Python object that a name can be compared with by `in`. */
  datatype PyObject = PyStr(s: string) | RunObject(run: RunRef) | MaskObject(mask: MaskRef)

  /** `name == o` in Python: `SABERRun` and `SABERMask` define no `__eq__`, so a `str`
      equals only a `str` with the same characters. */
  predicate StrEquals(name: string, o: PyObject) {
    o.PyStr? && o.s == name
  }

  /** Python's `name in objs`. */
  predicate PyIn(name: string, objs: seq<PyObject>) {
    exists i :: 0 <= i < |objs| && StrEquals(name, objs[i])
  }

  /** `SABERZarr.get_run` as written: the name is looked up among `SABERRun` objects. */
  function GetRun(st: Store, runName: string): (r: Result<RunRef>)
    requires WellFormed(st)
    ensures r.Fail? ==> r.error == ValueError("Run '" + runName + "' does not exist in the Zarr store.")
  {
    var objs := Map((x: RunRef) => RunObject(x), Runs(st));
    if !PyIn(runName, objs) then Fail(ValueError("Run '" + runName + "' does not exist in the Zarr store."))
    else Ok(RunRef(runName))
  }

  /** No name is ever found: `get_run` raises `ValueError` for every run, present or not. */
  lemma GetRunAlwaysFails(st: Store, runName: string)
    requires WellFormed(st)
    ensures GetRun(st, runName).Fail?
  {
    var objs := Map((x: RunRef) => RunObject(x), Runs(st));
    assert forall i :: 0 <= i < |objs| ==> objs[i].RunObject?;
  }

  /** `get_run` with the membership test made against the run names. */
  function GetRunByName(st: Store, runName: string): (r: Result<RunRef>)
    requires WellFormed(st)
    ensures r.Ok? <==> IsRun(st, runName)
    ensures r.Ok? ==> r.value == RunRef(runName) && r.value in Runs(st)
    ensures r.Fail? ==> r.error == ValueError("Run '" + runName + "' does not exist in the Zarr store.")
  {
    if RunRef(runName) !in Runs(st) then Fail(ValueError("Run '" + runName + "' does not exist in the Zarr store."))
    else Ok(RunRef(runName))
  }

  function MaskNotFound(runName: string, maskName: string): Error {
    ValueError("Mask '" + maskName + "' does not exist in the run '" + runName + "'.")
  }

  /** `SABERRun.get_mask` as written: the name is looked up among `SABERMask` objects. */
  function GetMask(st: Store, runName: string, maskName: string): (r: Result<MaskRef>)
    ensures [runName] !in st.groups ==> r == Fail(KeyError(runName))
    ensures r.Fail? && r.error.ValueError? ==> r.error == MaskNotFound(runName, maskName)
  {
    match Masks(st, runName)
    case Fail(e) => Fail(e)
    case Ok(masks) =>
      var objs := Map((x: MaskRef) => MaskObject(x), masks);
      if !PyIn(maskName, objs) then Fail(MaskNotFound(runName, maskName))
      else Ok(MaskRef(runName, maskName))
  }

  /** `get_mask` never succeeds: a missing run or `masks` group gives `KeyError`, and
      otherwise every name gives `ValueError`. */
  lemma GetMaskAlwaysFails(st: Store, runName: string, maskName: string)
    ensures GetMask(st, runName, maskName).Fail?
  {
    match Masks(st, runName)
    case Fail(e) =>
    case Ok(masks) =>
      var objs := Map((x: MaskRef) => MaskObject(x), masks);
      assert forall i :: 0 <= i < |objs| ==> objs[i].MaskObject?;
  }

  /** `get_mask` with the membership test made against the mask names. */
  function GetMaskByName(st: Store, runName: string, maskName: string): (r: Result<MaskRef>)
    ensures Masks(st, runName).Fail? ==> r == Fail(Masks(st, runName).error)
    ensures Masks(st, runName).Ok? ==>
      (r.Ok? <==> maskName in st.groups[[runName, "masks"]].groupKeys)
    ensures r.Ok? ==> r.value == MaskRef(runName, maskName) && r.value in Masks(st, runName).value
  {
    match Masks(st, runName)
    case Fail(e) => Fail(e)
    case Ok(masks) =>
      if MaskRef(runName, maskName) !in masks then Fail(MaskNotFound(runName, maskName))
      else Ok(MaskRef(runName, maskName))
  }
}
