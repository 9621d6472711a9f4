/** The per-run record generator of the extraction script: for every kept mask of a run,
    twelve augmented pictures (four rotations, each unflipped and flipped two ways), each
    written under a name derived from the mask and described by one label record. */
module CryoetRecords {

  import opened Text
  import opened Seqs
  import opened CryoetGeometry

  /** A record's caption: the one-element list every record starts with, or the single
      string the training split collapses it to. */
  datatype Caption = Many(items: seq<string>) | One(text: string)

  /** One label record `{"image", "image_id", "caption"}`. */
  datatype Record = Record(image: string, imageId: string, caption: Caption)

  /** What the generator reads of one `SABERMask`. */
  datatype Mask = Mask(maskName: string, bbox: BBox, area: int, description: string)

  const Rotations: seq<Rotation> := [R0, R90, R180, R270]
  const Flips: seq<Flip> := [NoFlip, FlipH, FlipV]

  function RotationTag(rot: Rotation): string {
    match rot
    case R0 => "r0"
    case R90 => "r90"
    case R180 => "r180"
    case R270 => "r270"
  }

  function FlipTag(f: Flip): string {
    match f
    case NoFlip => ""
    case FlipH => "fh"
    case FlipV => "fv"
  }

  /** The part of a file name after `<mask>_bounded_`: the rotation tag, then `_` and the
      flip tag only when that tag is not empty, then `.png`. */
  function VariantSuffix(rot: Rotation, f: Flip): string {
    RotationTag(rot) + (if FlipTag(f) != "" then "_" + FlipTag(f) else "") + ".png"
  }

  /** `f"{mask_name}_bounded_{rtag}{('_' + ftag) if ftag else ''}.png"` */
  function AugName(maskName: string, rot: Rotation, f: Flip): string {
    maskName + "_bounded_" + VariantSuffix(rot, f)
  }

  /** A file name starts with the mask's name and `_bounded_` and ends in `.png`. */
  lemma AugNameShape(maskName: string, rot: Rotation, f: Flip)
    ensures var name := AugName(maskName, rot, f);
      |name| >= |maskName| + 13 && name[..|maskName|] == maskName
      && name[|maskName|..|maskName| + 9] == "_bounded_" && name[|name| - 4..] == ".png"
  {
  }

  /** The twelve suffixes are pairwise different: the second character tells the
      rotation apart, and the length and the character after `_f` the flip. */
  lemma SuffixInjective(r1: Rotation, f1: Flip, r2: Rotation, f2: Flip)
    ensures VariantSuffix(r1, f1) == VariantSuffix(r2, f2) ==> r1 == r2 && f1 == f2
  {
    var s1, s2 := VariantSuffix(r1, f1), VariantSuffix(r2, f2);
    var t1, t2 := RotationTag(r1), RotationTag(r2);
    assert s1[1] == t1[1] && s2[1] == t2[1];
    if s1 == s2 {
      assert r1 == r2;
      var n := |t1|;
      if f1 != NoFlip && f2 != NoFlip {
        assert s1[n + 2] == FlipTag(f1)[1] && s2[n + 2] == FlipTag(f2)[1];
      }
    }
  }

  /** Different variants of one mask are written under different names. */
  lemma AugNamesDistinct(maskName: string, r1: Rotation, f1: Flip, r2: Rotation, f2: Flip)
    ensures AugName(maskName, r1, f1) == AugName(maskName, r2, f2) ==> r1 == r2 && f1 == f2
  {
    var prefix := maskName + "_bounded_";
    assert AugName(maskName, r1, f1)[|prefix|..] == VariantSuffix(r1, f1);
    assert AugName(maskName, r2, f2)[|prefix|..] == VariantSuffix(r2, f2);
    SuffixInjective(r1, f1, r2, f2);
  }

  /** `image_id`: every `/` of the path becomes `_`, then every `.png` is deleted. */
  function ImageId(path: string): string {
    ReplaceAll(ReplaceAll(path, "/", "_"), ".png", "")
  }

  /** An image id is a flat name: it holds no `/`. */
  lemma ImageIdIsFlat(path: string)
    ensures '/' !in ImageId(path)
  {
    ReplaceSingleChar(path, '/', '_');
    ReplaceKeepsOut(ReplaceAll(path, "/", "_"), ".png", "", '/');
  }

  lemma SwapCharAppend(s: string, t: string, a: char, b: char)
    ensures SwapChar(s + t, a, b) == SwapChar(s, a, b) + SwapChar(t, a, b)
  {
  }

  /** For a `.png` path with no other `.png` in it once flattened, the id is the path
      without its extension, with `/` turned into `_`. */
  lemma ImageIdOfPng(stem: string)
    requires !Occurs(SwapChar(stem, '/', '_'), ".png")
    ensures ImageId(stem + ".png") == SwapChar(stem, '/', '_')
  {
    var flat := SwapChar(stem, '/', '_');
    ReplaceSingleChar(stem + ".png", '/', '_');
    SwapCharAppend(stem, ".png", '/', '_');
    assert SwapChar(".png", '/', '_') == ".png";
    ReplaceTrailing(flat, ".png", "");
    assert flat + "" == flat;
  }

  /** The record of one variant of a mask, written under the run's folder `sub`. */
  function EntryFor(sub: string, m: Mask, rot: Rotation, f: Flip): Record {
    var path := Join(sub, AugName(m.maskName, rot, f));
    Record(path, ImageId(path), Many([m.description]))
  }

  /** The records of one rotation: unflipped, then `fh`, then `fv`. */
  function RotationEntries(sub: string, m: Mask, rot: Rotation): seq<Record> {
    [EntryFor(sub, m, rot, NoFlip), EntryFor(sub, m, rot, FlipH), EntryFor(sub, m, rot, FlipV)]
  }

  /** The records of the rotations `rots`, rotation by rotation. */
  function EntriesOver(sub: string, m: Mask, rots: seq<Rotation>): (r: seq<Record>)
    ensures |r| == 3 * |rots|
  {
    if rots == [] then []
    else EntriesOver(sub, m, rots[..|rots| - 1]) + RotationEntries(sub, m, rots[|rots| - 1])
  }

  /** The records of one mask: none for a skipped mask, otherwise the three of each of
      the four rotations. */
  function MaskEntries(sub: string, m: Mask): (r: seq<Record>)
    ensures |r| == if Rejected(m.bbox, m.area) then 0 else 12
  {
    if Rejected(m.bbox, m.area) then [] else EntriesOver(sub, m, Rotations)
  }

  /** The records of a run: the masks' records, in mask order. */
  function RunEntries(sub: string, masks: seq<Mask>): seq<Record> {
    if masks == [] then []
    else RunEntries(sub, masks[..|masks| - 1]) + MaskEntries(sub, masks[|masks| - 1])
  }

  lemma EntriesOverRotations(sub: string, m: Mask)
    ensures EntriesOver(sub, m, Rotations) ==
      RotationEntries(sub, m, R0) + RotationEntries(sub, m, R90)
      + RotationEntries(sub, m, R180) + RotationEntries(sub, m, R270)
  {
    var one, two, three := [R0], [R0, R90], [R0, R90, R180];
    assert one[..0] == [] && two[..1] == one && three[..2] == two && Rotations[..3] == three;
    assert EntriesOver(sub, m, one) == RotationEntries(sub, m, R0);
    assert EntriesOver(sub, m, two) == EntriesOver(sub, m, one) + RotationEntries(sub, m, R90);
    assert EntriesOver(sub, m, three) == EntriesOver(sub, m, two) + RotationEntries(sub, m, R180);
    assert EntriesOver(sub, m, Rotations) == EntriesOver(sub, m, three) + RotationEntries(sub, m, R270);
  }

  lemma WritesOverRotations<P>(sub: string, m: Mask, pics: (Rotation, Flip) -> Grid<P>)
    ensures WritesOver(sub, m, pics, Rotations) ==
      RotationWrites(sub, m, pics, R0) + RotationWrites(sub, m, pics, R90)
      + RotationWrites(sub, m, pics, R180) + RotationWrites(sub, m, pics, R270)
  {
    var one, two, three := [R0], [R0, R90], [R0, R90, R180];
    assert one[..0] == [] && two[..1] == one && three[..2] == two && Rotations[..3] == three;
    assert WritesOver(sub, m, pics, one) == RotationWrites(sub, m, pics, R0);
    assert WritesOver(sub, m, pics, two) == WritesOver(sub, m, pics, one) + RotationWrites(sub, m, pics, R90);
    assert WritesOver(sub, m, pics, three) == WritesOver(sub, m, pics, two) + RotationWrites(sub, m, pics, R180);
    assert WritesOver(sub, m, pics, Rotations) == WritesOver(sub, m, pics, three) + RotationWrites(sub, m, pics, R270);
  }

  /** The records of a kept mask come rotation-major (`r0, r90, r180, r270`) and
      flip-minor (none, `fh`, `fv`): record `3 * ri + fi` is rotation `ri`, flip `fi`. */
  lemma MaskEntriesOrder(sub: string, m: Mask, ri: nat, fi: nat)
    requires !Rejected(m.bbox, m.area) && ri < 4 && fi < 3
    ensures MaskEntries(sub, m)[3 * ri + fi] == EntryFor(sub, m, Rotations[ri], Flips[fi])
  {
    var a, b, c, d := RotationEntries(sub, m, R0), RotationEntries(sub, m, R90),
                      RotationEntries(sub, m, R180), RotationEntries(sub, m, R270);
    assert MaskEntries(sub, m) == a + b + c + d by {
      EntriesOverRotations(sub, m);
    }
    ConcatFourAt(a, b, c, d, ri, fi);
    assert [a, b, c, d][ri] == RotationEntries(sub, m, Rotations[ri]);
    RotationEntriesAt(sub, m, Rotations[ri], fi);
  }

  lemma RotationWritesAt<P>(sub: string, m: Mask, pics: (Rotation, Flip) -> Grid<P>, rot: Rotation, fi: nat)
    requires fi < 3
    ensures RotationWrites(sub, m, pics, rot)[fi] == WriteFor(sub, m, pics, rot, Flips[fi])
  {
  }

  /** Element `3 * ri + fi` of four three-element sequences laid end to end. */
  lemma ConcatFourAt<T>(a: seq<T>, b: seq<T>, c: seq<T>, d: seq<T>, ri: nat, fi: nat)
    requires |a| == 3 && |b| == 3 && |c| == 3 && |d| == 3 && ri < 4 && fi < 3
    ensures (a + b + c + d)[3 * ri + fi] == [a, b, c, d][ri][fi]
  {
  }

  lemma RotationEntriesAt(sub: string, m: Mask, rot: Rotation, fi: nat)
    requires fi < 3
    ensures RotationEntries(sub, m, rot)[fi] == EntryFor(sub, m, rot, Flips[fi])
  {
  }

  /** The picture with the padded and clamped box of `m` drawn on it. */
  function Bounded<P>(norm: Grid<P>, drawRect: (Grid<P>, BBox) -> Grid<P>, padding: int, m: Mask): Grid<P> {
    drawRect(norm, PadAndClamp(m.bbox, padding, norm.h, norm.w))
  }

  /** The twelve pictures of a kept mask, by rotation and flip. */
  function Variants<P>(bounded: Grid<P>): (Rotation, Flip) -> Grid<P> {
    (rot: Rotation, f: Flip) => Augment(rot, f, bounded)
  }

  /** The file written for one variant: its path and its picture among `pics`. */
  function WriteFor<P>(sub: string, m: Mask, pics: (Rotation, Flip) -> Grid<P>, rot: Rotation, f: Flip): (string, Grid<P>) {
    (Join(sub, AugName(m.maskName, rot, f)), pics(rot, f))
  }

  function RotationWrites<P>(sub: string, m: Mask, pics: (Rotation, Flip) -> Grid<P>, rot: Rotation): seq<(string, Grid<P>)> {
    [WriteFor(sub, m, pics, rot, NoFlip), WriteFor(sub, m, pics, rot, FlipH),
     WriteFor(sub, m, pics, rot, FlipV)]
  }

  function WritesOver<P>(sub: string, m: Mask, pics: (Rotation, Flip) -> Grid<P>, rots: seq<Rotation>): (r: seq<(string, Grid<P>)>)
    ensures |r| == 3 * |rots|
  {
    if rots == [] then []
    else WritesOver(sub, m, pics, rots[..|rots| - 1]) + RotationWrites(sub, m, pics, rots[|rots| - 1])
  }

  /** The files written for one mask, in the order its records are made. */
  function MaskWrites<P>(sub: string, m: Mask, bounded: Grid<P>): (r: seq<(string, Grid<P>)>)
    ensures |r| == if Rejected(m.bbox, m.area) then 0 else 12
  {
    if Rejected(m.bbox, m.area) then [] else WritesOver(sub, m, Variants(bounded), Rotations)
  }

  function RunWrites<P>(sub: string, masks: seq<Mask>, norm: Grid<P>,
                        drawRect: (Grid<P>, BBox) -> Grid<P>, padding: int): seq<(string, Grid<P>)>
  {
    if masks == [] then []
    else
      var m := masks[|masks| - 1];
      RunWrites(sub, masks[..|masks| - 1], norm, drawRect, padding)
        + MaskWrites(sub, m, Bounded(norm, drawRect, padding, m))
  }

  /** The innermost loop of `process_single_run`: one rotation of the boxed picture,
      unflipped and then flipped both ways. */
  method ProcessRotation<P>(sub: string, m: Mask, bounded: Grid<P>, rot: Rotation)
    returns (entries: seq<Record>, written: seq<(string, Grid<P>)>)
    ensures entries == RotationEntries(sub, m, rot)
    ensures written == RotationWrites(sub, m, Variants(bounded), rot)
  {
    var rotated := Rotate(rot, bounded);
    entries, written := [], [];
    for fi := 0 to 3
      invariant entries == RotationEntries(sub, m, rot)[..fi]
      invariant written == RotationWrites(sub, m, Variants(bounded), rot)[..fi]
    {
      var f := Flips[fi];
      var aug: Grid<P> := if f == NoFlip then rotated else ApplyFlip(f, rotated);
      var path := Join(sub, AugName(m.maskName, rot, f));
      var file: (string, Grid<P>) := (path, aug);
      var entry := Record(path, ImageId(path), Many([m.description]));
      FlipStep(sub, m, bounded, rot, fi);
      written := written + [file];
      entries := entries + [entry];
    }
    AllFlips(sub, m, bounded, rot);
  }

  /** After the third flip the loop has covered them all. */
  lemma AllFlips<P>(sub: string, m: Mask, bounded: Grid<P>, rot: Rotation)
    ensures RotationEntries(sub, m, rot)[..3] == RotationEntries(sub, m, rot)
    ensures RotationWrites(sub, m, Variants(bounded), rot)[..3] == RotationWrites(sub, m, Variants(bounded), rot)
  {
  }

  /** One more flip of a rotation: its record and its file, as the loop builds them. */
  lemma FlipStep<P>(sub: string, m: Mask, bounded: Grid<P>, rot: Rotation, fi: nat)
    requires fi < 3
    ensures var path := Join(sub, AugName(m.maskName, rot, Flips[fi]));
      RotationEntries(sub, m, rot)[..fi + 1]
        == RotationEntries(sub, m, rot)[..fi] + [Record(path, ImageId(path), Many([m.description]))]
    ensures var path := Join(sub, AugName(m.maskName, rot, Flips[fi]));
      var rotated := Rotate(rot, bounded);
      RotationWrites(sub, m, Variants(bounded), rot)[..fi + 1] == RotationWrites(sub, m, Variants(bounded), rot)[..fi]
        + [(path, if Flips[fi] == NoFlip then rotated else ApplyFlip(Flips[fi], rotated))]
  {
    RotationEntriesAt(sub, m, rot, fi);
    TakeSnoc(RotationEntries(sub, m, rot), fi);
    RotationWritesAt(sub, m, Variants(bounded), rot, fi);
    TakeSnoc(RotationWrites(sub, m, Variants(bounded), rot), fi);
  }

  /** The loop over the rotations for one kept mask, whose box is drawn on `bounded`. */
  method ProcessKeptMask<P>(sub: string, m: Mask, bounded: Grid<P>)
    returns (entries: seq<Record>, written: seq<(string, Grid<P>)>)
    requires !Rejected(m.bbox, m.area)
    ensures entries == MaskEntries(sub, m)
    ensures written == MaskWrites(sub, m, bounded)
  {
    entries, written := [], [];
    for ri := 0 to 4
      invariant entries == MaskEntries(sub, m)[..3 * ri]
      invariant written == WritesOver(sub, m, Variants(bounded), Rotations)[..3 * ri]
    {
      var rotEntries, rotWritten := ProcessRotation(sub, m, bounded, Rotations[ri]);
      MaskEntriesStep(sub, m, ri);
      WritesStep(sub, m, Variants(bounded), ri);
      entries := entries + rotEntries;
      written := written + rotWritten;
    }
    AllRotations(sub, m, bounded);
  }

  /** After the fourth rotation the loop has covered them all. */
  lemma AllRotations<P>(sub: string, m: Mask, bounded: Grid<P>)
    requires !Rejected(m.bbox, m.area)
    ensures MaskEntries(sub, m)[..12] == MaskEntries(sub, m)
    ensures WritesOver(sub, m, Variants(bounded), Rotations)[..12] == MaskWrites(sub, m, bounded)
  {
  }

  /** The records of a kept mask, three more for each rotation. */
  lemma MaskEntriesStep(sub: string, m: Mask, ri: nat)
    requires !Rejected(m.bbox, m.area) && ri < 4
    ensures MaskEntries(sub, m)[..3 * ri + 3]
      == MaskEntries(sub, m)[..3 * ri] + RotationEntries(sub, m, Rotations[ri])
  {
    var a, b, c, d := RotationEntries(sub, m, R0), RotationEntries(sub, m, R90),
                      RotationEntries(sub, m, R180), RotationEntries(sub, m, R270);
    assert MaskEntries(sub, m) == a + b + c + d by {
      EntriesOverRotations(sub, m);
    }
    ConcatFourStep(a, b, c, d, ri);
    assert [a, b, c, d][ri] == RotationEntries(sub, m, Rotations[ri]);
  }

  /** The files of the four rotations, three more for each rotation. */
  lemma WritesStep<P>(sub: string, m: Mask, pics: (Rotation, Flip) -> Grid<P>, ri: nat)
    requires ri < 4
    ensures WritesOver(sub, m, pics, Rotations)[..3 * ri + 3]
      == WritesOver(sub, m, pics, Rotations)[..3 * ri] + RotationWrites(sub, m, pics, Rotations[ri])
  {
    var a, b := RotationWrites(sub, m, pics, R0), RotationWrites(sub, m, pics, R90);
    var c, d := RotationWrites(sub, m, pics, R180), RotationWrites(sub, m, pics, R270);
    assert WritesOver(sub, m, pics, Rotations) == a + b + c + d by {
      WritesOverRotations(sub, m, pics);
    }
    ConcatFourStep(a, b, c, d, ri);
    assert [a, b, c, d][ri] == RotationWrites(sub, m, pics, Rotations[ri]);
  }

  /** Four blocks of three: the prefix one block longer ends with block `ri`. */
  lemma ConcatFourStep<T>(a: seq<T>, b: seq<T>, c: seq<T>, d: seq<T>, ri: nat)
    requires |a| == 3 && |b| == 3 && |c| == 3 && |d| == 3 && ri < 4
    ensures (a + b + c + d)[..3 * ri + 3] == (a + b + c + d)[..3 * ri] + [a, b, c, d][ri]
  {
  }

  /** `process_single_run`: `norm` is the normalised picture of the run and `drawRect`
      draws a box on it. The base picture is written first, then every variant of every
      kept mask; a skipped mask is passed over. */
  method ProcessRun<P>(outputFolder: string, runName: string, masks: seq<Mask>, norm: Grid<P>,
                       drawRect: (Grid<P>, BBox) -> Grid<P>, padding: int)
    returns (entries: seq<Record>, written: seq<(string, Grid<P>)>)
    ensures entries == RunEntries(Join(outputFolder, runName), masks)
    ensures written == [(Join(Join(outputFolder, runName), "image.png"), norm)]
      + RunWrites(Join(outputFolder, runName), masks, norm, drawRect, padding)
  {
    var sub := Join(outputFolder, runName);
    var base := (Join(sub, "image.png"), norm);
    var variants := [];
    entries := [];
    for i := 0 to |masks|
      invariant entries == RunEntries(sub, masks[..i])
      invariant variants == RunWrites(sub, masks[..i], norm, drawRect, padding)
    {
      var m := masks[i];
      RunStep(sub, masks, i, norm, drawRect, padding);
      if Rejected(m.bbox, m.area) {
        continue;
      }
      var h, w := norm.h, norm.w;
      var box := PadAndClamp(m.bbox, padding, h, w);
      var bounded := drawRect(norm, box);
      var maskEntries, maskWritten := ProcessKeptMask(sub, m, bounded);
      entries := entries + maskEntries;
      variants := variants + maskWritten;
    }
    assert masks[..|masks|] == masks;
    written := [base] + variants;
  }

  /** One more mask adds its own records and files after those of the masks before it. */
  lemma RunStep<P>(sub: string, masks: seq<Mask>, i: nat, norm: Grid<P>,
                   drawRect: (Grid<P>, BBox) -> Grid<P>, padding: int)
    requires i < |masks|
    ensures RunEntries(sub, masks[..i + 1]) == RunEntries(sub, masks[..i]) + MaskEntries(sub, masks[i])
    ensures RunWrites(sub, masks[..i + 1], norm, drawRect, padding)
      == RunWrites(sub, masks[..i], norm, drawRect, padding)
         + MaskWrites(sub, masks[i], Bounded(norm, drawRect, padding, masks[i]))
  {
    assert masks[..i + 1][..i] == masks[..i];
  }

  function Accepted(m: Mask): bool {
    !Rejected(m.bbox, m.area)
  }

  /** Each kept mask contributes exactly twelve records and each skipped one none. */
  lemma {:induction false} RunEntriesCount(sub: string, masks: seq<Mask>)
    ensures |RunEntries(sub, masks)| == 12 * |Filter(Accepted, masks)|
    decreases |masks|
  {
    if masks != [] {
      RunEntriesCount(sub, masks[..|masks| - 1]);
    }
  }

  /** A run none of whose masks is kept yields no records. */
  lemma {:induction false} NoKeptMaskNoEntries(sub: string, masks: seq<Mask>)
    requires forall k :: 0 <= k < |masks| ==> Rejected(masks[k].bbox, masks[k].area)
    ensures RunEntries(sub, masks) == []
    decreases |masks|
  {
    if masks != [] {
      NoKeptMaskNoEntries(sub, masks[..|masks| - 1]);
    }
  }

  /** Two different variants of a kept mask are written to different files. */
  lemma MaskImagesDistinct(sub: string, m: Mask, ri1: nat, fi1: nat, ri2: nat, fi2: nat)
    requires !Rejected(m.bbox, m.area) && ri1 < 4 && fi1 < 3 && ri2 < 4 && fi2 < 3
    requires ri1 != ri2 || fi1 != fi2
    ensures MaskEntries(sub, m)[3 * ri1 + fi1].image != MaskEntries(sub, m)[3 * ri2 + fi2].image
  {
    MaskEntriesOrder(sub, m, ri1, fi1);
    MaskEntriesOrder(sub, m, ri2, fi2);
    var r1, f1 := Rotations[ri1], Flips[fi1];
    var r2, f2 := Rotations[ri2], Flips[fi2];
    assert r1 != r2 || f1 != f2;
    var n1, n2 := AugName(m.maskName, r1, f1), AugName(m.maskName, r2, f2);
    AugNamesDistinct(m.maskName, r1, f1, r2, f2);
    var prefix := m.maskName + "_bounded_";
    assert n1[..|prefix|] == prefix == n2[..|prefix|];
    assert n1[0] == n2[0];
    JoinInjective(sub, n1, n2);
  }

  /** Every record of a run has the id derived from its own path and the one-element
      caption of a kept mask of the run. */
  lemma {:induction false} RunEntriesWellFormed(sub: string, masks: seq<Mask>)
    ensures forall e :: e in RunEntries(sub, masks) ==>
      e.imageId == ImageId(e.image)
      && exists m :: m in masks && Accepted(m) && e.caption == Many([m.description])
    decreases |masks|
  {
    if masks != [] {
      var init := masks[..|masks| - 1];
      var m := masks[|masks| - 1];
      RunEntriesWellFormed(sub, init);
      EntriesOverWellFormed(sub, m, Rotations);
      forall e | e in RunEntries(sub, masks)
        ensures e.imageId == ImageId(e.image)
        ensures exists m' :: m' in masks && Accepted(m') && e.caption == Many([m'.description])
      {
        if e in RunEntries(sub, init) {
          var m' :| m' in init && Accepted(m') && e.caption == Many([m'.description]);
          assert m' in masks;
        } else {
          assert e in MaskEntries(sub, m);
          assert m in masks;
        }
      }
    }
  }

  lemma {:induction false} EntriesOverWellFormed(sub: string, m: Mask, rots: seq<Rotation>)
    ensures forall e :: e in EntriesOver(sub, m, rots) ==>
      e.imageId == ImageId(e.image) && e.caption == Many([m.description])
    decreases |rots|
  {
    if rots != [] {
      EntriesOverWellFormed(sub, m, rots[..|rots| - 1]);
    }
  }

  /** The `k`-th file written is the `k`-th record's image, for every `k`. */
  ghost predicate SamePaths<P>(ws: seq<(string, Grid<P>)>, es: seq<Record>) {
    |ws| == |es| && forall k :: 0 <= k < |ws| ==> ws[k].0 == es[k].image
  }

  lemma SamePathsAppend<P>(ws0: seq<(string, Grid<P>)>, ws1: seq<(string, Grid<P>)>,
                           es0: seq<Record>, es1: seq<Record>)
    requires SamePaths(ws0, es0) && SamePaths(ws1, es1)
    ensures SamePaths(ws0 + ws1, es0 + es1)
  {
    forall k | 0 <= k < |ws0| + |ws1|
      ensures (ws0 + ws1)[k].0 == (es0 + es1)[k].image
    {
      IndexAppend(ws0, ws1, k);
      IndexAppend(es0, es1, k);
    }
  }

  /** Every record names the file written for it, in the same order. */
  lemma {:induction false} WritesMatchEntries<P>(sub: string, masks: seq<Mask>, norm: Grid<P>,
                                                 drawRect: (Grid<P>, BBox) -> Grid<P>, padding: int)
    ensures SamePaths(RunWrites(sub, masks, norm, drawRect, padding), RunEntries(sub, masks))
    decreases |masks|
  {
    if masks != [] {
      var init, m := masks[..|masks| - 1], masks[|masks| - 1];
      WritesMatchEntries(sub, init, norm, drawRect, padding);
      var bounded := Bounded(norm, drawRect, padding, m);
      if !Rejected(m.bbox, m.area) {
        WritesOverMatch(sub, m, Variants(bounded), Rotations);
      }
      SamePathsAppend(RunWrites(sub, init, norm, drawRect, padding), MaskWrites(sub, m, bounded),
                      RunEntries(sub, init), MaskEntries(sub, m));
    }
  }

  lemma {:induction false} WritesOverMatch<P>(sub: string, m: Mask, pics: (Rotation, Flip) -> Grid<P>, rots: seq<Rotation>)
    ensures SamePaths(WritesOver(sub, m, pics, rots), EntriesOver(sub, m, rots))
    decreases |rots|
  {
    if rots != [] {
      var init, r := rots[..|rots| - 1], rots[|rots| - 1];
      WritesOverMatch(sub, m, pics, init);
      RotationMatch(sub, m, pics, r);
      SamePathsAppend(WritesOver(sub, m, pics, init), RotationWrites(sub, m, pics, r),
                      EntriesOver(sub, m, init), RotationEntries(sub, m, r));
    }
  }

  lemma RotationMatch<P>(sub: string, m: Mask, pics: (Rotation, Flip) -> Grid<P>, rot: Rotation)
    ensures SamePaths(RotationWrites(sub, m, pics, rot), RotationEntries(sub, m, rot))
  {
  }
}
