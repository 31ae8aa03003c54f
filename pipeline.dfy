/** The driver: pairing the sorted rendered images with the ground-truth frames
    of the test split (and their masks), scoring every pair, and summarising
    the scores. */
module Pipeline {
  import opened Results
  import opened Paths
  import opened Manifest
  import opened MaskFilter
  import opened Stats
  import opened DeltaE

  /** One rendered image, its ground truth, and its mask when masks are enabled. */
  datatype ImagePair = ImagePair(nerf: string, baseTruth: string, mask: Option<string>)

  /** The parsed command line. */
  datatype Args = Args(dataset: string, testset: string, testskip: int,
                       datasetType: string, maskDir: Option<string>)

  /** One tuple produced by `zip`: a rendered name and a ground-truth
      identifier, with a mask identifier when three lists are zipped. */
  datatype Item = Item(rendered: string, truth: string, mask: Option<string>)

  function Smaller(a: nat, b: nat): nat {
    if a <= b then a else b
  }

  /** `zip(rendered, truth, masks)`, or `zip(rendered, truth)` when there are
      no masks: positional, and as long as the shortest list. */
  function Zip(rendered: seq<string>, truth: seq<string>, masks: Option<seq<string>>): (items: seq<Item>)
    ensures |items| == if masks.Some? then Smaller(Smaller(|rendered|, |truth|), |masks.value|)
                       else Smaller(|rendered|, |truth|)
    ensures forall i :: 0 <= i < |items| ==>
              items[i] == Item(rendered[i], truth[i], if masks.Some? then Some(masks.value[i]) else None)
  {
    if rendered == [] || truth == [] || (masks.Some? && masks.value == []) then []
    else
      var rest := Zip(rendered[1..], truth[1..], if masks.Some? then Some(masks.value[1..]) else None);
      [Item(rendered[0], truth[0], if masks.Some? then Some(masks.value[0]) else None)] + rest
  }

  /** `class_mapper`: the rendered name joined onto the output directory, and
      ".png" appended to the ground-truth and mask identifiers. */
  function ClassMapper(testset: string, item: Item): (pair: ImagePair)
    ensures EndsWith(pair.nerf, item.rendered)
    ensures |pair.baseTruth| == |item.truth| + 4 && pair.baseTruth[..|item.truth|] == item.truth
    ensures IsPng(pair.baseTruth)
    ensures pair.mask.Some? <==> item.mask.Some?
    ensures pair.mask.Some? ==>
              IsPng(pair.mask.value) && |pair.mask.value| == |item.mask.value| + 4 &&
              pair.mask.value[..|item.mask.value|] == item.mask.value
  {
    EndsWithConcat(item.truth, ".png");
    EndsWithConcat(if item.mask.Some? then item.mask.value else [], ".png");
    ImagePair(Join(testset, item.rendered), item.truth + ".png",
              if item.mask.Some? then Some(item.mask.value + ".png") else None)
  }

  /** The count checks and the positional pairing: the rendered count is
      checked against the frame count first, then (with masks) the mask
      count; on success pair i joins rendered name i with frame i and mask i. */
  function Align(testset: string, names: seq<string>, frames: seq<string>,
                 masks: Option<seq<string>>): (r: Result<seq<ImagePair>>)
    ensures |names| != |frames| ==> r == Err(CountMismatch(|names|, |frames|))
    ensures |names| == |frames| && masks.Some? && |masks.value| != |frames| ==>
              r == Err(MaskCountMismatch(|masks.value|, |frames|))
    ensures r.Ok? <==> |names| == |frames| && (masks.Some? ==> |masks.value| == |frames|)
    ensures r.Ok? ==>
              |r.value| == |frames| &&
              forall i :: 0 <= i < |frames| ==>
                r.value[i] == ImagePair(Join(testset, names[i]), frames[i] + ".png",
                                        if masks.Some? then Some(masks.value[i] + ".png") else None)
  {
    if |names| != |frames| then Err(CountMismatch(|names|, |frames|))
    else if masks.Some? && |masks.value| != |frames| then Err(MaskCountMismatch(|masks.value|, |frames|))
    else
      var items := Zip(names, frames, masks);
      Ok(seq(|items|, i requires 0 <= i < |items| => ClassMapper(testset, items[i])))
  }

  /** The rendered images of the output directory listing: the ".png" names,
      each as often as listed, in ascending order. */
  function TestsetImages(listing: seq<string>): (r: seq<string>)
    ensures Sorted(r)
    ensures forall x :: multiset(r)[x] == if IsPng(x) then multiset(listing)[x] else 0
    ensures |r| == |FilterPng(listing)|
  {
    var pngs := FilterPng(listing);
    var r := SortStrings(pngs);
    assert |r| == |multiset(r)| == |multiset(pngs)| == |pngs|;
    r
  }

  /** Everything the driver does before scoring: the dataset-type guard, the
      ground-truth and mask lists, the rendered listing, the count checks and
      the pairing. */
  function AlignedPairs(fs: map<string, seq<string>>, args: Args, listing: seq<string>): (r: Result<seq<ImagePair>>)
    ensures args.datasetType != "blender" ==> r == Err(UnsupportedDatasetType(args.datasetType))
    ensures args.datasetType == "blender" && ManifestPath(args.dataset) !in fs ==>
              r == Err(MissingManifest(ManifestPath(args.dataset)))
    ensures args.datasetType == "blender" && ManifestPath(args.dataset) in fs && args.testskip == 0 ==>
              r == Err(ZeroStride)
    ensures args.datasetType == "blender" && ManifestPath(args.dataset) in fs && args.testskip != 0 ==>
              var frames := CeilDiv(|fs[ManifestPath(args.dataset)]|, Abs(args.testskip));
              var rendered := |FilterPng(listing)|;
              (rendered != frames ==> r == Err(CountMismatch(rendered, frames))) &&
              (rendered == frames ==> r.Ok?)
    ensures r.Ok? ==>
              args.datasetType == "blender" && ManifestPath(args.dataset) in fs && args.testskip != 0
  {
    if args.datasetType != "blender" then Err(UnsupportedDatasetType(args.datasetType))
    else
      match LoadBlender(fs, args.dataset, args.testskip, None)
      case Err(e) => Err(e)
      case Ok(datasetImages) =>
        var maskImages := if args.maskDir.Some? then LoadBlender(fs, args.dataset, args.testskip, args.maskDir)
                          else Ok([]);
        match maskImages
        case Err(e) => Err(e)
        case Ok(masks) =>
          Align(args.testset, TestsetImages(listing), datasetImages,
                if args.maskDir.Some? then Some(masks) else None)
  }

  /** The mask-count check never fires: the masks are listed from the dataset's
      own manifest, so there are always as many as ground-truth frames. */
  lemma MaskCheckNeverFires(fs: map<string, seq<string>>, args: Args, listing: seq<string>)
    ensures var r := AlignedPairs(fs, args, listing);
            r.Err? ==> !r.error.MaskCountMismatch?
  {
    if args.datasetType == "blender" && args.maskDir.Some? {
      MaskListMatchesGroundTruth(fs, args.dataset, args.testskip, args.maskDir.value);
    }
  }

  /** On success, pair i is rendered image i of the sorted listing, with the
      ground truth and (if enabled) the mask of manifest frame i * testskip. */
  lemma PairsFollowManifest(fs: map<string, seq<string>>, args: Args, listing: seq<string>)
    requires AlignedPairs(fs, args, listing).Ok?
    ensures var r := AlignedPairs(fs, args, listing);
              args.datasetType == "blender" && ManifestPath(args.dataset) in fs && args.testskip != 0 &&
              var frames := fs[ManifestPath(args.dataset)];
              var names := TestsetImages(listing);
              |r.value| == |names| == CeilDiv(|frames|, Abs(args.testskip)) &&
              forall i :: 0 <= i < |r.value| ==>
                var frame := frames[SliceIndex(|frames|, args.testskip, i)];
                r.value[i].nerf == Join(args.testset, names[i]) &&
                r.value[i].baseTruth == Join(args.dataset, frame) + ".png" &&
                r.value[i].mask == if args.maskDir.Some? then Some(Join(args.maskDir.value, frame) + ".png") else None
  {
    var r := AlignedPairs(fs, args, listing);
    var frames := fs[ManifestPath(args.dataset)];
    var gt := LoadBlender(fs, args.dataset, args.testskip, None).value;
    var names := TestsetImages(listing);
    var masks: Option<seq<string>> := None;
    if args.maskDir.Some? {
      MaskListMatchesGroundTruth(fs, args.dataset, args.testskip, args.maskDir.value);
      masks := Some(LoadBlender(fs, args.dataset, args.testskip, args.maskDir).value);
    }
    assert r == Align(args.testset, names, gt, masks);
    forall i | 0 <= i < |r.value|
      ensures var frame := frames[SliceIndex(|frames|, args.testskip, i)];
              r.value[i].nerf == Join(args.testset, names[i]) &&
              r.value[i].baseTruth == Join(args.dataset, frame) + ".png" &&
              r.value[i].mask == if args.maskDir.Some? then Some(Join(args.maskDir.value, frame) + ".png") else None
    {
      assert gt[i] == Join(args.dataset, frames[SliceIndex(|frames|, args.testskip, i)]);
    }
  }

  /** Sixteen manifest frames at the default stride of 8 give frames 0 and 8;
      a listing holding two ".png" files, among any others, pairs them in name
      order with those two frames. */
  lemma SixteenFramesTwoImages(fs: map<string, seq<string>>, args: Args, listing: seq<string>)
    requires args.datasetType == "blender" && args.testskip == 8 && args.maskDir.None?
    requires ManifestPath(args.dataset) in fs && |fs[ManifestPath(args.dataset)]| == 16
    requires |FilterPng(listing)| == 2
    ensures var r := AlignedPairs(fs, args, listing);
            var frames := fs[ManifestPath(args.dataset)];
            var names := TestsetImages(listing);
            r.Ok? && |r.value| == 2 && LexLe(names[0], names[1]) &&
            r.value[0] == ImagePair(Join(args.testset, names[0]), Join(args.dataset, frames[0]) + ".png", None) &&
            r.value[1] == ImagePair(Join(args.testset, names[1]), Join(args.dataset, frames[8]) + ".png", None)
  {
    assert CeilDiv(16, Abs(8)) == 2;
    PairsFollowManifest(fs, args, listing);
    assert SliceIndex(16, 8, 0) == 0 && SliceIndex(16, 8, 1) == 8;
  }

  /** The same manifest and stride with three ".png" files aborts with a count
      mismatch naming 3 rendered images and 2 frames. */
  lemma SixteenFramesThreeImages(fs: map<string, seq<string>>, args: Args, listing: seq<string>)
    requires args.datasetType == "blender" && args.testskip == 8
    requires ManifestPath(args.dataset) in fs && |fs[ManifestPath(args.dataset)]| == 16
    requires |FilterPng(listing)| == 3
    ensures AlignedPairs(fs, args, listing) == Err(CountMismatch(3, 2))
  {
    assert CeilDiv(16, Abs(8)) == 2;
  }

  /** `compare_pair` on one pair: `lab` decodes an image file into its Lab
      raster, `rgb` decodes a mask file into its 8-bit raster. */
  function CompareImagePair<L>(pair: ImagePair, lab: string -> seq<seq<L>>,
                               rgb: string -> seq<seq<Pixel>>, deltaE: (L, L) -> real): (r: Result<Score>)
    ensures r.Ok? <==> ShapesAgree(lab(pair.nerf), lab(pair.baseTruth),
                                   if pair.mask.Some? then Some(rgb(pair.mask.value)) else None)
    ensures r.Err? ==> r.error == ShapeMismatch
    ensures pair.mask.Some? && r.Ok? ==>
              (r.value.NaN? <==> CountSelected(Flatten(MaskRaster(rgb(pair.mask.value)))) == 0)
  {
    ComparePair(lab(pair.nerf), lab(pair.baseTruth),
                if pair.mask.Some? then Some(rgb(pair.mask.value)) else None, deltaE)
  }

  /** The scoring loop: one score appended per pair, in pair order, stopping
      at the first pair that cannot be scored (`failure` says why). */
  method ScorePairs<L>(pairs: seq<ImagePair>, lab: string -> seq<seq<L>>,
                       rgb: string -> seq<seq<Pixel>>, deltaE: (L, L) -> real)
    returns (values: seq<Score>, failure: Option<Error>)
    ensures |values| <= |pairs|
    ensures forall i :: 0 <= i < |values| ==> CompareImagePair(pairs[i], lab, rgb, deltaE) == Ok(values[i])
    ensures failure.None? <==> |values| == |pairs|
    ensures failure.Some? ==> CompareImagePair(pairs[|values|], lab, rgb, deltaE) == Err(failure.value)
  {
    values := [];
    for i := 0 to |pairs|
      invariant |values| == i
      invariant forall j :: 0 <= j < i ==> CompareImagePair(pairs[j], lab, rgb, deltaE) == Ok(values[j])
    {
      var deltae := CompareImagePair(pairs[i], lab, rgb, deltaE);
      if deltae.Err? {
        return values, Some(deltae.error);
      }
      values := values + [deltae.value];
    }
    failure := None;
  }

  /** The whole run: the pairs, their scores in pair order (as many as were
      computed before a pair failed), and the summary, which needs at least
      one score. */
  method Run<L>(fs: map<string, seq<string>>, args: Args, listing: seq<string>,
                lab: string -> seq<seq<L>>, rgb: string -> seq<seq<Pixel>>, deltaE: (L, L) -> real)
    returns (values: seq<Score>, r: Result<Report>)
    ensures AlignedPairs(fs, args, listing).Err? ==>
              values == [] && r == Err(AlignedPairs(fs, args, listing).error)
    ensures AlignedPairs(fs, args, listing).Ok? ==>
              var pairs := AlignedPairs(fs, args, listing).value;
              |values| <= |pairs| &&
              (forall i :: 0 <= i < |values| ==> CompareImagePair(pairs[i], lab, rgb, deltaE) == Ok(values[i])) &&
              (|values| < |pairs| ==>
                 CompareImagePair(pairs[|values|], lab, rgb, deltaE).Err? &&
                 r == Err(CompareImagePair(pairs[|values|], lab, rgb, deltaE).error)) &&
              (|values| == |pairs| == 0 ==> r == Err(EmptyReduction)) &&
              (|values| == |pairs| > 0 ==> r == Ok(Summarize(values)))
  {
    var aligned := AlignedPairs(fs, args, listing);
    if aligned.Err? {
      return [], Err(aligned.error);
    }
    var failure;
    values, failure := ScorePairs(aligned.value, lab, rgb, deltaE);
    if failure.Some? {
      return values, Err(failure.value);
    }
    if values == [] {
      return values, Err(EmptyReduction);
    }
    r := Ok(Summarize(values));
  }
}
