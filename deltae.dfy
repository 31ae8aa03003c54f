/** `compare_pair`: the mean colour difference between a rendered image and its
    ground truth, over all pixels or over the pixels a mask selects. The Lab
    rasters and the per-pixel colour difference come from libraries and are
    parameters here: `L` is a Lab pixel and `deltaE` the per-pixel metric. */
module DeltaE {
  import opened Results
  import opened MaskFilter
  import opened Stats

  /** The metric applied to corresponding pixels of two equally long sequences. */
  function Distances<L>(xs: seq<L>, ys: seq<L>, deltaE: (L, L) -> real): seq<real>
    requires |xs| == |ys|
  {
    seq(|xs|, i requires 0 <= i < |xs| => deltaE(xs[i], ys[i]))
  }

  /** The shapes numpy accepts: without a mask the two images must match; with
      one, each image must match the mask for boolean indexing. */
  predicate ShapesAgree<L>(nerf: seq<seq<L>>, truth: seq<seq<L>>, mask: Option<seq<seq<Pixel>>>) {
    match mask
    case None => SameShape(nerf, truth)
    case Some(m) => SameShape(nerf, m) && SameShape(truth, m)
  }

  /** The per-pixel differences `colour.delta_E` returns: one per pixel in
      row-major order, or one per selected pixel when a mask is given, each
      between the rendered and the ground-truth pixel at the same position. */
  function ComparedDistances<L>(nerf: seq<seq<L>>, truth: seq<seq<L>>,
                                mask: Option<seq<seq<Pixel>>>, deltaE: (L, L) -> real): (ds: seq<real>)
    requires ShapesAgree(nerf, truth, mask)
    ensures mask.None? ==>
              |Flatten(nerf)| == |Flatten(truth)| == |ds| &&
              forall k :: 0 <= k < |ds| ==> ds[k] == deltaE(Flatten(nerf)[k], Flatten(truth)[k])
    ensures mask.Some? ==>
              var sel := TrueIndices(Flatten(MaskRaster(mask.value)));
              |ds| == |sel| == CountSelected(Flatten(MaskRaster(mask.value))) &&
              forall k :: 0 <= k < |ds| ==>
                sel[k] < |Flatten(nerf)| && sel[k] < |Flatten(truth)| &&
                ds[k] == deltaE(Flatten(nerf)[sel[k]], Flatten(truth)[sel[k]])
  {
    match mask
    case None =>
      FlattenSameShape(nerf, truth);
      Distances(Flatten(nerf), Flatten(truth), deltaE)
    case Some(m) =>
      var f := MaskRaster(m);
      MaskedPixelsAligned(nerf, truth, f);
      Distances(Select(nerf, f), Select(truth, f), deltaE)
  }

  /** `compare_pair` on decoded rasters: an error when numpy cannot line the
      rasters up; otherwise the mean difference, which is not-a-number exactly
      when no pixel is compared (in particular when the mask selects none) and
      otherwise lies between the smallest and largest per-pixel difference. */
  function ComparePair<L>(nerf: seq<seq<L>>, truth: seq<seq<L>>,
                          mask: Option<seq<seq<Pixel>>>, deltaE: (L, L) -> real): (r: Result<Score>)
    ensures r.Ok? <==> ShapesAgree(nerf, truth, mask)
    ensures r.Err? ==> r.error == ShapeMismatch
    ensures r.Ok? && mask.Some? ==>
              (r.value.NaN? <==> CountSelected(Flatten(MaskRaster(mask.value))) == 0)
    ensures r.Ok? && mask.None? ==> (r.value.NaN? <==> |Flatten(nerf)| == 0)
    ensures r.Ok? && r.value.Finite? ==>
              var ds := ComparedDistances(nerf, truth, mask, deltaE);
              |ds| > 0 && Min(ds) <= r.value.v <= Max(ds) && r.value.v == Sum(ds) / (|ds| as real)
  {
    if !ShapesAgree(nerf, truth, mask) then Err(ShapeMismatch)
    else Ok(MeanScore(ComparedDistances(nerf, truth, mask, deltaE)))
  }
}
