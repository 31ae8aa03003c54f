/** The test split of a Blender-style dataset: the frames of its
    `transforms_test.json` manifest, thinned by a slice step and resolved
    against a base directory. */
module Manifest {
  import opened Results
  import opened Paths

  function Abs(x: int): nat {
    if x < 0 then -x else x
  }

  /** The number of elements a slice with step `k` keeps out of `n`: ceil(n / k). */
  function CeilDiv(n: nat, k: nat): nat
    requires k >= 1
  {
    (n + k - 1) / k
  }

  lemma CeilDivSingle(n: nat, k: nat)
    requires 1 <= n <= k
    ensures CeilDiv(n, k) == 1
  {
    assert k <= n + k - 1 < 2 * k;
  }

  lemma CeilDivStep(n: nat, k: nat)
    requires 1 <= k < n
    ensures CeilDiv(n, k) == CeilDiv(n - k, k) + 1
  {
    var m := n - 1;
    var q, r := m / k, m % k;
    assert m == q * k + r && 0 <= r < k;
    assert n + k - 1 == (q + 1) * k + r;
    DivUnique(n + k - 1, k, q + 1, r);
    assert n - k + k - 1 == q * k + r;
    DivUnique(n - k + k - 1, k, q, r);
  }

  lemma MulAtLeast(d: int, k: int)
    requires d >= 1 && k >= 1
    ensures d * k >= k
  {
  }

  lemma DivUnique(a: int, k: int, q: int, r: int)
    requires k >= 1 && a == q * k + r && 0 <= r < k
    ensures a / k == q
  {
    var d := a / k - q;
    assert d * k == (a / k) * k - q * k;
    assert d * k == r - a % k;
    if d >= 1 {
      MulAtLeast(d, k);
    } else if d <= -1 {
      MulAtLeast(-d, k);
    }
  }

  lemma ShiftedIndex(i: nat, k: nat)
    requires 1 <= i
    ensures (i - 1) * k + k == i * k
  {
  }

  /** Element i - 1 of the stride over `xs[k..]` is element i of the stride over `xs`. */
  lemma StrideTailAt<T>(xs: seq<T>, k: nat, rest: seq<T>, i: nat)
    requires 1 <= k < |xs| && 1 <= i <= |rest|
    requires (i - 1) * k < |xs| - k && rest[i - 1] == xs[k..][(i - 1) * k]
    ensures i * k < |xs| && rest[i - 1] == xs[i * k]
  {
    ShiftedIndex(i, k);
  }

  /** Every `k`-th element starting with the first: Python's `xs[::k]` for `k >= 1`. */
  function Stride<T>(xs: seq<T>, k: nat): (r: seq<T>)
    requires k >= 1
    ensures |r| == CeilDiv(|xs|, k)
    ensures forall i :: 0 <= i < |r| ==> i * k < |xs| && r[i] == xs[i * k]
    decreases |xs|
  {
    if xs == [] then []
    else if |xs| <= k then
      CeilDivSingle(|xs|, k);
      [xs[0]]
    else
      var rest := Stride(xs[k..], k);
      CeilDivStep(|xs|, k);
      var r := [xs[0]] + rest;
      forall i | 1 <= i < |r| ensures i * k < |xs| && r[i] == xs[i * k] {
        StrideTailAt(xs, k, rest, i);
      }
      r
  }

  function Reverse<T>(xs: seq<T>): seq<T> {
    seq(|xs|, i requires 0 <= i < |xs| => xs[|xs| - 1 - i])
  }

  /** The manifest position the `i`-th element of `xs[::step]` comes from, for a
      list of length `n`: counted from the front for a positive step, from the
      back for a negative one. */
  function SliceIndex(n: nat, step: int, i: nat): int {
    if step > 0 then i * step else n - 1 + i * step
  }

  lemma NegatedProduct(i: int, step: int)
    ensures i * -step == -(i * step)
  {
  }

  /** Element i of the reversed list at stride -step is element
      SliceIndex(|xs|, step, i) of the original. */
  lemma ReversedStrideAt<T>(xs: seq<T>, step: int, r: seq<T>, i: nat)
    requires step < 0 && r == Stride(Reverse(xs), -step) && i < |r|
    ensures 0 <= SliceIndex(|xs|, step, i) < |xs| && r[i] == xs[SliceIndex(|xs|, step, i)]
  {
    var j := i * -step;
    assert j < |xs| && r[i] == Reverse(xs)[j];
    NegatedProduct(i, step);
    assert SliceIndex(|xs|, step, i) == |xs| - 1 - j;
  }


  /** Python's `xs[::step]`: a step of zero is an error; a negative step walks
      the list backwards from its last element. */
  function Slice<T>(xs: seq<T>, step: int): (r: Result<seq<T>>)
    ensures r.Err? <==> step == 0
    ensures r.Err? ==> r.error == ZeroStride
    ensures r.Ok? ==> |r.value| == CeilDiv(|xs|, Abs(step))
    ensures r.Ok? ==> forall i :: 0 <= i < |r.value| ==>
              0 <= SliceIndex(|xs|, step, i) < |xs| && r.value[i] == xs[SliceIndex(|xs|, step, i)]
  {
    if step == 0 then Err(ZeroStride)
    else if step > 0 then Ok(Stride(xs, step))
    else
      var r := Stride(Reverse(xs), -step);
      forall i | 0 <= i < |r|
        ensures 0 <= SliceIndex(|xs|, step, i) < |xs| && r[i] == xs[SliceIndex(|xs|, step, i)]
      {
        ReversedStrideAt(xs, step, r, i);
      }
      Ok(r)
  }

  const ManifestName := "transforms_test.json"

  /** Where the manifest of a dataset lives. It is always looked up under the
      dataset root, whatever base directory the entries are resolved against. */
  function ManifestPath(dataset: string): (path: string)
    ensures EndsWith(path, ManifestName)
    ensures |dataset| <= |path| && path[..|dataset|] == dataset
  {
    Join(dataset, ManifestName)
  }

  function BaseDir(dataset: string, imgdir: Option<string>): string {
    if imgdir.Some? then imgdir.value else dataset
  }

  /** `load_blender(dataset, testskip, imgdir)`. The file system is `fs`: it
      maps each manifest file that exists to the `file_path` fields of its
      `frames`, in manifest order. The result keeps manifest frames
      0, testskip, 2 * testskip, ... and joins each onto `imgdir` if given, else
      onto `dataset`. */
  function LoadBlender(fs: map<string, seq<string>>, dataset: string, testskip: int,
                       imgdir: Option<string>): (r: Result<seq<string>>)
    ensures ManifestPath(dataset) !in fs ==> r == Err(MissingManifest(ManifestPath(dataset)))
    ensures ManifestPath(dataset) in fs && testskip == 0 ==> r == Err(ZeroStride)
    ensures r.Ok? <==> ManifestPath(dataset) in fs && testskip != 0
    ensures r.Ok? ==>
              var frames := fs[ManifestPath(dataset)];
              |r.value| == CeilDiv(|frames|, Abs(testskip)) &&
              forall i :: 0 <= i < |r.value| ==>
                0 <= SliceIndex(|frames|, testskip, i) < |frames| &&
                r.value[i] == Join(BaseDir(dataset, imgdir), frames[SliceIndex(|frames|, testskip, i)])
  {
    var testFile := ManifestPath(dataset);
    if testFile !in fs then Err(MissingManifest(testFile))
    else
      match Slice(fs[testFile], testskip)
      case Err(e) => Err(e)
      case Ok(frames) =>
        var base := BaseDir(dataset, imgdir);
        Ok(seq(|frames|, i requires 0 <= i < |frames| => Join(base, frames[i])))
  }

  /** Loading the masks reads the manifest of the dataset, not of the mask
      directory: it succeeds exactly when loading the ground truth does, gives
      as many entries, and entry i names the same frame under the other base. */
  lemma MaskListMatchesGroundTruth(fs: map<string, seq<string>>, dataset: string,
                                   testskip: int, maskDir: string)
    ensures LoadBlender(fs, dataset, testskip, Some(maskDir)).Ok?
            <==> LoadBlender(fs, dataset, testskip, None).Ok?
    ensures LoadBlender(fs, dataset, testskip, None).Ok? ==>
              var gt := LoadBlender(fs, dataset, testskip, None).value;
              var masks := LoadBlender(fs, dataset, testskip, Some(maskDir)).value;
              var frames := fs[ManifestPath(dataset)];
              |masks| == |gt| &&
              forall i :: 0 <= i < |gt| ==>
                gt[i] == Join(dataset, frames[SliceIndex(|frames|, testskip, i)]) &&
                masks[i] == Join(maskDir, frames[SliceIndex(|frames|, testskip, i)])
  {
  }
}
