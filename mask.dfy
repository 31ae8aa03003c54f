/** The optional mask: a per-pixel brightness threshold on an 8-bit
    three-channel raster, and numpy's boolean indexing of a raster by the
    resulting boolean raster. Rasters are sequences of rows; numpy visits the
    cells of a boolean index in row-major order, which `Flatten` fixes. */
module MaskFilter {

  type Byte = x: int | 0 <= x < 256

  /** One pixel as the decoder returns it; the channel order does not matter here. */
  datatype Pixel = Pixel(c0: Byte, c1: Byte, c2: Byte)

  /** `rgb2boolean`: a pixel is selected when the mean of its channels exceeds 255 / 3. */
  function Rgb2Boolean(p: Pixel): (selected: bool)
    ensures selected <==> p.c0 + p.c1 + p.c2 > 255
    ensures selected <==> (p.c0 + p.c1 + p.c2) as real / 3.0 > 85.0
  {
    (p.c0 as real) / 3.0 + (p.c1 as real) / 3.0 + (p.c2 as real) / 3.0 > 255.0 / 3.0
  }

  /** The rule treats the channels alike, so reading the mask as BGR rather
      than RGB selects the same pixels. */
  lemma ChannelOrderIrrelevant(a: Byte, b: Byte, c: Byte)
    ensures Rgb2Boolean(Pixel(a, b, c)) == Rgb2Boolean(Pixel(c, b, a))
    ensures Rgb2Boolean(Pixel(a, b, c)) == Rgb2Boolean(Pixel(b, a, c))
    ensures Rgb2Boolean(Pixel(a, b, c)) == Rgb2Boolean(Pixel(a, c, b))
  {
  }

  /** Brightening any channel never deselects a pixel. */
  lemma Rgb2BooleanMonotone(p: Pixel, q: Pixel)
    requires p.c0 <= q.c0 && p.c1 <= q.c1 && p.c2 <= q.c2
    ensures Rgb2Boolean(p) ==> Rgb2Boolean(q)
  {
  }

  predicate SameShape<A, B>(a: seq<seq<A>>, b: seq<seq<B>>) {
    |a| == |b| && forall i :: 0 <= i < |a| ==> |a[i]| == |b[i]|
  }

  /** `rgb2boolean` vectorised over the pixels of a raster: a boolean raster of
      the same shape, selecting exactly the bright cells. */
  function MaskRaster(img: seq<seq<Pixel>>): (m: seq<seq<bool>>)
    ensures SameShape(img, m)
    ensures forall i, j :: 0 <= i < |img| && 0 <= j < |img[i]| ==>
              (m[i][j] <==> img[i][j].c0 + img[i][j].c1 + img[i][j].c2 > 255)
  {
    seq(|img|, i requires 0 <= i < |img| =>
      seq(|img[i]|, j requires 0 <= j < |img[i]| => Rgb2Boolean(img[i][j])))
  }

  /** The cells of a raster in row-major order. */
  function Flatten<T>(g: seq<seq<T>>): seq<T> {
    if g == [] then [] else g[0] + Flatten(g[1..])
  }

  lemma {:induction false} FlattenSameShape<A, B>(a: seq<seq<A>>, b: seq<seq<B>>)
    requires SameShape(a, b)
    ensures |Flatten(a)| == |Flatten(b)|
  {
    if a != [] {
      FlattenSameShape(a[1..], b[1..]);
    }
  }

  lemma {:induction false} FlattenLength<T>(g: seq<seq<T>>, w: nat)
    requires forall i :: 0 <= i < |g| ==> |g[i]| == w
    ensures |Flatten(g)| == |g| * w
  {
    if g != [] {
      FlattenLength(g[1..], w);
    }
  }

  /** In a raster of rows of width `w`, cell (row, col) is element row * w + col
      of the row-major order. */
  lemma {:induction false} FlattenAt<T>(g: seq<seq<T>>, w: nat, row: nat, col: nat)
    requires forall i :: 0 <= i < |g| ==> |g[i]| == w
    requires row < |g| && col < w
    ensures row * w + col < |Flatten(g)| && Flatten(g)[row * w + col] == g[row][col]
  {
    FlattenLength(g[1..], w);
    if row > 0 {
      FlattenAt(g[1..], w, row - 1, col);
      assert row * w + col == w + ((row - 1) * w + col);
    }
  }

  /** The number of selected cells. */
  function CountSelected(m: seq<bool>): nat {
    multiset(m)[true]
  }

  /** The positions of the selected cells, in ascending order. */
  function TrueIndices(m: seq<bool>): (r: seq<nat>)
    ensures |r| == CountSelected(m)
    ensures forall k :: 0 <= k < |r| ==> r[k] < |m| && m[r[k]]
    ensures forall k, l :: 0 <= k < l < |r| ==> r[k] < r[l]
    ensures forall j :: 0 <= j < |m| && m[j] ==> j in r
  {
    if m == [] then []
    else
      var n := |m| - 1;
      assert m == m[..n] + [m[n]];
      TrueIndices(m[..n]) + (if m[n] then [n] else [])
  }

  /** Boolean indexing `xs[m]` of a flat sequence: the elements at the selected
      positions, in their original order. */
  function Keep<T>(xs: seq<T>, m: seq<bool>): (r: seq<T>)
    requires |xs| == |m|
    ensures |r| == |TrueIndices(m)|
    ensures forall k :: 0 <= k < |r| ==> r[k] == xs[TrueIndices(m)[k]]
  {
    if m == [] then []
    else
      var n := |m| - 1;
      Keep(xs[..n], m[..n]) + (if m[n] then [xs[n]] else [])
  }

  /** `image[mask]` for a raster and a boolean raster of its shape. */
  function Select<T>(img: seq<seq<T>>, mask: seq<seq<bool>>): (r: seq<T>)
    requires SameShape(img, mask)
    ensures |r| == CountSelected(Flatten(mask))
    ensures forall k :: 0 <= k < |r| ==>
              var p := TrueIndices(Flatten(mask))[k];
              p < |Flatten(img)| && Flatten(mask)[p] && r[k] == Flatten(img)[p]
  {
    FlattenSameShape(img, mask);
    Keep(Flatten(img), Flatten(mask))
  }

  /** Filtering the rendered and the ground-truth raster by one mask keeps as
      many pixels from each as the mask selects, in row-major order, and the
      k-th kept pixel of both comes from the same position. */
  lemma MaskedPixelsAligned<A, B>(nerf: seq<seq<A>>, truth: seq<seq<B>>, mask: seq<seq<bool>>)
    requires SameShape(nerf, mask) && SameShape(truth, mask)
    ensures var sel := TrueIndices(Flatten(mask));
            |Select(nerf, mask)| == |Select(truth, mask)| == |sel| == CountSelected(Flatten(mask)) &&
            forall k :: 0 <= k < |sel| ==>
              sel[k] < |Flatten(nerf)| && sel[k] < |Flatten(truth)| &&
              Select(nerf, mask)[k] == Flatten(nerf)[sel[k]] &&
              Select(truth, mask)[k] == Flatten(truth)[sel[k]]
  {
    FlattenSameShape(nerf, mask);
    FlattenSameShape(truth, mask);
  }

  lemma MulMonotone(a: nat, b: nat, w: nat)
    requires a <= b
    ensures a * w <= b * w
  {
  }

  lemma RowAndColumn(p: nat, n: nat, w: nat)
    requires p < n * w
    ensures w > 0 && 0 <= p / w < n && 0 <= p % w < w && p == (p / w) * w + p % w
  {
    if p / w >= n {
      MulMonotone(n, p / w, w);
    }
  }

  /** Element p of the row-major order of a raster of width `w` is the cell at
      row p / w, column p % w. */
  lemma CellOfPosition<T>(g: seq<seq<T>>, w: nat, p: nat)
    requires forall i :: 0 <= i < |g| ==> |g[i]| == w
    requires p < |Flatten(g)|
    ensures w > 0 && 0 <= p / w < |g| && 0 <= p % w < w && Flatten(g)[p] == g[p / w][p % w]
  {
    FlattenLength(g, w);
    RowAndColumn(p, |g|, w);
    FlattenAt(g, w, p / w, p % w);
  }

  /** For rasters of width `w`, the k-th selected pixel is the one at row p / w,
      column p % w, where p is the k-th selected position, and the mask is true there. */
  lemma SelectedCell<T>(img: seq<seq<T>>, mask: seq<seq<bool>>, w: nat, k: nat)
    requires SameShape(img, mask)
    requires forall i :: 0 <= i < |mask| ==> |mask[i]| == w
    requires w > 0 && k < CountSelected(Flatten(mask))
    ensures var p := TrueIndices(Flatten(mask))[k];
            0 <= p / w < |img| && 0 <= p % w < w && mask[p / w][p % w] &&
            Select(img, mask)[k] == img[p / w][p % w]
  {
    FlattenSameShape(img, mask);
    var fm := Flatten(mask);
    var p := TrueIndices(fm)[k];
    assert p < |fm| && fm[p];
    assert Select(img, mask)[k] == Flatten(img)[p];
    CellOfPosition(mask, w, p);
    assert forall i :: 0 <= i < |img| ==> |img[i]| == w;
    CellOfPosition(img, w, p);
  }
}
