/** `get_image_grid`: the samples of one request pasted side by side into a
    single canvas, row by row, `layout.cols` tiles per row. */
module ImageGrid {
  import opened Outcome
  import opened Grid
  import Arith

  /** A raster addressed as PIL addresses it, by (x, y); `pixels[x][y]`. */
  datatype Image<T> = Image(width: nat, height: nat, pixels: seq<seq<T>>)
  {
    predicate Valid() {
      |pixels| == width && forall x :: 0 <= x < width ==> |pixels[x]| == height
    }

    function At(x: nat, y: nat): T
      requires Valid() && x < width && y < height
    {
      pixels[x][y]
    }
  }

  /** Every tile is well formed and has the size of the first one. */
  predicate Uniform<T>(tiles: seq<Image<T>>, w: nat, h: nat) {
    forall i :: 0 <= i < |tiles| ==> tiles[i].Valid() && tiles[i].width == w && tiles[i].height == h
  }

  datatype GridError =
    | CountMismatch  // the tile count is not rows * cols: the assertion fails
    | NoTiles        // no tiles at all: reading the first tile's size fails

  /** The tile whose box holds canvas pixel (x, y). */
  function Owner(cols: nat, w: nat, h: nat, x: nat, y: nat): nat
    requires w > 0 && h > 0
  {
    (y / h) * cols + x / w
  }

  /** Every pixel of a (cols * w) x (rows * h) canvas has an owner among the
      rows * cols tiles. */
  lemma OwnerInRange(layout: Layout, w: nat, h: nat, x: nat, y: nat)
    requires x < layout.cols * w && y < layout.rows * h
    ensures w > 0 && h > 0 && layout.cols > 0
    ensures x % w < w && y % h < h
    ensures Owner(layout.cols, w, h, x, y) < layout.rows * layout.cols
  {
    QuotientBelow(x, w, layout.cols);
    QuotientBelow(y, h, layout.rows);
    RowMajorBelow(x / w, y / h, layout.cols, layout.rows);
  }

  /** Below n whole blocks of size w: positive sizes and a block index below n. */
  lemma QuotientBelow(x: nat, w: nat, n: nat)
    requires x < n * w
    ensures w > 0 && n > 0 && x / w < n
  {
    Arith.MulBounds(w, n);
    Arith.MulBounds(n, w);
    Arith.MulBounds(x / w - n, w);
  }

  /** Row-major numbering of a cell inside a rows x cols grid stays below rows * cols. */
  lemma RowMajorBelow(qx: nat, qy: nat, cols: nat, rows: nat)
    requires qx < cols && qy < rows
    ensures qy * cols + qx < rows * cols
  {
    Arith.MulBounds(rows - 1 - qy, cols);
    assert rows * cols - qy * cols == (rows - qy) * cols;
  }

  /** Pixel (x, y) of the assembled grid: pixel (x % w, y % h) of the tile
      that owns it. */
  function GridPixel<T>(tiles: seq<Image<T>>, layout: Layout, w: nat, h: nat, x: nat, y: nat): T
    requires Uniform(tiles, w, h) && |tiles| == layout.rows * layout.cols
    requires x < layout.cols * w && y < layout.rows * h
  {
    OwnerInRange(layout, w, h, x, y);
    tiles[Owner(layout.cols, w, h, x, y)].At(x % w, y % h)
  }

  /** Canvas pixel (x, y) once the first `done` tiles have been pasted. */
  function PartialGridPixel<T>(tiles: seq<Image<T>>, layout: Layout, w: nat, h: nat, done: nat,
                               background: T, x: nat, y: nat): T
    requires Uniform(tiles, w, h) && |tiles| == layout.rows * layout.cols
    requires x < layout.cols * w && y < layout.rows * h
  {
    OwnerInRange(layout, w, h, x, y);
    if Owner(layout.cols, w, h, x, y) < done then GridPixel(tiles, layout, w, h, x, y) else background
  }

  /** The box of tile i starts at ((i % cols) * w, (i / cols) * h). */
  predicate InBox(i: nat, cols: nat, w: nat, h: nat, x: nat, y: nat)
    requires cols > 0
  {
    && (i % cols) * w <= x < (i % cols) * w + w
    && (i / cols) * h <= y < (i / cols) * h + h
  }

  /** A pixel lies in the box of its owner, at offset (x % w, y % h). */
  lemma OwnerBoxHoldsPixel(layout: Layout, w: nat, h: nat, x: nat, y: nat)
    requires x < layout.cols * w && y < layout.rows * h
    ensures w > 0 && h > 0 && layout.cols > 0
    ensures var i := Owner(layout.cols, w, h, x, y);
      && InBox(i, layout.cols, w, h, x, y)
      && x - (i % layout.cols) * w == x % w && y - (i / layout.cols) * h == y % h
  {
    var cols := layout.cols;
    QuotientBelow(x, w, cols);
    QuotientBelow(y, h, layout.rows);
    var qx, qy := x / w, y / h;
    var i := qy * cols + qx;
    Arith.DivModUnique(i, cols, qy, qx);
    BlockOffset(x, w);
    BlockOffset(y, h);
  }

  /** x lies in block x / w of size w, at offset x % w. */
  lemma BlockOffset(x: nat, w: nat)
    requires w > 0
    ensures x == (x / w) * w + x % w && 0 <= x % w < w
  {
  }

  /** A pixel in the box of tile i is owned by i, at offset (x % w, y % h). */
  lemma BoxPixelHasOwner(layout: Layout, w: nat, h: nat, i: nat, x: nat, y: nat)
    requires x < layout.cols * w && y < layout.rows * h
    requires layout.cols > 0 && InBox(i, layout.cols, w, h, x, y)
    ensures w > 0 && h > 0
    ensures i == Owner(layout.cols, w, h, x, y)
    ensures x - (i % layout.cols) * w == x % w && y - (i / layout.cols) * h == y % h
  {
    var cols := layout.cols;
    OwnerInRange(layout, w, h, x, y);
    var a, b := i % cols, i / cols;
    assert i == b * cols + a;
    Arith.DivModUnique(x, w, a, x - a * w);
    Arith.DivModUnique(y, h, b, y - b * h);
  }

  /** The boxes of the tiles are pairwise disjoint and cover the canvas: the
      pixel (x, y) lies in the box of tile i exactly when i owns it, and then
      it is pixel (x % w, y % h) of that tile. */
  lemma BoxesPartitionCanvas(layout: Layout, w: nat, h: nat, i: nat, x: nat, y: nat)
    requires x < layout.cols * w && y < layout.rows * h
    ensures w > 0 && h > 0 && layout.cols > 0
    ensures InBox(i, layout.cols, w, h, x, y) <==> i == Owner(layout.cols, w, h, x, y)
    ensures InBox(i, layout.cols, w, h, x, y) ==>
      x - (i % layout.cols) * w == x % w && y - (i / layout.cols) * h == y % h
  {
    OwnerBoxHoldsPixel(layout, w, h, x, y);
    if InBox(i, layout.cols, w, h, x, y) {
      BoxPixelHasOwner(layout, w, h, i, x, y);
    }
  }

  /** Pasting tile i changes exactly the pixels of its box, and there puts
      the grid's own pixel. */
  lemma PasteStep<T>(tiles: seq<Image<T>>, layout: Layout, w: nat, h: nat, i: nat,
                     background: T, x0: nat, y0: nat, x: nat, y: nat)
    requires Uniform(tiles, w, h) && |tiles| == layout.rows * layout.cols && i < |tiles|
    requires layout.cols > 0 && x0 == (i % layout.cols) * w && y0 == (i / layout.cols) * h
    requires x < layout.cols * w && y < layout.rows * h
    ensures PartialGridPixel(tiles, layout, w, h, i + 1, background, x, y) ==
      if x0 <= x < x0 + tiles[i].width && y0 <= y < y0 + tiles[i].height
      then tiles[i].At(x - x0, y - y0)
      else PartialGridPixel(tiles, layout, w, h, i, background, x, y)
  {
    BoxesPartitionCanvas(layout, w, h, i, x, y);
  }

  /** Once every tile is pasted, the canvas is the grid. */
  lemma AllPasted<T>(tiles: seq<Image<T>>, layout: Layout, w: nat, h: nat, background: T, x: nat, y: nat)
    requires Uniform(tiles, w, h) && |tiles| == layout.rows * layout.cols
    requires x < layout.cols * w && y < layout.rows * h
    ensures PartialGridPixel(tiles, layout, w, h, |tiles|, background, x, y)
         == GridPixel(tiles, layout, w, h, x, y)
  {
    OwnerInRange(layout, w, h, x, y);
  }

  /** Inside the box of tile i the grid shows tile i, shifted to the box corner. */
  lemma GridPixelInBox<T>(tiles: seq<Image<T>>, layout: Layout, w: nat, h: nat, i: nat, x: nat, y: nat)
    requires Uniform(tiles, w, h) && |tiles| == layout.rows * layout.cols && i < |tiles|
    requires x < layout.cols * w && y < layout.rows * h
    requires layout.cols > 0 && InBox(i, layout.cols, w, h, x, y)
    ensures GridPixel(tiles, layout, w, h, x, y)
         == tiles[i].At(x - (i % layout.cols) * w, y - (i / layout.cols) * h)
  {
    BoxesPartitionCanvas(layout, w, h, i, x, y);
  }

  /** `grid.paste(img, box=(x0, y0))`: the tile is copied onto the canvas with
      its corner at (x0, y0), clipped at the canvas edge; nothing else changes. */
  method Paste<T>(canvas: array2<T>, tile: Image<T>, x0: nat, y0: nat)
    requires tile.Valid()
    modifies canvas
    ensures forall x, y :: 0 <= x < canvas.Length0 && 0 <= y < canvas.Length1 ==>
      canvas[x, y] == if x0 <= x < x0 + tile.width && y0 <= y < y0 + tile.height
                      then tile.At(x - x0, y - y0) else old(canvas[x, y])
  {
    var dx := 0;
    while dx < tile.width && x0 + dx < canvas.Length0
      invariant 0 <= dx <= tile.width
      invariant forall x, y :: 0 <= x < canvas.Length0 && 0 <= y < canvas.Length1 ==>
        canvas[x, y] == if x0 <= x < x0 + dx && y0 <= y < y0 + tile.height
                        then tile.At(x - x0, y - y0) else old(canvas[x, y])
    {
      var dy := 0;
      while dy < tile.height && y0 + dy < canvas.Length1
        invariant 0 <= dy <= tile.height
        invariant forall x, y :: 0 <= x < canvas.Length0 && 0 <= y < canvas.Length1 ==>
          canvas[x, y] == if (x0 <= x < x0 + dx && y0 <= y < y0 + tile.height)
                             || (x == x0 + dx && y0 <= y < y0 + dy)
                          then tile.At(x - x0, y - y0) else old(canvas[x, y])
      {
        canvas[x0 + dx, y0 + dy] := tile.At(dx, dy);
        dy := dy + 1;
      }
      dx := dx + 1;
    }
  }

  /** One turn of the loop of `get_image_grid`: pasting tile i onto a canvas
      that holds tiles 0..i-1 gives the canvas that holds tiles 0..i. */
  method PasteTile<T>(canvas: array2<T>, tiles: seq<Image<T>>, layout: Layout, w: nat, h: nat,
                      background: T, i: nat)
    requires Uniform(tiles, w, h) && |tiles| == layout.rows * layout.cols && i < |tiles|
    requires canvas.Length0 == layout.cols * w && canvas.Length1 == layout.rows * h
    requires forall x, y | 0 <= x < canvas.Length0 && 0 <= y < canvas.Length1 ::
      canvas[x, y] == PartialGridPixel(tiles, layout, w, h, i, background, x, y)
    modifies canvas
    ensures forall x, y | 0 <= x < canvas.Length0 && 0 <= y < canvas.Length1 ::
      canvas[x, y] == PartialGridPixel(tiles, layout, w, h, i + 1, background, x, y)
  {
    var cols := layout.cols;
    Arith.PositiveFactors(layout.rows, cols);
    Arith.NaturalProduct(i % cols, w);
    Arith.NaturalProduct(i / cols, h);
    var x0, y0 := (i % cols) * w, (i / cols) * h;
    Paste(canvas, tiles[i], x0, y0);
    forall x, y | 0 <= x < canvas.Length0 && 0 <= y < canvas.Length1
      ensures canvas[x, y] == PartialGridPixel(tiles, layout, w, h, i + 1, background, x, y)
    {
      PasteStep(tiles, layout, w, h, i, background, x0, y0, x, y);
    }
  }

  /** The loop of `get_image_grid`: tiles pasted one after the other onto a
      blank canvas of the grid's size, tile i at ((i % cols) * w, (i / cols) * h). */
  method PasteTiles<T>(canvas: array2<T>, tiles: seq<Image<T>>, layout: Layout, w: nat, h: nat,
                       background: T)
    requires Uniform(tiles, w, h) && |tiles| == layout.rows * layout.cols && |tiles| > 0
    requires canvas.Length0 == layout.cols * w && canvas.Length1 == layout.rows * h
    requires forall x, y | 0 <= x < canvas.Length0 && 0 <= y < canvas.Length1 :: canvas[x, y] == background
    modifies canvas
    ensures forall x, y | 0 <= x < canvas.Length0 && 0 <= y < canvas.Length1 ::
      canvas[x, y] == GridPixel(tiles, layout, w, h, x, y)
  {
    var i := 0;
    while i < |tiles|
      invariant 0 <= i <= |tiles|
      invariant forall x, y | 0 <= x < canvas.Length0 && 0 <= y < canvas.Length1 ::
        canvas[x, y] == PartialGridPixel(tiles, layout, w, h, i, background, x, y)
    {
      PasteTile(canvas, tiles, layout, w, h, background, i);
      i := i + 1;
    }
    forall x, y | 0 <= x < canvas.Length0 && 0 <= y < canvas.Length1
      ensures canvas[x, y] == GridPixel(tiles, layout, w, h, x, y)
    {
      AllPasted(tiles, layout, w, h, background, x, y);
    }
  }

  /** `get_image_grid(imgs, layout)`: a fresh canvas of (cols * w) x (rows * h)
      pixels, initially `background`, with tile i pasted at
      ((i % cols) * w, (i / cols) * h). Afterwards every tile appears whole in
      its box, and every canvas pixel comes from the tile that owns it. */
  method MakeGrid<T>(tiles: seq<Image<T>>, layout: Layout, background: T)
    returns (r: Result<array2<T>, GridError>)
    requires |tiles| > 0 ==> Uniform(tiles, tiles[0].width, tiles[0].height)
    ensures |tiles| != layout.rows * layout.cols ==> r == Err(CountMismatch)
    ensures |tiles| == layout.rows * layout.cols == 0 ==> r == Err(NoTiles)
    ensures r.Ok? <==> |tiles| == layout.rows * layout.cols > 0
    ensures r.Ok? ==> fresh(r.value)
    ensures r.Ok? ==>
      var w, h := tiles[0].width, tiles[0].height;
      && r.value.Length0 == layout.cols * w && r.value.Length1 == layout.rows * h
      && (forall i, x, y | 0 <= i < |tiles| && 0 <= x < r.value.Length0 && 0 <= y < r.value.Length1
            && InBox(i, layout.cols, w, h, x, y) ::
            r.value[x, y] == tiles[i].At(x - (i % layout.cols) * w, y - (i / layout.cols) * h))
      && (forall x, y | 0 <= x < r.value.Length0 && 0 <= y < r.value.Length1 ::
            r.value[x, y] == GridPixel(tiles, layout, w, h, x, y))
  {
    if |tiles| != layout.rows * layout.cols {
      return Err(CountMismatch);
    }
    if |tiles| == 0 {
      return Err(NoTiles);
    }
    var cols, w, h := layout.cols, tiles[0].width, tiles[0].height;
    var canvas := new T[cols * w, layout.rows * h]((x, y) => background);
    PasteTiles(canvas, tiles, layout, w, h, background);
    forall i, x, y | 0 <= i < |tiles| && 0 <= x < canvas.Length0 && 0 <= y < canvas.Length1
      && InBox(i, cols, w, h, x, y)
      ensures canvas[x, y] == tiles[i].At(x - (i % cols) * w, y - (i / cols) * h)
    {
      GridPixelInBox(tiles, layout, w, h, i, x, y);
    }
    r := Ok(canvas);
  }
}
