/** The pixel loop of `main`: a grayscale image with the input's bounds is
    allocated and every in-bounds point receives the quantized gray value of
    the input pixel at the same point. */
module Posterize {
  import opened GoInts
  import opened Images
  import opened Quantizer

  /** Allocates the output with `image.NewGray(img.Bounds())` and fills it
      column by column (x outer, y inner), writing each point once. Since every
      point's value depends only on the input pixel at that point, the
      traversal order does not show in the result. */
  method QuantizeImage(cfg: Config, img: Image<Pixel>) returns (out: Gray)
    requires img.bounds.WellFormed()
    ensures fresh(out) && fresh(out.pix) && out.Valid()
    ensures out.rect == img.bounds
    ensures forall x, y :: out.At(x, y) == if img.bounds.Contains(x, y) then cfg.GrayOf(img.at(x, y)) else 0
  {
    var bounds := img.bounds;
    out := new Gray(bounds);
    var x := bounds.minX;
    while x < bounds.maxX
      invariant bounds.minX <= x <= bounds.maxX
      invariant fresh(out.pix) && out.Valid() && out.rect == bounds
      invariant forall i, j ::
                  out.At(i, j) == if bounds.Contains(i, j) && i < x then cfg.GrayOf(img.at(i, j)) else 0
    {
      var y := bounds.minY;
      while y < bounds.maxY
        invariant bounds.minY <= y <= bounds.maxY
        invariant fresh(out.pix) && out.Valid() && out.rect == bounds
        invariant forall i, j ::
                    out.At(i, j) == if bounds.Contains(i, j) && (i < x || (i == x && j < y)) then cfg.GrayOf(img.at(i, j)) else 0
      {
        var g := cfg.Convert(img.at(x, y));
        out.Set(x, y, g);
        y := y + 1;
      }
      x := x + 1;
    }
  }
}
