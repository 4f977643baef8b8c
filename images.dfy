/** The parts of Go's `image` package that the pixel loop touches: a rectangle
    of bounds, a read-only input image, and the in-place grayscale output image
    created by `image.NewGray` and written by `(*Gray).Set`. */
module Images {
  import opened GoInts

  /** `image.Rectangle`: the half-open box [minX, maxX) × [minY, maxY). */
  datatype Rect = Rect(minX: int, minY: int, maxX: int, maxY: int) {

    /** Min is not beyond Max on either axis, as every decoded image's bounds are. */
    predicate WellFormed() {
      minX <= maxX && minY <= maxY
    }

    /** `image.Point.In`: the point lies inside the bounds. */
    predicate Contains(x: int, y: int) {
      minX <= x < maxX && minY <= y < maxY
    }
  }

  /** The `image.Image` interface: its bounds and its colour at each point. */
  datatype Image<C> = Image(bounds: Rect, at: (int, int) -> C)

  /** `image.Gray`: one 8-bit intensity per point of `rect`, stored in the 2D
      array `pix` with the point (x, y) at index [x - rect.minX, y - rect.minY]. */
  class Gray {
    const rect: Rect
    const pix: array2<uint8>

    ghost predicate Valid() {
      rect.WellFormed() &&
      pix.Length0 == rect.maxX - rect.minX &&
      pix.Length1 == rect.maxY - rect.minY
    }

    /** `(*Gray).At`: the stored intensity inside the bounds, black (0) outside. */
    function At(x: int, y: int): uint8
      requires Valid()
      reads pix
    {
      if rect.Contains(x, y) then pix[x - rect.minX, y - rect.minY] else 0
    }

    /** `image.NewGray(r)`: an all-black image with bounds `r`. Go panics on a
        rectangle with negative width or height, so `r` must be well formed. */
    constructor (r: Rect)
      requires r.WellFormed()
      ensures Valid() && rect == r && fresh(pix)
      ensures forall x, y :: At(x, y) == 0
    {
      rect := r;
      pix := new uint8[r.maxX - r.minX, r.maxY - r.minY]((i, j) => 0);
    }

    /** `(*Gray).Set(x, y, c)`: writes `c` at (x, y) when the point is inside
        the bounds and does nothing otherwise. */
    method Set(x: int, y: int, c: uint8)
      requires Valid()
      modifies pix
      ensures forall i, j :: At(i, j) == if i == x && j == y && rect.Contains(x, y) then c else old(At(i, j))
    {
      if rect.Contains(x, y) {
        pix[x - rect.minX, y - rect.minY] := c;
      }
    }
  }
}
