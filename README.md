# Luminance quantizer (posterizer) — Dafny model

The program reads a colour image and writes a banded grayscale image. For each
pixel it computes the luminance `(299·r + 587·g + 114·b) / 1000` from the 16-bit
samples `RGBA()` returns, ignoring alpha. The computation is done in `uint32`
and the result is truncated to `uint8`. It then scans an ordered table of
`(Level, Color)` pairs. The pixel gets the `Color` of the first entry whose
`Level` (also truncated to 8 bits) is strictly greater than the luminance. If
no entry matches, the pixel becomes white (255). The default table is
`(50,0), (100,50), (150,100)`. `main` allocates a gray image with the input's
bounds and fills it column by column.

Modules:

- `GoInts` (`go_ints.dfy`): the `uint8` newtype, Go's truncating conversion
  `uint8(x)`, and the `uint32` wrap-around.
- `Quantizer` (`quantizer.dfy`): pixels, levels and the configuration, the
  luminance, and the first-match scan. `Band` is the scan as a recursive
  function. `Config.Convert` is the source's loop with its early return,
  proved equal to `Band`. The lemmas characterise `Band`.
- `Images` (`images.dfy`): the bounds rectangle, the read-only input image
  (bounds plus the colour at each point), and the grayscale output class
  `Gray`. `Gray` is created all black, like `image.NewGray`. Its `Set`, like
  `(*Gray).Set`, ignores points outside the bounds.
- `Posterize` (`posterize.dfy`): the nested pixel loop of `main`, which fills a
  fresh `Gray` in place.

Observations the proofs bring out:

- The 8-bit truncation wraps bright pixels around. A gray pixel with samples
  0xFF00, which is nearly white, has luminance 0 and comes out black under the
  default table (`LuminanceWrapsAround`). The model keeps this wrap-around
  because that is what the code does.
- The scan is non-decreasing in the luminance whenever the table's colours
  ascend, whatever order the thresholds are in (`BandMonotone`). Sorting the
  thresholds alone is not enough (`AscendingThresholdsNotEnough`).

## Model

| member | source | states |
|---|---|---|
| `GoInts.Uint8` | qantizer.go:35-38 | The `uint8(...)` conversion leaves values in 0..255 unchanged. It always differs from its argument by a multiple of 256. |
| `GoInts.Wrap32` | qantizer.go:35 | A `uint32` result lies in [0, 2^32), differs from the mathematical value by a multiple of 2^32, and equals it when it fits. |
| `Quantizer.Config.Convert` | qantizer.go:33-43 | The loop with its early return gives exactly the first-match band `Band(levels, Luminance(p))`. |
| `Quantizer.LuminanceNoWrap` | qantizer.go:34-35 | With 16-bit red, green and blue samples the weighted sum is at most 1000·0xFFFF < 2^32, so it never wraps. The luminance is then (weighted sum / 1000) mod 256. |
| `Quantizer.AlphaIgnored` | qantizer.go:34 | Changing the alpha sample changes neither the luminance nor the output gray. |
| `Quantizer.AchromaticLuminance` | qantizer.go:34-35 | A pixel with r = g = b = v has luminance v mod 256, so it gets that value's band for any table. |
| `Quantizer.LuminanceWrapsAround` | qantizer.go:35 | Near-white 0xFF00 gray has luminance 0 and maps to black under the default table. Full white has luminance 255 and maps to white. |
| `Quantizer.BandFirstMatch` | qantizer.go:36-40 | If level i captures the luminance (threshold strictly greater) and no earlier level does, the result is level i's colour truncated to 8 bits. |
| `Quantizer.BandNoMatch` | qantizer.go:42 | If no level's threshold exceeds the luminance, the result is 255. This includes the empty table. |
| `Quantizer.BandCases` | qantizer.go:36-42 | Every result comes from one of two cases: the first capturing level's colour, or 255 when no level captures the luminance. |
| `Quantizer.BandSkipsNonCapturing` | qantizer.go:37 | The comparison is strict, so a level whose threshold is equal to or below the luminance never wins. Deleting it from the table leaves the result unchanged. |
| `Quantizer.BandAtLeast` | qantizer.go:36-42 | A lower bound on every colour in the table is also a lower bound on the result. |
| `Quantizer.BandMonotone` | qantizer.go:36-42 | If the colours ascend along the table, a larger luminance never gives a smaller gray. |
| `Quantizer.AscendingThresholdsNotEnough` | qantizer.go:36-42 | Ascending thresholds alone do not make the mapping monotone. A two-level table with a counterexample is exhibited. |
| `Quantizer.DefaultBands` | qantizer.go:53-57 | The default table maps a luminance below 50 to 0, 50..99 to 50, 100..149 to 100, and anything else to 255. Luminance 50 maps to 50 and 100 maps to 100. |
| `Quantizer.DefaultMonotone` | qantizer.go:53-57 | Under the default table the output never decreases as the luminance grows. |
| `Images.Gray.constructor` | qantizer.go:77 | `image.NewGray(bounds)` creates an image with exactly the given bounds, all black. |
| `Images.Gray.Set` | qantizer.go:80 | A point inside the bounds receives the value. Every other point keeps its old value. A point outside the bounds changes nothing. |
| `Posterize.QuantizeImage` | qantizer.go:77-83 | The output is fresh and has exactly the input's bounds, for any size including 0×0. Each point inside the bounds holds the converted gray of the input pixel there. Points outside the bounds read as 0. The result therefore does not depend on the traversal order. |

## Left out

- Opening and decoding the input and encoding the PNG output
  (`getImageFromFilePath`, `storeImageToFile`, qantizer.go:92-115). These are
  file I/O and library codecs. The input image is a parameter of
  `QuantizeImage`.
- How each Go colour model produces its alpha-premultiplied 16-bit `RGBA()`
  samples. That library code is not part of this model. A pixel's samples are
  inputs, and `LuminanceNoWrap` assumes they are at most 0xFFFF.
- Command-line handling, the usage text, progress and diagnostic printing, and
  the hard-coded output path (qantizer.go:14-20, 46-49, 61-75, 82, 84-89). These
  are I/O and orchestration. The `--cfg`, `<dst>` and `<level>` arguments in
  the usage text are not implemented in the source either.
- The `Left` and `Right` fields of `config` and the JSON tags
  (qantizer.go:22-31). No logic reads them, so `Config` holds only the level
  table.
- `Images.Gray`: the flat `Pix` buffer with its stride is modelled as a 2D
  array indexed from the rectangle's minimum corner. `Set` takes an 8-bit gray
  value directly, because the colour `convert` returns is already `color.Gray`,
  so the colour-model conversion inside `Set` is the identity.
- `Posterize.QuantizeImage` requires well-formed bounds (Min ≤ Max on both
  axes). `image.NewGray` panics on a rectangle with negative width or height,
  and decoded images always have well-formed bounds.
