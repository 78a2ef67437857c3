# g-diffuser-bot: the discrete helpers of `g_diffuser_lib.py`

This project models the exact, non-numeric helpers of the g-diffuser-bot
library in Dafny and proves what they promise:

- **Resolution policy** (`valid_resolution`, module `Resolution`). Missing
  dimensions come from the init image or from the default resolution. The
  width is clamped to the maximum first, then the height, each time keeping
  the aspect ratio. Both are then rounded to the resolution granularity, with
  one granularity unit as the floor. The settings the function reads from the
  global sample settings (default resolution, maximum resolution,
  granularity) are a parameter. `BotSettings` holds the bot's 512 x 512
  default and 768 x 768 maximum from `g_diffuser_bot_defaults.py`, with a
  granularity of 64. A zero height after filling is Python's
  `ZeroDivisionError`, modelled as `Err(ZeroHeight)`.
- **Grid layout** (`factorize`, `get_grid_layout`, module `Grid`). The
  divisors of the sample count in ascending order. The median divisor is the
  column count. The proof goes through divisor pairing and shows that this is
  the most nearly square layout with at least as many columns as rows.
- **Image grid** (`get_image_grid`, module `ImageGrid`). A method allocates
  a canvas `array2` and pastes tile i at `((i % cols) * w, (i / cols) * h)`
  in a loop. Its contract states two things. Every tile appears whole in its
  box. Every canvas pixel is the pixel `(x % w, y % h)` of tile
  `(y / h) * cols + x / w`.
- **File names** (`get_filename_from_prompt`, module `Filenames`). Deletes
  backslash, slash, `*`, `?`, `:`, `"`, `<`, `>` and `|`, then turns spaces
  into underscores.
- **Dictionary merge** (`merge_dicts`, module `Dicts`). Entries of the
  second dictionary override those of the first.
- **Pixel helpers** (module `Pixels`):
  - `normalize_image`;
  - `np_img_rgb_to_grey` and `np_img_grey_to_rgb`;
  - the final composite `init * (1 - m) + noise * m` clipped to [0, 1] at the
    end of `get_matched_noise`.

Python floats are modelled as exact reals. `int(x)` on a float becomes
`Trunc`, which truncates toward zero. Suppose the maxima are multiples of the
granularity, as the bot's defaults are. Then the result never exceeds the
maximum in either dimension (`Resolution.ValidResolutionWithinMaximum`). In
exact arithmetic the height clamp can never push the width back over its
maximum. The only way to overshoot is a maximum that is not a multiple of the
granularity: the final rounding can then go past it
(`Resolution.UnalignedMaximumExample`).

## Model

| member | source | states |
|---|---|---|
| Resolution.Trunc | g_diffuser_lib.py:79-80 | Python `int()` on a float: the integer part, truncated toward zero, for both signs |
| Resolution.Fill | g_diffuser_lib.py:70-75 | a falsy (None or 0) width or height is taken from the init image when there is one, else from the default resolution; a given one is kept |
| Resolution.ClampWidth | g_diffuser_lib.py:78-80 | after the width clamp the width is at most the maximum; an in-range size is unchanged; otherwise, for a positive aspect, the new height is max / aspect rounded to nearest |
| Resolution.ClampHeight | g_diffuser_lib.py:81-83 | after the height clamp the height is at most the maximum; an in-range size is unchanged; otherwise, for a non-negative aspect, the new width is max * aspect rounded to nearest |
| Resolution.RoundToGranularity | g_diffuser_lib.py:85-86 | the result is a multiple of g and, for x >= 0, the multiple nearest to x (halves up); a negative x gives at most 0 |
| Resolution.Snap | g_diffuser_lib.py:85-88 | the result is a multiple of g and at least g; it is the nearest multiple when 2x >= g, and g otherwise |
| Resolution.ValidResolution | g_diffuser_lib.py:66-90 | fails exactly when the filled height is 0; otherwise both dimensions are multiples of the granularity and at least one granularity unit |
| Resolution.SnapKeepsMultiples | g_diffuser_lib.py:85-88 | rounding leaves a positive multiple of the granularity unchanged |
| Resolution.SnapAtMost | g_diffuser_lib.py:85-88 | rounding never carries a value past a maximum that is a positive multiple of the granularity |
| Resolution.WidthClampedThenHeight | g_diffuser_lib.py:77-83 | when the width clamp left a height above the maximum, the height clamp's new width is still within the width maximum |
| Resolution.HeightClampedOnly | g_diffuser_lib.py:81-83 | when only the height is clamped, the new width is still within the width maximum |
| Resolution.ClampsKeepWidth | g_diffuser_lib.py:77-83 | after both clamps in source order the width is within the maximum |
| Resolution.ValidResolutionWithinMaximum | g_diffuser_lib.py:66-90 | with maxima that are multiples of the granularity, a result never exceeds the maximum in either dimension |
| Resolution.ValidResolutionKeepsValid | g_diffuser_lib.py:66-90 | positive multiples of the granularity within the maximum come back unchanged |
| Resolution.GivenDimensionsIgnoreImage | g_diffuser_lib.py:70-75 | explicit non-zero dimensions win over the init image |
| Resolution.MissingDimensionsFromImage | g_diffuser_lib.py:73-75 | missing dimensions are the init image's size |
| Resolution.WideExample | g_diffuser_lib.py:77-90 | 2000 x 1000 under a 768 x 768 maximum, granularity 64, gives 768 x 384 (width clamped first) |
| Resolution.TallExample | g_diffuser_lib.py:77-90 | 1000 x 2000 under the same settings gives 384 x 768 (both clamps, width first: 768 x 1536, then the height) |
| Resolution.DefaultExample | g_diffuser_lib.py:70-72 | no width and a zero height with no init image gives the default 512 x 512 |
| Resolution.UnalignedMaximumExample | g_diffuser_lib.py:85-90 | a 100 x 100 maximum with granularity 64 lets 100 x 100 become 128 x 128 |
| Grid.DivisorsUpTo | g_diffuser_lib.py:153-154 | the divisors of n in 1..k, exactly and strictly ascending |
| Grid.Factorize | g_diffuser_lib.py:153-154 | exactly the divisors of n in strictly ascending order; empty for n <= 0; first 1 and last n for n >= 1 |
| Grid.SameElementsSameSeq | g_diffuser_lib.py:153-154 | two strictly ascending lists with the same elements are equal, so the divisor list is unique |
| Grid.QuotientIsDivisor | g_diffuser_lib.py:158-160 | the quotient n / d of a divisor is a divisor whose quotient is d |
| Grid.DivisorPairing | g_diffuser_lib.py:156-161 | the i-th smallest and i-th largest divisors multiply to n |
| Grid.MedianDivisor | g_diffuser_lib.py:156-161 | the median divisor c has n / c <= c, c * c >= n, and every smaller divisor d has d * d < n |
| Grid.GridLayout | g_diffuser_lib.py:156-161 | a layout exists exactly for n >= 1; rows * cols == n, 1 <= rows <= cols, and cols is the least divisor whose square reaches n |
| Grid.SixSamplesLayout | g_diffuser_lib.py:156-161 | six samples are laid out as 2 rows of 3 |
| ImageGrid.OwnerInRange | g_diffuser_lib.py:163-170 | every canvas pixel's owner index is below rows * cols, and its offset lies inside a tile |
| ImageGrid.BoxesPartitionCanvas | g_diffuser_lib.py:168-169 | the tile boxes are disjoint and cover the canvas: a pixel is in tile i's box exactly when i owns it, at offset (x % w, y % h) |
| ImageGrid.PasteStep | g_diffuser_lib.py:168-169 | pasting tile i changes exactly the pixels of its box |
| ImageGrid.AllPasted | g_diffuser_lib.py:168-170 | once all tiles are pasted, every pixel shows its owner's tile |
| ImageGrid.GridPixelInBox | g_diffuser_lib.py:168-169 | inside tile i's box the grid shows tile i shifted to the box corner |
| ImageGrid.Paste | g_diffuser_lib.py:169 | `paste` copies the tile with its corner at (x0, y0), clipped at the canvas edge, and leaves every other pixel alone |
| ImageGrid.PasteTile | g_diffuser_lib.py:168-169 | one turn of the paste loop: a canvas holding tiles 0..i-1 becomes one holding tiles 0..i |
| ImageGrid.PasteTiles | g_diffuser_lib.py:168-169 | the paste loop turns a blank canvas into the grid, pixel for pixel |
| ImageGrid.MakeGrid | g_diffuser_lib.py:163-170 | a count mismatch or no tiles is an error; otherwise a fresh (cols * w) x (rows * h) canvas holding every tile whole in its box, every pixel from its owner tile |
| Filenames.StripForbidden | g_diffuser_lib.py:104 | no forbidden character remains; every other character is kept; never longer than the input |
| Filenames.SpacesToUnderscores | g_diffuser_lib.py:104 | same length; each space becomes an underscore and every other character stays in place |
| Filenames.FilenameFromPrompt | g_diffuser_lib.py:103-104 | the name has no forbidden character and no space, is no longer than the prompt, and keeps every other character of it |
| Filenames.StripForbiddenAppend | g_diffuser_lib.py:104 | character removal works piecewise over a concatenation |
| Filenames.SpacesToUnderscoresAppend | g_diffuser_lib.py:104 | space replacement works piecewise over a concatenation |
| Filenames.FilenameAppend | g_diffuser_lib.py:103-104 | the name of a concatenation is the concatenation of the names, so the order is kept |
| Filenames.FilenameOfChar | g_diffuser_lib.py:103-104 | one character: a forbidden one is dropped, a space becomes `_`, any other is kept |
| Filenames.SafeKeptByStrip | g_diffuser_lib.py:104 | a string with no forbidden character is not changed by the removal |
| Filenames.SafeNameUnchanged | g_diffuser_lib.py:103-104 | a name that is already safe comes back unchanged |
| Filenames.FilenameIdempotent | g_diffuser_lib.py:103-104 | applying the conversion twice is applying it once |
| Filenames.PromptExample | g_diffuser_lib.py:103-104 | "a cat?" becomes "a_cat" |
| Dicts.MergeDicts | g_diffuser_lib.py:63-64 | the keys are those of both; d2's value wins on a shared key, and d1's value stands elsewhere |
| Dicts.MergeIdentity | g_diffuser_lib.py:63-64 | merging with an empty dictionary on either side changes nothing |
| Dicts.MergeIdempotent | g_diffuser_lib.py:63-64 | merging the same overrides twice is merging them once |
| Dicts.MergeAssociative | g_diffuser_lib.py:63-64 | successive merges associate |
| Pixels.Min | g_diffuser_lib.py:238 | `np.min`: an element of the array no larger than any element |
| Pixels.Max | g_diffuser_lib.py:239 | `np.max`: an element of the array no smaller than any element |
| Pixels.Normalize | g_diffuser_lib.py:237-241 | an empty array and a constant array are errors (np.min raises, the assert fails); otherwise each value is the affine rescale of its input (scaled by max - min and shifted by min it gives the input back, `ScaledBack`), every value lies in [0, 1], 0 and 1 both occur, and the order of values is kept both ways |
| Pixels.Rescale | g_diffuser_lib.py:238-241 | shifting a non-constant array by its minimum and dividing by its range gives values in [0, 1] that contain 0 and 1, keep the order both ways, and scale back to the input |
| Pixels.NormalizedInRange | g_diffuser_lib.py:238-241 | shifting by the minimum and dividing by the range gives values in [0, 1] that contain 0 and 1 and keep the order |
| Pixels.NormalizedInverse | g_diffuser_lib.py:238-241 | every shifted and divided value, multiplied by the range and shifted back, is its input value |
| Pixels.UnitSpreadIsNormal | g_diffuser_lib.py:237-241 | an array in [0, 1] that contains 0 and 1 is its own normalisation |
| Pixels.NormalizeIdempotent | g_diffuser_lib.py:237-241 | normalising a normalised array gives it back |
| Pixels.Sum | g_diffuser_lib.py:245 | the channel sum of values in [0, 1] lies between 0 and the channel count |
| Pixels.RgbToGrey | g_diffuser_lib.py:243-245 | a grey array is returned as is; a colour one gets one value per pixel, which for three channels is their mean, lies between the smallest and largest channel, and lies in [0, 1] when the channels do |
| Pixels.GreyToRgb | g_diffuser_lib.py:247-249 | a colour array is returned as is; a grey one has each value repeated in three channels |
| Pixels.GreyRoundTrip | g_diffuser_lib.py:243-249 | grey to RGB and back gives the grey array back |
| Pixels.ColourRoundTrip | g_diffuser_lib.py:243-249 | an RGB array with three equal channels survives the trip through grey |
| Pixels.Clip | g_diffuser_lib.py:409 | `np.clip(x, 0, 1)`: in [0, 1]; in-range values unchanged; below 0 gives 0, above 1 gives 1 |
| Pixels.Blend | g_diffuser_lib.py:406-409 | the composite pixel lies in [0, 1]; mask 0 gives the clipped init pixel, mask 1 the clipped noise |
| Pixels.BlendBetween | g_diffuser_lib.py:406-409 | with in-range inputs the clip does nothing and the pixel lies between the init pixel and the noise |
| Pixels.Composite | g_diffuser_lib.py:406-409 | same shape as the inputs; every pixel is the per-pixel Blend of its init, mask and noise values, so every value is in [0, 1], unmasked pixels keep the clipped init, fully masked ones take the clipped noise, and in-range pixels lie between init and noise (Pixels.BlendBetween) |
| Pixels.CompositeKeepsUnmasked | g_diffuser_lib.py:406-409 | with a zero mask an in-range init image comes through unchanged |

## Left out

- Floating point: every float is an exact real. Rounding errors of `x / g + 0.5`, of the aspect ratio and of the pixel arithmetic are not modelled.
- `DEFAULT_SAMPLE_SETTINGS` is set up outside this model. Its resolution fields become the `Settings` parameter. The granularity of 64 in `BotSettings` is an example value.
- Resolution.ValidResolution: its requires asks for a positive granularity and positive maxima, which the bot's settings always have.
- Resolution.ValidResolution: the claim that the aspect ratio is kept to within one rounding unit is not proved; only the nearest-integer recomputation in each clamp is stated (`ClampWidth`, `ClampHeight`).
- Resolution.ValidResolution: the init image is reduced to its size, which is all the function reads from it. A PIL image is always truthy, so `Some` stands for "given".
- ImageGrid.MakeGrid: requires every tile to have the size of the first. With tiles of mixed sizes, PIL would paste a larger tile over its neighbours' boxes.
- ImageGrid.MakeGrid: the canvas is an `array2` of an arbitrary pixel type. The black RGB canvas of `Image.new` is the `background` parameter. PIL's image objects and mode conversion are not modelled.
- Grid.GridLayout: for every count below one `factorize` returns an empty list, so the median lookup `factors[len(factors)//2]` raises an IndexError and no layout is computed; the model returns `None` there.
- Dicts.MergeDicts: drops key order. `dict(d1, **d2)` keeps insertion order, d1's keys first and then d2's new keys; a Dafny `map` has no order.
- Dicts.MergeDicts: keys are strings. `dict(d1, **d2)` raises a TypeError for non-string keys in d2, and that case is not modelled.
- Pixels: arrays are flattened to one sequence of pixels, since every modelled operation works pixel by pixel. numpy broadcasting between arrays of different shapes is not modelled; `Composite` requires equal lengths.
- Pixels.RgbToGrey: a colour pixel is a sequence of channel values of any length. The mean and the bounds are stated only for three channels; with another channel count the source divides the channel sum by three, which is not a mean, and the contract then gives only the length.
- FFT, Gaussian kernels and blur (`fft2`, `ifft2`, `convolve`, `get_gaussian`, `gaussian_blur`): complex floating-point numerics with no exact statement.
- `get_blend_mask` and the body of `get_matched_noise` before the final composite: they rest on blur, random noise, `log`/`exp` and fractional powers. The shaped noise is an input of `Composite`.
- `hsv_blend_image`: a wrapper over a colour-conversion library that is not part of this model.
- The `strength ** 0.075` mask of the img2img path: a fractional power.
- File and image I/O (`load_image`, `get_image_dims`, `save_debug_img`, `save_json`, `load_json`, `save_samples`), the model calls (`get_samples`, `load_pipelines`, `dummy_checker`), `get_random_string` (uuid randomness), and the argument printing (`debug_print_args`, `strip_args`).
