# rust-tracer core, modelled in Dafny

This project models the discrete logic of a small CPU path tracer written in
Rust: the nearest-hit scan over the world's shapes, the padded bounding box of
a triangle mesh and its ray slab test, the depth-bounded `sample_color`
recursion with its sky / black / `max_t` / emittance cases, the material
scatter dispatch, the conversion of a decoded PNG frame into RGB texels, and
the frame buffer with its plain-text PPM ("P3") output and the tab-separated
text form of one pixel.

`f32` values are Dafny `real`s. The helpers the core calls but does not
define (each shape's own intersection test, `normalize`, `sqrt`, the sky
colour, a material's scatter rule, the albedo lookup) are function-typed
parameters, and results hold for any such helper unless their lemma states an
assumption about it (`Scene.GammaCorrectInUnitRange` needs `sqrt` to be the
square root). Randomness is data: `sample_color` threads a generator state of
any type through the scatter rule, and `Material.Scatter` takes its three
random draws as an argument. Printing is modelled by the text that would be
printed.

One module per source file: `World` (src/world.rs), `Aabb` (src/aabb.rs),
`Scene` (src/scene.rs), `Material` (src/material.rs), `ImageLoader`
(src/image_loader.rs), `Picture` (src/picture.rs) and `Color` (src/color.rs),
plus `Geometry` (vectors, rays, hits), `Text` (decimal numbers and splitting
text at a separator, used to state what the output means), `Bytes` (the
`u8` type) and `Wrappers` (`Option`, `Result`). The source files come from different revisions of the
program, so each module has its own small datatypes for the entities it
shares with another file (a scene's `Material` has an albedo source and an
emittance, material.rs's has a colour).

The imperative parts keep their form: `World.HitTest`, `Aabb.FromShape`,
`Aabb.IsHit` and `ImageLoader.ConvertPixels` are methods with loops proved against
specification functions, and `Picture.Picture` is a class over an `array` of
pixels whose `PrintToFile` runs the nested row/column loops.

## Model

| member | source | states |
|---|---|---|
| World.HitTest | src/world.rs:13-26 | None exactly when no shape's hit test reports a hit (so an empty slice gives None); otherwise the result is the hit of some shape k that is hit nearest of all shapes and strictly nearer than every earlier shape that is hit, i.e. on equal `t` the first shape in slice order wins |
| World.FirstNearestIsUnique | src/world.rs:20 | at most one shape is the first nearest, so the strict `>` replacement rule determines the result |
| Aabb.FromShape | src/aabb.rs:13-38 | a triangle mesh gives `Some` of its mesh box: per axis, the minimum and maximum of the translated vertex positions folded from the zero vector, widened by EPS = 0.001; every other shape gives None |
| Aabb.LowIsLowerBound | src/aabb.rs:17-26 | the minimum fold is at most 0 and at most every translated vertex on that axis |
| Aabb.HighIsUpperBound | src/aabb.rs:17-26 | the maximum fold is at least 0 and at least every translated vertex on that axis |
| Aabb.LowIsAttained | src/aabb.rs:17-26 | the minimum fold is 0 (its start) or the coordinate of some translated vertex |
| Aabb.HighIsAttained | src/aabb.rs:17-26 | the maximum fold is 0 (its start) or the coordinate of some translated vertex |
| Aabb.MeshBoxContainsVertices | src/aabb.rs:18-28 | every translated vertex `p` satisfies `min + EPS <= p <= max - EPS` on every axis |
| Aabb.MeshBoxContainsOrigin | src/aabb.rs:17-28 | on every axis `min <= -EPS`, `max >= EPS` and `max - min >= 2 * EPS`, also for an empty mesh or one far from the origin |
| Aabb.MeshBoxIsTight | src/aabb.rs:17-28 | each face of the box lies exactly EPS beyond the origin or beyond some translated vertex |
| Aabb.SlabBounds | src/aabb.rs:44-55 | on one axis, entry comes no later than exit whenever that axis's min face is at most its max face, and the parameters `t` between them are exactly those whose ray point lies between the two faces |
| Aabb.IsHit | src/aabb.rs:41-63 | with the early return, the answer is true exactly when the interval started at `[0.00001, 10000]` and narrowed by all three axes is non-empty; an interval with `t_min == t_max` counts as a hit |
| Aabb.NarrowedShrinks | src/aabb.rs:42-57 | `t_min` only grows and `t_max` only shrinks from axis to axis, and both stay within `[0.00001, 10000]`; so an interval that is empty after one axis stays empty |
| Aabb.NearBeforeFar | src/aabb.rs:45-55 | on an axis where `min <= max`, the entry parameter `t0` is at most the exit parameter `t1` |
| Aabb.SlabParameters | src/aabb.rs:44-55 | `t0 <= t <= t1` exactly when `t * direction[a]` lies between the faces' offsets from the origin, for either sign of the direction |
| Aabb.AxisSlab | src/aabb.rs:44-55 | `t0 <= t <= t1` exactly when the ray's point at `t` lies between the box's faces on that axis |
| Aabb.NarrowedContains | src/aabb.rs:42-61 | `t` lies in the interval after the first k axes exactly when it lies in `[0.00001, 10000]` and in each of those axes' `[t0, t1]` |
| Aabb.SlabHitIffRayMeetsBox | src/aabb.rs:41-63 | the slab test accepts exactly when the ray's point at some `t` in `[0.00001, 10000]` lies in the closed box |
| Aabb.NearOriginAccepted | src/aabb.rs:13-63 | a ray whose point lies within EPS of the origin on every axis at some `t` in `[0.00001, 10000]` passes the slab test of any mesh's box, since the box always holds that neighbourhood of the origin |
| Aabb.BarycentricInMeshBox | src/aabb.rs:17-28 | every point of a mesh triangle (a convex combination of three of its translated vertices) lies in the mesh box |
| Aabb.MeshBoxNoFalseNegative | src/aabb.rs:13-63 | a ray that reaches a point of a mesh triangle at some `t` in `[0.00001, 10000]` passes the slab test of the mesh's box |
| Scene.Mul | src/scene.rs:131-138 | the definition of `mul`, the componentwise product of two colours; its property is stated by `Scene.MulAttenuates` |
| Scene.MulAttenuates | src/scene.rs:131-138 | multiplying a non-negative colour by an attenuation in [0, 1] only darkens it: each component stays between 0 and its old value |
| Scene.SampleColor | src/scene.rs:26-48 | the definition of `sample_color`, with the hit test made before the depth test and the recursive colour computed before the `max_t` test; its cases are stated by `Scene.DepthZeroIsBlack`, `Scene.MissIsSky`, `Scene.AbsorbedIsBlack`, `Scene.FarHitIsSky` and `Scene.ScatteredHitBlend`, its call count by `Scene.SampleColorCounted` and `Scene.CountedColorIsSampleColor` |
| Scene.LerpEnds | src/scene.rs:36 | the blend with amount 0 is its start and with amount 1 its target |
| Scene.DepthZeroIsBlack | src/scene.rs:26-30 | with `depth == 0` the colour is black, whatever the ray hits |
| Scene.MissIsSky | src/scene.rs:31-47 | with `depth > 0`, a ray that hits nothing brings back the sky colour of that ray |
| Scene.AbsorbedIsBlack | src/scene.rs:32-44 | with `depth > 0`, a ray whose hit material does not scatter brings back black |
| Scene.FarHitIsSky | src/scene.rs:33-39 | a scattering hit with `t > max_t` brings back the sky colour |
| Scene.ScatteredHitBlend | src/scene.rs:33-41 | a scattering hit with `t <= max_t` brings back `lerp(mul(colour of the scattered ray at depth - 1, attenuation), albedo at the hit's uv or (0, 0), emittance)`; emittance 1 gives exactly the albedo, emittance 0 exactly the product |
| Scene.SampleColorCounted | src/scene.rs:26-48 | one call of `sample_color` makes between 1 and `depth + 1` nested calls, itself included, the recursive call before the `max_t` test counting too |
| Scene.CountedColorIsSampleColor | src/scene.rs:26-48 | the call-counting version of the recursion yields the same colour as `sample_color`, so the count is that of `sample_color` itself |
| Scene.GammaCorrect | src/scene.rs:122-129 | the definition of `gamma_correct`: each component clamped to at most 1, then square-rooted; its range is stated by `Scene.GammaCorrectInUnitRange` |
| Scene.GammaCorrectInUnitRange | src/scene.rs:122-129 | for a non-negative colour and a square root, every gamma-corrected component lies in `[0, 1]` |
| Scene.RootOfUnitInterval | src/scene.rs:125-127 | the square root of a value clamped into `[0, 1]` stays in `[0, 1]` |
| Material.RandomInUnitSphere | src/material.rs:18-24 | the definition of `get_random_in_unit_sphere`: three draws, each moved by -0.5, then normalised; its use is stated by `Material.Scatter` and `Material.ScatterDirectionIgnoresHitPoint` |
| Material.Scatter | src/material.rs:26-41 | Some exactly for a Lambertian material; then the attenuation is the material's colour, the ray starts at the hit point and its direction is `normalize(n + r)` for the hit normal `n` and the random unit sample `r` |
| Material.ScatterDirectionIgnoresHitPoint | src/material.rs:27-34 | two hits with the same normal scatter in the same direction, wherever they are: the direction depends on the normal and the random draws only |
| Material.MetallicAlwaysAbsorbs | src/material.rs:37-39 | a metallic material returns None for every roughness |
| ImageLoader.BytesPerPixelIsSampleCount | src/image_loader.rs:18-25 | the loader refuses exactly the indexed colour type (code 3) and otherwise uses the standard's samples per pixel: 4 for RGBA, 3 for RGB, 1 for grayscale, 2 for grayscale with alpha |
| ImageLoader.PixelInUnitCube | src/image_loader.rs:29-42 | every component of a converted pixel lies in `[0, 1]` |
| ImageLoader.ReadPixel | src/image_loader.rs:29-42 | the pixel read at an offset has every component in [0, 1], and a pixel of one or two bytes (grey, grey with alpha) is a grey: all three components equal |
| ImageLoader.FullFrameSuffices | src/image_loader.rs:26-44 | a frame of `w*h*bpp` bytes is long enough for every read of the loop |
| ImageLoader.PixelOffsetGrows | src/image_loader.rs:27-43 | the bytes read for pixel `i` of `n` end within the length the whole loop needs |
| ImageLoader.ConvertPixels | src/image_loader.rs:26-44 | the loop fails (the index panic) exactly when the frame is shorter than its reads need; otherwise it yields exactly `n` colours, colour `i` being the pixel read at byte offset `i * bpp` |
| ImageLoader.LoadPixels | src/image_loader.rs:11-46 | an unsupported colour type fails (the panic) exactly when the type is not one of the four; a frame too short for the loop's reads fails (the index panic) exactly then; otherwise the result has the header's width and height, exactly `w*h` colours, and colour `i` is the pixel read at byte offset `i * bpp` |
| Picture.RowFits | src/picture.rs:26-28 | row `j` of `height` rows, i.e. the indices `j*width + i` for `i < width`, lies within the `width*height` pixels |
| Picture.Picture.constructor | src/picture.rs:10-16 | the stored width and height are the arguments and the buffer holds `width*height` pixels, all (0, 0, 0) |
| Picture.Picture.Mutate | src/picture.rs:17-21 | the mutator receives the whole buffer with the stored width and height; its result is the new buffer; width, height and the buffer itself are fixed (`const`) fields |
| Picture.Picture.RowText | src/picture.rs:27-29 | the text of consecutive pixels is their text forms concatenated with no separator, left to right |
| Picture.Picture.PrintToFile | src/picture.rs:22-32 | the printed text is the three header lines followed by one line per row, rows in increasing `j`, row `j` holding `colors[j*width + i]` for increasing `i` |
| Picture.LinesOfHeader | src/picture.rs:23-25 | the header is exactly the three lines "P3", "width height" and "255" |
| Picture.LinesOfPrinted | src/picture.rs:23-31 | after the header and k rows the text is whole lines: the three header lines, then exactly k row lines, each newline-terminated |
| Picture.ParseConcat | src/picture.rs:27-29 | reading the concatenated text of a row back yields exactly that row |
| Picture.ParseRowTexts | src/picture.rs:26-31 | reading the first k row lines back yields the first `k*width` pixels in order |
| Picture.ConcatHasNoNewline | src/picture.rs:27-29 | the concatenated text of a row holds no newline, so each row stays on its own line |
| Picture.ParseSizeOf | src/picture.rs:24 | the size line reads back as the width and the height |
| Picture.PpmRoundTrip | src/picture.rs:22-32 | reading the printed PPM text back gives the width, the height and every pixel in row-major order |
| Color.Color.ToString | src/color.rs:9-11 | the definition of `to_string`: each component in decimal followed by a TAB; its form is stated by `Color.ToStringSpelled` and `Color.ToStringShape`, its inverse by `Color.ToStringRoundTrip` and `Color.ParseFirstToString` |
| Color.ToStringSpelled | src/color.rs:10 | the text form is decimal r, TAB, decimal g, TAB, decimal b, TAB |
| Color.ToStringShape | src/color.rs:10 | the text form holds exactly three TABs, ends with one, has no newline and is 6 to 12 characters long |
| Color.DecimalOfByteWidth | src/color.rs:2-10 | a `u8` prints with one to three digits |
| Color.ParseFirstToString | src/color.rs:10 | reading one colour off the front of its text form followed by anything gives back the colour and the rest |
| Color.ToStringRoundTrip | src/color.rs:10 | splitting the text form at its TABs and reading each decimal field gives back r, g and b |
| Text.DecimalDigits | src/color.rs:10 | Rust's decimal form of an unsigned integer is a non-empty run of digits, starting with '0' only for zero |
| Text.DecimalRoundTrip | src/color.rs:10 | reading the decimal form of `n` back gives `n` |
| Text.DecimalHasNoSeparator | src/picture.rs:24 | a decimal number holds no TAB, space or newline, so it never runs into the separators around it |

## Left out

- `f32` arithmetic: rounding, NaN and the infinities are not modelled; every value is a real.
- Aabb.IsHit: requires every direction component to be nonzero. In `f32`, `1.0 / 0.0` is an infinity and the source then compares infinities; that case is not modelled.
- Aabb.MeshBoxNoFalseNegative: covers hits with `t` in `[0.00001, 10000]` only, because the slab test never looks beyond that range; a triangle reached only at a larger `t` can be rejected by the box, namely when the ray's point lies in the box at no `t` in that range (a ray whose point lies within EPS of the origin on every axis at some `t` in that range is still accepted, as Aabb.NearOriginAccepted states).
- Aabb.FromShape: the shapes drop their materials and the cube's rotation, and a mesh keeps only its vertex positions; the other shape fields are kept as the shapes are built in src/main.rs:86-125, though the box reads none of them.
- World.HitTest: each shape's own intersection test (quadratic roots for spheres and the like) is a parameter.
- Scene: `sky_color` (with the `normalize` inside it), `sqrt` and the scatter rule are parameters and the random generator is a state value threaded through scatter; `render_sample` and `render_as_ppm` (random jitter, parallel reduction, camera) are not modelled.
- Scene.GammaCorrectInUnitRange: assumes an exact square root on the reals, where `f32`'s `sqrt` rounds.
- Material.Scatter: the three random draws are an argument rather than state consumed from a generator.
- ImageLoader.LoadPixels: the PNG decoder calls (`Decoder::new`, `read_info`, `next_frame`) and their `unwrap` panics are not modelled: width, height, colour type and the frame's bytes are inputs. The image's bit depth is ignored, as in the source.
- ImageLoader.LoadPixels: `w*h` and the offsets are unbounded integers; `usize` overflow is not modelled.
- Picture.Picture.constructor: `width * height` (src/picture.rs:14) is an unbounded integer, and so is the index `j * width + i` in Picture.Picture.PrintToFile (src/picture.rs:28); `usize` overflow is not modelled.
- Picture.Picture.Mutate: the mutator is a function from the old pixels to the new ones; side effects of the Rust closure beyond the buffer are not modelled.
- Picture.Picture.PrintToFile: returns the text it would print; writing to standard output is not modelled. The Rust method consumes the picture; the model leaves it in place.
- camera.rs, sphere.rs, shape.rs, vector_utils.rs and main.rs are not part of this model.
