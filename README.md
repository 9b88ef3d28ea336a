# Image meter: size resolution, draw modes, name resolution and layout

This project models the core of the image meter (`Library/MeterImage.cpp`).
The meter shows one bitmap inside a rectangle of a skin. The model covers four
parts of it.

- **Size resolution.** After a bitmap loads, the meter fills in whichever of
  its width and height the configuration left unset (`LoadImage`).
- **Draw-mode selection.** The `Tile` and `PreserveAspectRatio` options choose
  one of four draw modes (`ReadOptions`).
- **Name resolution and reload.** Each tick, the meter works out which bitmap
  name to show and when to force the loader to reload (`Initialize`,
  `ReadOptions`, `Update`).
- **Layout.** `Draw` decides which rectangle of the bitmap goes onto which
  rectangle of the screen. It covers:
  - the degenerate guard;
  - the exact-size fast path;
  - tiling;
  - aspect-ratio fit (letterboxing) and fill (cropping);
  - nine-slice scaling by the `ScaleMargins` insets.

Modules:

- `Geometry` (`geometry.dfy`): rectangles, draw operations and margins. It also
  defines C++ integer division, which truncates toward zero (`CDiv`, `Quot`).
- `DrawModes` (`draw_mode.dfy`): the draw modes and the option mapping
  `ModeOf`.
- `Sizing` (`sizing.dfy`): `ResolveSize`, the meter size after a load.
- `MeterLayout` (`layout.dfy`): `Layout`, the declarative reference for the
  draw calls.
  - It returns the ordered list of `Op(src, dst, tiled)` records that `Draw`
    issues.
  - Nine-slice scaling is written as a 3 x 3 grid of regions. The margins
    filter the grid, and the result is listed in the fixed order top-left,
    top, top-right, left, centre, right, bottom-left, bottom, bottom-right.
- `LayoutFacts` (`layout_facts.dfy`) and `NineSliceFacts`
  (`nine_slice_facts.dfy`): what the layout guarantees.
  - branch precedence;
  - letterboxing never crops, and cropping never letterboxes;
  - both stay centred;
  - which nine-slice cells are drawn, and in which order;
  - with fitting margins, the cells are disjoint and cover the meter;
  - concrete examples.
- `ImageMeter` (`meter_image.dfy`): the meter as a class.
  - Its fields are the ones the source updates in place: the name, the draw
    mode, the margins, the last resolved name, the redraw flag, the loaded
    bitmap and the size.
  - A `loads` sequence records every call to the bitmap loader.
  - Its methods follow the source statement by statement.
  - `Draw` updates its locals step by step. It is proved to issue exactly the
    operations `Layout` prescribes. The aspect-ratio block and the three
    nine-slice rows are separate methods (`DrawAspect`, `DrawTopRow`,
    `DrawMiddleRow`, `DrawBottomRow`), each proved against its part of
    `Layout`.

Behaviour of the code that the model keeps as written:

- **Nine-slice overflow.** When the margins exceed the meter or the bitmap, the
  code does not clamp the centre and edge extents at zero. The model lets them
  go negative (`OversizedMarginsExample`), and proves disjointness and coverage
  only for margins that fit.
- **Top and bottom edges.** They are gated only on their own margin.
- **`None` mode.** With zero margins and a size mismatch, it draws exactly one
  full stretch: the centre cell (`NoMarginsIsOneStretch`).
- **Negative explicit sizes.** A negative explicit width or height is not
  rejected. When the other natural extent is zero, the derived dimension is
  0. Otherwise, under Tile it is the natural extent, and outside Tile it is
  the C++ truncated quotient, which is zero or negative (`ResolveSize`). The
  layout of a meter with a negative extent is still `Layout`. The containment, centring and aspect-ratio facts about the
  two aspect modes are proved for meters of positive size only.

External collaborators are parameters:

- the base meter's update and draw verdicts, its position, its bound measures
  and its dynamic-variable flag;
- the bitmap loader's result;
- the first measure's formatted value;
- measure-token substitution.

## Model

| member | source | states |
|---|---|---|
| DrawModes.ModeOf | Library/MeterImage.cpp:113-134 | For each mode, exactly which option pairs give it. Tile iff `Tile` is non-zero. None iff `Tile` = 0 and `PreserveAspectRatio` = 0. KeepRatioAndCrop iff `Tile` = 0 and the code is 2. KeepRatio iff `Tile` = 0 and the code is anything else, 1 and unknown codes included. |
| Sizing.ResolveSize | Library/MeterImage.cpp:81-99 | An explicit dimension is never changed. With neither dimension set, the meter takes the bitmap's natural size. A single derived dimension is 0 when the other natural extent is 0, and the natural extent under Tile. Otherwise it is the other dimension scaled by the bitmap's aspect ratio, truncated toward zero, with the exact bounds for each sign. |
| Sizing.ResolveSizeStable | Library/MeterImage.cpp:81-99 | Resolving again with the same bitmap leaves the size where the first resolution put it. |
| Sizing.ResolveSizeExample | Library/MeterImage.cpp:85 | A 100 x 50 bitmap under an explicit width of 200 gives a height of 100. |
| Geometry.CDiv | Library/MeterImage.cpp:85 | The C++ quotient for a positive divisor: floor for a non-negative dividend, ceiling for a negative one. |
| Geometry.Quot | Library/MeterImage.cpp:271-276 | The cropped extent as a truncated quotient for a divisor of either sign (a negative explicit meter size makes it negative): non-negative and at most the exact quotient when the signs agree, non-positive and at least the exact quotient when they differ, within one divisor of the dividend. |
| MeterLayout.Layout | Library/MeterImage.cpp:215-349 | A draw never issues more than nine drawing calls. |
| LayoutFacts.DegenerateDrawsNothing | Library/MeterImage.cpp:215 | A zero extent in the bitmap or the meter draws nothing, in every mode and with any margins. |
| LayoutFacts.ExactFitIsOneCopy | Library/MeterImage.cpp:223-227 | Same size and no margins gives one plain copy of the whole bitmap onto the meter, whatever the mode. |
| LayoutFacts.TileIsOneTiledCopy | Library/MeterImage.cpp:228-238 | Outside the fast path, Tile gives one wrap-repeated copy of the meter-sized bitmap region onto the whole meter, whatever the margins. |
| LayoutFacts.RatioCross | Library/MeterImage.cpp:249-256 | Comparing the two aspect ratios as exact quotients is comparing cross products. |
| LayoutFacts.KeepRatioLetterboxes | Library/MeterImage.cpp:240-284 | KeepRatio gives one untiled op from the whole bitmap. Without an applicable ratio the destination is the whole meter. For a meter of positive size, the destination lies inside the meter and is centred, with at most one pixel more slack on the far side. When both dimensions are explicit and the bitmap is relatively wider (width x meter height > meter width x height), the destination keeps the meter's width and its height is that width scaled by the bitmap's ratio, truncated. When the bitmap is relatively taller, it keeps the meter's height and scales the width. With equal ratios it is the whole meter. |
| LayoutFacts.CropRectInside | Library/MeterImage.cpp:266-279 | The crop rectangle lies inside the bitmap and is centred in it. When the bitmap is relatively wider, it keeps the bitmap's height and its width is that height times the meter's ratio, truncated. When the bitmap is relatively taller, it keeps the width and its height is the width over the meter's ratio, truncated. With equal ratios it is the whole bitmap. |
| LayoutFacts.CropFillsMeter | Library/MeterImage.cpp:240-284 | KeepRatioAndCrop gives one untiled op onto the whole meter, drawn from the whole bitmap when the ratio does not apply. For a meter of positive size, its source is centred inside the bitmap. It keeps the bitmap's height, with the width scaled to the meter's ratio and truncated, when the bitmap is relatively wider. It keeps the width, with the height scaled, when the bitmap is relatively taller. With equal ratios it is the whole bitmap. |
| LayoutFacts.CropExample | Library/MeterImage.cpp:269-273 | A 100 x 100 bitmap cropped into a 50 x 100 meter keeps columns 25 to 74. |
| NineSliceFacts.RowOps | Library/MeterImage.cpp:290-309 | A row draws nothing unless its own margin is positive. A drawn row draws its middle cell, plus each side cell whose margin is positive, left to right. |
| NineSliceFacts.NineSliceSelection | Library/MeterImage.cpp:290-348 | A cell is drawn iff its margins are positive. Corners need both of their margins. Edges need only their own margin. The centre is always drawn. |
| NineSliceFacts.NineSliceOrder | Library/MeterImage.cpp:290-348 | The drawn cells come strictly in the order top-left, top, top-right, left, centre, right, bottom-left, bottom, bottom-right. |
| NineSliceFacts.NoMarginsIsOneStretch | Library/MeterImage.cpp:318-320 | With mode None and no margins, the only op is the centre: the whole bitmap stretched onto the whole meter. |
| NineSliceFacts.NineSliceExample | Library/MeterImage.cpp:286-349 | Margins of 2 on a 10 x 10 bitmap and meter give nine ops. The centre maps (2, 2, 6, 6) to (x+2, y+2, 6, 6). |
| NineSliceFacts.OversizedMarginsExample | Library/MeterImage.cpp:311-327 | Margins wider than the meter are not clamped. The centre is drawn with a negative width. |
| NineSliceFacts.NineSliceCellsDisjoint | Library/MeterImage.cpp:286-349 | With margins that fit the meter, every drawn cell lies inside it, none is tiled, and no two overlap. With margins that also fit the bitmap, every source cell lies inside the bitmap. |
| NineSliceFacts.NineSliceArea | Library/MeterImage.cpp:286-349 | With non-negative margins, the drawn cells' areas add up to the meter's area. A cell that is left out has zero width or height. |
| ImageMeter.ResolveName | Library/MeterImage.cpp:166-185 | The name is the configured one when no measure is bound. With measures, it is the first measure's value when the configured name is empty or substitution replaced nothing. Otherwise it is the substituted name. |
| ImageMeter.MeterImage.constructor | Library/MeterImage.cpp:34-40 | A new meter has mode None, no margins, no bitmap, no redraw pending and no loads. |
| ImageMeter.MeterImage.LoadImage | Library/MeterImage.cpp:69-101 | The loader is called once with the name and the flag. After a successful load, the size becomes `ResolveSize` of the old size. After a failed load, the size is unchanged. |
| ImageMeter.MeterImage.Initialize | Library/MeterImage.cpp:54-63 | A static meter resolves its name to the configured one and loads it unconditionally. Any other meter is left untouched. |
| ImageMeter.MeterImage.ReadOptions | Library/MeterImage.cpp:107-151 | Stores the name, `ModeOf` of the two options and the margins. An initialised meter with neither measures nor dynamic variables is initialised again and marked for one redraw. Any other meter keeps its loads, bitmap, size and redraw flag. |
| ImageMeter.MeterImage.Update | Library/MeterImage.cpp:157-197 | Without a base update nothing changes and the result is false. A dynamic meter resolves its name by `ResolveName` and loads it, forcing a reload exactly when the name differs from the previous one; the result is true. A static meter returns the pending redraw flag and clears it. |
| ImageMeter.SteadyTicks | Library/MeterImage.cpp:161-188 | Two ticks with unchanged measure values both report a change. The second load never forces a reload. |
| ImageMeter.RedrawOnce | Library/MeterImage.cpp:190-194 | After options are re-read, a static meter reports a change on the next tick and not on the one after. Neither tick calls the loader. |
| ImageMeter.MeterImage.Draw | Library/MeterImage.cpp:203-353 | Succeeds exactly when the base meter's draw did. It issues exactly `Layout` of the mode, the bitmap's size, the placement and the margins when a bitmap is loaded, and nothing otherwise. |
| ImageMeter.DrawAspect | Library/MeterImage.cpp:240-284 | The local-by-local computation of the aspect modes yields KeepRatio's `FitRect` destination, or KeepRatioAndCrop's `CropRect` source. |
| ImageMeter.DrawNineSlice | Library/MeterImage.cpp:286-349 | The three rows, in order, give exactly the nine-slice operations of `Layout`. |
| ImageMeter.DrawTopRow | Library/MeterImage.cpp:290-309 | The top row's draw calls are the operations of the drawn top-row cells, in order. |
| ImageMeter.DrawMiddleRow | Library/MeterImage.cpp:311-327 | The middle row's draw calls are the operations of the drawn middle-row cells, in order. |
| ImageMeter.DrawBottomRow | Library/MeterImage.cpp:329-348 | The bottom row's draw calls are the operations of the drawn bottom-row cells, in order. |

## Left out

- Drawing itself (`Canvas::DrawBitmap`, the GDI+ context, `ImageAttributes`): each call is recorded as an `Op`. The wrap mode of the tiled call is the `tiled` flag. No pixels are modelled.
- Floating-point ratios (lines 249-250, 271, 276): the two ratios are compared as exact reals. The cropped extent is the exact product or quotient truncated toward zero, which is a truncating integer quotient (`Quot`). Float rounding can make the source's comparison or truncation differ from the exact one near ties; that is not modelled.
- 32-bit overflow: the products `m_W * imageH` and `m_H * imageW` (lines 85, 92, 258, 263) and the sums in the nine-slice rectangles use unbounded integers. No wrap-around is modelled.
- The bitmap loader, with its caching and tinting (`TintedImage`): its result is the parameter `loaded`. The name and the load-always flag it receives are recorded in `loads`.
- Configuration parsing (`ReadString`, `ReadInt`, `ReadRECT`): the parsed name, codes and margins are parameters. The deprecated `Path` option and the tinting options are not modelled.
- The base meter (`Meter::Initialize`, `ReadOptions`, `Update`, `Draw`, `GetX`/`GetY`, measure binding): its verdicts and position are parameters. The number of bound measures, the dynamic-variable flag, the initialised flag, the size `w` x `h` and whether each dimension was defined are fields set at construction. The base `ReadOptions` (line 109) re-reads the size options, but its effect on these fields is not modelled.
- `GetStringOrFormattedValue` and `ReplaceMeasures`: the first measure's value is a parameter. Substitution is a pure function from the configured name to the new text and a replaced flag.
- ImageMeter.MeterImage.Update: names are compared as whole strings. `wcscmp` stops at the first NUL character, so two names that differ only after an embedded NUL count as equal in the source but not in the model.
- `BindMeasures` and the destructor: they hold no logic of this meter.
