# Equirectangular projection for a tiled map host

A Dafny model of a small coordinate-projection module for a tiled map.
It has two parts:

- **Rectangles** (`rectangle.dfy`): an axis-aligned rectangle stored as (left, top, width, height).
  - Its derived edges `Right()` and `Bottom()` follow a closed-interval convention: `left + width - 1`.
  - It has a closed-interval point test (`ContainsPoint`).
  - It has an overlap test (`Intersects`), written as the negation of four separating conditions.
- **Equirectangular** (`projection.dfy`): a projection that holds a per-zoom table of (width, height) pairs. It provides:
  - the default table (`DefaultDimensions` specifies it; `CreateDefaultDimensions` is the loop that builds it);
  - the constructor (`Create`), which takes an optional table;
  - the per-zoom scale factors, width/360 and height/180;
  - the forward mapping, latitude/longitude to pixel, rounded with JavaScript's `Math.round`;
  - the inverse mapping;
  - the world bounds at a zoom level, centred on the origin;
  - the tile range test;
  - the wrap width;
  - the projection of a geographic box to a pixel rectangle.
- **ProjectionProperties** (`projection_properties.dfy`): lemmas that relate several operations. They cover:
  - the round trips between the forward and inverse mappings;
  - monotonicity of the forward mapping;
  - the wrap width as the horizontal period;
  - which integer pixels the bounds cover;
  - the tile test as "shares a point with the bounds";
  - the worked one-level example;
  - the shape of projected boxes.

Rectangles and projections never change after construction, so both are datatypes with member functions. The default table is built by a loop in the source (`array[i] = [width, height]` for `i` from 0), so it is a method with loop invariants. Each step of that loop writes the index equal to the current length, which is an append to a sequence. All arithmetic is on exact reals, and `Math.round(v)` is `(v + 0.5).Floor`.

Where the code and its comments disagree, the model follows the code:

- The comment above `bounds` (equirectangularProjection.js:107-109) speaks of integer division. The code divides exactly, so an odd width gives a left edge such as -50.5. The model keeps the exact division. `ProjectionProperties.BoundsIntegerColumns` states the consequence: an odd size leaves `width - 1` integer columns inside the bounds.
- The code is inconsistent with itself on the direction of the y axis. `projectLatLngBounds` (lines 126-129) takes the top from the north-east pixel and the height as south-west y minus north-east y, so it treats north as the smaller y. `fromLatLngToPixel` (line 57) computes `y = round(lat * height / 180)`, so north gets the larger y. The model keeps both as written; see Findings.
- `tileCheckRange` never remaps the tile index, and `getWrapWidth` always returns the finite width. Their doc comments say otherwise (lines 71-74 and 92-93). The model follows the code.

## Model

| member | source | states |
|---|---|---|
| `Rectangles.Rectangle.Right` | equirectangularProjection.js:145-148 | the columns left, left + 1, ..., Right() number exactly `width` (for a whole width), and Right() lies left of `left` exactly when width < 1 |
| `Rectangles.Rectangle.Bottom` | equirectangularProjection.js:150-153 | the rows top, top + 1, ..., Bottom() number exactly `height` (for a whole height), and Bottom() lies above `top` exactly when height < 1 |
| `Rectangles.Rectangle.ContainsPoint` | equirectangularProjection.js:161-167 | the source's closed-interval test itself; its ensures says only a rectangle at least one unit wide and high contains a point; its meaning is given by `ThinContainsNothing`, `NonEmptyContainsCorners` and `ContainsIntegerPoint` |
| `Rectangles.Rectangle.Intersects` | equirectangularProjection.js:169-175 | the source's four separating conditions themselves; for non-empty rectangles its ensures restates the test as "the overlap of the spans is not empty on both axes"; its meaning is given by `IntersectsSymmetric`, `IntersectsReflexive`, `SharedPointIntersects`, `SeparatedDisjoint`, `IntersectsIffSharedPoint` and `DegenerateIntersects` |
| `Rectangles.ThinContainsNothing` | equirectangularProjection.js:145-167 | a rectangle with width < 1 or height < 1 (for example width 0) contains no point |
| `Rectangles.NonEmptyContainsCorners` | equirectangularProjection.js:161-167 | a rectangle with width >= 1 and height >= 1 contains its (left, top) corner and its (Right(), Bottom()) corner |
| `Rectangles.ContainsIntegerPoint` | equirectangularProjection.js:145-167 | with integer fields, an integer point is contained iff left <= x < left + width and top <= y < top + height: the rectangle covers width x height pixels |
| `Rectangles.IntersectsSymmetric` | equirectangularProjection.js:169-175 | A intersects B iff B intersects A |
| `Rectangles.IntersectsReflexive` | equirectangularProjection.js:169-175 | a rectangle with width >= 1 and height >= 1 intersects itself |
| `Rectangles.SharedPointIntersects` | equirectangularProjection.js:161-175 | a point contained in both rectangles makes them intersect |
| `Rectangles.SeparatedDisjoint` | equirectangularProjection.js:169-175 | rectangles separated on either axis do not intersect, in either order |
| `Rectangles.IntersectsIffSharedPoint` | equirectangularProjection.js:161-175 | for non-empty rectangles, the four-condition test holds iff some point lies in both |
| `Rectangles.DegenerateIntersects` | equirectangularProjection.js:145-175 | without non-emptiness the test is not exact: a zero-width rectangle contains nothing yet intersects a wide one |
| `Equirectangular.DefaultDimensions` | equirectangularProjection.js:33-46 | the default table has max(0, zoomLevels) entries, and entry i is ((i+1)*100, (i+1)*100) |
| `Equirectangular.DefaultDimension` | equirectangularProjection.js:40-42 | the source's per-level entry itself; the entry is square, a multiple of the 100-pixel step, and at least 100 for levels from 0 |
| `Equirectangular.CreateDefaultDimensions` | equirectangularProjection.js:33-46 | the loop returns max(0, zoomLevels) entries with entry i equal to ((i+1)*100, (i+1)*100); the invariant is that every entry below i is filled |
| `Equirectangular.Create` | equirectangularProjection.js:22-26 | the constructor keeps zoomLevels and uses the supplied table, or else the default table for zoomLevels levels |
| `Equirectangular.Round` | equirectangularProjection.js:56-57 | Math.round returns the integer n with n - 0.5 <= v < n + 0.5, so halves round up |
| `Equirectangular.Projection.PixelsPerLatitudeDegree` | equirectangularProjection.js:81-84 | 180 degrees of latitude span exactly the map height at zoom |
| `Equirectangular.Projection.PixelsPerLongitudeDegree` | equirectangularProjection.js:86-89 | 360 degrees of longitude span exactly the map width at zoom |
| `Equirectangular.Projection.FromLatLngToPixel` | equirectangularProjection.js:54-59 | the pixel is whole on both axes and within half a pixel of lng * width/360 and lat * height/180 |
| `Equirectangular.Projection.FromPixelToLatLng` | equirectangularProjection.js:64-69 | the coordinate scales back exactly to the pixel on both axes, and the unbounded flag is passed through |
| `Equirectangular.Projection.Bounds` | equirectangularProjection.js:110-115 | the bounds have the table's width and height and are centred on the origin: left = -width/2 and top = -height/2 by exact division |
| `Equirectangular.TileRectangle` | equirectangularProjection.js:77 | the source's tile rectangle itself: a square of side tileSize whose top-left corner is the tile index times tileSize; `TileRectangleHoldsItsPixels` gives it its meaning |
| `Equirectangular.Projection.TileCheckRange` | equirectangularProjection.js:75-79 | the source's test itself; its ensures says the tile is in range iff its columns meet the map's columns -w/2 .. w/2 - 1 and its rows meet -h/2 .. h/2 - 1; `TileCheckRangeIffSharedPoint` gives it the meaning "shares a point with the bounds" |
| `Equirectangular.Projection.GetWrapWidth` | equirectangularProjection.js:96-100 | the wrap width is the pixel distance of 360 degrees of longitude, and it equals the width of the bounds |
| `Equirectangular.Projection.ProjectLatLngBounds` | equirectangularProjection.js:118-130 | left is the SW pixel x and top is the NE pixel y; left + width reaches the NE x and top + height reaches the SW y |
| `Equirectangular.Projection.ProjectLatLngBoundsCorrected` | equirectangularProjection.js:118-130 | left and top are the SW pixel; left + width and top + height reach the NE pixel |
| `ProjectionProperties.DefaultDimensionsOfThree` | equirectangularProjection.js:33-46 | three default levels are [(100,100), (200,200), (300,300)] |
| `ProjectionProperties.DefaultDimensionsPositive` | equirectangularProjection.js:33-46 | every entry of a default table of any length has positive width and height |
| `ProjectionProperties.DefaultDimensionsIncreasing` | equirectangularProjection.js:33-46 | default sizes grow strictly with the zoom level |
| `ProjectionProperties.PixelRoundTrip` | equirectangularProjection.js:54-69 | an integral pixel sent through the inverse and then the forward mapping comes back unchanged; it holds because the host's longitude wrapping is not modelled (see "## Left out") |
| `ProjectionProperties.LatLngRoundTrip` | equirectangularProjection.js:54-69 | a coordinate sent forward and back comes back within half a pixel's worth of degrees on each axis; it holds because the host's longitude wrapping is not modelled (see "## Left out") |
| `ProjectionProperties.FromLatLngToPixelMonotone` | equirectangularProjection.js:54-59 | with non-negative sizes, the forward mapping keeps the order of longitudes (x) and of latitudes (y) |
| `ProjectionProperties.WrapWidthIsPeriod` | equirectangularProjection.js:96-100 | adding 360 degrees of longitude moves the pixel right by exactly the wrap width and leaves its row unchanged; it holds because the host's longitude wrapping is not modelled (see "## Left out") |
| `ProjectionProperties.BoundsIntegerColumns` | equirectangularProjection.js:107-115 | the integer columns in the bounds are exactly -(w div 2) .. w div 2 - 1, and rows likewise; an odd size loses one column, against the comment's claim |
| `ProjectionProperties.BoundsWithinHalfExtents` | equirectangularProjection.js:110-115 | every point inside the bounds lies within half the map size of the origin on each axis |
| `ProjectionProperties.TileCheckRangeIffSharedPoint` | equirectangularProjection.js:75-79 | with map and tile at least one pixel square, a tile is in range iff its square shares a point with the bounds |
| `ProjectionProperties.TileRectangleHoldsItsPixels` | equirectangularProjection.js:77 | tiles of a whole side ts split the integer pixels into blocks: tile (i, j) holds exactly the pixels (x, y) with x div ts == i and y div ts == j |
| `ProjectionProperties.OneDefaultLevel` | equirectangularProjection.js:33-115 | one default level: (90, 180) maps to (50, 50); bounds are (-50, -50) 100 x 100 with right and bottom 49; tile (0,0) of side 100 is in range and tile (1,0) is not; the wrap width is 100 |
| `ProjectionProperties.ProjectLatLngBoundsIsEmpty` | equirectangularProjection.js:118-130 | as written, a box whose NE corner is not south of its SW corner gives height <= 0, and the rectangle contains no point |
| `ProjectionProperties.ProjectLatLngBoundsExample` | equirectangularProjection.js:118-130 | on a 100 x 100 map the box (0,0)-(10,10) becomes (0, 6) 3 x -6 as written, and (0, 0) 3 x 6 corrected |
| `ProjectionProperties.ProjectLatLngBoundsCorrectedCovers` | equirectangularProjection.js:118-130 | the corrected rectangle has non-negative extents and covers exactly the pixels from the SW pixel up to, but not including, the NE pixel |

## Findings

| source | as written | input that shows it | evidently intended | confidence | as-written member | corrected member |
|---|---|---|---|---|---|---|
| equirectangularProjection.js:118-130 | the top comes from the NE pixel and height = SW y - NE y, so north is assumed to have the smaller y; `fromLatLngToPixel` (lines 56-57) gives north the larger y | 100 x 100 map, box SW (0, 0) and NE (10, 10): the corners map to (0, 0) and (3, 6), giving the rectangle (0, 6) 3 x -6, which contains no point | a rectangle that covers the pixels between the two projected corners | medium, not executed | `ProjectionProperties.ProjectLatLngBoundsIsEmpty` | `ProjectionProperties.ProjectLatLngBoundsCorrectedCovers` |

`Equirectangular.Projection.ProjectLatLngBounds` models the code as written. `Equirectangular.Projection.ProjectLatLngBoundsCorrected` takes the rows in the direction that `FromLatLngToPixel` produces. No other operation in the model uses the box projection.

## Left out

- The host library is not part of this model: the base projection prototype (line 28), the point type, the coordinate type and the bounds type. Coordinates, pixels and boxes are plain datatypes of reals.
- The host's coordinate constructor wraps the longitude into [-180, 180] unless `unbounded` is set, and it clamps the latitude. The model does not do either. `FromPixelToLatLng` only passes the flag through in `LatLng.unbounded`. So `PixelRoundTrip`, `LatLngRoundTrip` and `WrapWidthIsPeriod` hold for the unwrapped coordinate. With `unbounded` false, the host would wrap it: on a 100-pixel-wide map, longitude 179 goes to pixel 50 and comes back as 180, which the host wraps to -180. Likewise, with `unbounded` false the host wraps lng + 360 back to lng, and the pixel does not move.
- IEEE-754 double behaviour is not modelled. That covers rounding in `/360`, `/180` and `Math.round`, NaN, infinities and signed zero. The arithmetic is exact, so the round-trip lemmas say nothing about bit-exact results on doubles.
- `Rectangle.prototype.toString` (lines 155-159) is debug formatting, and the model leaves it out.
- Equirectangular.Projection.FromPixelToLatLng: requires a non-zero width and height at `zoom`. In JavaScript a zero size divides by zero and yields an infinity or NaN, which exact reals cannot express.
- Zoom-indexed operations require `0 <= zoom < |dimensions|`. The code does not check this. For an out-of-range zoom, `this.dimensions[zoom]` is `undefined`, and the next index (`[0]` or `[1]`, lines 83, 88, 99 and 112-113) throws a TypeError. The requires excludes this error path rather than modelling the exception.
- `zoomLevels` is stored but never checked against the length of a supplied table. The model keeps this.
- The `dimensions || default` test is modelled as an optional table: `None` selects the default table, and `Some(t)` is used as given, even when `t` is empty. JavaScript truthiness of other values (`0`, `""`, `null`) is not modelled.
- Table entries are integers. A table with fractional sizes, which JavaScript would accept, is not modelled.
