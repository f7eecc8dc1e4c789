/** What the projection promises across several calls: the default table,
    the rounding of the forward mapping and its round trips with the inverse,
    the wrap width as the horizontal period, the pixels the bounds cover, the
    tile range test, and the shape of projected geographic boxes. */
module ProjectionProperties {
  import opened Rectangles
  import opened Equirectangular

  function Abs(v: real): (r: real) { if v < 0.0 then -v else v }

  /** A table whose every zoom level has positive width and height. */
  predicate PositiveTable(dims: seq<Dimension>) {
    forall i :: 0 <= i < |dims| ==> dims[i].0 > 0 && dims[i].1 > 0
  }

  // ---------------------------------------------------------------- the table

  /** Three default levels are 100, 200 and 300 pixels square. */
  lemma DefaultDimensionsOfThree()
    ensures DefaultDimensions(3) == [(100, 100), (200, 200), (300, 300)]
  {
    var d := DefaultDimensions(3);
    assert d[0] == (100, 100) && d[1] == (200, 200) && d[2] == (300, 300);
  }

  /** Every entry of a default table is positive, whatever its length. */
  lemma DefaultDimensionsPositive(zoomLevels: int)
    ensures PositiveTable(DefaultDimensions(zoomLevels))
  {
  }

  /** The default sizes grow strictly with zoom. */
  lemma DefaultDimensionsIncreasing(zoomLevels: int, i: int, j: int)
    requires 0 <= i < j < |DefaultDimensions(zoomLevels)|
    ensures DefaultDimensions(zoomLevels)[i].0 < DefaultDimensions(zoomLevels)[j].0
    ensures DefaultDimensions(zoomLevels)[i].1 < DefaultDimensions(zoomLevels)[j].1
  {
  }

  // ---------------------------------------------------------------- rounding

  /** Two whole numbers within half a unit of the same value are equal: the
      nearest pixel is unique. */
  lemma NearestIntegralUnique(a: real, b: real, v: real)
    requires IsIntegral(a) && IsIntegral(b)
    requires a - 0.5 <= v < a + 0.5 && b - 0.5 <= v < b + 0.5
    ensures a == b
  {
    var i, j := a.Floor, b.Floor;
    assert i - 1 < j < i + 1;
  }

  /** Between whole numbers, being less than one unit above is being at most. */
  lemma IntegralOrder(a: real, b: real)
    requires IsIntegral(a) && IsIntegral(b)
    requires a < b + 1.0
    ensures a <= b
  {
    var i, j := a.Floor, b.Floor;
    assert i < j + 1;
  }

  lemma MulMonotone(a: real, b: real, k: real)
    requires a <= b && 0.0 <= k
    ensures a * k <= b * k
  {
    assert b * k - a * k == (b - a) * k;
  }

  // ---------------------------------------------------------------- round trips

  /** Integral pixels survive the inverse and then the forward mapping exactly. */
  lemma PixelRoundTrip(proj: Projection, pixel: Point, zoom: int, unbounded: bool)
    requires proj.ValidZoom(zoom)
    requires proj.dimensions[zoom].0 != 0 && proj.dimensions[zoom].1 != 0
    requires IsIntegral(pixel.x) && IsIntegral(pixel.y)
    ensures proj.FromLatLngToPixel(proj.FromPixelToLatLng(pixel, zoom, unbounded), zoom) == pixel
  {
    var latlng := proj.FromPixelToLatLng(pixel, zoom, unbounded);
    var p := proj.FromLatLngToPixel(latlng, zoom);
    NearestIntegralUnique(p.x, pixel.x, latlng.lng * proj.PixelsPerLongitudeDegree(zoom));
    NearestIntegralUnique(p.y, pixel.y, latlng.lat * proj.PixelsPerLatitudeDegree(zoom));
  }

  /** A coordinate sent forward and back comes back within half a pixel's
      worth of degrees on each axis, with its unbounded flag unchanged. */
  lemma LatLngRoundTrip(proj: Projection, latlng: LatLng, zoom: int)
    requires proj.ValidZoom(zoom)
    requires proj.dimensions[zoom].0 > 0 && proj.dimensions[zoom].1 > 0
    ensures var back := proj.FromPixelToLatLng(proj.FromLatLngToPixel(latlng, zoom), zoom, latlng.unbounded);
            Abs(back.lng - latlng.lng) * proj.PixelsPerLongitudeDegree(zoom) <= 0.5 &&
            Abs(back.lat - latlng.lat) * proj.PixelsPerLatitudeDegree(zoom) <= 0.5 &&
            back.unbounded == latlng.unbounded
  {
    var pixel := proj.FromLatLngToPixel(latlng, zoom);
    var back := proj.FromPixelToLatLng(pixel, zoom, latlng.unbounded);
    var kx, ky := proj.PixelsPerLongitudeDegree(zoom), proj.PixelsPerLatitudeDegree(zoom);
    assert (back.lng - latlng.lng) * kx == pixel.x - latlng.lng * kx;
    assert (back.lat - latlng.lat) * ky == pixel.y - latlng.lat * ky;
    assert Abs(back.lng - latlng.lng) * kx == Abs((back.lng - latlng.lng) * kx);
    assert Abs(back.lat - latlng.lat) * ky == Abs((back.lat - latlng.lat) * ky);
  }

  /** The forward mapping keeps the order of longitudes and of latitudes when
      the map size at zoom is not negative. */
  lemma FromLatLngToPixelMonotone(proj: Projection, a: LatLng, b: LatLng, zoom: int)
    requires proj.ValidZoom(zoom)
    ensures a.lng <= b.lng && proj.dimensions[zoom].0 >= 0 ==>
              proj.FromLatLngToPixel(a, zoom).x <= proj.FromLatLngToPixel(b, zoom).x
    ensures a.lat <= b.lat && proj.dimensions[zoom].1 >= 0 ==>
              proj.FromLatLngToPixel(a, zoom).y <= proj.FromLatLngToPixel(b, zoom).y
  {
    var kx, ky := proj.PixelsPerLongitudeDegree(zoom), proj.PixelsPerLatitudeDegree(zoom);
    var pa, pb := proj.FromLatLngToPixel(a, zoom), proj.FromLatLngToPixel(b, zoom);
    if a.lng <= b.lng && kx >= 0.0 {
      MulMonotone(a.lng, b.lng, kx);
      IntegralOrder(pa.x, pb.x);
    }
    if a.lat <= b.lat && ky >= 0.0 {
      MulMonotone(a.lat, b.lat, ky);
      IntegralOrder(pa.y, pb.y);
    }
  }

  // ---------------------------------------------------------------- wrap width

  /** Going once round the earth (360 degrees of longitude) moves the pixel by
      exactly the wrap width and leaves its row alone. */
  lemma WrapWidthIsPeriod(proj: Projection, latlng: LatLng, zoom: int)
    requires proj.ValidZoom(zoom)
    ensures var east := LatLng(latlng.lat, latlng.lng + 360.0, latlng.unbounded);
            proj.FromLatLngToPixel(east, zoom).x ==
              proj.FromLatLngToPixel(latlng, zoom).x + proj.GetWrapWidth(zoom) as real &&
            proj.FromLatLngToPixel(east, zoom).y == proj.FromLatLngToPixel(latlng, zoom).y
  {
    var east := LatLng(latlng.lat, latlng.lng + 360.0, latlng.unbounded);
    var k := proj.PixelsPerLongitudeDegree(zoom);
    var w := proj.GetWrapWidth(zoom) as real;
    var pe, p := proj.FromLatLngToPixel(east, zoom), proj.FromLatLngToPixel(latlng, zoom);
    assert (latlng.lng + 360.0) * k == latlng.lng * k + w;
    assert IsIntegral(pe.x - w) by {
      assert (pe.x - w).Floor == pe.x.Floor - proj.GetWrapWidth(zoom);
    }
    NearestIntegralUnique(pe.x - w, p.x, latlng.lng * k);
    NearestIntegralUnique(pe.y, p.y, latlng.lat * proj.PixelsPerLatitudeDegree(zoom));
  }

  // ---------------------------------------------------------------- bounds

  /** The integer columns inside the bounds are exactly -(w/2) .. w/2 - 1,
      with / the integer division of the (non-negative) width w, and likewise
      for rows. So an even size covers all its pixels symmetrically, while an
      odd size loses one: its half-integer edges leave width - 1 columns. */
  lemma BoundsIntegerColumns(proj: Projection, zoom: int, x: int, y: int)
    requires proj.ValidZoom(zoom)
    requires proj.dimensions[zoom].0 >= 0 && proj.dimensions[zoom].1 >= 0
    ensures var b, w, h := proj.Bounds(zoom), proj.dimensions[zoom].0, proj.dimensions[zoom].1;
            (b.left <= x as real <= b.Right() <==> -(w / 2) <= x <= w / 2 - 1) &&
            (b.top <= y as real <= b.Bottom() <==> -(h / 2) <= y <= h / 2 - 1)
  {
    HalfSpan(proj.dimensions[zoom].0, x);
    HalfSpan(proj.dimensions[zoom].1, y);
  }

  /** One axis of BoundsIntegerColumns: the span -n/2 .. n/2 - 1 (exact
      division) holds the same integers as -(n div 2) .. n div 2 - 1. */
  lemma HalfSpan(n: int, v: int)
    requires n >= 0
    ensures (n as real / -2.0 <= v as real <= n as real / -2.0 + n as real - 1.0)
            <==> -(n / 2) <= v <= n / 2 - 1
  {
    var q := n / 2;
    if n % 2 == 0 {
      assert n as real == 2.0 * q as real;
    } else {
      assert n as real == 2.0 * q as real + 1.0;
    }
  }

  /** Every point inside the bounds lies within half the map size of the
      origin on each axis. */
  lemma BoundsWithinHalfExtents(proj: Projection, zoom: int, x: real, y: real)
    requires proj.ValidZoom(zoom)
    requires proj.Bounds(zoom).ContainsPoint(x, y)
    ensures Abs(x) <= proj.Width(zoom) / 2.0 && Abs(y) <= proj.Height(zoom) / 2.0
  {
  }

  // ---------------------------------------------------------------- tiles

  /** For a map and tiles at least one pixel square, a tile is in range exactly
      when it shares a point with the bounds. */
  lemma TileCheckRangeIffSharedPoint(proj: Projection, tile: Point, zoom: int, tileSize: real)
    requires proj.ValidZoom(zoom)
    requires proj.dimensions[zoom].0 >= 1 && proj.dimensions[zoom].1 >= 1
    requires tileSize >= 1.0
    ensures proj.TileCheckRange(tile, zoom, tileSize) <==>
              exists x: real, y: real :: proj.Bounds(zoom).ContainsPoint(x, y) &&
                                         TileRectangle(tile, tileSize).ContainsPoint(x, y)
  {
    IntersectsIffSharedPoint(proj.Bounds(zoom), TileRectangle(tile, tileSize));
  }

  /** Tiles of a whole side ts split the integer pixels into blocks: tile
      (i, j) holds exactly the pixels whose column and row, divided by ts,
      give i and j. */
  lemma TileRectangleHoldsItsPixels(i: int, j: int, tileSize: int, x: int, y: int)
    requires tileSize >= 1
    ensures TileRectangle(Point(i as real, j as real), tileSize as real).ContainsPoint(x as real, y as real)
            <==> x / tileSize == i && y / tileSize == j
  {
    var t := TileRectangle(Point(i as real, j as real), tileSize as real);
    assert t.left == (i * tileSize) as real && t.top == (j * tileSize) as real;
    ContainsIntegerPoint(t, x, y);
    TileBlock(i, tileSize, x);
    TileBlock(j, tileSize, y);
  }

  /** One axis of TileRectangleHoldsItsPixels: v lies in the block
      [i * n, i * n + n) iff v / n == i. */
  lemma TileBlock(i: int, n: int, v: int)
    requires n >= 1
    ensures (i * n) as real <= v as real < (i * n) as real + n as real <==> v / n == i
  {
    var q, r := v / n, v % n;
    assert v == q * n + r && 0 <= r < n;
    if q < i {
      assert i * n - (q + 1) * n == (i - q - 1) * n;
      ProductNonNegative(i - q - 1, n);
    } else if q > i {
      assert q * n - (i + 1) * n == (q - i - 1) * n;
      ProductNonNegative(q - i - 1, n);
    }
  }

  lemma ProductNonNegative(a: int, b: int)
    requires a >= 0 && b >= 0
    ensures a * b >= 0
  {
  }

  // ---------------------------------------------------------------- one level, default table

  /** One default level: a 100 x 100 map. (90, 180) lands on pixel (50, 50);
      the bounds run from -50 to 49 on both axes; tile (0, 0) of side 100 is in
      range, tile (1, 0) is not; the wrap width is 100. */
  lemma OneDefaultLevel()
    ensures var proj := Projection(1, DefaultDimensions(1));
            proj.ValidZoom(0) &&
            proj.FromLatLngToPixel(LatLng(90.0, 180.0, false), 0) == Point(50.0, 50.0) &&
            proj.Bounds(0) == Rectangle(-50.0, -50.0, 100.0, 100.0) &&
            proj.Bounds(0).Right() == 49.0 && proj.Bounds(0).Bottom() == 49.0 &&
            proj.TileCheckRange(Point(0.0, 0.0), 0, 100.0) &&
            !proj.TileCheckRange(Point(1.0, 0.0), 0, 100.0) &&
            proj.GetWrapWidth(0) == 100
  {
    var proj := Projection(1, DefaultDimensions(1));
    assert proj.dimensions == [(100, 100)];
    var p := proj.FromLatLngToPixel(LatLng(90.0, 180.0, false), 0);
    NearestIntegralUnique(p.x, 50.0, 180.0 * proj.PixelsPerLongitudeDegree(0));
    NearestIntegralUnique(p.y, 50.0, 90.0 * proj.PixelsPerLatitudeDegree(0));
  }

  // ---------------------------------------------------------------- projected boxes

  /** As written, a box whose north-east corner is not south of its south-west
      corner (the usual case) projects to a rectangle of height zero or less,
      which contains no point at all: FromLatLngToPixel gives the north the
      larger y, while ProjectLatLngBounds takes the north-east y as the top. */
  lemma ProjectLatLngBoundsIsEmpty(proj: Projection, bounds: LatLngBounds, zoom: int, x: real, y: real)
    requires proj.ValidZoom(zoom)
    requires proj.dimensions[zoom].1 >= 0
    requires bounds.southWest.lat <= bounds.northEast.lat
    ensures proj.ProjectLatLngBounds(bounds, zoom).height <= 0.0
    ensures !proj.ProjectLatLngBounds(bounds, zoom).ContainsPoint(x, y)
  {
    FromLatLngToPixelMonotone(proj, bounds.southWest, bounds.northEast, zoom);
  }

  /** A concrete box: from (0, 0) to (10, 10) on a 100 x 100 map. The corners
      project to (0, 0) and (3, 6), and the rectangle is (0, 6) 3 x -6. */
  lemma ProjectLatLngBoundsExample()
    ensures var proj := Projection(1, DefaultDimensions(1));
            var box := LatLngBounds(LatLng(0.0, 0.0, false), LatLng(10.0, 10.0, false));
            proj.ValidZoom(0) &&
            proj.ProjectLatLngBounds(box, 0) == Rectangle(0.0, 6.0, 3.0, -6.0) &&
            proj.ProjectLatLngBoundsCorrected(box, 0) == Rectangle(0.0, 0.0, 3.0, 6.0)
  {
    var proj := Projection(1, DefaultDimensions(1));
    var box := LatLngBounds(LatLng(0.0, 0.0, false), LatLng(10.0, 10.0, false));
    assert proj.dimensions == [(100, 100)];
    var sw, ne := proj.FromLatLngToPixel(box.southWest, 0), proj.FromLatLngToPixel(box.northEast, 0);
    NearestIntegralUnique(sw.x, 0.0, 0.0 * proj.PixelsPerLongitudeDegree(0));
    NearestIntegralUnique(sw.y, 0.0, 0.0 * proj.PixelsPerLatitudeDegree(0));
    NearestIntegralUnique(ne.x, 3.0, 10.0 * proj.PixelsPerLongitudeDegree(0));
    NearestIntegralUnique(ne.y, 6.0, 10.0 * proj.PixelsPerLatitudeDegree(0));
  }

  /** The corrected box covers exactly the pixels from the south-west pixel up
      to, but not including, the north-east pixel on both axes, and its extents
      are never negative for a box whose north-east corner is east and north of
      its south-west corner. */
  lemma ProjectLatLngBoundsCorrectedCovers(proj: Projection, bounds: LatLngBounds, zoom: int, x: int, y: int)
    requires proj.ValidZoom(zoom)
    requires proj.dimensions[zoom].0 >= 0 && proj.dimensions[zoom].1 >= 0
    requires bounds.southWest.lng <= bounds.northEast.lng
    requires bounds.southWest.lat <= bounds.northEast.lat
    ensures var r := proj.ProjectLatLngBoundsCorrected(bounds, zoom);
            var sw, ne := proj.FromLatLngToPixel(bounds.southWest, zoom), proj.FromLatLngToPixel(bounds.northEast, zoom);
            r.width >= 0.0 && r.height >= 0.0 &&
            (r.ContainsPoint(x as real, y as real) <==>
               sw.x <= x as real < ne.x && sw.y <= y as real < ne.y)
  {
    var sw, ne := proj.FromLatLngToPixel(bounds.southWest, zoom), proj.FromLatLngToPixel(bounds.northEast, zoom);
    FromLatLngToPixelMonotone(proj, bounds.southWest, bounds.northEast, zoom);
    CornerRectangleCovers(sw, ne, x, y);
  }

  /** The rectangle from one integral pixel to another, the second to the
      right of and below the first, covers the pixels from the first up to,
      but not including, the second. */
  lemma CornerRectangleCovers(from: Point, to: Point, x: int, y: int)
    requires IsIntegral(from.x) && IsIntegral(from.y) && IsIntegral(to.x) && IsIntegral(to.y)
    requires from.x <= to.x && from.y <= to.y
    ensures var r := Rectangle(from.x, from.y, to.x - from.x, to.y - from.y);
            r.ContainsPoint(x as real, y as real) <==>
              from.x <= x as real < to.x && from.y <= y as real < to.y
  {
    var r := Rectangle(from.x, from.y, to.x - from.x, to.y - from.y);
    assert (to.x - from.x).Floor == to.x.Floor - from.x.Floor;
    assert (to.y - from.y).Floor == to.y.Floor - from.y.Floor;
    ContainsIntegerPoint(r, x, y);
  }
}
