/** An equirectangular projection for a tiled map host: longitude maps linearly
    to pixel x and latitude linearly to pixel y, with the pixel origin at the
    centre of the map. The map size at each zoom level comes from a dimension
    table of (width, height) pairs, fixed once the projection is built. */
module Equirectangular {
  import opened Rectangles

  datatype Option<T> = None | Some(value: T)

  /** (width, height) of the whole map, in pixels, at one zoom level. */
  type Dimension = (int, int)

  /** A geographic coordinate in degrees. `unbounded` is the flag handed to the
      host's coordinate constructor (when false the host wraps the longitude
      into [-180, 180]); the projection only passes it through. */
  datatype LatLng = LatLng(lat: real, lng: real, unbounded: bool)

  /** A point in pixel space; also used for (column, row) tile indices. */
  datatype Point = Point(x: real, y: real)

  /** A geographic bounding box given by its south-west and north-east corners. */
  datatype LatLngBounds = LatLngBounds(southWest: LatLng, northEast: LatLng)

  const DefaultWidthPerZoomLevel: int := 100
  const DefaultHeightPerZoomLevel: int := 100

  /** The default entry for zoom level i: the map grows linearly, by one
      default step per level. */
  function DefaultDimension(i: int): (d: Dimension)
    ensures d.0 == d.1
    ensures d.0 % DefaultWidthPerZoomLevel == 0
    ensures i >= 0 ==> d.0 >= DefaultWidthPerZoomLevel
  {
    ((i + 1) * DefaultWidthPerZoomLevel, (i + 1) * DefaultHeightPerZoomLevel)
  }

  /** The default table for zoomLevels levels: one DefaultDimension per level,
      and nothing for a zoomLevels of zero or less. */
  function DefaultDimensions(zoomLevels: int): (dims: seq<Dimension>)
    ensures |dims| == if zoomLevels < 0 then 0 else zoomLevels
    ensures forall i :: 0 <= i < |dims| ==> dims[i] == DefaultDimension(i)
    decreases zoomLevels
  {
    if zoomLevels <= 0 then []
    else DefaultDimensions(zoomLevels - 1) + [DefaultDimension(zoomLevels - 1)]
  }

  /** Builds the default table level by level; each step stores entry i at the
      end of the table, which is where index i lies. */
  method CreateDefaultDimensions(zoomLevels: int) returns (dims: seq<Dimension>)
    ensures |dims| == if zoomLevels < 0 then 0 else zoomLevels
    ensures forall i :: 0 <= i < |dims| ==>
              dims[i] == ((i + 1) * DefaultWidthPerZoomLevel, (i + 1) * DefaultHeightPerZoomLevel)
    ensures dims == DefaultDimensions(zoomLevels)
  {
    dims := [];
    var i := 0;
    while i < zoomLevels
      invariant 0 <= i && (zoomLevels < 0 ==> i == 0) && (zoomLevels >= 0 ==> i <= zoomLevels)
      invariant |dims| == i
      invariant forall k :: 0 <= k < i ==> dims[k] == DefaultDimension(k)
    {
      var width := (i + 1) * DefaultWidthPerZoomLevel;
      var height := (i + 1) * DefaultHeightPerZoomLevel;
      dims := dims + [(width, height)];
      i := i + 1;
    }
  }

  /** Math.round: the nearest integer, halves rounded up (towards +infinity). */
  function Round(v: real): (r: int)
    ensures r as real - 0.5 <= v < r as real + 0.5
  {
    (v + 0.5).Floor
  }

  /** The pixel square covered by the tile with (column, row) index `tile`. */
  function TileRectangle(tile: Point, tileSize: real): (r: Rectangle)
    ensures r.width == r.height == tileSize
    ensures r.left == tile.x * tileSize && r.top == tile.y * tileSize
  {
    Rectangle(tile.x * tileSize, tile.y * tileSize, tileSize, tileSize)
  }

  datatype Projection = Projection(zoomLevels: int, dimensions: seq<Dimension>) {

    /** The zoom levels the table has an entry for. */
    predicate ValidZoom(zoom: int) {
      0 <= zoom < |dimensions|
    }

    /** Map width and height at zoom, as pixel quantities. */
    function Width(zoom: int): (r: real)
      requires ValidZoom(zoom)
    {
      dimensions[zoom].0 as real
    }

    function Height(zoom: int): (r: real)
      requires ValidZoom(zoom)
    {
      dimensions[zoom].1 as real
    }

    /** The full 180 degrees of latitude span the map height. */
    function PixelsPerLatitudeDegree(zoom: int): (r: real)
      requires ValidZoom(zoom)
      ensures 180.0 * r == Height(zoom)
    {
      Height(zoom) / 180.0
    }

    /** The full 360 degrees of longitude span the map width. */
    function PixelsPerLongitudeDegree(zoom: int): (r: real)
      requires ValidZoom(zoom)
      ensures 360.0 * r == Width(zoom)
    {
      Width(zoom) / 360.0
    }

    /** Forward mapping: each coordinate is scaled and rounded to the nearest
        whole pixel, so the result is integral and within half a pixel of the
        exact scaled value. */
    function FromLatLngToPixel(latlng: LatLng, zoom: int): (p: Point)
      requires ValidZoom(zoom)
      ensures IsIntegral(p.x) && IsIntegral(p.y)
      ensures p.x - 0.5 <= latlng.lng * PixelsPerLongitudeDegree(zoom) < p.x + 0.5
      ensures p.y - 0.5 <= latlng.lat * PixelsPerLatitudeDegree(zoom) < p.y + 0.5
    {
      Point(Round(latlng.lng * PixelsPerLongitudeDegree(zoom)) as real,
            Round(latlng.lat * PixelsPerLatitudeDegree(zoom)) as real)
    }

    /** Inverse mapping: the coordinate whose exact scaled value is the pixel,
        with the unbounded flag passed through. */
    function FromPixelToLatLng(pixel: Point, zoom: int, unbounded: bool): (latlng: LatLng)
      requires ValidZoom(zoom)
      requires dimensions[zoom].0 != 0 && dimensions[zoom].1 != 0
      ensures latlng.lng * PixelsPerLongitudeDegree(zoom) == pixel.x
      ensures latlng.lat * PixelsPerLatitudeDegree(zoom) == pixel.y
      ensures latlng.unbounded == unbounded
    {
      var lng := pixel.x / PixelsPerLongitudeDegree(zoom);
      var lat := pixel.y / PixelsPerLatitudeDegree(zoom);
      LatLng(lat, lng, unbounded)
    }

    /** The pixel bounds of one copy of the world at zoom, centred on the
        origin. The halves are taken by exact division, so an odd size gives
        a half-integer left or top edge. */
    function Bounds(zoom: int): (r: Rectangle)
      requires ValidZoom(zoom)
      ensures r.width == Width(zoom) && r.height == Height(zoom)
      ensures r.left + r.width / 2.0 == 0.0 && r.top + r.height / 2.0 == 0.0
    {
      var width := Width(zoom);
      var height := Height(zoom);
      Rectangle(width / -2.0, height / -2.0, width, height)
    }

    /** Whether the tile at (column, row) index `tile`, of side tileSize pixels,
        overlaps the bounds at zoom: the tile's first column is not past the
        map's last column w/2 - 1 and its last column not before the map's
        first column -w/2, and likewise for rows. The tile index is never
        remapped. */
    predicate TileCheckRange(tile: Point, zoom: int, tileSize: real)
      requires ValidZoom(zoom)
      ensures TileCheckRange(tile, zoom, tileSize) <==>
                var t := TileRectangle(tile, tileSize);
                t.left <= Width(zoom) / 2.0 - 1.0 && -Width(zoom) / 2.0 <= t.Right() &&
                t.top <= Height(zoom) / 2.0 - 1.0 && -Height(zoom) / 2.0 <= t.Bottom()
    {
      Bounds(zoom).Intersects(TileRectangle(tile, tileSize))
    }

    /** The horizontal period of the map: the pixel distance that 360 degrees
        of longitude cover at zoom. */
    function GetWrapWidth(zoom: int): (w: int)
      requires ValidZoom(zoom)
      ensures w as real == 360.0 * PixelsPerLongitudeDegree(zoom)
      ensures w as real == Bounds(zoom).width
    {
      dimensions[zoom].0
    }

    /** Pixel rectangle of a geographic box as the code builds it: left from
        the south-west pixel, top from the north-east pixel, and the extents as
        differences of the two pixels (see the lemmas in ProjectionProperties
        for what this gives when north lies above south). */
    function ProjectLatLngBounds(bounds: LatLngBounds, zoom: int): (r: Rectangle)
      requires ValidZoom(zoom)
      ensures var sw, ne := FromLatLngToPixel(bounds.southWest, zoom), FromLatLngToPixel(bounds.northEast, zoom);
              r.left == sw.x && r.top == ne.y &&
              r.left + r.width == ne.x && r.top + r.height == sw.y
    {
      var swPixel := FromLatLngToPixel(bounds.southWest, zoom);
      var nePixel := FromLatLngToPixel(bounds.northEast, zoom);
      Rectangle(swPixel.x, nePixel.y, nePixel.x - swPixel.x, swPixel.y - nePixel.y)
    }

    /** The same box with the rows taken in the direction FromLatLngToPixel
        gives them (north has the larger y): the rectangle runs from the
        south-west pixel to the north-east pixel on both axes. */
    function ProjectLatLngBoundsCorrected(bounds: LatLngBounds, zoom: int): (r: Rectangle)
      requires ValidZoom(zoom)
      ensures var sw, ne := FromLatLngToPixel(bounds.southWest, zoom), FromLatLngToPixel(bounds.northEast, zoom);
              r.left == sw.x && r.top == sw.y &&
              r.left + r.width == ne.x && r.top + r.height == ne.y
    {
      var swPixel := FromLatLngToPixel(bounds.southWest, zoom);
      var nePixel := FromLatLngToPixel(bounds.northEast, zoom);
      Rectangle(swPixel.x, swPixel.y, nePixel.x - swPixel.x, nePixel.y - swPixel.y)
    }
  }

  /** The constructor: the given table if there is one, else the default table
      for zoomLevels levels. */
  method Create(zoomLevels: int, dimensions: Option<seq<Dimension>>) returns (p: Projection)
    ensures p.zoomLevels == zoomLevels
    ensures dimensions.Some? ==> p.dimensions == dimensions.value
    ensures dimensions.None? ==> |p.dimensions| == (if zoomLevels < 0 then 0 else zoomLevels)
    ensures dimensions.None? ==> p.dimensions == DefaultDimensions(zoomLevels)
  {
    var table: seq<Dimension>;
    if dimensions.Some? {
      table := dimensions.value;
    } else {
      table := CreateDefaultDimensions(zoomLevels);
    }
    p := Projection(zoomLevels, table);
  }
}
