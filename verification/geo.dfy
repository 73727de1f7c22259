/**
 * Geographic values and map features. Degrees are held as integers
 * (millionths of a degree), so that equality and the fixed offsets of the
 * sample facilities are exact.
 */
module Geo {
  import opened Wrappers

  /** A `{lat, lng}` object of the application's state. */
  datatype Coordinate = Coordinate(lat: int, lng: int)

  /** A map point, written `[lng, lat]` as the map library and GeoJSON order it. */
  datatype Point = Point(lng: int, lat: int)

  function PointOf(c: Coordinate): Point {
    Point(c.lng, c.lat)
  }

  function CoordinateOf(p: Point): Coordinate {
    Coordinate(p.lat, p.lng)
  }

  /** Converting between the two orders loses nothing, in either direction. */
  lemma PointRoundTrip(c: Coordinate, p: Point)
    ensures CoordinateOf(PointOf(c)) == c
    ensures PointOf(CoordinateOf(p)) == p
  {
  }

  /** The properties a marker carries into its symbol layer. */
  datatype Props =
    | NoProps
    | Titled(title: string)
    | FacilityProps(name: string, operator: string, kind: string, impact: string)

  /** One marker of an overlay (a map data source). */
  datatype Feature = Feature(point: Point, props: Props)

  datatype Pixel = Pixel(x: int, y: int)

  /**
   * A click or touch event: `position` is present when the event carries an
   * array of numbers, `pixel` when it carries a screen position.
   */
  datatype PointerEvent = PointerEvent(position: Option<seq<int>>, pixel: Option<Pixel>)

  /**
   * The coordinate a pointer event selects. An event with a two-element
   * `[lng, lat]` array gives it directly; otherwise a pixel is projected by the
   * map's pixel-to-position function when the map offers one (`project`,
   * returning `[lng, lat]`); otherwise the event selects nothing.
   */
  function ResolvePointer(e: PointerEvent, project: Option<Pixel -> Point>): (r: Option<Coordinate>)
    ensures r.None? <==> (e.position.None? || |e.position.value| != 2) && (e.pixel.None? || project.None?)
    ensures e.position.Some? && |e.position.value| == 2 ==>
              r.Some? && r.value.lng == e.position.value[0] && r.value.lat == e.position.value[1]
  {
    if e.position.Some? && |e.position.value| == 2 then
      var lng, lat := e.position.value[0], e.position.value[1];
      Some(Coordinate(lat, lng))
    else if e.pixel.Some? && project.Some? then
      Some(CoordinateOf(project.value(e.pixel.value)))
    else
      None
  }

  /**
   * The marker drawn for a resolved position-array event sits exactly at the
   * event's `[lng, lat]` array: swapping into `{lat, lng}` and back is the identity.
   */
  lemma ResolvedMarkerAtEventPosition(e: PointerEvent, project: Option<Pixel -> Point>)
    requires e.position.Some? && |e.position.value| == 2
    ensures var r := ResolvePointer(e, project);
            r.Some? && [PointOf(r.value).lng, PointOf(r.value).lat] == e.position.value
  {
    var p := e.position.value;
    assert p == [p[0], p[1]];
  }

  /** A pixel event resolves to the projected point, read back in `[lng, lat]` order. */
  lemma ResolvedPixelIsProjection(e: PointerEvent, project: Option<Pixel -> Point>)
    requires e.position.None? || |e.position.value| != 2
    requires e.pixel.Some? && project.Some?
    ensures ResolvePointer(e, project) == Some(CoordinateOf(project.value(e.pixel.value)))
    ensures PointOf(ResolvePointer(e, project).value) == project.value(e.pixel.value)
  {
  }
}
