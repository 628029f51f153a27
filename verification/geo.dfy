/**
 GeoJSON-shaped values exchanged between the clustering engine and the
 reconciliation pass of `useAnimatedClusters`.

 Coordinates are only ever copied, never computed, so a position is a pair
 of integers.  A GeoJSON position lists longitude first and latitude second
 (section 3.1.1 of RFC 7946): `coordinates[0]` is the longitude and
 `coordinates[1]` the latitude.
 */
module Geo {

  /** An optional value; `None` stands for JavaScript's `undefined`. */
  datatype Option<+T> = None | Some(value: T) {

    /** The value, or `default` when absent (JavaScript's `??`). */
    function GetOr(default: T): T {
      match this
      case Some(v) => v
      case None => default
    }
  }

  /** The value of an `id` field.  Ids are compared with `===`, and
      `undefined === undefined` holds, so an id field is an `Option<Id>`
      compared with `==`: two absent ids are equal. */
  type Id = int

  /** `geometry.coordinates`: `lng` is `coordinates[0]`, `lat` is `coordinates[1]`. */
  datatype Position = Position(lng: int, lat: int)

  /** The `{latitude, longitude}` object that an animation descriptor carries. */
  datatype LatLng = LatLng(latitude: int, longitude: int)

  /** Reads a GeoJSON position as latitude `coordinates[1]` and longitude `coordinates[0]`. */
  function ToLatLng(p: Position): LatLng {
    LatLng(p.lat, p.lng)
  }

  /** `properties.animate = {from, to}`. */
  datatype Animation = Animation(from: LatLng, to: LatLng)

  /** A feature of a clustering frame.  Both variants carry the top-level `id`,
      `properties.id` (`propId`), the position and `properties.animate`;
      a cluster also carries `properties.cluster_id`.  A cluster normally has
      no `properties.id`, but nothing forbids one. */
  datatype Feature =
    | Point(id: Option<Id>, propId: Option<Id>, position: Position, animate: Option<Animation>)
    | Cluster(clusterId: int, id: Option<Id>, propId: Option<Id>, position: Position, animate: Option<Animation>)

  /** One clustering pass's output, in the engine's order. */
  type Frame = seq<Feature>

  /** An entry of `featuresToDisplay`, the original marker list: only its two
      id fields and its coordinates are read. */
  datatype Marker = Marker(id: Option<Id>, propId: Option<Id>, position: Position)

  /** `supercluster.getChildren`: from a cluster id to that cluster's children. */
  type Children = int -> seq<Feature>

  /** The feature with every field except `properties.animate` unchanged. */
  function Annotate(f: Feature, a: Animation): (g: Feature)
    ensures g.animate == Some(a)
    ensures g.(animate := f.animate) == f
  {
    f.(animate := Some(a))
  }

  /** `a` and `b` hold the same features in the same order, except possibly
      for their `animate` fields. */
  ghost predicate SameFeatures(a: Frame, b: Frame) {
    && |a| == |b|
    && forall k :: 0 <= k < |a| ==> a[k].(animate := b[k].animate) == b[k]
  }
}
