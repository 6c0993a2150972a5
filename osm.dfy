/** The map records the route logic consumes: node positions, footways as
    ordered lists of node ids, and university buildings. Only the fields the
    route logic reads are kept. */
module Osm {
  /** A map node: its id and its latitude and longitude. */
  datatype Coordinates = Coordinates(id: int, lat: real, lon: real)

  /** A walkable path: the ids of its nodes, in walking order. */
  datatype FootwayInfo = FootwayInfo(nodes: seq<int>)

  /** A building: its full name, its abbreviation and its position. */
  datatype BuildingInfo = BuildingInfo(fullname: string, abbrev: string, coords: Coordinates)

  /** The distance between two points given as (lat, lon, lat, lon). */
  type DistanceFn = (real, real, real, real) -> nat

  /** Every id in `ids` has an entry in the node table. */
  ghost predicate AllKnown(ids: seq<int>, nodes: map<int, Coordinates>) {
    forall i :: 0 <= i < |ids| ==> ids[i] in nodes
  }
}
