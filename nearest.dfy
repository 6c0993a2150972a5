/** Mapping the two buildings of a query onto graph vertices: the footway
    node nearest to each building, by brute force over every node of every
    footway. The distance between two positions is a parameter. */
module Nearest {
  import opened Wrappers
  import opened Osm
  import Priority

  /** Every footway node id, in scan order: footways in order, and each
      footway's nodes in order. */
  function ScanOrder(footways: seq<FootwayInfo>): seq<int>
    decreases |footways|
  {
    if footways == [] then []
    else ScanOrder(footways[..|footways| - 1]) + footways[|footways| - 1].nodes
  }

  /** The scan visits exactly the nodes of the footways. */
  lemma {:induction false} ScanOrderMembers(footways: seq<FootwayInfo>)
    ensures forall x :: x in ScanOrder(footways) <==> exists k :: 0 <= k < |footways| && x in footways[k].nodes
    decreases |footways|
  {
    if footways != [] {
      var init := footways[..|footways| - 1];
      ScanOrderMembers(init);
      assert forall k :: 0 <= k < |init| ==> init[k] == footways[k];
    }
  }

  /** When the scan's nodes are all known, so are those of each footway. */
  lemma {:induction false} FootwayKnown(footways: seq<FootwayInfo>, mapNodes: map<int, Coordinates>, f: nat)
    requires AllKnown(ScanOrder(footways), mapNodes) && f < |footways|
    ensures AllKnown(footways[f].nodes, mapNodes)
    decreases |footways|
  {
    var init := footways[..|footways| - 1];
    var before := ScanOrder(init);
    var last := footways[|footways| - 1].nodes;
    assert ScanOrder(footways) == before + last;
    if f < |footways| - 1 {
      assert forall i :: 0 <= i < |before| ==> before[i] == ScanOrder(footways)[i];
      assert init[f] == footways[f];
      FootwayKnown(init, mapNodes, f);
    } else {
      assert forall i :: 0 <= i < |last| ==> last[i] == ScanOrder(footways)[|before| + i];
    }
  }

  /** How far `c` lies from `ref`. */
  function DistTo(ref: Coordinates, c: Coordinates, distance: DistanceFn): nat {
    distance(ref.lat, ref.lon, c.lat, c.lon)
  }

  /** The position of the first node in `ids` nearest to `ref`, found the
      way the scan finds it: a later node replaces the minimum so far only
      when it is strictly nearer. FirstNearestIsFirstMinimum says what it is. */
  function FirstNearest(ref: Coordinates, ids: seq<int>, mapNodes: map<int, Coordinates>, distance: DistanceFn): (k: nat)
    requires |ids| > 0 && AllKnown(ids, mapNodes)
    ensures k < |ids|
    decreases |ids|
  {
    if |ids| == 1 then 0
    else
      var k := FirstNearest(ref, ids[..|ids| - 1], mapNodes, distance);
      if DistTo(ref, mapNodes[ids[|ids| - 1]], distance) < DistTo(ref, mapNodes[ids[k]], distance)
      then |ids| - 1
      else k
  }

  /** No node of `ids` is nearer to `ref` than the one FirstNearest picks,
      and every node before it is strictly farther. */
  lemma {:induction false} FirstNearestIsFirstMinimum(ref: Coordinates, ids: seq<int>, mapNodes: map<int, Coordinates>,
                                                      distance: DistanceFn)
    requires |ids| > 0 && AllKnown(ids, mapNodes)
    ensures var k := FirstNearest(ref, ids, mapNodes, distance);
      && (forall i :: 0 <= i < |ids| ==>
            DistTo(ref, mapNodes[ids[k]], distance) <= DistTo(ref, mapNodes[ids[i]], distance))
      && (forall i :: 0 <= i < k ==>
            DistTo(ref, mapNodes[ids[k]], distance) < DistTo(ref, mapNodes[ids[i]], distance))
    decreases |ids|
  {
    if |ids| > 1 {
      var init := ids[..|ids| - 1];
      FirstNearestIsFirstMinimum(ref, init, mapNodes, distance);
      assert forall i :: 0 <= i < |init| ==> init[i] == ids[i];
    }
  }

  /** The running minimum for one building after the nodes in `scanned`:
      none while nothing has been scanned, otherwise the distance of the
      first nearest node and that node's recorded id. */
  ghost predicate Tracks(ref: Coordinates, scanned: seq<int>, mapNodes: map<int, Coordinates>, distance: DistanceFn,
                         closest: Option<nat>, id: int)
  {
    && AllKnown(scanned, mapNodes)
    && (scanned == [] ==> closest == None)
    && (scanned != [] ==>
          var k := FirstNearest(ref, scanned, mapNodes, distance);
          && closest == Some(DistTo(ref, mapNodes[scanned[k]], distance))
          && id == mapNodes[scanned[k]].id)
  }

  /** Considering one more node keeps the running minimum in step. */
  lemma TracksStep(ref: Coordinates, scanned: seq<int>, x: int, mapNodes: map<int, Coordinates>, distance: DistanceFn,
                   closest: Option<nat>, id: int, closest': Option<nat>, id': int)
    requires Tracks(ref, scanned, mapNodes, distance, closest, id)
    requires x in mapNodes
    requires var d := DistTo(ref, mapNodes[x], distance);
      if Priority.Exceeds(closest, Some(d)) then closest' == Some(d) && id' == mapNodes[x].id
      else closest' == closest && id' == id
    ensures Tracks(ref, scanned + [x], mapNodes, distance, closest', id')
  {
    assert (scanned + [x])[..|scanned|] == scanned;
  }

  /** One node's turn for one building: it becomes the running minimum when
      it is strictly nearer than the minimum so far (or nothing was seen). */
  method Consider(ref: Coordinates, ghost scanned: seq<int>, x: int, mapNodes: map<int, Coordinates>, distance: DistanceFn,
                  closest: Option<nat>, id: int)
    returns (closest': Option<nat>, id': int)
    requires Tracks(ref, scanned, mapNodes, distance, closest, id)
    requires x in mapNodes
    ensures Tracks(ref, scanned + [x], mapNodes, distance, closest', id')
  {
    var currCoordinates := mapNodes[x];
    var currentDistance := distance(ref.lat, ref.lon, currCoordinates.lat, currCoordinates.lon);
    closest', id' := closest, id;
    if Priority.Exceeds(closest, Some(currentDistance)) {
      closest' := Some(currentDistance);
      id' := currCoordinates.id;
    }
    TracksStep(ref, scanned, x, mapNodes, distance, closest, id, closest', id');
  }

  /** One footway's nodes in order, each considered for both buildings. */
  method ScanFootway(startBuilding: Coordinates, destBuilding: Coordinates, ghost scanned: seq<int>, nodes: seq<int>,
                     mapNodes: map<int, Coordinates>, distance: DistanceFn,
                     closestStart: Option<nat>, startID: int, closestDest: Option<nat>, destID: int)
    returns (closestStart': Option<nat>, startID': int, closestDest': Option<nat>, destID': int)
    requires AllKnown(nodes, mapNodes)
    requires Tracks(startBuilding, scanned, mapNodes, distance, closestStart, startID)
    requires Tracks(destBuilding, scanned, mapNodes, distance, closestDest, destID)
    ensures Tracks(startBuilding, scanned + nodes, mapNodes, distance, closestStart', startID')
    ensures Tracks(destBuilding, scanned + nodes, mapNodes, distance, closestDest', destID')
  {
    closestStart', startID', closestDest', destID' := closestStart, startID, closestDest, destID;
    ghost var seen := scanned;
    for i := 0 to |nodes|
      invariant seen == scanned + nodes[..i]
      invariant Tracks(startBuilding, seen, mapNodes, distance, closestStart', startID')
      invariant Tracks(destBuilding, seen, mapNodes, distance, closestDest', destID')
    {
      closestStart', startID' := Consider(startBuilding, seen, nodes[i], mapNodes, distance, closestStart', startID');
      closestDest', destID' := Consider(destBuilding, seen, nodes[i], mapNodes, distance, closestDest', destID');
      assert nodes[..i + 1] == nodes[..i] + [nodes[i]];
      seen := seen + [nodes[i]];
    }
    assert nodes[..|nodes|] == nodes;
  }

  /** Every lookup the scan makes succeeds: each footway node has an entry
      in the node table, and so does the id recorded in the node nearest to
      either building. */
  ghost predicate Lookups(startBuilding: Coordinates, destBuilding: Coordinates, footways: seq<FootwayInfo>,
                          mapNodes: map<int, Coordinates>, distance: DistanceFn)
  {
    var ids := ScanOrder(footways);
    && AllKnown(ids, mapNodes)
    && (ids != [] ==>
          && mapNodes[ids[FirstNearest(startBuilding, ids, mapNodes, distance)]].id in mapNodes
          && mapNodes[ids[FirstNearest(destBuilding, ids, mapNodes, distance)]].id in mapNodes)
  }

  /** For each building, the nearest footway node, looked up once more by
      the id recorded in it; `None` when there is no footway node at all. */
  method FindStartAndDest(startBuilding: Coordinates, destBuilding: Coordinates,
                          footways: seq<FootwayInfo>, mapNodes: map<int, Coordinates>, distance: DistanceFn)
    returns (result: Option<(Coordinates, Coordinates)>)
    requires Lookups(startBuilding, destBuilding, footways, mapNodes, distance)
    ensures result.None? <==> ScanOrder(footways) == []
    ensures result.Some? ==>
      var ids := ScanOrder(footways);
      var s := FirstNearest(startBuilding, ids, mapNodes, distance);
      var d := FirstNearest(destBuilding, ids, mapNodes, distance);
      result.value == (mapNodes[mapNodes[ids[s]].id], mapNodes[mapNodes[ids[d]].id])
  {
    var closestStartDistance: Option<nat> := None;
    var closestDestDistance: Option<nat> := None;
    var startID, destID := 0, 0;
    ghost var scanned: seq<int> := [];
    for f := 0 to |footways|
      invariant scanned == ScanOrder(footways[..f])
      invariant Tracks(startBuilding, scanned, mapNodes, distance, closestStartDistance, startID)
      invariant Tracks(destBuilding, scanned, mapNodes, distance, closestDestDistance, destID)
    {
      FootwayKnown(footways, mapNodes, f);
      closestStartDistance, startID, closestDestDistance, destID :=
        ScanFootway(startBuilding, destBuilding, scanned, footways[f].nodes, mapNodes, distance,
                    closestStartDistance, startID, closestDestDistance, destID);
      scanned := scanned + footways[f].nodes;
      assert footways[..f + 1][..f] == footways[..f];
    }
    assert footways[..|footways|] == footways;
    if closestStartDistance == None {
      return None;
    }
    result := Some((mapNodes[startID], mapNodes[destID]));
  }
}
