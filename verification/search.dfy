/**
 The first-found searches the reconciliation pass is built from:
 `Array.prototype.findIndex` by `properties.id`, the `flatMap` that keeps a
 frame's clusters, and the `find` over clusters whose children hold a marker.
 */
module Search {
  import opened Geo

  /** Which id field a children lookup compares: the forward branch uses
      `properties.id`, the reverse branch the top-level `id`. */
  datatype IdField = PropertiesId | TopLevelId

  function IdOf(f: Feature, field: IdField): Option<Id> {
    match field
    case PropertiesId => f.propId
    case TopLevelId => f.id
  }

  /** `frame.findIndex(x => x.properties.id === key)`: the first index whose
      feature has `properties.id` equal to `key`, or -1 when there is none. */
  function FindIndex(frame: Frame, key: Option<Id>): (r: int)
    ensures -1 <= r < |frame|
    ensures r >= 0 ==> frame[r].propId == key
    ensures r >= 0 ==> forall k :: 0 <= k < r ==> frame[k].propId != key
    ensures r < 0 <==> forall k :: 0 <= k < |frame| ==> frame[k].propId != key
  {
    if |frame| == 0 then -1
    else if frame[0].propId == key then 0
    else
      var r := FindIndex(frame[1..], key);
      if r < 0 then -1 else r + 1
  }

  /** `frame.flatMap(x => isPointCluster(x) ? x : [])`: the clusters of a
      frame, in frame order. */
  function ClustersOf(frame: Frame): (cs: Frame)
    ensures |cs| <= |frame|
    ensures forall f :: f in cs <==> f in frame && f.Cluster?
  {
    if |frame| == 0 then []
    else if frame[0].Cluster? then [frame[0]] + ClustersOf(frame[1..])
    else ClustersOf(frame[1..])
  }

  /** A one-feature frame contributes itself when it is a cluster and
      nothing otherwise, and collecting the clusters of two frames laid end
      to end collects those of the first, then those of the second: the
      collection keeps frame order and repeated clusters. */
  lemma ClustersOfKeepsOrder(a: Frame, b: Frame)
    ensures |a| == 1 ==> ClustersOf(a) == if a[0].Cluster? then a else []
    ensures ClustersOf(a + b) == ClustersOf(a) + ClustersOf(b)
  {
    if |a| == 1 {
      assert a[1..] == [];
    }
    ClustersOfConcat(a, b);
  }

  lemma {:induction false} ClustersOfConcat(a: Frame, b: Frame)
    ensures ClustersOf(a + b) == ClustersOf(a) + ClustersOf(b)
    decreases |a|
  {
    if |a| == 0 {
      assert a + b == b;
    } else {
      var ab := a + b;
      assert ab[0] == a[0];
      assert ab[1..] == a[1..] + b;
      ClustersOfConcat(a[1..], b);
    }
  }

  /** `getChildren(c.properties.cluster_id).find(m => m.<field> === key)` is
      truthy: some child of cluster `c` carries `key` in `field`. */
  predicate Holds(children: Children, c: Feature, field: IdField, key: Option<Id>)
    requires c.Cluster?
  {
    exists m :: m in children(c.clusterId) && IdOf(m, field) == key
  }

  /** `clusters.find(x => Holds(x))`: the first cluster, in sequence order,
      some child of which carries `key`; `None` when no cluster does. */
  function FindCluster(clusters: Frame, children: Children, field: IdField, key: Option<Id>): (r: Option<Feature>)
    requires forall k :: 0 <= k < |clusters| ==> clusters[k].Cluster?
    ensures r.None? <==> forall k :: 0 <= k < |clusters| ==> !Holds(children, clusters[k], field, key)
    ensures r.Some? ==> exists k :: 0 <= k < |clusters| && clusters[k] == r.value
                                    && Holds(children, r.value, field, key)
                                    && forall j :: 0 <= j < k ==> !Holds(children, clusters[j], field, key)
  {
    if |clusters| == 0 then None
    else if Holds(children, clusters[0], field, key) then Some(clusters[0])
    else
      FindCluster(clusters[1..], children, field, key)
  }
}
