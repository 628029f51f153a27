/**
 One pass of `AnimateMarkers`, the body of the effect in `useAnimatedClusters`.

 The pass compares the frame the previous pass cached (`prevPoints.current`,
 here `prev`), which this pass delivers, with the frame the clustering engine
 has just produced (`points`, here `next`).  For every original marker, in list order, it decides whether
 the marker is being folded into a cluster of `next` (it then annotates the
 marker's point in `prev`) or is leaving a cluster of `prev` (it then
 annotates the marker's point in `next`).  `prev`, with its annotations, is
 delivered to the renderer, and `next`, with its annotations, is cached for
 the following pass.

 The TypeScript code annotates the two arrays in place; here each annotation is a
 pure update at an index.  No lookup reads `properties.animate`, so the
 order of the updates is all that matters.
 */
module Clusters {
  import opened Geo
  import opened Search

  /** What one marker's step does. */
  datatype Decision =
    | Gather(at: nat, anim: Animation)   // the marker is folding into a cluster: annotate prev[at]
    | Scatter(at: nat, anim: Animation)  // the marker is leaving a cluster: annotate next[at]
    | Keep                               // no annotation

  /** The next frame has a cluster some child of which has the marker's
      `properties.id` (the forward test). */
  predicate EntersCluster(children: Children, next: Frame, m: Marker) {
    FindCluster(ClustersOf(next), children, PropertiesId, m.propId).Some?
  }

  /** The previous frame has a cluster some child of which has the marker's
      top-level `id` (the reverse test). */
  predicate LeavesCluster(children: Children, prev: Frame, m: Marker) {
    FindCluster(ClustersOf(prev), children, TopLevelId, m.id).Some?
  }

  /** The step for marker `m`.  Every lookup is against the frames as they
      were at the start of the pass: the annotations earlier steps made
      change no field a lookup reads. */
  function Decide(children: Children, prev: Frame, next: Frame, m: Marker): (d: Decision)
    ensures d.Gather? ==> && d.at < |prev| && prev[d.at].propId == m.propId
                          && EntersCluster(children, next, m)
                          && d.anim.from == ToLatLng(m.position)
    ensures d.Scatter? ==> && d.at < |next| && next[d.at].propId == m.propId
                           && !EntersCluster(children, next, m)
                           && LeavesCluster(children, prev, m)
                           && d.anim.to == ToLatLng(next[d.at].position)
    ensures d.Keep? <==> if EntersCluster(children, next, m)
                         then forall k :: 0 <= k < |prev| ==> prev[k].propId != m.propId
                         else (!LeavesCluster(children, prev, m)
                               || forall k :: 0 <= k < |next| ==> next[k].propId != m.propId)
  {
    match FindCluster(ClustersOf(next), children, PropertiesId, m.propId)
    case Some(dest) =>
      var i := FindIndex(prev, m.propId);
      if i >= 0 then Gather(i, Animation(ToLatLng(m.position), ToLatLng(dest.position)))
      else Keep
    case None =>
      var origin := FindCluster(ClustersOf(prev), children, TopLevelId, m.id);
      var j := FindIndex(next, m.propId);
      if origin.Some? && j >= 0 then Scatter(j, Animation(ToLatLng(origin.value.position), ToLatLng(next[j].position)))
      else Keep
  }

  /** The result of a pass: the frame handed to `setAnimatedPoints` and the
      frame stored in `prevPoints.current`. */
  datatype Reconciled = Reconciled(delivered: Frame, cache: Frame)

  /** Carries out one decision on the pair of frames: an in-range write
      annotates its slot, and both frames keep their features otherwise. */
  function Apply(r: Reconciled, d: Decision): (r': Reconciled)
    ensures |r'.delivered| == |r.delivered| && |r'.cache| == |r.cache|
    ensures d.Gather? && d.at < |r.delivered| ==> r'.delivered[d.at].animate == Some(d.anim)
    ensures d.Scatter? && d.at < |r.cache| ==> r'.cache[d.at].animate == Some(d.anim)
  {
    match d
    case Gather(i, a) =>
      if i < |r.delivered| then r.(delivered := r.delivered[i := Annotate(r.delivered[i], a)]) else r
    case Scatter(j, a) =>
      if j < |r.cache| then r.(cache := r.cache[j := Annotate(r.cache[j], a)]) else r
    case Keep => r
  }

  /** The decisions for the markers `ms`, one per marker, in list order. */
  function Decisions(children: Children, prev: Frame, next: Frame, ms: seq<Marker>): seq<Decision> {
    seq(|ms|, t requires 0 <= t < |ms| => Decide(children, prev, next, ms[t]))
  }

  /** Carries out the decisions `ds` in order, starting from `start`.  Both
      frames keep their features and their order, and an `animate` already
      present is overwritten at most, never cleared. */
  function ApplyAll(start: Reconciled, ds: seq<Decision>): (r: Reconciled)
    ensures SameFeatures(r.delivered, start.delivered) && SameFeatures(r.cache, start.cache)
    ensures forall k :: 0 <= k < |start.delivered| && start.delivered[k].animate.Some?
                        ==> r.delivered[k].animate.Some?
    ensures forall k :: 0 <= k < |start.cache| && start.cache[k].animate.Some?
                        ==> r.cache[k].animate.Some?
    decreases |ds|
  {
    if |ds| == 0 then start
    else Apply(ApplyAll(start, ds[..|ds| - 1]), ds[|ds| - 1])
  }

  /** One reconciliation pass over the frame the previous pass cached, the newly
      clustered frame, the original marker list and the children lookup: the
      `forEach` over the markers, in list order. */
  function Reconcile(prev: Frame, next: Frame, markers: seq<Marker>, children: Children): (r: Reconciled)
    ensures SameFeatures(r.delivered, prev) && SameFeatures(r.cache, next)
  {
    ApplyAll(Reconciled(prev, next), Decisions(children, prev, next, markers))
  }

  /** The hook's two pieces of state: `prevPoints.current` and `animatedPoints`. */
  datatype Hook = Hook(cache: Frame, shown: Frame)

  /** The effect run when the engine produces `next`: deliver the annotated
      cached frame, then cache `next` with its annotations. */
  function Step(h: Hook, next: Frame, markers: seq<Marker>, children: Children): (h': Hook)
    ensures SameFeatures(h'.shown, h.cache) && SameFeatures(h'.cache, next)
  {
    var r := Reconcile(h.cache, next, markers, children);
    Hook(r.cache, r.delivered)
  }

  /** The pass as `AnimateMarkers` is written: the clusters are collected once, the
      markers are visited in order, and each point is annotated in place in
      the array it was found in, whose annotations later lookups see. */
  method AnimateMarkers(prev: Frame, next: Frame, markers: seq<Marker>, children: Children)
    returns (delivered: Frame, cache: Frame)
    ensures Reconciled(delivered, cache) == Reconcile(prev, next, markers, children)
  {
    var prevClusters := ClustersOf(prev);
    var nextClusters := ClustersOf(next);
    var prevPoints := prev;
    var points := next;
    ghost var ds := Decisions(children, prev, next, markers);
    var t := 0;
    assert ds[..t] == [];
    while t < |markers|
      invariant 0 <= t <= |markers|
      invariant Reconciled(prevPoints, points) == ApplyAll(Reconciled(prev, next), ds[..t])
    {
      ApplyAllStep(Reconciled(prev, next), ds, t);
      assert ds[t] == Decide(children, prev, next, markers[t]);
      prevPoints, points := VisitMarker(prev, next, prevClusters, nextClusters, children, markers[t], prevPoints, points);
      t := t + 1;
    }
    assert ds[..t] == ds;
    delivered := prevPoints;
    cache := points;
  }

  /** The `forEach` callback for one marker, annotating `prevPoints` or
      `points` in place; it does what the marker's decision says. */
  method VisitMarker(prev: Frame, next: Frame, prevClusters: Frame, nextClusters: Frame, children: Children,
                     m: Marker, prevPoints: Frame, points: Frame)
    returns (prevPoints': Frame, points': Frame)
    requires prevClusters == ClustersOf(prev) && nextClusters == ClustersOf(next)
    requires SameFeatures(prevPoints, prev) && SameFeatures(points, next)
    ensures Reconciled(prevPoints', points') == Apply(Reconciled(prevPoints, points), Decide(children, prev, next, m))
  {
    prevPoints', points' := prevPoints, points;
    var dest := FindCluster(nextClusters, children, PropertiesId, m.propId);
    if dest.Some? {
      var prevPointIndex := FindIndex(prevPoints, m.propId);
      FindIndexIgnoresAnimate(prevPoints, prev, m.propId);
      if prevPointIndex >= 0 {
        prevPoints' := prevPoints[prevPointIndex := Annotate(prevPoints[prevPointIndex],
          Animation(ToLatLng(m.position), ToLatLng(dest.value.position)))];
      }
    } else {
      var oldCluster := FindCluster(prevClusters, children, TopLevelId, m.id);
      var pointIndex := FindIndex(points, m.propId);
      FindIndexIgnoresAnimate(points, next, m.propId);
      if oldCluster.Some? && pointIndex >= 0 {
        assert points[pointIndex].position == next[pointIndex].position;
        points' := points[pointIndex := Annotate(points[pointIndex],
          Animation(ToLatLng(oldCluster.value.position), ToLatLng(points[pointIndex].position)))];
      }
    }
  }

  /** Applying one more decision extends the pass by that decision. */
  lemma ApplyAllStep(start: Reconciled, ds: seq<Decision>, t: int)
    requires 0 <= t < |ds|
    ensures ApplyAll(start, ds[..t + 1]) == Apply(ApplyAll(start, ds[..t]), ds[t])
  {
    assert ds[..t + 1][..t] == ds[..t];
  }

  /** `findIndex` by `properties.id` does not see `animate` fields. */
  lemma FindIndexIgnoresAnimate(a: Frame, b: Frame, key: Option<Id>)
    requires SameFeatures(a, b)
    ensures FindIndex(a, key) == FindIndex(b, key)
  {
    assert forall k :: 0 <= k < |a| ==> a[k].propId == b[k].propId;
  }
}
