/**
 Properties of the reconciliation pass: what ends up at each index of the
 delivered frame and of the cache, the forward and reverse transitions, the
 steady state, and how annotations carry from one pass to the next.
 */
module ClusterProperties {
  import opened Geo
  import opened Search
  import opened Clusters

  /** Searching the clusters collected from a frame finds the first cluster
      of the frame, in frame order, that holds `key`, and nothing when no
      cluster of the frame does. */
  lemma {:induction false} FindClusterInFrame(frame: Frame, children: Children, field: IdField, key: Option<Id>)
    ensures var r := FindCluster(ClustersOf(frame), children, field, key);
            && (r.None? <==> forall k :: 0 <= k < |frame| && frame[k].Cluster? ==> !Holds(children, frame[k], field, key))
            && (forall c :: FirstHolder(frame, children, field, key, c) ==> r == Some(frame[c]))
  {
    FindClusterNone(frame, children, field, key);
    forall c | FirstHolder(frame, children, field, key, c)
      ensures FindCluster(ClustersOf(frame), children, field, key) == Some(frame[c])
    {
      FindClusterFirst(frame, children, field, key, c);
    }
  }

  /** The search over a frame's clusters looks at the frame's first feature,
      if it is a cluster, and otherwise goes on with the rest of the frame. */
  lemma FindClusterStep(frame: Frame, children: Children, field: IdField, key: Option<Id>)
    requires |frame| > 0
    ensures FindCluster(ClustersOf(frame), children, field, key)
            == if frame[0].Cluster? && Holds(children, frame[0], field, key) then Some(frame[0])
               else FindCluster(ClustersOf(frame[1..]), children, field, key)
  {
    if frame[0].Cluster? {
      var cs := ClustersOf(frame);
      assert cs == [frame[0]] + ClustersOf(frame[1..]);
      assert cs[1..] == ClustersOf(frame[1..]);
    }
  }

  lemma {:induction false} FindClusterNone(frame: Frame, children: Children, field: IdField, key: Option<Id>)
    ensures FindCluster(ClustersOf(frame), children, field, key).None?
            <==> forall k :: 0 <= k < |frame| && frame[k].Cluster? ==> !Holds(children, frame[k], field, key)
    decreases |frame|
  {
    if |frame| > 0 {
      FindClusterStep(frame, children, field, key);
      FindClusterNone(frame[1..], children, field, key);
      assert forall k :: 0 < k < |frame| ==> frame[k] == frame[1..][k - 1];
    }
  }

  lemma {:induction false} FindClusterFirst(frame: Frame, children: Children, field: IdField, key: Option<Id>, c: int)
    requires FirstHolder(frame, children, field, key, c)
    ensures FindCluster(ClustersOf(frame), children, field, key) == Some(frame[c])
    decreases c
  {
    FindClusterStep(frame, children, field, key);
    if c > 0 {
      assert FirstHolder(frame[1..], children, field, key, c - 1) by {
        assert forall k :: 0 <= k < c - 1 ==> frame[1..][k] == frame[k + 1];
      }
      FindClusterFirst(frame[1..], children, field, key, c - 1);
    }
  }

  /** Index `c` of `frame` is the first cluster that holds `key` in `field`. */
  ghost predicate FirstHolder(frame: Frame, children: Children, field: IdField, key: Option<Id>, c: int) {
    && 0 <= c < |frame| && frame[c].Cluster? && Holds(children, frame[c], field, key)
    && forall k :: 0 <= k < c && frame[k].Cluster? ==> !Holds(children, frame[k], field, key)
  }

  /** Decision `d` annotates index `k` of the delivered frame. */
  predicate GathersAt(d: Decision, k: int) {
    d.Gather? && d.at == k
  }

  /** Decision `d` annotates index `k` of the cache. */
  predicate ScattersAt(d: Decision, k: int) {
    d.Scatter? && d.at == k
  }

  /** `ds[t]` is the last decision that annotates index `k` of the delivered frame. */
  ghost predicate LastGather(ds: seq<Decision>, k: int, t: int) {
    && 0 <= t < |ds| && GathersAt(ds[t], k)
    && forall u :: t < u < |ds| ==> !GathersAt(ds[u], k)
  }

  /** `ds[t]` is the last decision that annotates index `k` of the cache. */
  ghost predicate LastScatter(ds: seq<Decision>, k: int, t: int) {
    && 0 <= t < |ds| && ScattersAt(ds[t], k)
    && forall u :: t < u < |ds| ==> !ScattersAt(ds[u], k)
  }

  /** One decision changes at most the one index it names, and only in the
      frame it names. */
  lemma ApplyAt(r: Reconciled, d: Decision, k: int)
    ensures 0 <= k < |r.delivered| ==>
              Apply(r, d).delivered[k] == if GathersAt(d, k) then Annotate(r.delivered[k], d.anim) else r.delivered[k]
    ensures 0 <= k < |r.cache| ==>
              Apply(r, d).cache[k] == if ScattersAt(d, k) then Annotate(r.cache[k], d.anim) else r.cache[k]
  {
  }

  /** Index `k` of the delivered frame is the starting feature annotated with the
      descriptor of the LAST decision that gathers at `k`, and the starting
      feature itself when no decision does. */
  lemma {:induction false} DeliveredAt(start: Reconciled, ds: seq<Decision>, k: int)
    requires 0 <= k < |start.delivered|
    ensures (forall t :: 0 <= t < |ds| ==> !GathersAt(ds[t], k))
            ==> ApplyAll(start, ds).delivered[k] == start.delivered[k]
    ensures forall t :: (LastGather(ds, k, t)
              ==> ApplyAll(start, ds).delivered[k] == Annotate(start.delivered[k], ds[t].anim))
  {
    if forall t :: 0 <= t < |ds| ==> !GathersAt(ds[t], k) {
      DeliveredUntouched(start, ds, k);
    }
    forall t | LastGather(ds, k, t)
      ensures ApplyAll(start, ds).delivered[k] == Annotate(start.delivered[k], ds[t].anim)
    {
      DeliveredLast(start, ds, k, t);
    }
  }

  /** No decision gathers at `k`: index `k` of the delivered frame is untouched. */
  lemma {:induction false} DeliveredUntouched(start: Reconciled, ds: seq<Decision>, k: int)
    requires 0 <= k < |start.delivered|
    requires forall t :: 0 <= t < |ds| ==> !GathersAt(ds[t], k)
    ensures ApplyAll(start, ds).delivered[k] == start.delivered[k]
    decreases |ds|
  {
    if |ds| > 0 {
      var n := |ds| - 1;
      assert forall t :: 0 <= t < |ds[..n]| ==> !GathersAt(ds[..n][t], k);
      DeliveredUntouched(start, ds[..n], k);
      ApplyAt(ApplyAll(start, ds[..n]), ds[n], k);
    }
  }

  /** Decision `t` is the last that gathers at `k`: its descriptor is the one left there. */
  lemma {:induction false} DeliveredLast(start: Reconciled, ds: seq<Decision>, k: int, t: int)
    requires 0 <= k < |start.delivered|
    requires LastGather(ds, k, t)
    ensures ApplyAll(start, ds).delivered[k] == Annotate(start.delivered[k], ds[t].anim)
    decreases |ds|
  {
    var n := |ds| - 1;
    var before := ApplyAll(start, ds[..n]);
    ApplyAt(before, ds[n], k);
    if t < n {
      assert LastGather(ds[..n], k, t);
      DeliveredLast(start, ds[..n], k, t);
    } else {
      assert before.delivered[k].(animate := start.delivered[k].animate) == start.delivered[k];
    }
  }

  /** Index `k` of the cache is the starting feature annotated with the
      descriptor of the LAST decision that scatters at `k`, and the starting
      feature itself when no decision does. */
  lemma {:induction false} CachedAt(start: Reconciled, ds: seq<Decision>, k: int)
    requires 0 <= k < |start.cache|
    ensures (forall t :: 0 <= t < |ds| ==> !ScattersAt(ds[t], k))
            ==> ApplyAll(start, ds).cache[k] == start.cache[k]
    ensures forall t :: (LastScatter(ds, k, t)
              ==> ApplyAll(start, ds).cache[k] == Annotate(start.cache[k], ds[t].anim))
  {
    if forall t :: 0 <= t < |ds| ==> !ScattersAt(ds[t], k) {
      CachedUntouched(start, ds, k);
    }
    forall t | LastScatter(ds, k, t)
      ensures ApplyAll(start, ds).cache[k] == Annotate(start.cache[k], ds[t].anim)
    {
      CachedLast(start, ds, k, t);
    }
  }

  /** No decision scatters at `k`: index `k` of the cache is untouched. */
  lemma {:induction false} CachedUntouched(start: Reconciled, ds: seq<Decision>, k: int)
    requires 0 <= k < |start.cache|
    requires forall t :: 0 <= t < |ds| ==> !ScattersAt(ds[t], k)
    ensures ApplyAll(start, ds).cache[k] == start.cache[k]
    decreases |ds|
  {
    if |ds| > 0 {
      var n := |ds| - 1;
      assert forall t :: 0 <= t < |ds[..n]| ==> !ScattersAt(ds[..n][t], k);
      CachedUntouched(start, ds[..n], k);
      ApplyAt(ApplyAll(start, ds[..n]), ds[n], k);
    }
  }

  /** Decision `t` is the last that scatters at `k`: its descriptor is the one left there. */
  lemma {:induction false} CachedLast(start: Reconciled, ds: seq<Decision>, k: int, t: int)
    requires 0 <= k < |start.cache|
    requires LastScatter(ds, k, t)
    ensures ApplyAll(start, ds).cache[k] == Annotate(start.cache[k], ds[t].anim)
    decreases |ds|
  {
    var n := |ds| - 1;
    var before := ApplyAll(start, ds[..n]);
    ApplyAt(before, ds[n], k);
    if t < n {
      assert LastScatter(ds[..n], k, t);
      CachedLast(start, ds[..n], k, t);
    } else {
      assert before.cache[k].(animate := start.cache[k].animate) == start.cache[k];
    }
  }

  /** First match wins, forward: a marker held by a cluster of `next` is
      animated, in the first feature of `prev` that has its `properties.id`,
      from its own coordinate to the coordinate of the FIRST such cluster. */
  lemma ForwardDecision(children: Children, prev: Frame, next: Frame, m: Marker, c: int, i: int)
    requires FirstHolder(next, children, PropertiesId, m.propId, c)
    requires 0 <= i < |prev| && prev[i].propId == m.propId
    requires forall k :: 0 <= k < i ==> prev[k].propId != m.propId
    ensures Decide(children, prev, next, m) == Gather(i, Animation(ToLatLng(m.position), ToLatLng(next[c].position)))
  {
    FindClusterInFrame(next, children, PropertiesId, m.propId);
    assert FindCluster(ClustersOf(next), children, PropertiesId, m.propId) == Some(next[c]);
    var r := FindIndex(prev, m.propId);
    assert r == i by {
      assert r >= 0;
    }
  }

  /** First match wins, reverse: a marker held by no cluster of `next` but
      by a cluster of `prev` (through the top-level `id`) is animated, in the
      first feature of `next` that has its `properties.id`, from the
      coordinate of the FIRST such cluster of `prev` to that feature's own
      coordinate. */
  lemma ReverseDecision(children: Children, prev: Frame, next: Frame, m: Marker, o: int, j: int)
    requires forall k :: 0 <= k < |next| && next[k].Cluster? ==> !Holds(children, next[k], PropertiesId, m.propId)
    requires FirstHolder(prev, children, TopLevelId, m.id, o)
    requires 0 <= j < |next| && next[j].propId == m.propId
    requires forall k :: 0 <= k < j ==> next[k].propId != m.propId
    ensures Decide(children, prev, next, m) == Scatter(j, Animation(ToLatLng(prev[o].position), ToLatLng(next[j].position)))
  {
    FindClusterInFrame(next, children, PropertiesId, m.propId);
    assert FindCluster(ClustersOf(next), children, PropertiesId, m.propId).None?;
    FindClusterInFrame(prev, children, TopLevelId, m.id);
    assert FindCluster(ClustersOf(prev), children, TopLevelId, m.id) == Some(prev[o]);
    var r := FindIndex(next, m.propId);
    assert r == j by {
      assert r >= 0;
    }
  }

  /** Only a marker with the same `properties.id` can annotate the slot
      marker `t` annotates, so when no later marker shares it, marker `t`'s
      decision is the last one for that slot. */
  lemma LastForSlot(children: Children, prev: Frame, next: Frame, markers: seq<Marker>, t: int)
    requires 0 <= t < |markers|
    requires forall u :: t < u < |markers| ==> markers[u].propId != markers[t].propId
    ensures var ds := Decisions(children, prev, next, markers);
            && (ds[t].Gather? ==> LastGather(ds, ds[t].at, t))
            && (ds[t].Scatter? ==> LastScatter(ds, ds[t].at, t))
  {
  }

  /** Forward transition.  When the first cluster of `next` whose children
      include marker `t`'s `properties.id` is `next[c]`, and the first feature
      of `prev` with that `properties.id` is `prev[i]`, the delivered
      `prev[i]` animates from the marker's own coordinate in the marker list
      to the cluster's coordinate — provided no LATER marker shares the
      `properties.id` (a later one would overwrite the slot). */
  lemma ForwardTransition(prev: Frame, next: Frame, markers: seq<Marker>, children: Children, t: int, c: int, i: int)
    requires 0 <= t < |markers|
    requires FirstHolder(next, children, PropertiesId, markers[t].propId, c)
    requires 0 <= i < |prev| && prev[i].propId == markers[t].propId
    requires forall k :: 0 <= k < i ==> prev[k].propId != markers[t].propId
    requires forall u :: t < u < |markers| ==> markers[u].propId != markers[t].propId
    ensures Reconcile(prev, next, markers, children).delivered[i]
            == Annotate(prev[i], Animation(ToLatLng(markers[t].position), ToLatLng(next[c].position)))
  {
    ForwardDecision(children, prev, next, markers[t], c, i);
    LastForSlot(children, prev, next, markers, t);
    DeliveredAt(Reconciled(prev, next), Decisions(children, prev, next, markers), i);
  }

  /** Reverse transition.  When no cluster of `next` holds marker `t`'s
      `properties.id`, the first cluster of `prev` whose children include the
      marker's top-level `id` is `prev[o]`, and the first feature of `next`
      with the marker's `properties.id` is `next[j]`, the cached `next[j]`
      animates from that old cluster's coordinate to `next[j]`'s own
      coordinate — provided no later marker shares the `properties.id`. */
  lemma ReverseTransition(prev: Frame, next: Frame, markers: seq<Marker>, children: Children, t: int, o: int, j: int)
    requires 0 <= t < |markers|
    requires forall k :: 0 <= k < |next| && next[k].Cluster? ==> !Holds(children, next[k], PropertiesId, markers[t].propId)
    requires FirstHolder(prev, children, TopLevelId, markers[t].id, o)
    requires 0 <= j < |next| && next[j].propId == markers[t].propId
    requires forall k :: 0 <= k < j ==> next[k].propId != markers[t].propId
    requires forall u :: t < u < |markers| ==> markers[u].propId != markers[t].propId
    ensures Reconcile(prev, next, markers, children).cache[j]
            == Annotate(next[j], Animation(ToLatLng(prev[o].position), ToLatLng(next[j].position)))
  {
    ReverseDecision(children, prev, next, markers[t], o, j);
    LastForSlot(children, prev, next, markers, t);
    CachedAt(Reconciled(prev, next), Decisions(children, prev, next, markers), j);
  }

  /** A marker held by no cluster of `next` (by `properties.id`) and by no
      cluster of `prev` (by top-level `id`). */
  ghost predicate Unclustered(children: Children, prev: Frame, next: Frame, m: Marker) {
    && (forall k :: 0 <= k < |next| && next[k].Cluster? ==> !Holds(children, next[k], PropertiesId, m.propId))
    && (forall k :: 0 <= k < |prev| && prev[k].Cluster? ==> !Holds(children, prev[k], TopLevelId, m.id))
  }

  /** No feature of `frame` carries `key` as its `properties.id`. */
  ghost predicate Absent(frame: Frame, key: Option<Id>) {
    forall k :: 0 <= k < |frame| ==> frame[k].propId != key
  }

  /** Steady state for one marker: a marker in no cluster on either side, or
      whose point is in neither frame, is given no descriptor. */
  lemma StillMarker(children: Children, prev: Frame, next: Frame, m: Marker)
    requires Unclustered(children, prev, next, m) || (Absent(prev, m.propId) && Absent(next, m.propId))
    ensures Decide(children, prev, next, m) == Keep
  {
    FindClusterInFrame(next, children, PropertiesId, m.propId);
    FindClusterInFrame(prev, children, TopLevelId, m.id);
  }

  /** Decisions that are all `Keep` leave both frames exactly as they were. */
  lemma {:induction false} PassWithoutWrites(start: Reconciled, ds: seq<Decision>)
    requires forall t :: 0 <= t < |ds| ==> ds[t].Keep?
    ensures ApplyAll(start, ds) == start
    decreases |ds|
  {
    if |ds| > 0 {
      PassWithoutWrites(start, ds[..|ds| - 1]);
    }
  }

  /** Steady state for a whole pass: when no marker is clustered on either
      side, nothing is annotated. */
  lemma SteadyState(prev: Frame, next: Frame, markers: seq<Marker>, children: Children)
    requires forall t :: 0 <= t < |markers| ==> Unclustered(children, prev, next, markers[t])
    ensures Reconcile(prev, next, markers, children) == Reconciled(prev, next)
  {
    forall t | 0 <= t < |markers| ensures Decide(children, prev, next, markers[t]).Keep? {
      StillMarker(children, prev, next, markers[t]);
    }
    PassWithoutWrites(Reconciled(prev, next), Decisions(children, prev, next, markers));
  }

  /** The frame agrees with marker `m` on where it is: `m` is not both a
      cluster's child and a feature of its own, and a cluster that has a
      child with `m`'s top-level `id` also has one with `m`'s `properties.id`. */
  ghost predicate Consistent(children: Children, frame: Frame, m: Marker) {
    && (forall k :: 0 <= k < |frame| && frame[k].Cluster? && Holds(children, frame[k], PropertiesId, m.propId)
          ==> Absent(frame, m.propId))
    && (forall k :: 0 <= k < |frame| && frame[k].Cluster? && Holds(children, frame[k], TopLevelId, m.id)
          ==> Holds(children, frame[k], PropertiesId, m.propId))
  }

  /** A marker consistent with the new frame is left alone by a pass whose
      cached frame has the same features, whatever descriptors the cache
      already carries. */
  lemma StillWhenUnmoved(children: Children, prev: Frame, next: Frame, m: Marker)
    requires SameFeatures(prev, next)
    requires Consistent(children, next, m)
    ensures Decide(children, prev, next, m) == Keep
  {
    assert forall k :: 0 <= k < |prev| ==>
      && prev[k].propId == next[k].propId
      && prev[k].Cluster? == next[k].Cluster?
      && (prev[k].Cluster? ==> prev[k].clusterId == next[k].clusterId);
    FindIndexIgnoresAnimate(prev, next, m.propId);
    FindClusterInFrame(next, children, PropertiesId, m.propId);
    FindClusterInFrame(prev, children, TopLevelId, m.id);
  }

  /** Reconciling again after the clusters have not changed adds no
      descriptor: when the cached frame has the same features as the new
      one (its descriptors may differ) and the new frame is consistent with
      every marker, the pass delivers the cache and caches the new frame
      unchanged. */
  lemma Idempotent(prev: Frame, next: Frame, markers: seq<Marker>, children: Children)
    requires SameFeatures(prev, next)
    requires forall t :: 0 <= t < |markers| ==> Consistent(children, next, markers[t])
    ensures Reconcile(prev, next, markers, children) == Reconciled(prev, next)
  {
    forall t | 0 <= t < |markers| ensures Decide(children, prev, next, markers[t]).Keep? {
      StillWhenUnmoved(children, prev, next, markers[t]);
    }
    PassWithoutWrites(Reconciled(prev, next), Decisions(children, prev, next, markers));
  }

  /** Reconciling a frame against itself adds no descriptor, provided the
      frame is consistent with every marker. */
  lemma IdempotentOnItself(frame: Frame, markers: seq<Marker>, children: Children)
    requires forall t :: 0 <= t < |markers| ==> Consistent(children, frame, markers[t])
    ensures Reconcile(frame, frame, markers, children) == Reconciled(frame, frame)
  {
    Idempotent(frame, frame, markers, children);
  }

  /** The consistency condition is needed: when markers carry no top-level
      `id`, every child without one matches them, so a marker standing alone
      in both frames still gets a descriptor from the first cluster with such
      a child. */
  lemma MissingTopLevelIdAnimates()
    ensures var children := (c: int) => if c == 7 then [Point(None, Some(1), Position(0, 0), None)] else [];
            var frame := [Cluster(7, Some(7), None, Position(1, 1), None), Point(None, Some(2), Position(5, 5), None)];
            var markers := [Marker(None, Some(1), Position(0, 0)), Marker(None, Some(2), Position(5, 5))];
            Reconcile(frame, frame, markers, children).cache[1].animate
            == Some(Animation(LatLng(1, 1), LatLng(5, 5)))
  {
    var children := (c: int) => if c == 7 then [Point(None, Some(1), Position(0, 0), None)] else [];
    var frame := [Cluster(7, Some(7), None, Position(1, 1), None), Point(None, Some(2), Position(5, 5), None)];
    var markers := [Marker(None, Some(1), Position(0, 0)), Marker(None, Some(2), Position(5, 5))];
    assert Holds(children, frame[0], TopLevelId, None) by {
      assert children(7)[0] in children(7);
    }
    FindClusterInFrame(frame, children, PropertiesId, Some(2));
    FindClusterInFrame(frame, children, TopLevelId, None);
    assert FirstHolder(frame, children, TopLevelId, None, 0);
    ReverseTransition(frame, frame, markers, children, 1, 0, 1);
  }

  /** Descriptors carry over: what the reverse branch wrote into the cache is
      in the next delivered frame, unless a marker of that pass gathers at
      the same index, in which case it is overwritten, never cleared. */
  lemma CacheReachesRenderer(h: Hook, next: Frame, markers: seq<Marker>, children: Children, k: int)
    requires 0 <= k < |h.cache|
    ensures (forall t :: 0 <= t < |markers| ==> !GathersAt(Decide(children, h.cache, next, markers[t]), k))
            ==> Step(h, next, markers, children).shown[k] == h.cache[k]
    ensures h.cache[k].animate.Some? ==> Step(h, next, markers, children).shown[k].animate.Some?
  {
    DeliveredAt(Reconciled(h.cache, next), Decisions(children, h.cache, next, markers), k);
  }
}
