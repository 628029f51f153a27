# Animated marker clusters, modelled in Dafny

This project models the core of `react-native-maps-clusterer-animated`. The
library draws map markers, groups nearby ones into clusters, and animates a
marker whenever it joins or leaves a cluster between two frames.

**The reconciliation pass** (`useAnimatedClusters`, the `AnimateMarkers`
effect) is modelled in modules `Search`, `Clusters` and `ClusterProperties`.
One pass takes four inputs:

- the frame the previous pass cached (`prevPoints.current`), which this pass
  delivers;
- the frame the clustering engine has just produced (`points`);
- the original marker list (`featuresToDisplay`);
- the engine's `getChildren` lookup.

It visits the markers in list order:

- **Forward.** The first cluster of the new frame with a child whose
  `properties.id` equals the marker's is the destination. The first feature of
  the old frame with that `properties.id` gets `animate = {from: marker's own
  coordinate, to: cluster's coordinate}`.
- **Reverse.** If no new cluster holds the marker, the pass looks for the
  first old cluster with a child whose top-level `id` equals the marker's. The
  first feature of the new frame with the marker's `properties.id` then gets
  `animate = {from: old cluster's coordinate, to: its own coordinate}`.
- **Otherwise** nothing is written.

The old frame, with its annotations, is delivered. The new frame, with its
annotations, is cached for the next pass. The renderer therefore shows each
engine frame one pass late: the frame produced by pass n is delivered by pass
n + 1.

The model is a pure function, `Clusters.Reconcile`. Each marker yields one
`Decision`: gather into `prev`, scatter into `next`, or keep. The decisions are
applied in order. `Clusters.AnimateMarkers` is the loop as the TypeScript code
writes it, with lookups made on the arrays as they are being annotated. It is proved
equal to `Reconcile`.

The properties rest on three groups of lemmas:

- **Last writer** (`DeliveredAt`, `CachedAt`): each slot holds the descriptor
  of the **last** marker that wrote it, or is untouched. The forward and
  reverse transitions and the carry-over of cached descriptors into the next
  delivered frame follow from it.
- **First match** (`FindClusterInFrame`, with the contract of `FindIndex`): the
  destination or origin cluster is the first holder in frame order, and the
  annotated slot is the first feature with the marker's `properties.id`.
- **No write** (`StillMarker`, `StillWhenUnmoved`, `PassWithoutWrites`): the
  steady state and idempotence. Idempotence covers a repeated pass whose
  cached frame already carries descriptors from the pass before.

Ids are optional values, because `undefined === undefined` holds in the
TypeScript code. A marker without a top-level `id` therefore matches every cluster child
that has none. `MissingTopLevelIdAnimates` shows the effect. A marker that
stands alone in two identical frames still receives a reverse descriptor from
the first cluster that has such a child. `Idempotent` states the condition
under which no descriptor appears.

**Region animation** (`useAnimatedRegion`) is modelled in module
`RegionAnimation`. It has four independent scalars: latitude, longitude and
the two deltas. The read-side projection maps an undefined scalar to 0.
`animate` gives a scalar a new tween only when its requested value is truthy.
The duration defaults to 500 and the easing to ease-in-out.

Coordinates follow GeoJSON order, longitude first (section 3.1.1 of RFC 7946).
`Geo.Position(lng, lat)` is `coordinates[0]`, `coordinates[1]`, and descriptors
read `latitude` from `coordinates[1]`.

Two behaviours of the code are worth stating:

- Descriptors are never cleared, only overwritten. A reverse descriptor
  written into the cache is still there when that frame is delivered by the
  next pass (`CacheReachesRenderer`).
- The reverse branch matches by top-level `id`, the forward branch by
  `properties.id`.

## Model

| member | source | states |
|---|---|---|
| Geo.ToLatLng | src/index.tsx:133-144 | definition: a descriptor endpoint takes its latitude from `coordinates[1]` and its longitude from `coordinates[0]`; `ForwardDecision` and `ReverseDecision` state the endpoints through it |
| Search.FindIndex | src/index.tsx:127-129 | the result is -1 exactly when no feature has the key as `properties.id`; otherwise it is the first index that has it |
| Search.ClustersOf | src/index.tsx:112-115 | keeps exactly the cluster features of the frame, each taken from the frame, and every cluster of the frame is kept |
| Search.ClustersOfKeepsOrder | src/index.tsx:112-115 | a single feature contributes itself exactly when it is a cluster, and the clusters of two frames laid end to end are those of the first followed by those of the second, so frame order and repeats are kept |
| Search.Holds | src/index.tsx:120-122 | a cluster holds a key when some child that `getChildren(cluster_id)` returns carries that key in the chosen id field; a found child is an object and so always truthy |
| Search.FindCluster | src/index.tsx:119-123 | returns nothing exactly when no cluster `Holds` the key; otherwise it returns the first cluster that has one |
| Clusters.Decide | src/index.tsx:118-171 | a forward write targets a `prev` slot with the marker's `properties.id` and starts at the marker's own coordinate; a reverse write targets a `next` slot with that id, only when no new cluster holds the marker and an old one does, and ends at the slot's own coordinate; nothing is written exactly when the searched slot is missing or no cluster on either side holds the marker |
| Clusters.Apply | src/index.tsx:131-169 | an in-range forward write sets `animate` of its `prev` slot to the decision's descriptor, an in-range reverse write does the same in `next`, and both frames keep their length; `ClusterProperties.ApplyAt` adds that nothing else changes |
| Clusters.ApplyAll | src/index.tsx:118-172 | applying the decisions keeps both frames' features and order, changes only `animate`, and never clears an `animate` already present |
| Clusters.Reconcile | src/index.tsx:110-178 | the delivered frame is the previous frame and the cache is the next frame, with the same length, order and fields except `animate` |
| Clusters.Step | src/index.tsx:175-177 | the shown frame is the old cache and the new cache is the next frame, up to `animate` |
| Clusters.AnimateMarkers | src/index.tsx:111-178 | the in-place loop over the markers delivers and caches exactly what `Reconcile` does |
| Clusters.VisitMarker | src/index.tsx:118-171 | one `forEach` callback does what that marker's decision says, even though it searches the arrays annotated so far |
| Clusters.FindIndexIgnoresAnimate | src/index.tsx:127-129 | the search by `properties.id` gives the same index on frames that differ only in `animate` |
| ClusterProperties.FindClusterInFrame | src/index.tsx:112-123 | searching the collected clusters finds the first cluster of the frame, in frame order, that holds the key, and nothing when none does |
| ClusterProperties.ApplyAt | src/index.tsx:132-160 | one decision changes only the slot it names, in the frame it names |
| ClusterProperties.DeliveredAt | src/index.tsx:118-146 | each delivered slot is the old feature annotated by the last marker that gathers there, or is untouched when none does |
| ClusterProperties.CachedAt | src/index.tsx:147-170 | each cached slot is the new feature annotated by the last marker that scatters there, or is untouched when none does |
| ClusterProperties.ForwardDecision | src/index.tsx:119-146 | with the first holding cluster `next[c]` and the first matching slot `prev[i]`, the marker's step writes `{from: its own coordinate, to: next[c]'s coordinate}` at `i` |
| ClusterProperties.ReverseDecision | src/index.tsx:147-170 | when no new cluster holds the marker, the first old cluster holding its top-level id is `prev[o]` and the first matching slot is `next[j]`, the step writes `{from: prev[o]'s coordinate, to: next[j]'s coordinate}` at `j` |
| ClusterProperties.LastForSlot | src/index.tsx:118-171 | only markers sharing a `properties.id` write the same slot, so with no later marker sharing it, a marker's write is the final one |
| ClusterProperties.ForwardTransition | src/index.tsx:118-146 | the delivered `prev[i]` carries `{from: marker's coordinate, to: first holding cluster's coordinate}` when no later marker shares the id |
| ClusterProperties.ReverseTransition | src/index.tsx:147-170 | the cached `next[j]` carries `{from: first old holding cluster's coordinate, to: next[j]'s coordinate}` when no later marker shares the id |
| ClusterProperties.StillMarker | src/index.tsx:125-171 | a marker in no cluster on either side, or whose point is in neither frame, writes nothing |
| ClusterProperties.PassWithoutWrites | src/index.tsx:118-172 | when every decision is to keep, both frames come out exactly as they went in |
| ClusterProperties.SteadyState | src/index.tsx:118-172 | when no marker is clustered on either side, the pass delivers the old frame and caches the new one unchanged |
| ClusterProperties.StillWhenUnmoved | src/index.tsx:118-171 | a marker consistent with the new frame gets no descriptor when the cached frame has the same features as the new one, whatever descriptors the cache carries |
| ClusterProperties.Idempotent | src/index.tsx:110-178 | when the cached frame has the same features as the new frame, its descriptors aside, and no marker is both a cluster child and a feature and top-level ids agree with property ids, the pass delivers the cache and caches the new frame unchanged |
| ClusterProperties.IdempotentOnItself | src/index.tsx:110-178 | reconciling a consistent frame against itself writes no descriptor |
| ClusterProperties.MissingTopLevelIdAnimates | src/index.tsx:149-170 | with markers that lack a top-level `id`, a marker standing alone in two identical frames still gets a reverse descriptor from the first cluster |
| ClusterProperties.CacheReachesRenderer | src/index.tsx:175-177 | a descriptor in the cache reaches the next delivered frame, and is overwritten there only by a forward write to the same slot, never cleared |
| RegionAnimation.Create | src/index.tsx:30-34 | each scalar starts at the given location value, undefined when missing, with no tween running |
| RegionAnimation.Project | src/index.tsx:36-43 | each projected scalar is the current value, or 0 when it is undefined |
| RegionAnimation.Truthy | src/index.tsx:53 | the `!toValue` test: a requested scalar is truthy exactly when it is defined and not 0 |
| RegionAnimation.Retarget | src/index.tsx:49-61 | definition of `animateValue`: a target that is not `Truthy` returns early, a truthy one installs a tween; `Animate`, `NoTruthyTargetIsNoOp` and `LastCallWinsPerScalar` state its effect per scalar |
| RegionAnimation.Animate | src/index.tsx:45-67 | each scalar gets a new tween to the requested value exactly when that value is truthy; the duration is 500 unless given and the easing is ease-in-out unless given; current values do not change |
| RegionAnimation.Settle | src/index.tsx:57-60 | when the tweens complete, each scalar with a tween takes its target, the others keep their value, and no tween is left |
| RegionAnimation.ProjectCreated | src/index.tsx:30-43 | a fresh region projects the initial location, with 0 for undefined scalars |
| RegionAnimation.NoTruthyTargetIsNoOp | src/index.tsx:49-66 | a call with no truthy scalar changes nothing; a call that changes nothing only repeated tweens already running |
| RegionAnimation.LastCallWinsPerScalar | src/index.tsx:57-66 | after two calls, a scalar follows the later call when that call requests it, and the earlier call's effect otherwise |
| RegionAnimation.SettledProjection | src/index.tsx:36-66 | once the tweens complete, a requested truthy scalar projects to the requested value; the others project as they would without the call |

## Left out

- React lifecycle: `useEffect`, `useRef`, `useState` and the dependency array are not modelled, and neither is re-render scheduling. One pass is a function. `Clusters.Step` stands for the update of the two refs; their initial values (`useRef`/`useState` of the first frame) are not modelled.
- First-pass aliasing: on the first effect run, `prevPoints.current` and `points` are the same array. There, forward and reverse annotations land in one array. The model always keeps two separate frames.
- Object aliasing: the TypeScript code annotates feature objects in place. The engine may hand the same objects to several frames or to the marker list. Writes here are pure updates at an index. No lookup reads `animate`, so the lookups are unaffected, but the outputs can differ: if the engine hands the same point object to `prevPoints.current` and to `points`, a forward write (src/index.tsx:132) also shows up in the cache, and a reverse write (src/index.tsx:160) also shows up in the delivered frame. The model keeps each write in the one frame it names.
- The clustering engine (`useClusterer`, react-native-clusterer's `supercluster`) is not part of this model. The new frame is an input. `getChildren` is a total function from a cluster id to a child list, used as it answers. The engine's partition guarantee and its clustering geometry are not modelled.
- Tweening (`useSharedValue`, `withTiming`, `useAnimatedProps`): intermediate values, clocks and easing curves are not modelled. A tween is its target, duration and easing. `Project` reads the value last reached.
- NaN and `null`: `Truthy` treats every defined non-zero number as truthy, so NaN is not modelled. `??` is modelled for `undefined` only.
- Id values: `properties.id` and the top-level `id` are modelled as integers or `undefined` (`Geo.Option<Id>`), compared with `==`. String ids behave the same way under `===` and are covered by the integer model. `null` ids (`null === null`, but `null !== undefined`) and NaN ids (never equal to themselves) are not modelled.
- Floating-point coordinates: marker positions are integers, because they are only copied. Region scalars are reals.
- `AnimatedMarker` is a component wrapper with no logic.
- The commented-out `isSameCluster` never runs.
- lib/index.d.ts holds only type declarations.
- Cost: the number of `getChildren` calls per pass is not modelled.
