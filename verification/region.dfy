/**
 `useAnimatedRegion`: four independently animated scalars (latitude,
 longitude, latitudeDelta, longitudeDelta), a read-side projection that
 binds them to a marker's `coordinate`, and the `animate` command that
 retargets them.

 A scalar is a shared value of the animation library: its current value
 (undefined until set) and the `withTiming` tween driving it, if one is
 running.  Tweens are not interpolated over time here: a running tween is
 its target, duration and easing, and `Settle` is the moment it completes.
 */
module RegionAnimation {
  import opened Geo

  /** The four scalars of a region. */
  datatype Axis = Latitude | Longitude | LatitudeDelta | LongitudeDelta

  /** An easing curve: the default `Easing.inOut(Easing.ease)`, or one the
      caller passes, known here only by a name. */
  datatype Easing = EaseInOut | Given(name: string)

  /** A running `withTiming(to, {duration, easing})`. */
  datatype Tween = Tween(to: real, duration: real, easing: Easing)

  /** One shared value. */
  datatype Scalar = Scalar(value: Option<real>, tween: Option<Tween>)

  /** The hook's four shared values. */
  datatype Region = Region(latitude: Scalar, longitude: Scalar, latitudeDelta: Scalar, longitudeDelta: Scalar)

  /** A `Partial<LatLng>`: each scalar may be undefined. */
  datatype Location = Location(latitude: Option<real>, longitude: Option<real>,
                               latitudeDelta: Option<real>, longitudeDelta: Option<real>)

  /** The argument of `animate`: the requested scalars, and the optional
      duration (milliseconds) and easing. */
  datatype AnimateOptions = AnimateOptions(target: Location, duration: Option<real>, easing: Option<Easing>)

  /** The projected `coordinate`: every scalar is a number. */
  datatype Coordinate = Coordinate(latitude: real, longitude: real, latitudeDelta: real, longitudeDelta: real)

  /** The duration `animate` uses when none is given. */
  const DefaultDuration: real := 500.0

  function Get(r: Region, a: Axis): Scalar {
    match a
    case Latitude => r.latitude
    case Longitude => r.longitude
    case LatitudeDelta => r.latitudeDelta
    case LongitudeDelta => r.longitudeDelta
  }

  function Requested(l: Location, a: Axis): Option<real> {
    match a
    case Latitude => l.latitude
    case Longitude => l.longitude
    case LatitudeDelta => l.latitudeDelta
    case LongitudeDelta => l.longitudeDelta
  }

  function Coord(c: Coordinate, a: Axis): real {
    match a
    case Latitude => c.latitude
    case Longitude => c.longitude
    case LatitudeDelta => c.latitudeDelta
    case LongitudeDelta => c.longitudeDelta
  }

  /** JavaScript truthiness of an optional number: defined and not 0
      (NaN is not modelled). */
  predicate Truthy(v: Option<real>) {
    v.Some? && v.value != 0.0
  }

  /** `useAnimatedRegion(location = {})`: each shared value starts at the
      given scalar, undefined when it is missing, with no tween running. */
  function Create(location: Location): (r: Region)
    ensures forall a: Axis :: Get(r, a).tween.None?
    ensures forall a: Axis :: Get(r, a).value == Requested(location, a)
  {
    Region(Scalar(location.latitude, None), Scalar(location.longitude, None),
           Scalar(location.latitudeDelta, None), Scalar(location.longitudeDelta, None))
  }

  /** The `useAnimatedProps` projection: each scalar's current value, or 0
      when it is undefined. */
  function Project(r: Region): (c: Coordinate)
    ensures forall a: Axis :: Get(r, a).value.Some? ==> Coord(c, a) == Get(r, a).value.value
    ensures forall a: Axis :: Get(r, a).value.None? ==> Coord(c, a) == 0.0
  {
    Coordinate(r.latitude.value.GetOr(0.0), r.longitude.value.GetOr(0.0),
               r.latitudeDelta.value.GetOr(0.0), r.longitudeDelta.value.GetOr(0.0))
  }

  /** `animateValue`: a falsy target leaves the shared value alone;
      otherwise a new tween replaces whatever tween was running. */
  function Retarget(s: Scalar, to: Option<real>, duration: real, easing: Easing): Scalar {
    if !Truthy(to) then s else s.(tween := Some(Tween(to.value, duration, easing)))
  }

  /** `animate(options)`: each of the four scalars is retargeted on its own,
      and only when its requested value is truthy, with the given duration
      (500 when undefined) and easing (ease-in-out when undefined).  No
      current value changes until a tween completes. */
  function Animate(r: Region, o: AnimateOptions): (r': Region)
    ensures forall a: Axis :: Truthy(Requested(o.target, a)) ==>
              Get(r', a) == Scalar(Get(r, a).value,
                                   Some(Tween(Requested(o.target, a).value,
                                              o.duration.GetOr(DefaultDuration),
                                              o.easing.GetOr(EaseInOut))))
    ensures forall a: Axis :: !Truthy(Requested(o.target, a)) ==> Get(r', a) == Get(r, a)
  {
    var duration := o.duration.GetOr(DefaultDuration);
    var easing := o.easing.GetOr(EaseInOut);
    Region(Retarget(r.latitude, o.target.latitude, duration, easing),
           Retarget(r.longitude, o.target.longitude, duration, easing),
           Retarget(r.latitudeDelta, o.target.latitudeDelta, duration, easing),
           Retarget(r.longitudeDelta, o.target.longitudeDelta, duration, easing))
  }

  /** Every running tween runs to completion: the shared value becomes its
      target and no tween is left. */
  function Settle(r: Region): (r': Region)
    ensures forall a: Axis :: Get(r', a).tween.None?
    ensures forall a: Axis :: Get(r, a).tween.Some? ==> Get(r', a).value == Some(Get(r, a).tween.value.to)
    ensures forall a: Axis :: Get(r, a).tween.None? ==> Get(r', a).value == Get(r, a).value
  {
    Region(SettleScalar(r.latitude), SettleScalar(r.longitude),
           SettleScalar(r.latitudeDelta), SettleScalar(r.longitudeDelta))
  }

  function SettleScalar(s: Scalar): Scalar {
    match s.tween
    case Some(tw) => Scalar(Some(tw.to), None)
    case None => s
  }

  /** The projection of a fresh region reports the initial location, with
      0 for every scalar left undefined. */
  lemma ProjectCreated(location: Location, a: Axis)
    ensures Coord(Project(Create(location)), a) == Requested(location, a).GetOr(0.0)
  {
  }

  /** An `animate` call with no truthy scalar changes nothing, and one that
      changes nothing had no truthy scalar or repeated the running tweens. */
  lemma NoTruthyTargetIsNoOp(r: Region, o: AnimateOptions)
    ensures (forall a: Axis :: !Truthy(Requested(o.target, a))) ==> Animate(r, o) == r
    ensures Animate(r, o) == r ==>
              forall a: Axis :: Truthy(Requested(o.target, a)) ==>
                Get(r, a).tween == Some(Tween(Requested(o.target, a).value,
                                              o.duration.GetOr(DefaultDuration), o.easing.GetOr(EaseInOut)))
  {
    if forall a: Axis :: !Truthy(Requested(o.target, a)) {
      assert Get(Animate(r, o), Latitude) == r.latitude;
      assert Get(Animate(r, o), Longitude) == r.longitude;
      assert Get(Animate(r, o), LatitudeDelta) == r.latitudeDelta;
      assert Get(Animate(r, o), LongitudeDelta) == r.longitudeDelta;
    }
  }

  /** Per-scalar override: after two `animate` calls, each scalar is driven
      by the later call when that call requests it, and by the earlier call
      (or by nothing new) when it does not. */
  lemma LastCallWinsPerScalar(r: Region, first: AnimateOptions, second: AnimateOptions, a: Axis)
    ensures Truthy(Requested(second.target, a)) ==> Get(Animate(Animate(r, first), second), a) == Get(Animate(r, second), a)
    ensures !Truthy(Requested(second.target, a)) ==> Get(Animate(Animate(r, first), second), a) == Get(Animate(r, first), a)
  {
  }

  /** Once the tweens complete, each requested truthy scalar projects to the
      requested value; every other scalar projects to what it would have
      without this call. */
  lemma SettledProjection(r: Region, o: AnimateOptions, a: Axis)
    ensures Truthy(Requested(o.target, a)) ==> Coord(Project(Settle(Animate(r, o))), a) == Requested(o.target, a).value
    ensures !Truthy(Requested(o.target, a)) ==> Coord(Project(Settle(Animate(r, o))), a) == Coord(Project(Settle(r)), a)
  {
  }
}
