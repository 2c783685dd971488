/** The game object: the camera, the list of targets and the per-frame state
    (cooldown, score, the previous frame's fire controls and the flag that
    drops the mouse delta after the window regains focus), with the frame
    update that ties them together. */
module Game {
  import opened Geometry
  import opened MathHelper
  import opened Enemies
  import opened Cameras
  import opened Shooting
  import Hud
  import Meshes

  const MovementSpeed: real := 6.0
  const SprintMultiplier: real := 1.8

  /** The keys the game reads in one frame. */
  datatype Keys = Keys(w: bool, a: bool, s: bool, d: bool, leftShift: bool, space: bool)

  /** What one frame's polling yields: whether the window has focus, the mouse
      offset from the window centre, the left button and the keys. */
  datatype FrameInput = FrameInput(isActive: bool, mouseDeltaX: int, mouseDeltaY: int, leftPressed: bool, keys: Keys)

  /** The walking direction before normalising: forward added for W and
      subtracted for S, then right added for D and subtracted for A. */
  function Heading(keys: Keys, forward: Vector3, right: Vector3): Vector3
  {
    forward.Scale(Axis(keys.w, keys.s)).Plus(right.Scale(Axis(keys.d, keys.a)))
  }

  /** +1, 0 or -1 for a pair of opposing keys. */
  function Axis(positive: bool, negative: bool): real
  {
    (if positive then 1.0 else 0.0) - (if negative then 1.0 else 0.0)
  }

  /** Walking speed, 1.8 times faster while Left Shift is held. */
  function Speed(sprint: bool): (r: real)
    ensures r == if sprint then 10.8 else 6.0
  {
    if sprint then MovementSpeed * SprintMultiplier else MovementSpeed
  }

  /** The translation one frame of walking applies for the camera's Forward
      direction, or None when the keys give no direction. */
  function Walk(keys: Keys, forward: Vector3, deltaSeconds: real, normalize: Vector3 -> Vector3): Option<Vector3>
  {
    WalkAlong(keys, ForwardOnPlane(forward), RightOnPlane(forward), deltaSeconds, normalize)
  }

  /** One frame of walking along given forward and right directions. */
  function WalkAlong(keys: Keys, forward: Vector3, right: Vector3, deltaSeconds: real, normalize: Vector3 -> Vector3): Option<Vector3>
  {
    var m := Heading(keys, forward, right);
    if m.LengthSquared() > 0.0 then Some(normalize(m).Scale(Speed(keys.leftShift)).Scale(deltaSeconds)) else None
  }

  /** The first half of HandleMovement: each pressed key adds or subtracts its
      direction, and a direction of zero length contributes nothing. */
  method KeyMovement(keys: Keys, forward: Vector3, right: Vector3) returns (movement: Vector3)
    ensures movement == Heading(keys, if forward.LengthSquared() > 0.0 then forward else Zero,
                                if right.LengthSquared() > 0.0 then right else Zero)
  {
    ghost var f := if forward.LengthSquared() > 0.0 then forward else Zero;
    ghost var r := if right.LengthSquared() > 0.0 then right else Zero;
    movement := Zero;
    if forward.LengthSquared() > 0.0 {
      if keys.w {
        movement := movement.Plus(forward);
      }
      if keys.s {
        movement := movement.Minus(forward);
      }
    }
    if right.LengthSquared() > 0.0 {
      if keys.d {
        movement := movement.Plus(right);
      }
      if keys.a {
        movement := movement.Minus(right);
      }
    }
    HeadingAsSum(keys, f, r);
  }

  /** Heading is the sum the keys select. */
  lemma HeadingAsSum(keys: Keys, forward: Vector3, right: Vector3)
    ensures Heading(keys, forward, right)
            == Zero.Plus(if keys.w then forward else Zero).Minus(if keys.s then forward else Zero)
                   .Plus(if keys.d then right else Zero).Minus(if keys.a then right else Zero)
  {
    var wf, sf := if keys.w then forward else Zero, if keys.s then forward else Zero;
    var dr, ar := if keys.d then right else Zero, if keys.a then right else Zero;
    ScaleAxis(forward, keys.w, keys.s);
    ScaleAxis(right, keys.d, keys.a);
    assert Heading(keys, forward, right) == wf.Minus(sf).Plus(dr.Minus(ar));
    AddAssociates(wf, sf, dr, ar);
  }

  /** Regrouping the four terms of the key sum. */
  lemma AddAssociates(a: Vector3, b: Vector3, c: Vector3, d: Vector3)
    ensures a.Minus(b).Plus(c.Minus(d)) == Zero.Plus(a).Minus(b).Plus(c).Minus(d)
  {
  }

  /** Scaling by an axis value adds, subtracts or drops the vector. */
  lemma ScaleAxis(v: Vector3, positive: bool, negative: bool)
    ensures v.Scale(Axis(positive, negative)) == (if positive then v else Zero).Minus(if negative then v else Zero)
  {
    if positive && !negative {
      assert Axis(positive, negative) == 1.0;
    } else if !positive && negative {
      assert Axis(positive, negative) == -1.0;
    } else {
      assert Axis(positive, negative) == 0.0;
    }
  }

  /** Walk is what HandleMovement does with the direction KeyMovement sums:
      both planar directions always have positive length, so no key is ignored. */
  lemma WalkFromMovement(keys: Keys, forward: Vector3, movement: Vector3)
    requires movement == Heading(keys, if ForwardOnPlane(forward).LengthSquared() > 0.0 then ForwardOnPlane(forward) else Zero,
                                 if RightOnPlane(forward).LengthSquared() > 0.0 then RightOnPlane(forward) else Zero)
    ensures movement == Heading(keys, ForwardOnPlane(forward), RightOnPlane(forward))
  {
    var f, r := ForwardOnPlane(forward), RightOnPlane(forward);
    PlaneDirectionsNonZero(forward);
    GuardedHeading(keys, f, r);
  }

  /** Walk read off the summed direction: no translation for a zero direction,
      otherwise the normalised direction at the current speed for the frame. */
  lemma WalkOfMovement(keys: Keys, forward: Vector3, deltaSeconds: real, normalize: Vector3 -> Vector3, movement: Vector3)
    requires movement == Heading(keys, ForwardOnPlane(forward), RightOnPlane(forward))
    ensures Walk(keys, forward, deltaSeconds, normalize) ==
              if movement.LengthSquared() > 0.0 then Some(normalize(movement).Scale(Speed(keys.leftShift)).Scale(deltaSeconds)) else None
  {
  }

  /** The translation HandleMovement computes from the keys and the
      camera's Forward direction, if any. */
  method WalkStep(keys: Keys, look: Vector3, deltaSeconds: real, normalize: Vector3 -> Vector3) returns (step: Option<Vector3>)
    ensures step == Walk(keys, look, deltaSeconds, normalize)
  {
    var forward := ForwardOnPlane(look);
    var right := RightOnPlane(look);
    var movement := KeyMovement(keys, forward, right);
    WalkFromMovement(keys, look, movement);
    WalkOfMovement(keys, look, deltaSeconds, normalize, movement);
    if movement.LengthSquared() > 0.0 {
      var speed := Speed(keys.leftShift);
      step := Some(normalize(movement).Scale(speed).Scale(deltaSeconds));
    } else {
      step := None;
    }
  }

  /** Neither planar direction is ever of zero length. */
  lemma PlaneDirectionsNonZero(forward: Vector3)
    ensures ForwardOnPlane(forward).LengthSquared() > 0.0 && RightOnPlane(forward).LengthSquared() > 0.0
  {
    RightOnPlanePerpendicular(forward);
  }

  /** The length guards of KeyMovement pass both directions through unchanged
      when neither is of zero length. */
  lemma GuardedHeading(keys: Keys, f: Vector3, r: Vector3)
    requires f.LengthSquared() > 0.0 && r.LengthSquared() > 0.0
    ensures Heading(keys, if f.LengthSquared() > 0.0 then f else Zero, if r.LengthSquared() > 0.0 then r else Zero) == Heading(keys, f, r)
  {
  }

  /** The player only ever walks on the floor plane: with horizontal forward
      and right directions (ForwardOnPlane and RightOnPlane give those) the
      heading is horizontal, and without keys it is zero. */
  lemma HeadingIsHorizontal(keys: Keys, forward: Vector3, right: Vector3)
    requires forward.y == 0.0 && right.y == 0.0
    ensures Heading(keys, forward, right).y == 0.0
    ensures !keys.w && !keys.s && !keys.d && !keys.a ==> Heading(keys, forward, right) == Zero
  {
  }

  /** Opposing keys cancel: W with S is the same as neither, and so is D with A. */
  lemma OpposingKeysCancel(keys: Keys, forward: Vector3, right: Vector3)
    ensures Heading(keys.(w := true, s := true), forward, right) == Heading(keys.(w := false, s := false), forward, right)
    ensures Heading(keys.(d := true, a := true), forward, right) == Heading(keys.(d := false, a := false), forward, right)
  {
  }

  /** Without a movement key the player stands still. */
  lemma WalkNeedsKeys(keys: Keys, forward: Vector3, right: Vector3, deltaSeconds: real, normalize: Vector3 -> Vector3)
    requires !keys.w && !keys.s && !keys.d && !keys.a
    ensures WalkAlong(keys, forward, right, deltaSeconds, normalize).None?
  {
    NoKeysNoHeading(keys, forward, right);
    StillWithoutHeading(keys, forward, right, deltaSeconds, normalize);
  }

  lemma NoKeysNoHeading(keys: Keys, forward: Vector3, right: Vector3)
    requires !keys.w && !keys.s && !keys.d && !keys.a
    ensures Heading(keys, forward, right) == Zero
  {
  }

  lemma StillWithoutHeading(keys: Keys, forward: Vector3, right: Vector3, deltaSeconds: real, normalize: Vector3 -> Vector3)
    requires Heading(keys, forward, right) == Zero
    ensures WalkAlong(keys, forward, right, deltaSeconds, normalize).None?
  {
  }

  /** A pair of opposing keys held together walks like neither of them. */
  lemma OpposingKeysWalkAlike(keys: Keys, forward: Vector3, right: Vector3, deltaSeconds: real, normalize: Vector3 -> Vector3)
    ensures WalkAlong(keys.(w := true, s := true), forward, right, deltaSeconds, normalize)
            == WalkAlong(keys.(w := false, s := false), forward, right, deltaSeconds, normalize)
    ensures WalkAlong(keys.(d := true, a := true), forward, right, deltaSeconds, normalize)
            == WalkAlong(keys.(d := false, a := false), forward, right, deltaSeconds, normalize)
  {
    OpposingKeysCancel(keys, forward, right);
    WalkFollowsHeading(keys.(w := true, s := true), keys.(w := false, s := false), forward, right, deltaSeconds, normalize);
    WalkFollowsHeading(keys.(d := true, a := true), keys.(d := false, a := false), forward, right, deltaSeconds, normalize);
  }

  /** Two key states with the same heading and the same sprint key walk alike. */
  lemma WalkFollowsHeading(k1: Keys, k2: Keys, forward: Vector3, right: Vector3, deltaSeconds: real, normalize: Vector3 -> Vector3)
    requires Heading(k1, forward, right) == Heading(k2, forward, right) && k1.leftShift == k2.leftShift
    ensures WalkAlong(k1, forward, right, deltaSeconds, normalize) == WalkAlong(k2, forward, right, deltaSeconds, normalize)
  {
  }

  /** Walking never leaves the floor plane: along horizontal directions, and
      when normalising keeps a horizontal vector horizontal, every step has Y = 0. */
  lemma WalkIsHorizontal(keys: Keys, forward: Vector3, right: Vector3, deltaSeconds: real, normalize: Vector3 -> Vector3)
    requires forward.y == 0.0 && right.y == 0.0
    requires forall v: Vector3 :: v.y == 0.0 ==> normalize(v).y == 0.0
    ensures WalkAlong(keys, forward, right, deltaSeconds, normalize).Some? ==>
              WalkAlong(keys, forward, right, deltaSeconds, normalize).value.y == 0.0
  {
    HeadingIsHorizontal(keys, forward, right);
    StepIsHorizontal(keys, forward, right, deltaSeconds, normalize);
  }

  lemma StepIsHorizontal(keys: Keys, forward: Vector3, right: Vector3, deltaSeconds: real, normalize: Vector3 -> Vector3)
    requires Heading(keys, forward, right).y == 0.0
    requires forall v: Vector3 :: v.y == 0.0 ==> normalize(v).y == 0.0
    ensures WalkAlong(keys, forward, right, deltaSeconds, normalize).Some? ==>
              WalkAlong(keys, forward, right, deltaSeconds, normalize).value.y == 0.0
  {
  }

  /** Holding Left Shift walks the same way, 1.8 times as far. */
  lemma SprintScalesWalk(keys: Keys, forward: Vector3, right: Vector3, deltaSeconds: real, normalize: Vector3 -> Vector3)
    ensures WalkAlong(keys.(leftShift := true), forward, right, deltaSeconds, normalize).Some?
            == WalkAlong(keys.(leftShift := false), forward, right, deltaSeconds, normalize).Some?
    ensures WalkAlong(keys.(leftShift := false), forward, right, deltaSeconds, normalize).Some? ==>
              WalkAlong(keys.(leftShift := true), forward, right, deltaSeconds, normalize).value
              == WalkAlong(keys.(leftShift := false), forward, right, deltaSeconds, normalize).value.Scale(SprintMultiplier)
  {
    var m := Heading(keys, forward, right);
    assert Heading(keys.(leftShift := true), forward, right) == m;
    assert Heading(keys.(leftShift := false), forward, right) == m;
    SprintScale(normalize(m), deltaSeconds);
  }

  /** The sprint factor commutes with the frame time. */
  lemma SprintScale(n: Vector3, deltaSeconds: real)
    ensures n.Scale(MovementSpeed * SprintMultiplier).Scale(deltaSeconds)
            == n.Scale(MovementSpeed).Scale(deltaSeconds).Scale(SprintMultiplier)
  {
  }

  /** Walking does not depend on the length of the two directions, as long as
      they share it and normalising ignores positive scaling: the unit
      directions the camera normalises to walk exactly like the
      unnormalised ones of this model. */
  lemma WalkIgnoresScale(keys: Keys, forward: Vector3, right: Vector3, c: real, deltaSeconds: real, normalize: Vector3 -> Vector3)
    requires c > 0.0
    requires forall v: Vector3, s: real {:trigger normalize(v.Scale(s))} :: s > 0.0 ==> normalize(v.Scale(s)) == normalize(v)
    ensures WalkAlong(keys, forward.Scale(c), right.Scale(c), deltaSeconds, normalize)
            == WalkAlong(keys, forward, right, deltaSeconds, normalize)
  {
    var m := Heading(keys, forward, right);
    HeadingScales(keys, forward, right, c);
    LengthSquaredScales(m, c);
    assert normalize(m.Scale(c)) == normalize(m);
  }

  /** The heading is linear in the two directions. */
  lemma HeadingScales(keys: Keys, forward: Vector3, right: Vector3, c: real)
    ensures Heading(keys, forward.Scale(c), right.Scale(c)) == Heading(keys, forward, right).Scale(c)
  {
    var a, b := Axis(keys.w, keys.s), Axis(keys.d, keys.a);
    ScalesCommute(forward, c, a);
    ScalesCommute(right, c, b);
    ScaleDistributes(forward.Scale(a), right.Scale(b), c);
  }

  lemma ScalesCommute(v: Vector3, c: real, a: real)
    ensures v.Scale(c).Scale(a) == v.Scale(a).Scale(c)
  {
    assert (v.x * c) * a == (v.x * a) * c;
    assert (v.y * c) * a == (v.y * a) * c;
    assert (v.z * c) * a == (v.z * a) * c;
  }

  lemma ScaleDistributes(u: Vector3, w: Vector3, c: real)
    ensures u.Scale(c).Plus(w.Scale(c)) == u.Plus(w).Scale(c)
  {
    assert u.x * c + w.x * c == (u.x + w.x) * c;
    assert u.y * c + w.y * c == (u.y + w.y) * c;
    assert u.z * c + w.z * c == (u.z + w.z) * c;
  }

  /** Scaling by a positive factor keeps a vector zero or non-zero. */
  lemma LengthSquaredScales(v: Vector3, c: real)
    requires c > 0.0
    ensures v.Scale(c).LengthSquared() > 0.0 <==> v.LengthSquared() > 0.0
  {
    ScaledLengthSquared(v, c);
    PositiveSquareFactor(c, v.LengthSquared(), v.Scale(c).LengthSquared());
  }

  lemma ScaledLengthSquared(v: Vector3, c: real)
    ensures v.Scale(c).LengthSquared() == c * (c * v.LengthSquared())
  {
    assert (v.x * c) * (v.x * c) == c * (c * (v.x * v.x));
    assert (v.y * c) * (v.y * c) == c * (c * (v.y * v.y));
    assert (v.z * c) * (v.z * c) == c * (c * (v.z * v.z));
  }

  lemma PositiveSquareFactor(c: real, l: real, scaled: real)
    requires c > 0.0 && scaled == c * (c * l)
    ensures scaled > 0.0 <==> l > 0.0
  {
    PositiveFactor(c, l);
    PositiveFactor(c, c * l);
  }

  lemma PositiveFactor(k: real, l: real)
    requires k > 0.0
    ensures k * l > 0.0 <==> l > 0.0
  {
    if l > 0.0 {
      assert k * l > 0.0;
    } else {
      assert k * l <= 0.0;
    }
  }

  /** The distance a ray meets an enemy at, if the enemy is alive. */
  function Candidate(e: Enemy, ray: Ray, intersects: (Ray, BoundingBox) -> Option<real>): (r: Option<real>)
    reads e
    ensures r.Some? <==> e.isAlive && intersects(ray, e.Bounds()).Some?
    ensures r.Some? ==> r == intersects(ray, e.Bounds())
  {
    if !e.isAlive then None else intersects(ray, e.Bounds())
  }

  /** The candidate distances of a list of enemies, in list order. */
  function ShotCandidates(es: seq<Enemy>, ray: Ray, intersects: (Ray, BoundingBox) -> Option<real>): (c: Candidates)
    reads es
    ensures |c| == |es|
    ensures forall j :: 0 <= j < |es| ==> c[j] == Candidate(es[j], ray, intersects)
  {
    if es == [] then [] else [Candidate(es[0], ray, intersects)] + ShotCandidates(es[1..], ray, intersects)
  }

  /** A live target somewhere a respawn may put it, in a palette colour. */
  predicate Placed(e: Enemy, camera: Vector3)
    reads e
  {
    e.isAlive && ValidSpawn(e.position, camera) && e.color in Palette
  }

  /** No target appears twice in the list. */
  predicate Distinct(es: seq<Enemy>)
  {
    es == [] || (es[0] !in es[1..] && Distinct(es[1..]))
  }

  /** Two positions of a list without repeats hold different targets. */
  lemma {:induction false} DistinctApart(es: seq<Enemy>, i: int, j: int)
    requires Distinct(es) && 0 <= i < |es| && 0 <= j < |es| && i != j
    ensures es[i] != es[j]
  {
    if i > 0 && j > 0 {
      DistinctApart(es[1..], i - 1, j - 1);
    } else if i == 0 {
      assert es[j] == es[1..][j - 1];
    } else {
      assert es[i] == es[1..][i - 1];
    }
  }

  /** Appending a target that is not in the list keeps it without repeats. */
  lemma {:induction false} DistinctGrows(es: seq<Enemy>, e: Enemy)
    requires Distinct(es) && e !in es
    ensures Distinct(es + [e])
  {
    if es != [] {
      assert (es + [e])[1..] == es[1..] + [e];
      DistinctGrows(es[1..], e);
    }
  }

  /** A live target at the given position, in the given colour. */
  predicate PlacedAs(e: Enemy, placement: (Vector3, Color))
    reads e
  {
    e.isAlive && e.position == placement.0 && e.color == placement.1
  }

  /** What the game sees of a target: whether it is alive, where, and in
      which colour (its size never changes). */
  datatype TargetState = TargetState(isAlive: bool, position: Vector3, color: Color)

  function StateOf(e: Enemy): TargetState
    reads e
  {
    TargetState(e.isAlive, e.position, e.color)
  }

  /** The states of a list of targets, in list order. */
  function States(es: seq<Enemy>): (s: seq<TargetState>)
    reads es
    ensures |s| == |es|
    ensures forall j :: 0 <= j < |es| ==> s[j] == StateOf(es[j])
  {
    if es == [] then [] else [StateOf(es[0])] + States(es[1..])
  }

  /** The part of the game a shot changes: the fire cooldown, the score, the
      draws still to come and the states of the targets. */
  datatype ShotState = ShotState(cooldown: real, score: int, draws: seq<real>, targets: seq<TargetState>)

  /** What TryShoot does to the draws and the target states, as a relation
      between `draws`/`before` and `drawsNow`/`after`: `candidates` is what
      the aim ray meets and `at` the camera position a respawn keeps away
      from. A miss consumes no draws and changes no target. A hit resolves to
      `target`, the nearest hit, alive before the shot; Respawned on the draws
      places it (or, when the draws run out, it is left dead where it was and
      only an unpaired last draw is left), and every other target stays as it
      was. */
  predicate ShotOutcome(candidates: Candidates, at: Vector3, target: int, draws: seq<real>, before: seq<TargetState>,
                        drawsNow: seq<real>, after: seq<TargetState>)
  {
    && AllDraws(draws) && |after| == |before|
    && (!AnyHit(candidates) ==> drawsNow == draws && after == before)
    && (AnyHit(candidates) ==>
          && IsNearest(candidates, target)
          && 0 <= target < |before| && before[target].isAlive
          && (forall j :: 0 <= j < |after| && j != target ==> after[j] == before[j])
          && var r := Respawned(draws, at);
             && (r.Some? ==> after[target] == TargetState(true, r.value.0, r.value.1) && drawsNow == draws[r.value.2..])
             && (r.None? ==> after[target] == before[target].(isAlive := false) && drawsNow == Unpaired(draws)))
  }

  /** What HandleFire does, as a relation between the state before and after:
      `requested` is whether an edge-triggered shot is asked for. Without a
      shot, or with the cooldown still running, nothing changes. Otherwise the
      cooldown restarts, the score rises by one exactly on a hit, and the
      draws and targets are as TryShoot leaves them. */
  predicate FireRule(requested: bool, candidates: Candidates, at: Vector3, target: int, was: ShotState, now: ShotState)
  {
    && (was.cooldown > 0.0 || !requested ==> now == was)
    && (was.cooldown <= 0.0 && requested ==>
          && now.cooldown == FireDelaySeconds
          && now.score == was.score + (if AnyHit(candidates) then 1 else 0)
          && ShotOutcome(candidates, at, target, was.draws, was.targets, now.draws, now.targets))
  }

  /** The state a hit on target k leaves: Respawned on the draws places it
      alive elsewhere in a new colour, or, when the draws run out, it stays
      dead where it was and only an unpaired last draw is left. */
  ghost function AfterHit(k: int, at: Vector3, was: ShotState): (now: ShotState)
    requires AllDraws(was.draws) && 0 <= k < |was.targets|
    ensures AllDraws(now.draws) && IsSuffix(now.draws, was.draws)
    ensures |now.targets| == |was.targets| && now.cooldown == was.cooldown && now.score == was.score
  {
    match Respawned(was.draws, at)
    case Some(r) =>
      DropDraws(was.draws, r.2);
      was.(draws := was.draws[r.2..], targets := was.targets[k := TargetState(true, r.0, r.1)])
    case None =>
      DropDraws(was.draws, |was.draws| - |was.draws| % 2);
      was.(draws := Unpaired(was.draws), targets := was.targets[k := was.targets[k].(isAlive := false)])
  }

  /** The state a shot leaves, given the candidates the aim ray meets (one
      per target) and the camera position: a hit on the nearest target, or
      nothing on a miss. */
  ghost function AfterShot(candidates: Candidates, at: Vector3, was: ShotState): (now: ShotState)
    requires AllDraws(was.draws) && |candidates| == |was.targets|
    ensures AllDraws(now.draws) && |now.targets| == |was.targets|
    ensures now.cooldown == was.cooldown && now.score == was.score
  {
    if !AnyHit(candidates) then was else AfterHit(Nearest(candidates), at, was)
  }

  /** The state HandleFire leaves: a requested shot with the cooldown run
      down is taken, scored and restarts the cooldown. */
  ghost function AfterFire(requested: bool, candidates: Candidates, at: Vector3, was: ShotState): (now: ShotState)
    requires AllDraws(was.draws) && |candidates| == |was.targets|
    ensures AllDraws(now.draws) && |now.targets| == |was.targets|
    ensures now.score == was.score || now.score == was.score + 1
  {
    if was.cooldown > 0.0 || !requested then was
    else
      AfterShot(candidates, at, was).(cooldown := FireDelaySeconds,
                                      score := was.score + if AnyHit(candidates) then 1 else 0)
  }

  /** AfterShot keeps ShotOutcome, when every candidate that hits belongs to
      a live target (as ShotCandidates guarantees). */
  lemma ShotMeetsOutcome(candidates: Candidates, at: Vector3, was: ShotState)
    requires AllDraws(was.draws) && |candidates| == |was.targets|
    requires forall j :: Hits(candidates, j) ==> was.targets[j].isAlive
    ensures var now := AfterShot(candidates, at, was);
            ShotOutcome(candidates, at, if AnyHit(candidates) then Nearest(candidates) else 0,
                        was.draws, was.targets, now.draws, now.targets)
  {
    if AnyHit(candidates) {
      var k := Nearest(candidates);
      assert Hits(candidates, k);
    }
  }

  /** AfterFire keeps FireRule under the same condition. */
  lemma FireMeetsRule(requested: bool, candidates: Candidates, at: Vector3, was: ShotState)
    requires AllDraws(was.draws) && |candidates| == |was.targets|
    requires forall j :: Hits(candidates, j) ==> was.targets[j].isAlive
    ensures FireRule(requested, candidates, at, if AnyHit(candidates) then Nearest(candidates) else 0,
                     was, AfterFire(requested, candidates, at, was))
  {
    ShotMeetsOutcome(candidates, at, was);
  }

  /** The candidates of a list of targets hit live targets only, so AfterFire
      on them, from the targets' states, keeps FireRule: this is what
      HandleFire's contract means. */
  lemma CandidatesMeetRule(requested: bool, es: seq<Enemy>, ray: Ray, intersects: (Ray, BoundingBox) -> Option<real>,
                           at: Vector3, was: ShotState)
    requires AllDraws(was.draws) && was.targets == States(es)
    ensures var c := ShotCandidates(es, ray, intersects);
            FireRule(requested, c, at, if AnyHit(c) then Nearest(c) else 0, was, AfterFire(requested, c, at, was))
  {
    var c := ShotCandidates(es, ray, intersects);
    forall j | Hits(c, j)
      ensures was.targets[j].isAlive
    {
      assert c[j] == Candidate(es[j], ray, intersects);
    }
    FireMeetsRule(requested, c, at, was);
  }

  /** HandleMouse's turn, as a relation between yaw and pitch before and
      after: none while `suppressed` is set or the mouse is still; otherwise
      the yaw is wrapped and the pitch clamped after subtracting the delta
      times the mouse sensitivity. */
  predicate Turned(suppressed: bool, deltaX: int, deltaY: int, yaw: real, pitch: real, yawNow: real, pitchNow: real)
  {
    && (suppressed || (deltaX == 0 && deltaY == 0) ==> yawNow == yaw && pitchNow == pitch)
    && (!suppressed && (deltaX != 0 || deltaY != 0) ==>
          && yawNow == WrapAngle(yaw - (deltaX as real) * MouseSensitivity)
          && pitchNow == Clamp(pitch - (deltaY as real) * MouseSensitivity, -MaxPitch, MaxPitch))
  }

  /** HandleMovement's step, as a relation between positions: the camera
      moves by Walk of the keys along `look` and stays at eye height, or stays
      where it was when Walk gives no step. It is stated under a trigger on
      Walk, so that a caller sees the definition of Walk only when it asks
      about the walk. */
  predicate Walked(keys: Keys, look: Vector3, deltaSeconds: real, normalize: Vector3 -> Vector3, eyeHeight: real,
                   position: Vector3, positionNow: Vector3)
  {
    forall k {:trigger Walk(k, look, deltaSeconds, normalize)} :: k == keys ==>
      positionNow == match Walk(k, look, deltaSeconds, normalize)
                     case None => position
                     case Some(t) => Vector3(position.x + t.x, eyeHeight, position.z + t.z)
  }

  /** Where the camera is and where it looks. */
  datatype Pose = Pose(position: Vector3, yaw: real, pitch: real)

  /** What a frame's input does to the camera, as a relation between the pose
      before and after: nothing without focus; with focus, HandleMouse's turn
      and then HandleMovement's walk along the Forward of the turned camera. */
  predicate Steered(input: FrameInput, deltaSeconds: real, forwardOf: (real, real) -> Vector3,
                    normalize: Vector3 -> Vector3, suppressed: bool, eyeHeight: real, was: Pose, now: Pose)
  {
    && (!input.isActive ==> now == was)
    && (input.isActive ==>
          && Turned(suppressed, input.mouseDeltaX, input.mouseDeltaY, was.yaw, was.pitch, now.yaw, now.pitch)
          && Walked(input.keys, forwardOf(now.yaw, now.pitch), deltaSeconds, normalize, eyeHeight,
                    was.position, now.position))
  }

  class Game1 {
    /** Created once, in Initialize. */
    const camera: FirstPersonCamera
    var enemies: seq<Enemy>
    /** What System.Random will still hand out: NextDouble draws, in order. */
    var rng: seq<real>
    var suppressNextMouseDelta: bool
    var fireCooldown: real
    var score: int
    /** The fire controls of the previous frame's mouse and keyboard snapshots. */
    var previousLeftPressed: bool
    var previousSpaceDown: bool
    var floorIndices: seq<int>
    var cubeIndices: seq<int>
    var crosshair: seq<Color>

    /** The targets are distinct objects of the configured size, the cooldown
        and score are not negative, and the camera keeps its invariant. */
    ghost predicate Valid()
      reads this`fireCooldown, this`score, this`rng, this`enemies, camera, enemies
    {
      && camera.Valid()
      && fireCooldown >= 0.0
      && score >= 0
      && AllDraws(rng)
      && Distinct(enemies)
      && (forall i :: 0 <= i < |enemies| ==> enemies[i].size == EnemySize)
    }

    /** Initialize: a camera for the viewport's aspect ratio moved to (0, 0, 8),
        and the first snapshots of the fire controls. */
    constructor (aspectRatio: real, draws: seq<real>, leftPressed: bool, spaceDown: bool)
      requires AllDraws(draws)
      ensures Valid()
      ensures camera.position == Vector3(0.0, DefaultEyeHeight, 8.0) && camera.yaw == 0.0 && camera.pitch == 0.0
      ensures camera.aspectRatio == aspectRatio
      ensures enemies == [] && rng == draws && suppressNextMouseDelta
      ensures fireCooldown == 0.0 && score == 0
      ensures previousLeftPressed == leftPressed && previousSpaceDown == spaceDown
    {
      var eye := new FirstPersonCamera(aspectRatio, DefaultEyeHeight);
      eye.SetPosition(Vector3(0.0, 0.0, 8.0));
      camera := eye;
      enemies := [];
      rng := draws;
      suppressNextMouseDelta := true;
      fireCooldown := 0.0;
      score := 0;
      previousLeftPressed := leftPressed;
      previousSpaceDown := spaceDown;
      floorIndices := [];
      cubeIndices := [];
      crosshair := [];
    }

    /** The ray a shot follows: from the camera along its Forward direction. */
    function AimRay(forwardOf: (real, real) -> Vector3): Ray
      reads camera
    {
      Ray(camera.position, forwardOf(camera.yaw, camera.pitch))
    }

    /** The camera's position, yaw and pitch, as one value. */
    function CameraPose(): Pose
      reads camera
    {
      Pose(camera.position, camera.yaw, camera.pitch)
    }

    /** The cooldown, score, draws and target states, as one value. */
    function ShotView(): ShotState
      reads this`fireCooldown, this`score, this`rng, this`enemies, enemies
    {
      ShotState(fireCooldown, score, rng, States(enemies))
    }

    /** LoadContent: the two index buffers, the 32-pixel crosshair with arms
        3 thick and a gap of 9, and five targets. */
    method LoadContent() returns (placedAll: bool)
      requires Valid()
      modifies this`floorIndices, this`cubeIndices, this`crosshair, this`enemies, this`rng
      ensures Valid()
      ensures floorIndices == Meshes.FloorIndices() && cubeIndices == Meshes.CubeIndices()
      ensures |crosshair| == 32 * 32
      ensures forall i :: 0 <= i < |crosshair| ==> crosshair[i] == Hud.PixelOfIndex(32, 3, 9, i)
      ensures |enemies| == 5
      ensures placedAll <==> RespawnAll(old(rng), camera.position, 5).Some?
      ensures placedAll ==>
                var r := RespawnAll(old(rng), camera.position, 5).value;
                && rng == r.1
                && forall j :: 0 <= j < 5 ==> PlacedAs(enemies[j], r.0[j])
      ensures placedAll ==> forall j :: 0 <= j < |enemies| ==> Placed(enemies[j], camera.position)
    {
      floorIndices := Meshes.FloorIndices();
      cubeIndices := Meshes.CubeIndices();
      var texture := Hud.CreateCrosshairTexture(32, 3, 9);
      crosshair := texture[..];
      placedAll := InitializeEnemies(5);
    }

    /** RespawnEnemy: draw candidate positions until one is far enough from the
        camera, then a colour, and bring the enemy back there. The draws can run
        out; then the enemy is left as it was. */
    method RespawnEnemy(enemy: Enemy) returns (placed: bool)
      requires AllDraws(rng)
      modifies this`rng, enemy
      ensures AllDraws(rng) && IsSuffix(rng, old(rng))
      ensures placed <==> Respawned(old(rng), camera.position).Some?
      ensures placed ==>
                var r := Respawned(old(rng), camera.position).value;
                && enemy.position == r.0 && enemy.color == r.1 && enemy.isAlive
                && rng == old(rng)[r.2..]
      ensures !placed ==>
                enemy.position == old(enemy.position) && enemy.color == old(enemy.color)
                && enemy.isAlive == old(enemy.isAlive)
                && rng == Unpaired(old(rng))
    {
      ghost var draws := rng;
      ghost var at := camera.position;
      var position := Zero;
      var accepted := false;
      while !accepted && |rng| >= 2
        invariant AllDraws(rng) && IsSuffix(rng, draws) && (|draws| - |rng|) % 2 == 0
        invariant camera.position == at
        invariant !accepted ==> FirstSpawn(draws, at) == Shifted(FirstSpawn(rng, at), |draws| - |rng|)
        invariant accepted ==> FirstSpawn(draws, at) == Some((position, |draws| - |rng|))
        invariant unchanged(enemy)
        decreases |rng|
      {
        position, accepted := DrawCandidate(draws);
      }
      if accepted && |rng| >= 1 {
        assert IsDraw(rng[0]);
        var color := Palette[PaletteIndex(rng[0])];
        rng := rng[1..];
        enemy.Respawn(position, color);
        placed := true;
      } else {
        PairsExhausted(draws, rng);
        placed := false;
      }
    }

    /** One pass of RespawnEnemy's loop: the next two draws give a candidate
        position, taken when it is far enough from the camera. */
    method DrawCandidate(ghost draws: seq<real>) returns (position: Vector3, accepted: bool)
      requires AllDraws(rng) && |rng| >= 2 && IsSuffix(rng, draws) && (|draws| - |rng|) % 2 == 0
      requires FirstSpawn(draws, camera.position) == Shifted(FirstSpawn(rng, camera.position), |draws| - |rng|)
      modifies this`rng
      ensures rng == old(rng)[2..] && AllDraws(rng) && IsSuffix(rng, draws) && (|draws| - |rng|) % 2 == 0
      ensures !accepted ==> FirstSpawn(draws, camera.position) == Shifted(FirstSpawn(rng, camera.position), |draws| - |rng|)
      ensures accepted ==> FirstSpawn(draws, camera.position) == Some((position, |draws| - |rng|))
    {
      var x := Lerp(-MaxRange, MaxRange, rng[0]);
      var z := Lerp(-MaxRange, MaxRange, rng[1]);
      position := Vector3(x, EnemySize * 0.5, z);
      assert position == SpawnPosition(rng[0], rng[1]);
      FirstSpawnStep(draws, rng, camera.position, |draws| - |rng|);
      DropDraws(rng, 2);
      SuffixTransitive(rng[2..], rng, draws);
      rng := rng[2..];
      accepted := !TooClose(position, camera.position);
    }

    /** The scan of TryShoot: the alive enemy whose box the ray enters first,
        the earliest one on a tie; nothing when no distance beats float.MaxValue. */
    method SelectTarget(ray: Ray, intersects: (Ray, BoundingBox) -> Option<real>) returns (found: bool, index: int)
      ensures found <==> AnyHit(ShotCandidates(enemies, ray, intersects))
      ensures found ==> IsNearest(ShotCandidates(enemies, ray, intersects), index)
    {
      ghost var c := ShotCandidates(enemies, ray, intersects);
      var closestDistance := MaxFloat;
      found := false;
      index := 0;
      var i := 0;
      while i < |enemies|
        invariant |c| == |enemies| && Scanned(c, i, found, index, closestDistance)
      {
        var enemy := enemies[i];
        ScanStep(c, i, found, index, closestDistance);
        assert c[i] == Candidate(enemy, ray, intersects);
        if enemy.isAlive {
          var intersection := intersects(ray, enemy.Bounds());
          if intersection.Some? && intersection.value < closestDistance {
            closestDistance := intersection.value;
            index := i;
            found := true;
          }
        }
        i := i + 1;
      }
      ScanComplete(c, found, index, closestDistance);
    }

    /** TryShoot: kill and respawn the target the aim ray enters first.
        Returns whether anything was hit; the draws and target states become
        AfterShot of what the aim ray meets. */
    method TryShoot(forwardOf: (real, real) -> Vector3, intersects: (Ray, BoundingBox) -> Option<real>)
      returns (shot: bool)
      requires Valid()
      modifies this`rng, enemies
      ensures Valid()
      ensures shot <==> AnyHit(old(ShotCandidates(enemies, AimRay(forwardOf), intersects)))
      ensures ShotView() == AfterShot(old(ShotCandidates(enemies, AimRay(forwardOf), intersects)),
                                      old(camera.position), old(ShotView()))
    {
      ghost var was := ShotView();
      var ray := Ray(camera.position, forwardOf(camera.yaw, camera.pitch));
      assert ray == AimRay(forwardOf);
      var found, index := SelectTarget(ray, intersects);
      if !found {
        return false;
      }
      ghost var c := ShotCandidates(enemies, ray, intersects);
      NearestIsUnique(c, index, Nearest(c));
      KillAndRespawn(index);
      return true;
    }

    /** The hit of TryShoot: kill the selected target, then respawn it. */
    method KillAndRespawn(index: int)
      requires Valid() && 0 <= index < |enemies|
      modifies this`rng, enemies[index]
      ensures Valid()
      ensures ShotView() == AfterHit(index, camera.position, old(ShotView()))
    {
      ghost var was := ShotView();
      ghost var r := Respawned(rng, camera.position);
      var closestEnemy := enemies[index];
      closestEnemy.Kill();
      var _ := RespawnEnemy(closestEnemy);
      ghost var hit := if r.Some? then TargetState(true, r.value.0, r.value.1)
                       else was.targets[index].(isAlive := false);
      assert States(enemies)[index] == hit;
      assert States(enemies) == was.targets[index := hit] by {
        forall j | 0 <= j < |enemies| && j != index
          ensures States(enemies)[j] == was.targets[j]
        {
          DistinctApart(enemies, j, index);
        }
      }
    }

    /** InitializeEnemies: a new list of `count` distinct targets, each respawned as it
        is added (none for a count below one). */
    method InitializeEnemies(count: int) returns (placedAll: bool)
      requires Valid()
      modifies this`enemies, this`rng
      ensures Valid()
      ensures |enemies| == if count > 0 then count else 0
      ensures placedAll <==> RespawnAll(old(rng), camera.position, |enemies|).Some?
      ensures placedAll ==>
                var r := RespawnAll(old(rng), camera.position, |enemies|).value;
                && rng == r.1
                && forall j :: 0 <= j < |enemies| ==> PlacedAs(enemies[j], r.0[j])
      ensures placedAll ==> forall j :: 0 <= j < |enemies| ==> Placed(enemies[j], camera.position)
      ensures IsSuffix(rng, old(rng))
    {
      ghost var at := camera.position;
      ghost var draws := rng;
      ghost var placements: seq<(Vector3, Color)> := [];
      enemies := [];
      placedAll := true;
      var i := 0;
      while i < count
        invariant 0 <= i && |enemies| == i
        invariant count > 0 ==> i <= count
        invariant count <= 0 ==> i == 0
        invariant camera.Valid() && fireCooldown >= 0.0 && score >= 0 && AllDraws(rng)
        invariant forall j :: 0 <= j < |enemies| ==> enemies[j].size == EnemySize
        invariant Distinct(enemies)
        invariant camera.position == at
        invariant AddedSoFar(draws, i, placements, placedAll)
        invariant IsSuffix(rng, old(rng))
        decreases count - i
      {
        ghost var earlier := enemies;
        ghost var before := rng;
        placedAll, placements := AddEnemy(draws, i, placements, placedAll);
        assert enemies == earlier + [enemies[i]];
        DistinctGrows(earlier, enemies[i]);
        SuffixTransitive(rng, before, old(rng));
        i := i + 1;
      }
      if placedAll {
        RespawnAllPlaces(draws, at, i);
      }
    }

    /** What InitializeEnemies' loop keeps after its first n passes: while every
        respawn has succeeded, the targets hold the placements of the fold of
        Respawned over the draws, and the draws left are the fold's; after a
        failure the fold has failed too. */
    ghost predicate AddedSoFar(draws: seq<real>, n: nat, placements: seq<(Vector3, Color)>, placedAll: bool)
      reads this, camera, enemies
    {
      && AllDraws(draws) && |enemies| == n
      && (placedAll ==> RespawnAll(draws, camera.position, n) == Some((placements, rng)))
      && (placedAll ==> forall j :: 0 <= j < n ==> PlacedAs(enemies[j], placements[j]))
      && (!placedAll ==> RespawnAll(draws, camera.position, n).None?)
    }

    /** One pass of InitializeEnemies' loop: a new target of the configured
        size is added to the list and then respawned, which extends the fold by
        one respawn. */
    method AddEnemy(ghost draws: seq<real>, ghost n: nat, ghost placements: seq<(Vector3, Color)>, placedAll: bool)
      returns (placedNow: bool, ghost placementsNow: seq<(Vector3, Color)>)
      requires AllDraws(rng) && AddedSoFar(draws, n, placements, placedAll)
      modifies this`enemies, this`rng
      ensures |enemies| == n + 1 && enemies[..n] == old(enemies)
      ensures fresh(enemies[n]) && enemies[n].size == EnemySize
      ensures AllDraws(rng) && IsSuffix(rng, old(rng))
      ensures AddedSoFar(draws, n + 1, placementsNow, placedNow)
    {
      var enemy := new Enemy(EnemySize);
      ghost var earlier := enemies;
      ghost var before := rng;
      ghost var at := camera.position;
      enemies := enemies + [enemy];
      var placed := RespawnEnemy(enemy);
      placementsNow := placements;
      if placedAll {
        RespawnAllGrows(draws, at, n, placements, before);
        if placed {
          ghost var r := Respawned(before, at).value;
          placementsNow := placements + [(r.0, r.1)];
          assert PlacedAs(enemy, placementsNow[n]);
          forall j | 0 <= j < n
            ensures PlacedAs(enemies[j], placementsNow[j])
          {
            assert enemies[j] == earlier[j] && placementsNow[j] == placements[j];
            assert PlacedAs(earlier[j], placements[j]);
          }
        }
      } else {
        RespawnAllStops(draws, at, n);
      }
      placedNow := placedAll && placed;
    }

    /** HandleFire: with the cooldown run down, an edge-triggered left click or
        Space shoots, scores on a hit and restarts the cooldown. */
    method HandleFire(leftPressed: bool, spaceDown: bool, forwardOf: (real, real) -> Vector3,
                      intersects: (Ray, BoundingBox) -> Option<real>)
      requires Valid()
      modifies this`fireCooldown, this`score, this`rng, enemies
      ensures Valid()
      ensures ShotView() == AfterFire(FireRequested(leftPressed, previousLeftPressed, spaceDown, previousSpaceDown),
                                      old(ShotCandidates(enemies, AimRay(forwardOf), intersects)),
                                      old(camera.position), old(ShotView()))
    {
      ghost var was, at := ShotView(), camera.position;
      ghost var c := ShotCandidates(enemies, AimRay(forwardOf), intersects);
      var isFiring := leftPressed && !previousLeftPressed;
      var isUsingSpace := spaceDown && !previousSpaceDown;
      if fireCooldown > 0.0 {
        return;
      }
      if isFiring || isUsingSpace {
        FireShot(forwardOf, intersects);
      }
    }

    /** The shot HandleFire takes once the cooldown is over: TryShoot, a
        point when it hits, and the cooldown restarted. */
    method FireShot(forwardOf: (real, real) -> Vector3, intersects: (Ray, BoundingBox) -> Option<real>)
      requires Valid() && fireCooldown <= 0.0
      modifies this`fireCooldown, this`score, this`rng, enemies
      ensures Valid()
      ensures ShotView() == AfterFire(true, old(ShotCandidates(enemies, AimRay(forwardOf), intersects)),
                                      old(camera.position), old(ShotView()))
    {
      var hit := TryShoot(forwardOf, intersects);
      ScoreShot(hit);
    }

    /** The end of a shot: a point for a hit, and the cooldown restarted. */
    method ScoreShot(hit: bool)
      requires Valid()
      modifies this`fireCooldown, this`score
      ensures Valid()
      ensures ShotView() == old(ShotView()).(cooldown := FireDelaySeconds, score := old(score) + if hit then 1 else 0)
    {
      score, fireCooldown := score + (if hit then 1 else 0), FireDelaySeconds;
    }

    /** HandleMouse: the first delta after the flag is set is dropped; after
        that a non-zero delta turns the camera. */
    method HandleMouse(deltaX: int, deltaY: int)
      modifies this`suppressNextMouseDelta, camera`yaw, camera`pitch
      ensures !suppressNextMouseDelta
      ensures Turned(old(suppressNextMouseDelta), deltaX, deltaY, old(camera.yaw), old(camera.pitch),
                     camera.yaw, camera.pitch)
      ensures old(camera.Valid()) ==> camera.Valid()
    {
      if suppressNextMouseDelta {
        suppressNextMouseDelta := false;
        return;
      }
      if deltaX != 0 || deltaY != 0 {
        camera.Rotate((deltaX as real) * MouseSensitivity, (deltaY as real) * MouseSensitivity);
      }
    }

    /** HandleMovement: walk along the floor plane in the direction the keys
        give, at walking or sprinting speed, for one frame. */
    method HandleMovement(keys: Keys, deltaSeconds: real, look: Vector3,
                          normalize: Vector3 -> Vector3)
      modifies camera`position
      ensures Walked(keys, look, deltaSeconds, normalize, camera.eyeHeight, old(camera.position), camera.position)
      ensures old(camera.Valid()) ==> camera.Valid()
    {
      var step := WalkStep(keys, look, deltaSeconds, normalize);
      if step.Some? {
        camera.Move(step.value);
      }
    }

    /** HandleInput: without focus, only arm the mouse-delta flag; with focus,
        look, walk, then fire along the ray of the turned and moved camera. */
    method HandleInput(input: FrameInput, deltaSeconds: real, forwardOf: (real, real) -> Vector3,
                       intersects: (Ray, BoundingBox) -> Option<real>, normalize: Vector3 -> Vector3)
      requires Valid()
      modifies this`suppressNextMouseDelta, this`fireCooldown, this`score, this`rng, enemies
      modifies camera`position, camera`yaw, camera`pitch
      ensures Valid()
      ensures suppressNextMouseDelta == !input.isActive
      ensures forall p {:trigger Steered(input, deltaSeconds, forwardOf, normalize, old(suppressNextMouseDelta),
                                         camera.eyeHeight, p, CameraPose())} ::
                p == old(CameraPose()) ==>
                  Steered(input, deltaSeconds, forwardOf, normalize, old(suppressNextMouseDelta), camera.eyeHeight,
                          p, CameraPose())
      ensures var ray := AimRay(forwardOf);
              ShotView() == AfterFire(input.isActive && FireRequested(input.leftPressed, previousLeftPressed,
                                                                      input.keys.space, previousSpaceDown),
                                      old(ShotCandidates(enemies, ray, intersects)), camera.position, old(ShotView()))
    {
      if !input.isActive {
        suppressNextMouseDelta := true;
        return;
      }
      Steer(input, deltaSeconds, forwardOf, normalize);
      HandleFire(input.leftPressed, input.keys.space, forwardOf, intersects);
    }

    /** HandleInput with focus, before the fire test: look with the mouse,
        then walk along the Forward of the turned camera. */
    method Steer(input: FrameInput, deltaSeconds: real, forwardOf: (real, real) -> Vector3,
                 normalize: Vector3 -> Vector3)
      requires Valid() && input.isActive
      modifies this`suppressNextMouseDelta, camera`position, camera`yaw, camera`pitch
      ensures Valid() && !suppressNextMouseDelta
      ensures Steered(input, deltaSeconds, forwardOf, normalize, old(suppressNextMouseDelta), camera.eyeHeight,
                      old(CameraPose()), CameraPose())
    {
      HandleMouse(input.mouseDeltaX, input.mouseDeltaY);
      ghost var yaw, pitch := camera.yaw, camera.pitch;
      HandleMovement(input.keys, deltaSeconds, forwardOf(camera.yaw, camera.pitch), normalize);
      assert camera.yaw == yaw && camera.pitch == pitch;
    }

    /** The first step of Update: the fire cooldown runs down by the frame
        time, to no less than zero. */
    method TickFireCooldown(deltaSeconds: real)
      requires Valid()
      modifies this`fireCooldown
      ensures Valid()
      ensures ShotView() == old(ShotView()).(cooldown := TickCooldown(old(fireCooldown), deltaSeconds))
    {
      fireCooldown := TickCooldown(fireCooldown, deltaSeconds);
    }

    /** The last step of Update: this frame's left button and Space become
        the previous ones for the next frame's edge test. */
    method RememberControls(leftPressed: bool, spaceDown: bool)
      modifies this`previousLeftPressed, this`previousSpaceDown
      ensures previousLeftPressed == leftPressed && previousSpaceDown == spaceDown
    {
      previousLeftPressed := leftPressed;
      previousSpaceDown := spaceDown;
    }

    /** Update: run the cooldown down by the frame time, handle the frame's
        input, then keep this frame's fire controls for the edge test. */
    method Update(deltaSeconds: real, input: FrameInput, forwardOf: (real, real) -> Vector3,
                  intersects: (Ray, BoundingBox) -> Option<real>, normalize: Vector3 -> Vector3)
      requires Valid()
      modifies this`suppressNextMouseDelta, this`fireCooldown, this`score, this`rng, enemies
      modifies this`previousLeftPressed, this`previousSpaceDown
      modifies camera`position, camera`yaw, camera`pitch
      ensures Valid()
      ensures previousLeftPressed == input.leftPressed && previousSpaceDown == input.keys.space
      ensures suppressNextMouseDelta == !input.isActive
      ensures Steered(input, deltaSeconds, forwardOf, normalize, old(suppressNextMouseDelta), camera.eyeHeight,
                      old(CameraPose()), CameraPose())
      ensures var ray := AimRay(forwardOf);
              ShotView() == AfterFire(input.isActive && FireRequested(input.leftPressed, old(previousLeftPressed),
                                                                      input.keys.space, old(previousSpaceDown)),
                                      old(ShotCandidates(enemies, ray, intersects)), camera.position,
                                      old(ShotView()).(cooldown := TickCooldown(old(fireCooldown), deltaSeconds)))
    {
      ghost var pose, suppressed := CameraPose(), suppressNextMouseDelta;
      TickFireCooldown(deltaSeconds);
      assert suppressNextMouseDelta == suppressed && CameraPose() == pose;
      HandleInput(input, deltaSeconds, forwardOf, intersects, normalize);
      assert Steered(input, deltaSeconds, forwardOf, normalize, suppressed, camera.eyeHeight, pose, CameraPose());
      RememberControls(input.leftPressed, input.keys.space);
    }
  }
}
