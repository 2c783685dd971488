/** The value-level rules of the game loop: fire gating, choosing the target a
    shot hits, and where a target may respawn. */
module Shooting {
  import opened Geometry
  import opened MathHelper
  import opened Enemies

  const MouseSensitivity: real := 0.0025
  const FireDelaySeconds: real := 0.25
  const EnemySize: real := 1.2
  /** The respawn rule: at least MinDistance from the player, within MaxRange on X and Z. */
  const MinDistance: real := 6.0
  const MaxRange: real := 25.0

  // ---------------------------------------------------------------- firing

  /** An edge-triggered control fires only on the frame it goes down. */
  predicate IsPressEdge(now: bool, before: bool) { now && !before }

  /** Left click or Space, each edge-triggered against the previous frame. */
  predicate FireRequested(leftNow: bool, leftBefore: bool, spaceNow: bool, spaceBefore: bool)
  {
    IsPressEdge(leftNow, leftBefore) || IsPressEdge(spaceNow, spaceBefore)
  }

  /** The cooldown after a frame of `delta` seconds: MathF.Max(0, cooldown - delta). */
  function TickCooldown(cooldown: real, delta: real): (r: real)
    ensures r >= 0.0
    ensures r >= cooldown - delta
    ensures r == 0.0 || r == cooldown - delta
  {
    if cooldown - delta > 0.0 then cooldown - delta else 0.0
  }

  /** The cooldown after a run of frames. */
  function TickAll(cooldown: real, deltas: seq<real>): real
    decreases |deltas|
  {
    if deltas == [] then cooldown else TickAll(TickCooldown(cooldown, deltas[0]), deltas[1..])
  }

  function Sum(deltas: seq<real>): real
  {
    if deltas == [] then 0.0 else deltas[0] + Sum(deltas[1..])
  }

  predicate AllNonNegative(deltas: seq<real>)
  {
    forall i :: 0 <= i < |deltas| ==> deltas[i] >= 0.0
  }

  /** Ticking frame by frame is the same as ticking once by the elapsed total. */
  lemma {:induction false} TickAllIsTotal(cooldown: real, deltas: seq<real>)
    requires cooldown >= 0.0 && AllNonNegative(deltas)
    ensures TickAll(cooldown, deltas) == TickCooldown(cooldown, Sum(deltas))
    decreases |deltas|
  {
    if deltas != [] {
      var rest := deltas[1..];
      assert AllNonNegative(rest) by {
        forall i | 0 <= i < |rest| ensures rest[i] >= 0.0 { assert rest[i] == deltas[i + 1]; }
      }
      TickAllIsTotal(TickCooldown(cooldown, deltas[0]), rest);
      SumNonNegative(rest);
      assert deltas[0] >= 0.0;
      assert Sum(deltas) == deltas[0] + Sum(rest);
      assert TickAll(cooldown, deltas) == TickAll(TickCooldown(cooldown, deltas[0]), rest);
    }
  }

  lemma {:induction false} SumNonNegative(deltas: seq<real>)
    requires AllNonNegative(deltas)
    ensures Sum(deltas) >= 0.0
  {
    if deltas != [] {
      var rest := deltas[1..];
      assert AllNonNegative(rest) by {
        forall i | 0 <= i < |rest| ensures rest[i] >= 0.0 { assert rest[i] == deltas[i + 1]; }
      }
      SumNonNegative(rest);
    }
  }

  /** A shot starts the cooldown; until FireDelaySeconds have elapsed it stays
      positive, so no second shot is accepted, and after that it is zero again. */
  lemma CooldownWindow(deltas: seq<real>)
    requires AllNonNegative(deltas)
    ensures Sum(deltas) < FireDelaySeconds <==> TickAll(FireDelaySeconds, deltas) > 0.0
  {
    TickAllIsTotal(FireDelaySeconds, deltas);
  }

  // -------------------------------------------------------------- targeting

  /** For each target in list order, the ray's entry distance into its box, if
      it is alive and the ray meets it. */
  type Candidates = seq<Option<real>>

  /** Entry j is a hit the scan can select: the scan starts from float.MaxValue
      and only accepts distances strictly below the best so far. */
  predicate Hits(c: Candidates, j: int)
  {
    0 <= j < |c| && c[j].Some? && c[j].value < MaxFloat
  }

  predicate AnyHit(c: Candidates)
  {
    exists j :: 0 <= j < |c| && Hits(c, j)
  }

  /** Entry k is the nearest hit among the first n entries, and the first entry
      at that distance. */
  predicate NearestAmong(c: Candidates, k: int, n: int)
  {
    && n <= |c|
    && k < n
    && Hits(c, k)
    && (forall j :: 0 <= j < n && Hits(c, j) ==> c[k].value <= c[j].value)
    && (forall j :: 0 <= j < k && Hits(c, j) ==> c[j].value > c[k].value)
  }

  predicate IsNearest(c: Candidates, k: int)
  {
    NearestAmong(c, k, |c|)
  }

  /** What a scan that keeps the strictly nearest hit so far knows after the
      first n entries: whether it has seen a hit, and if so which entry is the
      nearest one and at what distance. */
  predicate Scanned(c: Candidates, n: int, found: bool, index: int, closest: real)
  {
    && 0 <= n <= |c|
    && (found <==> exists j :: 0 <= j < n && Hits(c, j))
    && (!found ==> closest == MaxFloat)
    && (found ==> NearestAmong(c, index, n) && closest == c[index].value)
  }

  /** One step of the scan: entry n replaces the best so far exactly when it
      is strictly nearer. */
  lemma ScanStep(c: Candidates, n: int, found: bool, index: int, closest: real)
    requires Scanned(c, n, found, index, closest) && n < |c|
    ensures c[n].Some? && c[n].value < closest ==> Scanned(c, n + 1, true, n, c[n].value)
    ensures !(c[n].Some? && c[n].value < closest) ==> Scanned(c, n + 1, found, index, closest)
  {
    assert (exists j :: 0 <= j < n + 1 && Hits(c, j)) ==> (exists j :: 0 <= j < n && Hits(c, j)) || Hits(c, n);
  }

  /** A finished scan has found a hit exactly when there is one, and then the nearest. */
  lemma ScanComplete(c: Candidates, found: bool, index: int, closest: real)
    requires Scanned(c, |c|, found, index, closest)
    ensures found <==> AnyHit(c)
    ensures found ==> IsNearest(c, index)
  {
  }

  /** There is only ever one target to select. */
  lemma NearestIsUnique(c: Candidates, k1: int, k2: int)
    requires IsNearest(c, k1) && IsNearest(c, k2)
    ensures k1 == k2
  {
  }

  /** The hit a shot selects: the nearest one, which exists whenever
      anything is hit and is unique by NearestIsUnique. */
  ghost function Nearest(c: Candidates): (k: int)
    requires AnyHit(c)
    ensures IsNearest(c, k)
  {
    NearestExists(c, |c|);
    var k :| NearestAmong(c, k, |c|); k
  }

  /** Whenever something is hit, a nearest hit exists. */
  lemma {:induction false} NearestExists(c: Candidates, n: int)
    requires 0 <= n <= |c|
    requires exists j :: 0 <= j < n && Hits(c, j)
    ensures exists k :: NearestAmong(c, k, n)
  {
    if exists i :: 0 <= i < n - 1 && Hits(c, i) {
      NearestExists(c, n - 1);
      var k :| NearestAmong(c, k, n - 1);
      if Hits(c, n - 1) && c[n - 1].value < c[k].value {
        assert NearestAmong(c, n - 1, n);
      } else {
        assert NearestAmong(c, k, n);
      }
    } else {
      assert NearestAmong(c, n - 1, n);
    }
  }

  // ---------------------------------------------------------------- respawn

  /** The candidate position built from two draws: X and Z interpolated over
      [-MaxRange, MaxRange], resting on the floor at half the cube's size. */
  function SpawnPosition(u: real, v: real): (p: Vector3)
    ensures p.y == EnemySize * 0.5
    ensures 0.0 <= u <= 1.0 && 0.0 <= v <= 1.0 ==>
              -MaxRange <= p.x <= MaxRange && -MaxRange <= p.z <= MaxRange
  {
    if 0.0 <= u <= 1.0 && 0.0 <= v <= 1.0 then
      LerpBetween(-MaxRange, MaxRange, u);
      LerpBetween(-MaxRange, MaxRange, v);
      Vector3(Lerp(-MaxRange, MaxRange, u), EnemySize * 0.5, Lerp(-MaxRange, MaxRange, v))
    else
      Vector3(Lerp(-MaxRange, MaxRange, u), EnemySize * 0.5, Lerp(-MaxRange, MaxRange, v))
  }

  /** The loop's retry condition: closer than MinDistance to the camera on the floor plane. */
  predicate TooClose(p: Vector3, camera: Vector3)
  {
    HorizontalDistanceSquared(p, camera) < MinDistance * MinDistance
  }

  /** Everything a respawned target's position satisfies. */
  predicate ValidSpawn(p: Vector3, camera: Vector3)
  {
    && p.y == EnemySize * 0.5
    && -MaxRange <= p.x <= MaxRange && -MaxRange <= p.z <= MaxRange
    && HorizontalDistanceSquared(p, camera) >= MinDistance * MinDistance
  }

  const Palette: seq<Color> := [Crimson, DarkOrange, Gold, Cyan, MediumPurple, Chartreuse]

  /** Random.Next(6) from one draw in [0, 1). */
  function PaletteIndex(d: real): (i: int)
    ensures 0.0 <= d < 1.0 ==> 0 <= i < |Palette|
  {
    (d * (|Palette| as real)).Floor
  }

  /** A draw is what Random.NextDouble can return. */
  predicate IsDraw(d: real) { 0.0 <= d < 1.0 }

  predicate AllDraws(ds: seq<real>)
  {
    forall i :: 0 <= i < |ds| ==> IsDraw(ds[i])
  }

  /** s is what is left of t after some draws were taken from its front. */
  predicate IsSuffix(s: seq<real>, t: seq<real>)
  {
    |s| <= |t| && s == t[|t| - |s|..]
  }

  /** Taking draws twice is taking draws once. */
  lemma SuffixTransitive(a: seq<real>, b: seq<real>, c: seq<real>)
    requires IsSuffix(a, b) && IsSuffix(b, c)
    ensures IsSuffix(a, c)
  {
    assert a == c[|c| - |b|..][|b| - |a|..];
  }

  /** An optional result moved on by k draws. */
  function Shifted(r: Option<(Vector3, nat)>, k: nat): Option<(Vector3, nat)>
  {
    if r.None? then None else Some((r.value.0, r.value.1 + k))
  }

  /** The do-while loop of RespawnEnemy run on a finite stream of draws: each
      pair of draws gives a candidate, and the first candidate that is not too
      close is taken, together with the number of draws used. None when the
      stream runs out first. */
  function FirstSpawn(ds: seq<real>, camera: Vector3): Option<(Vector3, nat)>
    decreases |ds|
  {
    if |ds| < 2 then None
    else
      var p := SpawnPosition(ds[0], ds[1]);
      if !TooClose(p, camera) then Some((p, 2)) else Shifted(FirstSpawn(ds[2..], camera), 2)
  }

  /** One pass of RespawnEnemy's loop on the draws left after k of them: the
      next candidate is taken when it is far enough away, and otherwise the
      search goes on two draws further. */
  lemma FirstSpawnStep(draws: seq<real>, ds: seq<real>, camera: Vector3, k: nat)
    requires |ds| >= 2 && FirstSpawn(draws, camera) == Shifted(FirstSpawn(ds, camera), k)
    ensures !TooClose(SpawnPosition(ds[0], ds[1]), camera) ==>
              FirstSpawn(draws, camera) == Some((SpawnPosition(ds[0], ds[1]), k + 2))
    ensures TooClose(SpawnPosition(ds[0], ds[1]), camera) ==>
              FirstSpawn(draws, camera) == Shifted(FirstSpawn(ds[2..], camera), k + 2)
  {
  }

  /** Candidate i of a stream of draws, from draws 2i and 2i + 1. */
  function PairCandidate(ds: seq<real>, i: int): Vector3
    requires 0 <= i < |ds| / 2
  {
    SpawnPosition(ds[2 * i], ds[2 * i + 1])
  }

  /** Rejection sampling takes the first acceptable candidate: it satisfies
      ValidSpawn, and every candidate before it was too close. */
  lemma {:induction false} FirstSpawnIsFirstValid(ds: seq<real>, camera: Vector3)
    requires AllDraws(ds)
    requires FirstSpawn(ds, camera).Some?
    ensures var n := FirstSpawn(ds, camera).value.1;
            && 2 <= n <= |ds| && n % 2 == 0
            && FirstSpawn(ds, camera).value.0 == PairCandidate(ds, n / 2 - 1)
            && ValidSpawn(FirstSpawn(ds, camera).value.0, camera)
            && forall i :: 0 <= i < n / 2 - 1 ==> TooClose(PairCandidate(ds, i), camera)
    decreases |ds|
  {
    var p := SpawnPosition(ds[0], ds[1]);
    assert IsDraw(ds[0]) && IsDraw(ds[1]);
    assert p == PairCandidate(ds, 0);
    if TooClose(p, camera) {
      var rest := DropPair(ds);
      FirstSpawnIsFirstValid(rest, camera);
      var n := FirstSpawn(rest, camera).value.1;
      assert FirstSpawn(ds, camera).value == (FirstSpawn(rest, camera).value.0, n + 2);
      assert PairCandidate(ds, (n + 2) / 2 - 1) == PairCandidate(rest, n / 2 - 1);
    }
  }

  /** When the stream runs out before a candidate is accepted, every candidate
      it held was too close. */
  lemma {:induction false} NoSpawnAllTooClose(ds: seq<real>, camera: Vector3)
    requires AllDraws(ds)
    requires FirstSpawn(ds, camera).None?
    ensures forall i :: 0 <= i < |ds| / 2 ==> TooClose(PairCandidate(ds, i), camera)
    decreases |ds|
  {
    if |ds| >= 2 {
      var rest := DropPair(ds);
      NoSpawnAllTooClose(rest, camera);
      assert TooClose(PairCandidate(ds, 0), camera);
    }
  }

  /** The stream after one rejected pair: still draws, and candidate i + 1 of
      the stream is candidate i of the rest. */
  lemma DropPair(ds: seq<real>) returns (rest: seq<real>)
    requires AllDraws(ds) && |ds| >= 2
    ensures rest == ds[2..] && AllDraws(rest) && |rest| / 2 == |ds| / 2 - 1
    ensures forall i :: 1 <= i < |ds| / 2 ==> PairCandidate(ds, i) == PairCandidate(rest, i - 1)
  {
    rest := ds[2..];
    forall i | 1 <= i < |ds| / 2 ensures PairCandidate(ds, i) == PairCandidate(rest, i - 1) {
      assert ds[2 * i] == rest[2 * (i - 1)] && ds[2 * i + 1] == rest[2 * (i - 1) + 1];
    }
  }

  /** All of RespawnEnemy on a stream of draws: the accepted position, then a
      colour from the next draw, and the number of draws used. */
  function Respawned(ds: seq<real>, camera: Vector3): (r: Option<(Vector3, Color, nat)>)
    requires AllDraws(ds)
    ensures r.Some? ==> ValidSpawn(r.value.0, camera) && r.value.1 in Palette && r.value.2 <= |ds|
    ensures r.Some? <==> FirstSpawn(ds, camera).Some? && FirstSpawn(ds, camera).value.1 < |ds|
  {
    var first := FirstSpawn(ds, camera);
    if first.Some? && first.value.1 < |ds| then
      FirstSpawnIsFirstValid(ds, camera);
      assert IsDraw(ds[first.value.1]);
      Some((first.value.0, Palette[PaletteIndex(ds[first.value.1])], first.value.1 + 1))
    else
      None
  }

  /** The draws a respawn that runs out leaves behind: it takes draws in
      pairs while two remain, so only an odd last draw can be left. */
  function Unpaired(ds: seq<real>): (rest: seq<real>)
    ensures |rest| == |ds| % 2 && IsSuffix(rest, ds)
  {
    ds[|ds| - |ds| % 2..]
  }

  /** A suffix reached by whole pairs, with fewer than two draws left, is
      what Unpaired leaves. */
  lemma PairsExhausted(ds: seq<real>, rest: seq<real>)
    requires IsSuffix(rest, ds) && (|ds| - |rest|) % 2 == 0 && |rest| < 2
    ensures rest == Unpaired(ds)
  {
  }

  /** What is left after the first k draws: still draws, and a suffix. */
  lemma DropDraws(ds: seq<real>, k: int)
    requires AllDraws(ds) && 0 <= k <= |ds|
    ensures AllDraws(ds[k..]) && IsSuffix(ds[k..], ds)
  {
    forall i | 0 <= i < |ds| - k ensures IsDraw(ds[k..][i]) { assert ds[k..][i] == ds[k + i]; }
  }

  /** n respawns in turn, each on the draws the ones before it left: the
      positions and colours in order and the draws left over, or None when
      one of them runs out of draws. */
  function RespawnAll(ds: seq<real>, camera: Vector3, n: nat): (r: Option<(seq<(Vector3, Color)>, seq<real>)>)
    requires AllDraws(ds)
    ensures r.Some? ==> |r.value.0| == n && AllDraws(r.value.1) && IsSuffix(r.value.1, ds)
    decreases n
  {
    if n == 0 then Some(([], ds))
    else
      var before := RespawnAll(ds, camera, n - 1);
      if before.None? then None
      else
        var rest := before.value.1;
        var next := Respawned(rest, camera);
        if next.None? then None
        else
          DropDraws(rest, next.value.2);
          SuffixTransitive(rest[next.value.2..], rest, ds);
          Some((before.value.0 + [(next.value.0, next.value.1)], rest[next.value.2..]))
  }

  /** One more respawn extends a successful fold by Respawned on the draws it left. */
  lemma RespawnAllGrows(ds: seq<real>, camera: Vector3, n: nat, placements: seq<(Vector3, Color)>, rest: seq<real>)
    requires AllDraws(ds) && RespawnAll(ds, camera, n) == Some((placements, rest))
    ensures AllDraws(rest)
    ensures Respawned(rest, camera).None? ==> RespawnAll(ds, camera, n + 1).None?
    ensures Respawned(rest, camera).Some? ==>
              var r := Respawned(rest, camera).value;
              RespawnAll(ds, camera, n + 1) == Some((placements + [(r.0, r.1)], rest[r.2..]))
  {
  }

  /** Once a respawn has failed, so have all the folds that extend it. */
  lemma RespawnAllStops(ds: seq<real>, camera: Vector3, n: nat)
    requires AllDraws(ds) && RespawnAll(ds, camera, n).None?
    ensures RespawnAll(ds, camera, n + 1).None?
  {
  }

  /** Every target the fold places is at a valid spawn position, in a palette colour. */
  lemma {:induction false} RespawnAllPlaces(ds: seq<real>, camera: Vector3, n: nat)
    requires AllDraws(ds) && RespawnAll(ds, camera, n).Some?
    ensures forall j :: 0 <= j < n ==>
              ValidSpawn(RespawnAll(ds, camera, n).value.0[j].0, camera) && RespawnAll(ds, camera, n).value.0[j].1 in Palette
  {
    if n > 0 {
      RespawnAllPlaces(ds, camera, n - 1);
    }
  }
}
