# MonoGame first-person shooter demo — a Dafny model

This project models the game logic of a small MonoGame first-person shooter:

- **Targets.** The `Enemy` class is a cube target. It is created dead at the origin, then respawned (alive, at a position, in a colour) and killed in turn. Its bounding box is derived from its position and its fixed size.
- **Camera.** The `FirstPersonCamera` class pins its position to eye height, wraps its yaw to (-Pi, Pi] and clamps its pitch to ±89 degrees. Its two planar walking directions are also modelled.
- **Game object.** `Game1` holds:
  - the camera and the target list;
  - the random source, a finite sequence of `NextDouble` draws;
  - the mouse-delta suppression flag, the fire cooldown and the score;
  - the previous frame's fire controls.
- **Game1 operations.** The model covers:
  - the frame update (cooldown, focus gate, mouse look, walking and firing);
  - shot resolution: the nearest live target the aim ray meets, with the earliest on a tie;
  - rejection-sampling respawn and the initial target list;
  - the constant index buffers of the floor and the cube;
  - the crosshair texture loop.

Coordinates are `real`, not 32-bit floats. Three library routines are parameters of the operations that use them:
- `forwardOf(yaw, pitch)` is the camera's `Forward`, built with sin/cos;
- `intersects(ray, box)` is `BoundingBox.Intersects(Ray)`;
- `normalize(v)` is `Vector3.Normalize`.

The random source is the field `rng`, the draws `Random.NextDouble` will still hand out, each in [0, 1). The model takes `Random.Next(6)` to consume one draw `d` and yield `floor(6 d)`.

Modules:
- `Geometry`: Vector3, BoundingBox, Ray, Option and the float constants.
- `MathHelper`: Pi, WrapAngle, Clamp, Lerp and ToRadians.
- `Enemies`: `Enemy`.
- `Cameras`: `FirstPersonCamera` and the planar directions.
- `Shooting`: the value-level game rules (fire gating, nearest hit, respawn).
- `Hud`: the crosshair.
- `Meshes`: the index buffers.
- `Game`: `Game1`.

A few source methods are split into consecutive parts, each a method of its own, so that every part stays small to verify:
- TryShoot's kill and respawn is `KillAndRespawn`.
- HandleFire's shot is `FireShot`, and its scoring `ScoreShot`.
- HandleInput's mouse look and walk are `Steer`.
- Update's cooldown step is `TickFireCooldown`, and its snapshots `RememberControls`.

What a shot does is also stated on values. `ShotState` holds the cooldown, the score, the draws and the target states. `AfterShot` and `AfterFire` are the states TryShoot and HandleFire leave. `ShotOutcome` and `FireRule` spell out what those states mean, and lemmas prove that they do.

## Model

| member | source | states |
|---|---|---|
| Enemies.Enemy.constructor | Enemy.cs:9-17 | A new target is not alive, sits at the origin, is white and has the given size; `size` is a `const`, so it never changes afterwards |
| Enemies.Enemy.Bounds | Enemy.cs:19-26 | The box is centred on the position, has edge `size` on every axis, and min <= max componentwise when the size is not negative |
| Enemies.Enemy.Respawn | Enemy.cs:28-33 | Position and colour become the arguments and the target is alive |
| Enemies.Enemy.Kill | Enemy.cs:35-38 | The target is dead; position and colour are unchanged (size is a `const`) |
| Cameras.FirstPersonCamera.constructor | FirstPersonCamera.cs:11-20 | Position (0, eyeHeight, 0), yaw and pitch 0, the aspect ratio stored; the camera invariant holds |
| Cameras.FirstPersonCamera.UpdateProjection | FirstPersonCamera.cs:78-82 | Stores the aspect ratio and nothing else |
| Cameras.FirstPersonCamera.SetPosition | FirstPersonCamera.cs:84-88 | Position becomes (p.x, eyeHeight, p.z); only the position may change; the invariant is kept |
| Cameras.FirstPersonCamera.Move | FirstPersonCamera.cs:90-95 | X and Z move by the translation and Y is the eye height, whatever translation.y is; the invariant is kept |
| Cameras.FirstPersonCamera.Rotate | FirstPersonCamera.cs:97-102 | Yaw becomes WrapAngle(yaw - deltaYaw), in (-Pi, Pi]; pitch becomes the clamp of pitch - deltaPitch to ±89 degrees; the position cannot change |
| Cameras.ForwardOnPlane | FirstPersonCamera.cs:45-59 | The result has Y = 0, and is Vector3.Forward when the horizontal part of Forward is shorter than float.Epsilon |
| Cameras.ForwardOnPlaneDirection | FirstPersonCamera.cs:45-59 | ForwardOnPlane is never shorter than float.Epsilon; otherwise it is parallel to Forward's horizontal part and points the same way (positive dot product) |
| Cameras.RightOnPlane | FirstPersonCamera.cs:61-76 | The result has Y = 0 |
| Cameras.RightOnPlanePerpendicular | FirstPersonCamera.cs:61-76 | RightOnPlane is Cross(ForwardOnPlane, Up), so the Vector3.Right fallback is never taken. It is perpendicular to ForwardOnPlane and exactly as long |
| MathHelper.Truncate | FirstPersonCamera.cs:99 | Truncation toward zero: the result lies between 0 and r, less than one away from r |
| MathHelper.RemainderTwoPi | FirstPersonCamera.cs:99 | The C# float remainder by TwoPi: magnitude below TwoPi, with the sign of the dividend, and differing from the dividend by a whole number of turns |
| MathHelper.WrapAngle | FirstPersonCamera.cs:99 | The result lies in (-Pi, Pi], and an angle already there is returned unchanged |
| MathHelper.WrapAngleSameDirection | FirstPersonCamera.cs:99 | Wrapping adds a whole number of turns, so the yaw keeps its direction |
| MathHelper.WrapAngleIdempotent | FirstPersonCamera.cs:99 | Wrapping twice is wrapping once |
| MathHelper.Clamp | FirstPersonCamera.cs:100 | For min <= max the result lies in [min, max]; a value inside is kept, one above gives max, one below gives min |
| MathHelper.Lerp | Game1.cs:264-265 | Amount 0 gives value1 and amount 1 gives value2 |
| MathHelper.LerpBetween | Game1.cs:264-265 | An amount in [0, 1] gives a value between value1 and value2 |
| Shooting.TickCooldown | Game1.cs:91 | max(0, cooldown - delta): never negative, and either zero or cooldown - delta |
| Shooting.TickAllIsTotal | Game1.cs:91 | Running the cooldown down frame by frame equals running it down once by the total elapsed time |
| Shooting.SumNonNegative | Game1.cs:90 | Elapsed frame times of zero or more add up to zero or more |
| Shooting.CooldownWindow | Game1.cs:195-207 | After a shot the cooldown stays positive exactly while less than 0.25 s has elapsed, so no second shot is accepted before then |
| Shooting.ScanStep | Game1.cs:218-233 | One iteration of the scan: a candidate strictly nearer than the best so far replaces it; anything else leaves the scan state as it was |
| Shooting.ScanComplete | Game1.cs:218-238 | A finished scan has found a target exactly when some candidate hits, and then its choice is the nearest hit |
| Shooting.NearestIsUnique | Game1.cs:227-231 | The strict comparison leaves exactly one nearest hit: the earliest at the smallest distance |
| Shooting.NearestExists | Game1.cs:218-233 | Whenever some live target is hit, a nearest hit exists |
| Shooting.Nearest | Game1.cs:218-233 | Whenever some live target is hit, the nearest hit: the target the scan selects, unique by NearestIsUnique |
| Shooting.Unpaired | Game1.cs:262-268 | What a respawn whose draws run out leaves: the do-while takes draws in pairs, so the last draw remains exactly when the stream has odd length, and none otherwise |
| Shooting.PairsExhausted | Game1.cs:262-268 | A remainder reached by taking whole pairs, with fewer than two draws left, is the Unpaired remainder |
| Shooting.SpawnPosition | Game1.cs:264-266 | A candidate has Y = EnemySize * 0.5 and, for draws in [0, 1], X and Z in [-25, 25] |
| Shooting.FirstSpawnIsFirstValid | Game1.cs:262-268 | The do-while loop takes the first acceptable candidate: it is the candidate of the last pair of draws used, lies at least 6 units from the camera on X/Z, at height 0.6 and within [-25, 25]; every earlier candidate was too close |
| Shooting.NoSpawnAllTooClose | Game1.cs:262-268 | When the draws run out before a candidate is accepted, every candidate they gave was too close |
| Shooting.PaletteIndex | Game1.cs:280 | `Next(6)` on a draw in [0, 1) is a valid palette index |
| Shooting.Respawned | Game1.cs:262-281 | The whole respawn on a stream of draws: a result exists exactly when a position is accepted and a colour draw remains. The position is a valid spawn; the colour is one of the six palette colours; the result uses no more draws than there are |
| Shooting.RespawnAll | Game1.cs:248-253 | Respawned applied n times in a row, each on the draws the one before left: when all succeed, n placements and a remainder that is a suffix of the draws |
| Shooting.RespawnAllGrows | Game1.cs:248-253 | One more respawn extends the fold by the Respawned of the remaining draws, and fails it when that respawn fails |
| Shooting.RespawnAllStops | Game1.cs:248-253 | Once a respawn in the sequence has failed, the fold with more respawns fails too |
| Shooting.RespawnAllPlaces | Game1.cs:248-281 | Every placement of a successful fold is a valid spawn position in one of the palette colours |
| Hud.Abs | Game1.cs:392-393 | Math.Abs: the result is n or -n and not negative |
| Hud.HalfTowardZero | Game1.cs:383 | C# integer division by 2, rounding toward zero for either sign |
| Hud.PixelIndex | Game1.cs:389 | Row-major layout: y * size + x lies in the array, and dividing by size gives back y, with remainder x |
| Hud.CreateCrosshairTexture | Game1.cs:378-406 | The array has size * size entries, and entry i holds the colour of pixel (i % size, i / size) |
| Hud.FillRow | Game1.cs:387-401 | The inner loop: after row y, every entry of rows 0 to y holds its pixel's colour |
| Hud.CrosshairPixel | Game1.cs:389-400 | Entry y * size + x is White exactly when (x, y) lies on the horizontal arm (`abs(y-half) <= halfThickness` and `abs(x-half) > gap`) or on the vertical arm (the same with x and y swapped); every other entry is Transparent |
| Hud.CrosshairShape | Game1.cs:392-395 | The cross is symmetric about the diagonal, and with a gap of zero or more its centre pixel is clear |
| Meshes.FloorVertices | Game1.cs:291-297 | Four distinct corners, all at height 0 and at ±32 on X and Z |
| Meshes.FloorIndices | Game1.cs:299 | Six indices forming two triangles over the four floor corners: each entry lies in [0, 4), every corner is used and no triangle repeats a corner |
| Meshes.CubeVertices | Game1.cs:306-316 | Eight distinct corners at ±EnemySize/2 on every axis |
| Meshes.CubeIndices | Game1.cs:318-326 | 36 indices (12 triangles), each in [0, 8) |
| Meshes.CubeTrianglesZ | Game1.cs:320-321 | Triangles 0 to 3 have distinct corners and lie flat on a face at constant Z |
| Meshes.CubeTrianglesX | Game1.cs:322-323 | Triangles 4 to 7 have distinct corners and lie flat on a face at constant X |
| Meshes.CubeTrianglesY | Game1.cs:324-325 | Triangles 8 to 11 have distinct corners and lie flat on a face at constant Y |
| Meshes.CubeCornersUsed | Game1.cs:318-326 | Every one of the eight corners appears in the index list |
| Meshes.CubeIndicesFormTriangles | Game1.cs:318-326 | The cube indices form a triangle list over the eight corners: every entry is a valid vertex, every vertex is used, no triangle repeats a corner, and every triangle lies on one face |
| Game.KeyMovement | Game1.cs:161-180 | The summed direction is the Heading of the keys. A forward or right direction of zero length contributes nothing |
| Game.HeadingAsSum | Game1.cs:166-180 | Heading equals the step-by-step sum: plus forward for W, minus forward for S, plus right for D, minus right for A |
| Game.WalkFromMovement | Game1.cs:163-180 | Neither length guard ever drops a key, so the summed direction is the Heading of ForwardOnPlane and RightOnPlane |
| Game.PlaneDirectionsNonZero | Game1.cs:166-174 | Both planar directions have positive length |
| Game.WalkStep | Game1.cs:161-187 | The translation HandleMovement computes equals Walk of the keys and the camera's Forward |
| Game.HeadingIsHorizontal | Game1.cs:161-180 | With horizontal forward and right directions the heading is horizontal; it is zero when no movement key is held |
| Game.OpposingKeysCancel | Game1.cs:168-179 | W together with S moves like neither, and so does D together with A |
| Game.WalkNeedsKeys | Game1.cs:161-187 | Without W, S, D or A held the player does not move, whatever the directions |
| Game.OpposingKeysWalkAlike | Game1.cs:161-187 | Holding W with S gives the same translation as holding neither, and so does D with A |
| Game.WalkIsHorizontal | Game1.cs:161-187 | Along horizontal forward and right directions, and when normalising keeps a horizontal vector horizontal, every translation has Y = 0 |
| Game.SprintScalesWalk | Game1.cs:182-187 | Left Shift changes only the length: there is a translation with it exactly when there is one without, and it is the one without times 1.8 |
| Game.WalkIgnoresScale | FirstPersonCamera.cs:45-76 | Scaling both directions by the same positive factor leaves the translation unchanged, when normalising ignores positive scaling. The camera's unit directions are the model's divided by their common length, so they walk alike |
| Game.Candidate | Game1.cs:220-225 | A target yields a distance exactly when it is alive and the ray meets its box, and then the distance is the intersection's |
| Game.ShotCandidates | Game1.cs:218-225 | One candidate per target, in list order, each the target's Candidate |
| Game.DistinctApart | Game1.cs:211-243 | In a list without repeats, two different positions hold different targets, so killing and respawning one target changes no other |
| Game.DistinctGrows | Game1.cs:250-252 | Appending a target that is not in the list keeps it without repeats |
| Game.ShotMeetsOutcome | Game1.cs:211-243 | AfterShot meets ShotOutcome. A miss consumes no draws and changes no target. A hit resolves to the nearest hit, alive before the shot. Respawned on the draws places it alive at a new position and colour and consumes the used draws; when the draws run out it stays dead where it was, and only an unpaired last draw is left. Every other target is unchanged |
| Game.FireMeetsRule | Game1.cs:190-209 | AfterFire meets FireRule. Without a request, or with the cooldown still positive, nothing changes. Otherwise the cooldown becomes 0.25, the score rises by one exactly on a hit, and the draws and targets are as ShotOutcome says |
| Game.CandidatesMeetRule | Game1.cs:190-243 | The candidates of a list of targets hit only live targets, so AfterFire on them, from the targets' states, meets FireRule: this gives HandleFire's contract the meaning above |
| Game.Game1.constructor | Game1.cs:23-62 | The camera is at (0, 1.6, 8) with yaw and pitch 0 and the viewport's aspect ratio. There are no targets yet: `base.Initialize()` at line 57 is where MonoGame runs LoadContent, which the model keeps as the separate Game.Game1.LoadContent. The draws are the given stream. The suppression flag is set, cooldown and score are zero, the first fire-control snapshots are stored, and Valid holds |
| Game.Game1.LoadContent | Game1.cs:64-83 | The floor and cube index buffers and the 32-pixel crosshair (thickness 3, gap 9) are built, and five targets are created as InitializeEnemies states: all are placed exactly when RespawnAll of the draws with 5 respawns succeeds, target j then holds placement j. Valid is kept |
| Game.Game1.RespawnEnemy | Game1.cs:256-282 | The loop takes exactly the respawn of Respawned: on success the target is alive at the accepted position in the drawn colour, with exactly the used draws consumed. Otherwise the target is untouched and only an unpaired last draw is left (Unpaired). What remains of the draws is always a suffix of them |
| Game.Game1.DrawCandidate | Game1.cs:262-268 | One pass of the retry loop: two draws are consumed, and the candidate is taken exactly when FirstSpawn of the draws accepts it there; otherwise the search continues on the rest |
| Game.Game1.SelectTarget | Game1.cs:211-233 | The scan finds a target exactly when some live target is hit, and picks the nearest hit, the earliest on a tie |
| Game.Game1.TryShoot | Game1.cs:211-243 | A shot happens exactly when some live target is hit. The draws, the target states, the cooldown and the score afterwards are AfterShot of the aim ray's candidates, the camera position and the state before; ShotMeetsOutcome states what that is (nearest live target hit, respawned as Respawned says, nothing else changed). Valid is kept |
| Game.Game1.KillAndRespawn | Game1.cs:240-241 | The selected target is killed and then respawned. It is alive at Respawned's position and colour with the used draws consumed, or, when the draws run out, dead where it was with only an unpaired last draw left. No other target, the cooldown and the score are unchanged, and Valid is kept |
| Game.Game1.InitializeEnemies | Game1.cs:245-254 | The list holds exactly `count` targets (none for a count below one). They are distinct and of size EnemySize, as Valid requires. Every respawn succeeds exactly when RespawnAll of the draws with that many respawns does; then target j is alive at the position and in the colour of placement j, the draws left are the fold's, and all positions are valid spawns in palette colours. What remains of the draws is always a suffix of them |
| Game.Game1.AddEnemy | Game1.cs:250-252 | One pass of the loop: a fresh target of size EnemySize is appended and respawned, and the fold that ties the targets to the draws grows by that respawn |
| Game.Game1.HandleFire | Game1.cs:190-209 | The draws, target states, cooldown and score afterwards are AfterFire of the request (the left button or Space newly pressed since the previous frame), the aim ray's candidates, the camera position and the state before. By CandidatesMeetRule this is FireRule: nothing changes with the cooldown positive or without a request; otherwise the cooldown becomes 0.25, the score rises by one exactly on a hit, and the nearest live target hit is respawned as Respawned says, every other target unchanged. Valid is kept |
| Game.Game1.FireShot | Game1.cs:200-208 | A requested shot with the cooldown run down leaves AfterFire with the request set: TryShoot's outcome, one point exactly on a hit, and a cooldown of 0.25. Valid is kept |
| Game.Game1.ScoreShot | Game1.cs:202-207 | The score rises by one exactly for a hit and the cooldown becomes 0.25; the draws and targets are unchanged and Valid is kept |
| Game.Game1.HandleMouse | Game1.cs:141-157 | The flag is cleared. With the flag set, or a zero delta, the camera does not turn; otherwise it turns by delta times 0.0025 (yaw wrapped, pitch clamped). The camera invariant is kept |
| Game.Game1.HandleMovement | Game1.cs:159-188 | The camera moves by exactly Walk of the keys and its Forward (or stays put when Walk gives none); the invariant is kept |
| Game.Game1.HandleInput | Game1.cs:123-139 | The flag ends up set exactly when the window is inactive. The camera pose changes as Steered says: not at all without focus; with focus, HandleMouse's turn and then HandleMovement's walk along the Forward of the turned camera. The draws, targets, cooldown and score are AfterFire of the request (only with focus), along the aim ray of the turned and moved camera, from the state before. So without focus nothing but the flag changes. Valid is kept |
| Game.Game1.Steer | Game1.cs:134-135 | The flag is cleared, and the pose changes as Steered says for an active window: the turn of Turned, then the walk of Walked along the turned camera's Forward. Valid is kept |
| Game.Game1.Update | Game1.cs:85-99 | The frame's fire controls become the previous ones, and the flag ends up set exactly when the window is inactive. The camera pose changes as Steered says. The draws, targets, cooldown and score are AfterFire of the request (with focus, against the previous frame's controls) from the state whose cooldown is first run down to max(0, cooldown - delta). Valid is kept |
| Game.Game1.TickFireCooldown | Game1.cs:91 | The cooldown becomes max(0, cooldown - delta); the draws, targets and score are unchanged, and Valid is kept |
| Game.Game1.RememberControls | Game1.cs:95-96 | The previous-frame snapshots become this frame's left button and Space |

## Left out

- Rendering is not modelled: Draw, DrawFloor, DrawEnemies, DrawHud, the BasicEffect, the SpriteBatch, Texture2D.SetData, UpdateView and the View/Projection matrices are graphics library calls. The crosshair is kept as the pixel sequence it would upload.
- Input polling and windowing are not modelled: Mouse/Keyboard/GamePad.GetState, CenterMouse, Exit, content loading and window setup. One frame's input is the `FrameInput` value.
- The mouse delta is taken as given. Computing it from the viewport centre (Game1.cs:143-145) needs the window size.
- The previous-frame snapshots are re-polled at Game1.cs:95-96. The model stores the frame's own fire controls, which is the same unless a button changes during the frame.
- Camera Forward (FirstPersonCamera.cs:27-43) is the parameter `forwardOf`, because it is built from sin and cos.
- Ray–box intersection (Game1.cs:223) is the parameter `intersects`, because it is a library routine.
- Normalize (Game1.cs:184) is the parameter `normalize`, because it needs a square root.
- Cameras.ForwardOnPlane: returns the horizontal part of Forward without normalising it, because normalising needs a square root.
- Cameras.RightOnPlane: returns the cross product with Up without normalising it, for the same reason. The two are exactly as long (Cameras.RightOnPlanePerpendicular), so the camera's unit directions are the model's scaled by one positive factor. Game.WalkIgnoresScale shows the walk is then the same, on the assumption that Normalize ignores positive scaling; the `normalize` parameter is not required to do so elsewhere in the model, and float rounding of the two normalisations is not modelled.
- All arithmetic is on unbounded `real` and `int`: float rounding is not modelled, and neither is the 32-bit wrap-around of the score after 2^31 - 1 hits.
- The float cast of `NextDouble` (Game1.cs:264-265) can round a draw up to 1.0. It is not modelled: draws are taken in [0, 1), a rounded draw of 1.0 still gives a coordinate within [-25, 25], and the colour draw is not cast.
- Game.Game1.RespawnEnemy: `Random` is a finite stream of draws, so the unbounded retry loop (Game1.cs:262-268) stops when the stream runs out. The target is then left as it was and `placed` is false. The source never stops without a position.
- Game.Game1.TryShoot: the hit target is alive afterwards only when the draws suffice for its respawn, for the reason given under RespawnEnemy.
- Game.Game1.InitializeEnemies: all targets are alive only when every respawn succeeds (`placedAll`), for the reason given under RespawnEnemy.
- Game.Game1.KillAndRespawn: the target is alive afterwards only when the draws suffice for its respawn, for the reason given under RespawnEnemy.
- Game.Game1.LoadContent: the five targets are all alive only when the draws suffice for every respawn (`placedAll`), for the reason given under RespawnEnemy.
- Game.Game1.AddEnemy: the appended target is placed only when the draws suffice for its respawn, for the reason given under RespawnEnemy.
- Game.Game1.HandleFire: on a hit, the target is alive afterwards only when the draws suffice for its respawn, for the reason given under RespawnEnemy.
- Game.Game1.FireShot: on a hit, the target is alive afterwards only when the draws suffice, as in HandleFire.
- Game.Game1.HandleInput: on a hit, the target is alive afterwards only when the draws suffice, as in HandleFire.
- Game.Game1.Update: on a hit, the target is alive afterwards only when the draws suffice, as in HandleFire.
- Game.ShotMeetsOutcome: its case for draws that run out has no counterpart in the source, for the reason given under RespawnEnemy.
- Game.FireMeetsRule: the same case as ShotMeetsOutcome, for the same reason.
- Game.CandidatesMeetRule: the same case as ShotMeetsOutcome, for the same reason.
- Hud.CreateCrosshairTexture: requires a positive size, so the exception `new Texture2D` throws for a size below one (Game1.cs:380) is not modelled. Its only call (Game1.cs:80) passes 32.
- Game.Game1.constructor: MonoGame's `base.Initialize()` (Game1.cs:57) calls LoadContent before the snapshots at Game1.cs:60-61. The model runs Game.Game1.LoadContent as a separate step after the constructor, so the state with no targets exists only between the two.
- Vertex colours of the floor and cube meshes are not modelled, because only rendering reads them.
