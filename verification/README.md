# Ripple field — a Dafny model of the simulation behind `index.js`

`index.js` draws a black canvas with twenty invisible anchor points. Shock-wave
ripples spread from the anchors and light up a grid of dots where they pass.
Under the drawing calls sits a small discrete simulation. This project models
that simulation and proves properties of it.

The simulation has four parts:

- **The anchor field.** `generateValidPoint` is a bounded rejection sampler. It
  tries at most 100 random candidates and returns the first one that is at
  least `minDistance` (100) from every anchor already placed. If none is, it
  returns one more random candidate without any check. `generateRandomPoints`
  places 20 anchors this way, each against the ones before it, and empties
  `usedPoints`.
- **Ripples and `usedPoints`.** `spawnRipple` appends a ripple at an anchor and
  marks the anchor's index as used. Each frame, the update loop of `animate`
  walks the ripples backwards. It grows each radius by 0.1 and recomputes alpha
  as `1 - radius/150`. It splices out each ripple that reached radius 150 and
  frees its index.
- **The spawn scheduler.** The two nested `setInterval` callbacks of
  `startGradualRipples` become a table of live timers, from handle to `Phase`:
  `Initial(currentIndex)` or `Continuous`.
  - An initial-phase tick spawns at its index and moves on. Past the last
    anchor, it stops itself and starts the continuous timer.
  - A continuous tick picks a random unused anchor. When none is unused, it
    clears `usedPoints` first. It spawns a ripple there and re-samples that
    one anchor.
- **The intensity map.** For every ripple, nested loops walk the grid cells
  (10 apart) of the ripple's bounding box. They add the ring's contribution
  to a map from cell to intensity, clamping each write at 1.

Modules:

- `Geometry`: points and the squared distance.
- `PointField`: the sampler and the field, with randomness as a stream of
  draws.
- `Ripples`: ripple physics, and the update loop as a method on values, with
  the reference functions `Survivors` and `Released` that it is proved against.
- `Intensity`: the grid pass.
- `Simulation`: the page's globals as a class.

Three points of behaviour:

- A restart (a resize) stops only the continuous timer (index.js:86-88). An
  initial-phase timer still running from an earlier restart keeps running
  beside the new one. The model follows the code, not a reading in which both
  timers stop.
- When such a stray initial-phase timer finishes, `InitialTick` starts a
  second continuous timer. `continuousSpawnInterval` then remembers only the
  newest one, so the older one can no longer be stopped.
- `usedPoints` is not the set of indices of live ripples. After a clear,
  two live ripples can share an index, and the expiry of either one frees it.
  The model claims only what the loops do to the set.

## Model

| member | source | states |
|---|---|---|
| `Geometry.DistanceWithinRectangle` | index.js:19-21 | Two points of a w × h rectangle are at most its diagonal apart (squared). |
| `PointField.TooCloseMatchesDistance` | index.js:35 | Comparing squared distances with minDistance² gives the same verdict as `distance(...) < minDistance`. |
| `PointField.FirstFit` | index.js:27-46 | The attempt the sampler settles on is at most maxAttempts, and if below it, that attempt's candidate is clear of every existing point. |
| `PointField.FirstFitIsFirst` | index.js:27-46 | Every attempt before the one picked is too close to some existing point. |
| `PointField.GenerateValidPoint` | index.js:23-53 | The while/for loop returns the first candidate, of at most 100, that fits. Otherwise it returns one more unchecked draw. It uses between 1 and 101 draws, and the result matches `FirstFit`. |
| `PointField.ScaledUnit` | index.js:29-30 | `Math.random() * length` lies in [0, length). |
| `PointField.CandidateInCanvas` | index.js:28-31 | Every candidate lies on the canvas. |
| `PointField.CrowdedCanvas` | index.js:33-39 | On a canvas whose diagonal is below minDistance, every candidate is too close to every point on the canvas. |
| `PointField.ForcedFallback` | index.js:48-52 | On such a canvas, with at least one existing point, all 100 attempts fail and the fallback draw is returned. |
| `PointField.PointAtSamples` | index.js:65-66 | Anchor i is what generateValidPoint returns against the i anchors before it, starting where the previous call stopped reading draws. |
| `PointField.PointsStep` | index.js:65-66 | Each push appends one anchor and leaves the earlier anchors as they were. |
| `PointField.GenerateField` | index.js:61-67 | The loop of generateRandomPoints builds exactly the numPoints anchors of the field. |
| `PointField.FieldSpacing` | index.js:33-42 | An anchor that is not a fallback keeps minDistance from every anchor placed before it. |
| `PointField.FieldSeparated` | index.js:61-67 | Without fallbacks, all anchors are pairwise at least minDistance apart. |
| `PointField.FieldInCanvas` | index.js:61-67 | Every anchor lies on the canvas. |
| `PointField.DenseFieldFallsBack` | index.js:48-52 | On a canvas smaller than minDistance, every anchor after the first is a fallback. |
| `Ripples.AlphaAt` | index.js:138 | Alpha is 1 at radius 0 and 0 at maxRippleRadius. It lies in [0, 1] exactly when the radius lies in [0, maxRippleRadius]. |
| `Ripples.AlphaDecreasing` | index.js:138 | Alpha falls strictly as the radius grows. |
| `Ripples.NewRipple` | index.js:74-80 | A spawned ripple sits on its anchor with radius 0, alpha 1 and pointIndex i, and is live. |
| `Ripples.Advanced` | index.js:137-138 | One frame grows the radius by rippleSpeed, sets alpha to match the new radius, and keeps the centre and the index. |
| `Ripples.Survivors` | index.js:134-147 | No ripple left after the update pass has reached maxRippleRadius. |
| `Ripples.SurvivorsShrink` | index.js:141 | The pass never adds ripples. |
| `Ripples.SurvivorsMembership` | index.js:134-146 | A ripple is left after the pass if and only if it is the grown form of an old ripple that did not expire. |
| `Ripples.SurvivorsAppend` | index.js:134-146 | The pass works ripple by ripple, so survivors keep their relative order. |
| `Ripples.ReleasedAppend` | index.js:140-144 | The indices a pass frees are the union of those its parts free. |
| `Ripples.ReleasedMembership` | index.js:140-144 | An index is freed if and only if some ripple on it expires in this pass. |
| `Ripples.SurvivorsLive` | index.js:137-146 | Starting from non-negative radii, every survivor is live: radius below the maximum and alpha in step with it. |
| `Ripples.SurvivorsStep` | index.js:134-146 | The pass over the ripples from index i handles ripple i first, then the rest. |
| `Ripples.SpliceStep` | index.js:134-146 | At index i of the backward loop, growing ripple i in place, and splicing it if it expired, extends the updated suffix by one ripple. No entry is skipped. |
| `Ripples.ReleaseStep` | index.js:140-144 | An expiring ripple i removes exactly its pointIndex from the used set. A surviving one removes nothing. |
| `Ripples.UpdateStep` | index.js:134-146 | One iteration of the backward loop keeps the loop invariant of `UpdateRipples`. |
| `Ripples.SurvivorsKeepIndices` | index.js:137-141 | Every survivor is the grown form of an old ripple and carries that ripple's pointIndex, so survivors still name anchors below n. |
| `Ripples.UpdateRipples` | index.js:133-147 | The backward splice loop leaves exactly `Survivors` of the old ripples, and the old used set minus exactly `Released`. |
| `Ripples.NothingSurvivesNothing` | index.js:134 | With no ripples, any number of frames leaves no ripples. |
| `Ripples.Lifetime` | index.js:137-141 | A ripple of age a lives on with radius (a+k)·0.1 while a+k < 1500, and is gone once a+k ≥ 1500. |
| `Ripples.SpawnedRippleLifetime` | index.js:134-141 | A freshly spawned ripple survives 1499 updates and is removed by update 1500. |
| `Intensity.Min` | index.js:173 | `Math.min` returns the smaller argument. |
| `Intensity.GridFloor` | index.js:160-161 | The first grid line walked is a multiple of gridSpacing, at or below the bound, and less than gridSpacing below it. |
| `Intensity.RingDistance` | index.js:162-163 | The distance from the ring is never negative. |
| `Intensity.GridGap` | index.js:160-161 | Two distinct grid lines are at least gridSpacing apart, so stepping by gridSpacing skips no cell. |
| `Intensity.PaintCell` | index.js:162-174 | One step of the inner loop changes only a lit cell, and sets it to `min(1, old + contribution)`. An unlit cell leaves the map unchanged. |
| `Intensity.ColumnStep` | index.js:161-175 | One iteration of the inner y loop keeps its invariant: the column is painted for exactly the rows above the next y. |
| `Intensity.PaintColumn` | index.js:161-175 | The inner y loop adds an entry for exactly the lit cells of its column and sets each to `min(1, old + contribution)`. No other cell changes. |
| `Intensity.PaintRipple` | index.js:152-177 | One ripple's pass adds exactly its lit cells and paints each of them once. Every other cell keeps its value. |
| `Intensity.ComputeIntensity` | index.js:149-177 | A cell has an entry if and only if some ripple lights it. Its value is the clamped sum of the ripples painted in order. |
| `Intensity.ContributionBounds` | index.js:165-167 | A lit cell receives between 0 and 0.8 × alpha from one ripple. |
| `Intensity.PaintBounds` | index.js:172-173 | One write never lowers a cell and never lifts it above 1. |
| `Intensity.AccumulatedInUnit` | index.js:172-173 | With non-negative alphas, every value in the map lies in [0, 1]. |
| `Intensity.AccumulatedUnlit` | index.js:172 | A cell that no ripple lights stays at 0. |
| `Intensity.AccumulatedCoversEach` | index.js:171-173 | A cell is at least as bright as any single ripple lighting it would make it, up to 1. |
| `Intensity.AccumulatedIsClampedSum` | index.js:152-177 | Ripples add together: with non-negative alphas, painting the ripples in order with a clamp at every write gives the sum of the lit contributions, clamped once at 1 (`LitSum`). |
| `Intensity.BoxCoversRing` | index.js:155-165 | With the Euclidean distance, the bounding box misses nothing: every grid cell within halfThickness of the ring is visited and lit. |
| `Simulation.CancelContinuous` | index.js:86-88 | Cancelling removes exactly the continuous handle, if set, and keeps every other timer. |
| `Simulation.RestartKeepsInitialTimers` | index.js:84-93 | A restart leaves every running initial-phase timer in place with its own index. |
| `Simulation.AvailableIndices` | index.js:99-104 | `availableIndices` holds exactly the indices below n that are not used, in increasing order. |
| `Simulation.AllIndices` | index.js:108-110 | After the clear, the refill holds every index below n, in order. |
| `Simulation.RandomIndexInRange` | index.js:113 | `Math.floor(Math.random() * length)` is a valid index. |
| `Simulation.ChooseAnchor` | index.js:99-113 | The chosen index is an anchor index. It is unused whenever some index was unused, and then the used set is kept. Otherwise the used set is cleared first. |
| `Simulation.Simulation.constructor` | index.js:14-17 | Starts from empty anchors, ripples and used set, with no timer and no continuous handle. |
| `Simulation.Simulation.SpawnRipple` | index.js:72-82 | Appends exactly one new ripple at the anchor, marks the index used, and changes nothing else. |
| `Simulation.Simulation.StartGradualRipples` | index.js:84-93 | Cancels only the continuous timer, empties the ripples, and adds one fresh `Initial(0)` timer. |
| `Simulation.Simulation.GenerateRandomPoints` | index.js:61-70 | The anchors become the generated field of numPoints, the used set is emptied, and the scheduler restarts. |
| `Simulation.Simulation.Resize` | index.js:55-59 | Takes the new size, then regenerates the field at that size. |
| `Simulation.Simulation.InitialTick` | index.js:93-123 | Tick k < n spawns index k and moves to k+1. Tick n spawns nothing, stops this timer and starts a continuous timer whose handle is remembered. |
| `Simulation.Simulation.ContinuousTick` | index.js:98-117 | Picks as `ChooseAnchor` does and spawns there. It replaces only that anchor by a sampled point, so length and other anchors are unchanged, and leaves the timers alone. |
| `Simulation.Simulation.AdvanceRipples` | index.js:133-147 | The ripples become `Survivors` of the old ones, used loses exactly `Released`, and the state stays valid. |
| `Simulation.Simulation.Animate` | index.js:126-177 | After the update, the intensity map lights exactly the cells some live ripple lights, and every value lies in [0, 1]. |

## Left out

- Drawing is not modelled: the canvas, `fillRect`, `arc`, `fill` and the colour strings (index.js:1-2, 127-128, 179-186). It is output with no state.
- The `load` and `resize` listeners and `requestAnimationFrame` are not modelled (index.js:188-196). `Simulation.Simulation.Resize` stands for `resizeCanvas`, with the window size as parameters, and `Animate` is one frame.
- Real timers are not modelled. Which timer ticks when, including the 1000 ms and 5000 ms periods, is left to whoever calls `InitialTick` and `ContinuousTick`. Handles are numbers counted from 1.
- `Math.random` is not modelled. Its values are parameters: a stream of draw pairs for the sampler, and one value in [0, 1) for the continuous pick.
- Floating point is not modelled: all geometry uses exact reals. `Math.sqrt` has no counterpart either. The sampler compares squared distances instead, and `TooCloseMatchesDistance` shows the verdict is the same. The intensity pass takes the distance function as a parameter.
- `Ripples.Lifetime` and `Ripples.SpawnedRippleLifetime`: count frames with exact reals, in which 1500 steps of 0.1 reach 150 exactly. In IEEE doubles, 0.1 added 1500 times is 149.99999999999577, so the program removes a freshly spawned ripple on update 1501, not on update 1500 as these lemmas state.
- The string keys `${x},${y}` and their parsing are not modelled. Cells are integer pairs.
- The `pointIndex !== undefined` guard (index.js:142) is not modelled: every ripple has an index.
- `Simulation.Simulation.ContinuousTick`: the replacement anchor is sampled from the draws passed in, read from their start. Which draws a continuous tick actually sees is not modelled.
