/**
 * The global state of the animation and the callbacks that change it:
 * generating the anchor field on a resize, spawning ripples, the two-phase
 * spawn scheduler and the per-frame update.
 *
 * setInterval timers become an explicit table from handle to the callback
 * the timer runs; a tick of a timer is a call of InitialTick or
 * ContinuousTick with that handle. The values Math.random() would return
 * during a call are passed in.
 */
module Simulation {
  import opened Geometry
  import opened PointField
  import opened Ripples
  import opened Intensity

  datatype Option<T> = None | Some(value: T)

  /**
   * The callback a live timer runs. An initial-phase timer carries the
   * currentIndex its closure captured; there is one per restart.
   */
  datatype Phase = Initial(currentIndex: nat) | Continuous

  /** `clearInterval(continuousSpawnInterval)` when the handle is set; nothing otherwise. */
  function CancelContinuous(timers: map<nat, Phase>, handle: Option<nat>): (t: map<nat, Phase>)
    ensures handle.Some? ==> handle.value !in t
    ensures forall h :: h in t <==> h in timers && handle != Some(h)
    ensures forall h :: h in t ==> t[h] == timers[h]
  {
    if handle.Some? then timers - {handle.value} else timers
  }

  /**
   * A restart cancels only the continuous timer: every initial-phase timer
   * still running keeps running with its own index, next to the new one.
   */
  lemma RestartKeepsInitialTimers(timers: map<nat, Phase>, handle: Option<nat>, h: nat)
    requires handle.Some? && handle.value in timers ==> timers[handle.value] == Continuous
    requires h in timers && timers[h].Initial?
    ensures h in CancelContinuous(timers, handle)
    ensures CancelContinuous(timers, handle)[h] == timers[h]
  {
  }

  /**
   * The loop that collects `availableIndices`: the indices below n that are
   * not in use, in increasing order.
   */
  method AvailableIndices(n: nat, used: set<nat>) returns (avail: seq<nat>)
    ensures forall k :: k in avail <==> 0 <= k < n && k !in used
    ensures forall a, b :: 0 <= a < b < |avail| ==> avail[a] < avail[b]
  {
    avail := [];
    for i := 0 to n
      invariant forall k :: k in avail <==> 0 <= k < i && k !in used
      invariant forall a, b :: 0 <= a < b < |avail| ==> avail[a] < avail[b]
      invariant forall a :: 0 <= a < |avail| ==> avail[a] < i
    {
      if i !in used {
        avail := avail + [i];
      }
    }
  }

  /** The refill loop after `usedPoints.clear()`: every index below n, in order. */
  method AllIndices(n: nat) returns (avail: seq<nat>)
    ensures |avail| == n
    ensures forall k :: 0 <= k < n ==> avail[k] == k
  {
    avail := [];
    for i := 0 to n
      invariant |avail| == i
      invariant forall k :: 0 <= k < i ==> avail[k] == k
    {
      avail := avail + [i];
    }
  }

  /** `Math.floor(Math.random() * length)` is an index of a non-empty array. */
  lemma RandomIndexInRange(u: real, len: nat)
    requires 0.0 <= u < 1.0 && 0 < len
    ensures 0 <= (u * len as real).Floor < len
  {
    ScaledUnit(u, len);
  }

  /**
   * The choice a continuous tick makes among n anchors: a random index
   * among the unused ones, or, when every index is used, among all of them
   * after the used set is cleared. Returns the index and the used set the
   * choice leaves behind.
   */
  method ChooseAnchor(n: nat, used: set<nat>, u: real) returns (chosen: nat, usedAfter: set<nat>)
    requires 0 < n
    requires 0.0 <= u < 1.0
    ensures chosen < n
    ensures (exists k :: 0 <= k < n && k !in used) ==> chosen !in used && usedAfter == used
    ensures (forall k :: 0 <= k < n ==> k in used) ==> usedAfter == {}
  {
    usedAfter := used;
    var availableIndices := AvailableIndices(n, usedAfter);
    if |availableIndices| == 0 {
      usedAfter := {};
      availableIndices := AllIndices(n);
    }
    RandomIndexInRange(u, |availableIndices|);
    chosen := availableIndices[(u * |availableIndices| as real).Floor];
    assert chosen in availableIndices;
  }

  class Simulation {
    var width: nat
    var height: nat
    /** randomPoints */
    var points: seq<Point>
    var ripples: seq<Ripple>
    /** usedPoints */
    var used: set<nat>
    /** The live setInterval timers, by handle. */
    var timers: map<nat, Phase>
    /** The handle the next setInterval call returns; handles are positive, so a set handle is truthy. */
    var nextHandle: nat
    /** continuousSpawnInterval: null until the first continuous timer starts. */
    var continuousHandle: Option<nat>

    /**
     * What holds between callbacks: the field is empty before the first
     * resize and has NumPoints anchors from then on, ripples are live and
     * name anchors of the field, used indices are anchor indices, every
     * timer handle was handed out, and the remembered continuous handle, if
     * its timer is live, names a continuous timer.
     */
    predicate Valid()
      reads this
    {
      && (|points| == 0 || |points| == NumPoints)
      && (timers != map[] ==> |points| == NumPoints)
      && (forall i :: 0 <= i < |ripples| ==> Live(ripples[i]) && ripples[i].pointIndex < |points|)
      && (forall k :: k in used ==> k < |points|)
      && 0 < nextHandle
      && (forall h :: h in timers ==> 0 < h < nextHandle)
      && (continuousHandle.Some? ==> continuousHandle.value < nextHandle)
      && (forall h :: h in timers && timers[h].Initial? ==> timers[h].currentIndex <= |points|)
      && (continuousHandle.Some? && continuousHandle.value in timers ==> timers[continuousHandle.value] == Continuous)
    }

    /** The state of the page's globals before the load event. */
    constructor()
      ensures Valid()
      ensures width == 0 && height == 0
      ensures points == [] && ripples == [] && used == {}
      ensures timers == map[] && nextHandle == 1 && continuousHandle == None
    {
      width := 0;
      height := 0;
      points := [];
      ripples := [];
      used := {};
      timers := map[];
      nextHandle := 1;
      continuousHandle := None;
    }

    /** spawnRipple: a fresh ripple at anchor `index`, whose index becomes used. */
    method SpawnRipple(index: nat)
      requires Valid()
      requires index < |points|
      modifies this
      ensures Valid()
      ensures ripples == old(ripples) + [NewRipple(old(points)[index], index)]
      ensures used == old(used) + {index}
      ensures index in used
      ensures points == old(points) && timers == old(timers)
      ensures nextHandle == old(nextHandle) && continuousHandle == old(continuousHandle)
      ensures width == old(width) && height == old(height)
    {
      var point := points[index];
      ripples := ripples + [NewRipple(point, index)];
      used := used + {index};
    }

    /**
     * startGradualRipples: cancel the continuous timer if there is one,
     * drop all ripples and start a new initial-phase timer at index 0.
     * Initial-phase timers of earlier restarts are not cancelled.
     */
    method StartGradualRipples()
      requires Valid()
      requires |points| == NumPoints
      modifies this
      ensures Valid()
      ensures ripples == []
      ensures old(nextHandle) !in old(timers)
      ensures timers == CancelContinuous(old(timers), old(continuousHandle))[old(nextHandle) := Initial(0)]
      ensures nextHandle == old(nextHandle) + 1
      ensures points == old(points) && used == old(used) && continuousHandle == old(continuousHandle)
      ensures width == old(width) && height == old(height)
    {
      if continuousHandle.Some? {
        timers := timers - {continuousHandle.value};
      }
      ripples := [];
      var initialSpawn := nextHandle;
      timers := timers[initialSpawn := Initial(0)];
      nextHandle := nextHandle + 1;
    }

    /**
     * generateRandomPoints: a fresh field of NumPoints anchors (see
     * GenerateField), an empty used set, and a restart of the spawn
     * scheduler.
     */
    method GenerateRandomPoints(draws: Stream)
      requires Valid()
      modifies this
      ensures Valid()
      ensures points == Points(draws, width, height, NumPoints)
      ensures used == {} && ripples == []
      ensures timers == CancelContinuous(old(timers), old(continuousHandle))[old(nextHandle) := Initial(0)]
      ensures nextHandle == old(nextHandle) + 1 && continuousHandle == old(continuousHandle)
      ensures width == old(width) && height == old(height)
    {
      points := GenerateField(draws, width, height);
      used := {};
      StartGradualRipples();
    }

    /** resizeCanvas: take the window's size and regenerate the field. */
    method Resize(w: nat, h: nat, draws: Stream)
      requires Valid()
      modifies this
      ensures Valid()
      ensures width == w && height == h
      ensures points == Points(draws, w, h, NumPoints)
      ensures used == {} && ripples == []
      ensures timers == CancelContinuous(old(timers), old(continuousHandle))[old(nextHandle) := Initial(0)]
      ensures nextHandle == old(nextHandle) + 1 && continuousHandle == old(continuousHandle)
    {
      width := w;
      height := h;
      GenerateRandomPoints(draws);
    }

    /**
     * One tick of an initial-phase timer: spawn at its index and move on to
     * the next, or, once past the last anchor, stop and start the
     * continuous timer in its place. The continuous timer of an earlier
     * phase is not cancelled here.
     */
    method InitialTick(handle: nat)
      requires Valid()
      requires handle in timers && timers[handle].Initial?
      modifies this
      ensures Valid()
      ensures var k := old(timers)[handle].currentIndex;
        if k < |old(points)| then
          && ripples == old(ripples) + [NewRipple(old(points)[k], k)]
          && used == old(used) + {k}
          && timers == old(timers)[handle := Initial(k + 1)]
          && nextHandle == old(nextHandle) && continuousHandle == old(continuousHandle)
        else
          && ripples == old(ripples) && used == old(used)
          && old(nextHandle) !in old(timers)
          && timers == (old(timers) - {handle})[old(nextHandle) := Continuous]
          && nextHandle == old(nextHandle) + 1
          && continuousHandle == Some(old(nextHandle))
      ensures points == old(points)
      ensures width == old(width) && height == old(height)
    {
      var currentIndex := timers[handle].currentIndex;
      if currentIndex >= |points| {
        timers := timers - {handle};
        var continuousSpawn := nextHandle;
        timers := timers[continuousSpawn := Continuous];
        nextHandle := nextHandle + 1;
        continuousHandle := Some(continuousSpawn);
        return;
      }
      SpawnRipple(currentIndex);
      timers := timers[handle := Initial(currentIndex + 1)];
    }

    /**
     * One tick of the continuous timer: pick a random unused anchor (after
     * freeing all of them when none is unused), spawn a ripple there and
     * replace that anchor by a newly sampled one. `u` is the Math.random()
     * value of the pick; `draws` the values the sampler reads.
     */
    method ContinuousTick(handle: nat, u: real, draws: Stream) returns (chosen: nat)
      requires Valid()
      requires handle in timers && timers[handle] == Continuous
      requires 0.0 <= u < 1.0
      modifies this
      ensures Valid()
      ensures chosen < |old(points)|
      ensures (exists k :: 0 <= k < |old(points)| && k !in old(used)) ==>
                chosen !in old(used) && used == old(used) + {chosen}
      ensures (forall k :: 0 <= k < |old(points)| ==> k in old(used)) ==> used == {chosen}
      ensures ripples == old(ripples) + [NewRipple(old(points)[chosen], chosen)]
      ensures points == old(points)[chosen := SamplePoint(old(points), draws, 0, width, height)]
      ensures timers == old(timers) && nextHandle == old(nextHandle)
      ensures continuousHandle == old(continuousHandle)
      ensures width == old(width) && height == old(height)
    {
      chosen, used := ChooseAnchor(|points|, used, u);
      SpawnRipple(chosen);
      var p := SamplePoint(points, draws, 0, width, height);
      points := points[chosen := p];
    }

    /**
     * The update loop of animate(): walk the ripples from the last to the
     * first, grow each one, and splice out the ones that reached the
     * maximum radius, freeing their anchor index.
     */
    method AdvanceRipples()
      requires Valid()
      modifies this
      ensures Valid()
      ensures ripples == Survivors(old(ripples))
      ensures used == old(used) - Released(old(ripples))
      ensures points == old(points) && timers == old(timers)
      ensures nextHandle == old(nextHandle) && continuousHandle == old(continuousHandle)
      ensures width == old(width) && height == old(height)
    {
      ghost var start := ripples;
      ripples, used := UpdateRipples(ripples, used);
      SurvivorsLive(start);
      SurvivorsKeepIndices(start, |points|);
    }

    /**
     * One frame of animate() without the drawing: update the ripples, then
     * build the intensity map, whose every value lies in [0, 1].
     */
    method Animate(dist: Distance) returns (m: map<Cell, real>)
      requires Valid()
      modifies this
      ensures Valid()
      ensures ripples == Survivors(old(ripples))
      ensures used == old(used) - Released(old(ripples))
      ensures forall c :: c in m <==> exists i :: 0 <= i < |ripples| && Lit(ripples[i], c, dist)
      ensures forall c :: Get(m, c) == Accumulated(ripples, c, dist)
      ensures forall c :: c in m ==> 0.0 <= m[c] <= 1.0
      ensures points == old(points) && timers == old(timers)
      ensures nextHandle == old(nextHandle) && continuousHandle == old(continuousHandle)
      ensures width == old(width) && height == old(height)
    {
      AdvanceRipples();
      m := ComputeIntensity(ripples, dist);
      forall c | c in m
        ensures 0.0 <= m[c] <= 1.0
      {
        AccumulatedInUnit(ripples, c, dist);
        assert Get(m, c) == m[c];
      }
    }
  }
}
