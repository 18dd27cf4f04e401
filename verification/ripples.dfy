/**
 * Ripples and the per-frame update of animate(): every ripple grows by
 * RippleSpeed, its alpha is recomputed from the new radius, and a ripple that
 * reaches MaxRippleRadius is removed and gives its anchor index back.
 */
module Ripples {
  import opened Geometry

  const MaxRippleRadius: real := 150.0
  const RippleSpeed: real := 0.1

  /** The number of frames after which a fresh ripple reaches MaxRippleRadius. */
  const LifeFrames: nat := 1500

  /** A ripple centred on an anchor; `pointIndex` is the index of that anchor. */
  datatype Ripple = Ripple(x: real, y: real, radius: real, alpha: real, pointIndex: nat)

  /** `1 - radius / maxRippleRadius`: opaque at the centre, transparent at the largest radius. */
  function AlphaAt(radius: real): (a: real)
    ensures radius == 0.0 ==> a == 1.0
    ensures radius == MaxRippleRadius ==> a == 0.0
    ensures 0.0 <= radius <= MaxRippleRadius <==> 0.0 <= a <= 1.0
  {
    1.0 - radius / MaxRippleRadius
  }

  /** Alpha fades as the ripple grows. */
  lemma AlphaDecreasing(r1: real, r2: real)
    requires r1 < r2
    ensures AlphaAt(r2) < AlphaAt(r1)
  {
  }

  /** A ripple still on screen: its radius below the maximum and its alpha in step with it. */
  predicate Live(r: Ripple)
  {
    0.0 <= r.radius < MaxRippleRadius && r.alpha == AlphaAt(r.radius)
  }

  /** The ripple spawnRipple creates at anchor number `index`. */
  function NewRipple(p: Point, index: nat): (r: Ripple)
    ensures Live(r)
    ensures r.x == p.x && r.y == p.y && r.pointIndex == index
    ensures r.radius == 0.0 && r.alpha == 1.0
  {
    Ripple(p.x, p.y, 0.0, 1.0, index)
  }

  /** One frame of growth: the radius steps by RippleSpeed and alpha follows it. */
  function Advanced(r: Ripple): (a: Ripple)
    ensures a.radius == r.radius + RippleSpeed && a.alpha == AlphaAt(a.radius)
    ensures a.x == r.x && a.y == r.y && a.pointIndex == r.pointIndex
  {
    r.(radius := r.radius + RippleSpeed, alpha := AlphaAt(r.radius + RippleSpeed))
  }

  predicate Expired(r: Ripple)
  {
    r.radius >= MaxRippleRadius
  }

  /** The ripples that remain after one update pass over `s`, in their original order. */
  function Survivors(s: seq<Ripple>): (t: seq<Ripple>)
    ensures forall i :: 0 <= i < |t| ==> !Expired(t[i])
  {
    if |s| == 0 then []
    else (if Expired(Advanced(s[0])) then [] else [Advanced(s[0])]) + Survivors(s[1..])
  }

  /** The update pass never adds ripples. */
  lemma {:induction false} SurvivorsShrink(s: seq<Ripple>)
    ensures |Survivors(s)| <= |s|
  {
    if |s| > 0 {
      SurvivorsShrink(s[1..]);
    }
  }

  /** The anchor indices that one update pass over `s` releases. */
  function Released(s: seq<Ripple>): set<nat>
  {
    if |s| == 0 then {}
    else (if Expired(Advanced(s[0])) then {s[0].pointIndex} else {}) + Released(s[1..])
  }

  /** Something survives exactly when it is the advanced form of a ripple that did not expire. */
  lemma {:induction false} SurvivorsMembership(s: seq<Ripple>, r: Ripple)
    ensures r in Survivors(s) <==>
              exists j :: 0 <= j < |s| && r == Advanced(s[j]) && !Expired(Advanced(s[j]))
  {
    if |s| > 0 {
      SurvivorsMembership(s[1..], r);
      if r in Survivors(s[1..]) {
        var j :| 0 <= j < |s[1..]| && r == Advanced(s[1..][j]) && !Expired(Advanced(s[1..][j]));
        assert s[j + 1] == s[1..][j];
      }
      if exists j :: 0 <= j < |s| && r == Advanced(s[j]) && !Expired(Advanced(s[j])) {
        var j :| 0 <= j < |s| && r == Advanced(s[j]) && !Expired(Advanced(s[j]));
        if j > 0 {
          assert s[1..][j - 1] == s[j];
        }
      }
    }
  }

  /** The pass over the ripples from index i on handles ripple i, then the rest. */
  lemma SurvivorsStep(s: seq<Ripple>, i: nat)
    requires i < |s|
    ensures Survivors(s[i..]) ==
              (if Expired(Advanced(s[i])) then [] else [Advanced(s[i])]) + Survivors(s[i + 1..])
    ensures Released(s[i..]) ==
              (if Expired(Advanced(s[i])) then {s[i].pointIndex} else {}) + Released(s[i + 1..])
  {
    assert s[i..][0] == s[i] && s[i..][1..] == s[i + 1..];
  }

  /**
   * One step of the backward update loop at index i: with ripple i still
   * unvisited and the ripples after it already updated, growing ripple i in
   * place, and splicing it out if it expired, gives the ripples before i
   * followed by the update of the ripples from i on.
   */
  lemma SpliceStep(start: seq<Ripple>, i: nat, cur: seq<Ripple>)
    requires i < |start|
    requires cur == start[..i + 1] + Survivors(start[i + 1..])
    ensures cur[i] == start[i]
    ensures var grown := cur[i := Advanced(start[i])];
      if Expired(Advanced(start[i])) then grown[..i] + grown[i + 1..] == start[..i] + Survivors(start[i..])
      else grown == start[..i] + Survivors(start[i..])
  {
    SurvivorsStep(start, i);
    var rest := Survivors(start[i + 1..]);
    assert start[..i + 1] == start[..i] + [start[i]];
    var grown := cur[i := Advanced(start[i])];
    assert grown == start[..i] + [Advanced(start[i])] + rest;
    if Expired(Advanced(start[i])) {
      assert grown[..i] == start[..i];
      assert grown[i + 1..] == rest;
    }
  }

  /** The same step for the used indices: an expiring ripple i frees its anchor index. */
  lemma ReleaseStep(start: seq<Ripple>, i: nat, used0: set<nat>)
    requires i < |start|
    ensures Expired(Advanced(start[i])) ==>
              used0 - Released(start[i..]) == (used0 - Released(start[i + 1..])) - {start[i].pointIndex}
    ensures !Expired(Advanced(start[i])) ==> Released(start[i..]) == Released(start[i + 1..])
  {
    SurvivorsStep(start, i);
  }

  /**
   * The loop invariant of UpdateRipples: the ripples after index i have been
   * updated (grown, and spliced out when expired, freeing their index), and
   * those up to i are still as they were.
   */
  ghost predicate UpdatedAbove(start: seq<Ripple>, used0: set<nat>, cur: seq<Ripple>, usedCur: set<nat>, i: int)
  {
    && -1 <= i < |start|
    && cur == start[..i + 1] + Survivors(start[i + 1..])
    && usedCur == used0 - Released(start[i + 1..])
  }

  /** One iteration of UpdateRipples, on ripple i, keeps its loop invariant. */
  lemma UpdateStep(start: seq<Ripple>, used0: set<nat>, cur: seq<Ripple>, usedCur: set<nat>, i: nat,
                   next: seq<Ripple>, usedNext: set<nat>)
    requires UpdatedAbove(start, used0, cur, usedCur, i)
    requires i < |cur|
    requires var r := Advanced(cur[i]);
      var grown := cur[i := r];
      && next == (if r.radius >= MaxRippleRadius then grown[..i] + grown[i + 1..] else grown)
      && usedNext == (if r.radius >= MaxRippleRadius then usedCur - {r.pointIndex} else usedCur)
    ensures UpdatedAbove(start, used0, next, usedNext, i - 1)
  {
    SpliceStep(start, i, cur);
    ReleaseStep(start, i, used0);
  }

  /**
   * Every surviving ripple is the grown form of an old ripple and carries
   * that ripple's anchor index, so survivors still name anchors below n.
   */
  lemma SurvivorsKeepIndices(s: seq<Ripple>, n: nat)
    requires forall i :: 0 <= i < |s| ==> s[i].pointIndex < n
    ensures forall j :: 0 <= j < |Survivors(s)| ==>
              exists i :: 0 <= i < |s| && Survivors(s)[j] == Advanced(s[i]) && Survivors(s)[j].pointIndex == s[i].pointIndex
    ensures forall j :: 0 <= j < |Survivors(s)| ==> Survivors(s)[j].pointIndex < n
  {
    forall j | 0 <= j < |Survivors(s)|
      ensures exists i :: 0 <= i < |s| && Survivors(s)[j] == Advanced(s[i]) && Survivors(s)[j].pointIndex == s[i].pointIndex
    {
      var r := Survivors(s)[j];
      SurvivorsMembership(s, r);
      var i :| 0 <= i < |s| && r == Advanced(s[i]) && !Expired(Advanced(s[i]));
      assert 0 <= i < |s| && Survivors(s)[j] == Advanced(s[i]) && Survivors(s)[j].pointIndex == s[i].pointIndex;
    }
    assert forall j :: 0 <= j < |Survivors(s)| ==>
              exists i :: 0 <= i < |s| && Survivors(s)[j] == Advanced(s[i]) && Survivors(s)[j].pointIndex == s[i].pointIndex;
    forall j | 0 <= j < |Survivors(s)|
      ensures Survivors(s)[j].pointIndex < n
    {
      SurvivorsMembership(s, Survivors(s)[j]);
    }
  }

  /** The update pass works ripple by ripple: it keeps the relative order of the survivors. */
  lemma {:induction false} SurvivorsAppend(a: seq<Ripple>, b: seq<Ripple>)
    ensures Survivors(a + b) == Survivors(a) + Survivors(b)
  {
    if |a| == 0 {
      assert a + b == b;
    } else {
      assert (a + b)[1..] == a[1..] + b;
      SurvivorsAppend(a[1..], b);
    }
  }

  /** The indices a pass releases are those released by its parts. */
  lemma {:induction false} ReleasedAppend(a: seq<Ripple>, b: seq<Ripple>)
    ensures Released(a + b) == Released(a) + Released(b)
  {
    if |a| == 0 {
      assert a + b == b;
    } else {
      assert (a + b)[1..] == a[1..] + b;
      ReleasedAppend(a[1..], b);
    }
  }

  /** An index is released exactly when some ripple on it expires in this pass. */
  lemma {:induction false} ReleasedMembership(s: seq<Ripple>, k: nat)
    ensures k in Released(s) <==>
              exists j :: 0 <= j < |s| && s[j].pointIndex == k && Expired(Advanced(s[j]))
  {
    if |s| > 0 {
      ReleasedMembership(s[1..], k);
      if k in Released(s[1..]) {
        var j :| 0 <= j < |s[1..]| && s[1..][j].pointIndex == k && Expired(Advanced(s[1..][j]));
        assert s[j + 1] == s[1..][j];
      }
      if exists j :: 0 <= j < |s| && s[j].pointIndex == k && Expired(Advanced(s[j])) {
        var j :| 0 <= j < |s| && s[j].pointIndex == k && Expired(Advanced(s[j]));
        if j > 0 {
          assert s[1..][j - 1] == s[j];
        }
      }
    }
  }

  /** The update pass keeps every ripple live, given ripples with a non-negative radius. */
  lemma {:induction false} SurvivorsLive(s: seq<Ripple>)
    requires forall i :: 0 <= i < |s| ==> 0.0 <= s[i].radius
    ensures forall i :: 0 <= i < |Survivors(s)| ==> Live(Survivors(s)[i])
  {
    if |s| > 0 {
      SurvivorsLive(s[1..]);
      var head := if Expired(Advanced(s[0])) then [] else [Advanced(s[0])];
      assert Survivors(s) == head + Survivors(s[1..]);
      forall i | 0 <= i < |Survivors(s)|
        ensures Live(Survivors(s)[i])
      {
        if i >= |head| {
          assert Survivors(s)[i] == Survivors(s[1..])[i - |head|];
        }
      }
    }
  }

  /**
   * The update loop of animate() over the ripples and the used anchor
   * indices: walk the ripples from the last to the first, grow each one in
   * place, and splice out each one that reached the maximum radius, freeing
   * its anchor index.
   */
  method UpdateRipples(ripples0: seq<Ripple>, used0: set<nat>) returns (ripples: seq<Ripple>, used: set<nat>)
    ensures ripples == Survivors(ripples0)
    ensures used == used0 - Released(ripples0)
  {
    ripples, used := ripples0, used0;
    var i := |ripples| - 1;
    assert ripples0[..i + 1] == ripples0;
    while i >= 0
      invariant UpdatedAbove(ripples0, used0, ripples, used, i)
      invariant i < |ripples|
    {
      ghost var before, usedBefore := ripples, used;
      var ripple := Advanced(ripples[i]);
      ripples := ripples[i := ripple];
      if ripple.radius >= MaxRippleRadius {
        ripples := ripples[..i] + ripples[i + 1..];
        used := used - {ripple.pointIndex};
      }
      UpdateStep(ripples0, used0, before, usedBefore, i, ripples, used);
      i := i - 1;
    }
    assert ripples0[0..] == ripples0;
  }

  /** `frames` successive update passes. */
  function AfterFrames(s: seq<Ripple>, frames: nat): seq<Ripple>
    decreases frames
  {
    if frames == 0 then s else AfterFrames(Survivors(s), frames - 1)
  }

  /**
   * A ripple that has grown for `age` frames (and so is still live) lives on
   * for the rest of its LifeFrames frames, with the radius and alpha of its
   * age, and is gone after that.
   */
  lemma {:induction false} Lifetime(r: Ripple, age: nat, frames: nat)
    requires age < LifeFrames
    requires r.radius == age as real * RippleSpeed && r.alpha == AlphaAt(r.radius)
    ensures age + frames < LifeFrames ==>
              AfterFrames([r], frames) == [r.(radius := (age + frames) as real * RippleSpeed,
                                             alpha := AlphaAt((age + frames) as real * RippleSpeed))]
    ensures age + frames >= LifeFrames ==> AfterFrames([r], frames) == []
    decreases frames
  {
    if frames > 0 {
      var next := Advanced(r);
      assert next.radius == (age + 1) as real * RippleSpeed;
      assert [r][1..] == [];
      if age + 1 < LifeFrames {
        assert !Expired(next);
        assert Survivors([r]) == [next];
        Lifetime(next, age + 1, frames - 1);
        assert next.(radius := (age + frames) as real * RippleSpeed,
                     alpha := AlphaAt((age + frames) as real * RippleSpeed))
            == r.(radius := (age + frames) as real * RippleSpeed,
                  alpha := AlphaAt((age + frames) as real * RippleSpeed));
      } else {
        assert Expired(next);
        assert Survivors([r]) == [];
        NothingSurvivesNothing(frames - 1);
      }
    }
  }

  lemma {:induction false} NothingSurvivesNothing(frames: nat)
    ensures AfterFrames([], frames) == []
  {
    if frames > 0 {
      NothingSurvivesNothing(frames - 1);
    }
  }

  /** A freshly spawned ripple is on screen for LifeFrames - 1 updates and removed by update LifeFrames. */
  lemma SpawnedRippleLifetime(p: Point, index: nat)
    ensures |AfterFrames([NewRipple(p, index)], LifeFrames - 1)| == 1
    ensures AfterFrames([NewRipple(p, index)], LifeFrames) == []
  {
    Lifetime(NewRipple(p, index), 0, LifeFrames - 1);
    Lifetime(NewRipple(p, index), 0, LifeFrames);
  }
}
