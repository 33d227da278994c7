/**
 The tracker's history (object_tracker.h, object_tracker.cc): a ring of the last 512 frame
 pairs, boxes moved once per frame, and boxes replayed from the ring from a past timestamp.
 Keypoint detection and optical flow enter as the correspondences given with each frame.
 */
module Tracker {
  import opened Geometry
  import opened FramePairs

  const NUM_FRAMES: nat := 512

  datatype Correspondences = Correspondences(keypoints1: seq<Keypoint>, keypoints2: seq<Keypoint>, found: seq<bool>) {
    predicate Shaped() {
      |keypoints1| == |keypoints2| == |found| == MAX_KEYPOINTS
    }
  }

  // ---------------------------------------------------------------------------------------
  // The unbounded log the ring stands for.

  /** Consecutive pairs meet in time, time increases, and the first pair has no motion. */
  ghost predicate WellTimed(log: seq<FramePair>) {
    && (forall i :: 0 <= i < |log| ==>
          && log[i].Shaped()
          && log[i].startTime == Now(log[..i])
          && log[i].startTime < log[i].endTime)
    && (log != [] ==> log[0].NothingFound())
  }

  function Now(log: seq<FramePair>): int {
    if log == [] then 0 else log[|log| - 1].endTime
  }

  /** The pairs that ended after t, oldest first. */
  function Since(log: seq<FramePair>, t: int): seq<FramePair> {
    if log == [] then []
    else
      var last := log[|log| - 1];
      Since(log[..|log| - 1], t) + (if last.endTime > t then [last] else [])
  }

  ghost predicate AllShaped(pairs: seq<FramePair>) {
    forall i :: 0 <= i < |pairs| ==> pairs[i].Shaped()
  }

  /** Moves a box through pairs, oldest first. */
  ghost function Replay(pairs: seq<FramePair>, box: Box): (r: Box)
    requires AllShaped(pairs) && box.Valid()
    ensures r.Valid()
  {
    if pairs == [] then box
    else
      var before := Replay(pairs[..|pairs| - 1], box);
      MovedShape(pairs[|pairs| - 1], before);
      Moved(pairs[|pairs| - 1], before)
  }

  function Count(log: seq<FramePair>): nat {
    if |log| <= NUM_FRAMES then |log| else NUM_FRAMES
  }

  /** A pair that ended at or before t is still in the ring. */
  ghost predicate Reaches(log: seq<FramePair>, t: int) {
    exists i :: |log| - Count(log) <= i < |log| && log[i].endTime <= t
  }

  /** What TrackBox returns for a box that was at `box` at time t. */
  ghost function Tracked(log: seq<FramePair>, box: Box, t: int): (r: Box)
    requires WellTimed(log) && box.Valid()
    ensures r.Valid()
  {
    SinceShaped(log, t);
    if Reaches(log, t) then Replay(Since(log, t), box) else box
  }

  /** The box moved through every pair that ended after t, ring or no ring. */
  ghost function FullReplay(log: seq<FramePair>, box: Box, t: int): Box
    requires WellTimed(log) && box.Valid()
  {
    SinceShaped(log, t);
    Replay(Since(log, t), box)
  }

  lemma {:induction false} SinceShaped(log: seq<FramePair>, t: int)
    requires AllShaped(log)
    ensures AllShaped(Since(log, t))
  {
    if log != [] {
      SinceShaped(log[..|log| - 1], t);
    }
  }

  lemma {:induction false} TimesIncrease(log: seq<FramePair>, i: nat, j: nat)
    requires WellTimed(log) && i < j < |log|
    ensures 0 < log[i].endTime < log[j].endTime
    decreases j
  {
    assert log[j].startTime == Now(log[..j]) == log[j - 1].endTime;
    if i < j - 1 {
      TimesIncrease(log, i, j - 1);
    } else if i > 0 {
      TimesIncrease(log, i - 1, i);
    } else {
      assert log[0].startTime == Now(log[..0]) == 0;
    }
  }

  lemma WellTimedShaped(log: seq<FramePair>)
    requires WellTimed(log)
    ensures AllShaped(log)
  {
  }

  lemma WellTimedNewest(log: seq<FramePair>)
    requires WellTimed(log) && log != []
    ensures var last := log[|log| - 1];
      last.startTime == Now(log[..|log| - 1]) && last.startTime < last.endTime
  {
  }

  lemma WellTimedPush(log: seq<FramePair>, pair: FramePair)
    requires WellTimed(log) && pair.Shaped()
    requires pair.startTime == Now(log) && pair.startTime < pair.endTime
    requires log == [] ==> pair.NothingFound()
    ensures WellTimed(log + [pair])
  {
    var more := log + [pair];
    forall i | 0 <= i < |more|
      ensures more[i].Shaped() && more[i].startTime == Now(more[..i]) && more[i].startTime < more[i].endTime
    {
      assert more[..i] == log[..i];
      if i == |log| {
        assert log[..i] == log;
      }
    }
  }

  lemma SinceSnoc(log: seq<FramePair>, pair: FramePair, t: int)
    ensures Since(log + [pair], t) == Since(log, t) + (if pair.endTime > t then [pair] else [])
  {
    assert (log + [pair])[..|log|] == log;
  }

  lemma {:induction false} SinceIsSuffix(log: seq<FramePair>, t: int, k: nat)
    requires k <= |log|
    requires forall i :: 0 <= i < k ==> log[i].endTime <= t
    requires forall i :: k <= i < |log| ==> log[i].endTime > t
    ensures Since(log, t) == log[k..]
  {
    if log == [] {
      assert Since(log, t) == [];
    } else {
      hide Since;
      var n := |log| - 1;
      var init := log[..n];
      assert log == init + [log[n]];
      SinceSnoc(init, log[n], t);
      if k == |log| {
        SinceIsSuffix(init, t, n);
      } else {
        SinceIsSuffix(init, t, k);
        assert init[k..] + [log[n]] == log[k..];
      }
    }
  }

  /** In a well-timed log the pairs since t are a suffix, cut where times pass t. */
  lemma SinceCut(log: seq<FramePair>, t: int, k: nat)
    requires WellTimed(log) && k <= |log|
    requires k == 0 || log[k - 1].endTime <= t
    requires forall i :: k <= i < |log| ==> log[i].endTime > t
    ensures Since(log, t) == log[k..]
  {
    forall i | 0 <= i < k ensures log[i].endTime <= t {
      if i < k - 1 {
        TimesIncrease(log, i, k - 1);
      }
    }
    SinceIsSuffix(log, t, k);
  }

  // ---------------------------------------------------------------------------------------
  // The ring.

  function RingIndex(first: nat, offset: nat): (index: nat)
    ensures index < NUM_FRAMES
  {
    (first + offset) % NUM_FRAMES
  }

  /** The slots hold the newest part of the log, starting at `first` and wrapping around. */
  ghost predicate Ring(slots: seq<FramePair>, first: nat, log: seq<FramePair>) {
    && |slots| == NUM_FRAMES && AllShaped(slots)
    && forall i :: 0 <= i < Count(log) ==> slots[RingIndex(first, i)] == log[|log| - Count(log) + i]
  }

  lemma RingIndexDistinct(first: nat, i: nat, j: nat)
    requires i < j < NUM_FRAMES
    ensures RingIndex(first, i) != RingIndex(first, j)
  {
  }

  lemma RingIndexNext(first: nat, i: nat)
    ensures RingIndex((first + 1) % NUM_FRAMES, i) == RingIndex(first, i + 1)
  {
  }

  lemma RingPush(slots: seq<FramePair>, first: nat, log: seq<FramePair>, first': nat, pair: FramePair)
    requires Ring(slots, first, log) && first < NUM_FRAMES && pair.Shaped()
    requires first' == if |log| < NUM_FRAMES then first else (first + 1) % NUM_FRAMES
    ensures Ring(slots[RingIndex(first', Count(log + [pair]) - 1) := pair], first', log + [pair])
  {
    var more := log + [pair];
    var n := Count(more);
    var last := RingIndex(first', n - 1);
    var slots' := slots[last := pair];
    forall i | 0 <= i < n ensures slots'[RingIndex(first', i)] == more[|more| - n + i] {
      if i < n - 1 {
        RingIndexDistinct(first', i, n - 1);
        RingIndexNext(first, i);
        assert slots'[RingIndex(first', i)] == slots[RingIndex(first', i)];
        var j := |more| - n + i - (|log| - Count(log));
        assert RingIndex(first', i) == RingIndex(first, j);
        assert log[|log| - Count(log) + j] == more[|more| - n + i];
      }
    }
    assert AllShaped(slots');
  }

  lemma RingSetLast(slots: seq<FramePair>, first: nat, log: seq<FramePair>, pair: FramePair)
    requires Ring(slots, first, log) && first < NUM_FRAMES && log != [] && pair.Shaped()
    ensures Ring(slots[RingIndex(first, Count(log) - 1) := pair], first, log[..|log| - 1] + [pair])
  {
    var last := RingIndex(first, Count(log) - 1);
    forall i | 0 <= i < Count(log) - 1 ensures RingIndex(first, i) != last {
    }
  }

  class ObjectTracker {
    const alwaysTrack: bool
    const slots: array<FramePair>
    // Buffers AdjustBox keeps between calls.
    const weights: array<real>
    const deltas: array<Point>

    var currTime: int
    var numFrames: nat
    var currNumFramePairs: nat
    var firstFrameIndex: nat
    var objects: map<string, Box>

    ghost var log: seq<FramePair>

    ghost predicate RingValid()
      reads this, slots
    {
      && slots.Length == NUM_FRAMES && firstFrameIndex < NUM_FRAMES
      && numFrames == |log| && currNumFramePairs == Count(log)
      && Ring(slots[..], firstFrameIndex, log)
    }

    ghost predicate Valid()
      reads this, slots
    {
      && RingValid()
      && weights.Length == deltas.Length == MAX_KEYPOINTS
      && WellTimed(log) && currTime == Now(log)
      && forall id :: id in objects ==> objects[id].Valid()
    }

    ghost function Abstract(): State
      reads this
    {
      State(alwaysTrack, log, objects)
    }

    constructor (alwaysTrack: bool)
      ensures Valid() && fresh(slots) && fresh(weights) && fresh(deltas)
      ensures Abstract() == State(alwaysTrack, [], map[])
    {
      var blank := Keypoint(Point(0.0, 0.0), 0.0, 0);
      var keypoints := seq(MAX_KEYPOINTS, _ => blank);
      var pair := FramePair(0, 0, keypoints, keypoints, seq(MAX_KEYPOINTS, _ => false));
      this.alwaysTrack := alwaysTrack;
      slots := new FramePair[NUM_FRAMES](_ => pair.Init(-1, -1));
      weights := new real[MAX_KEYPOINTS](_ => 0.0);
      deltas := new Point[MAX_KEYPOINTS](_ => Point(0.0, 0.0));
      currTime, numFrames, currNumFramePairs, firstFrameIndex := 0, 0, 0, 0;
      objects := map[];
      log := [];
    }

    function GetNthIndexFromStart(offset: nat): nat
      requires offset < currNumFramePairs
      reads this
    {
      RingIndex(firstFrameIndex, offset)
    }

    function GetNthIndexFromEnd(offset: nat): nat
      requires offset < currNumFramePairs
      reads this
    {
      GetNthIndexFromStart(currNumFramePairs - 1 - offset)
    }

    method IncrementFrameIndex()
      requires firstFrameIndex < NUM_FRAMES && currNumFramePairs <= NUM_FRAMES
      modifies this`numFrames, this`currNumFramePairs, this`firstFrameIndex
      ensures numFrames == old(numFrames) + 1
      ensures old(currNumFramePairs) < NUM_FRAMES ==>
                currNumFramePairs == old(currNumFramePairs) + 1 && firstFrameIndex == old(firstFrameIndex)
      ensures old(currNumFramePairs) == NUM_FRAMES ==>
                currNumFramePairs == NUM_FRAMES && firstFrameIndex == (old(firstFrameIndex) + 1) % NUM_FRAMES
    {
      numFrames := numFrames + 1;
      currNumFramePairs := currNumFramePairs + 1;
      if currNumFramePairs > NUM_FRAMES {
        firstFrameIndex := GetNthIndexFromStart(1);
        currNumFramePairs := currNumFramePairs - 1;
      }
    }

    /** Claims the next slot: the ring now stands for the log extended by `pair`. */
    method StartPair(timestamp: int)
      requires RingValid()
      modifies this`numFrames, this`currNumFramePairs, this`firstFrameIndex, this`log, slots
      ensures RingValid() && currNumFramePairs > 0
      ensures slots[GetNthIndexFromEnd(0)].Shaped()
      ensures log == old(log) + [slots[GetNthIndexFromEnd(0)]]
      ensures var pair := slots[GetNthIndexFromEnd(0)];
        pair.startTime == currTime && pair.endTime == timestamp && pair.NothingFound()
    {
      IncrementFrameIndex();
      var index := GetNthIndexFromEnd(0);
      var pair := slots[index].Init(currTime, timestamp);
      RingPush(slots[..], old(firstFrameIndex), log, firstFrameIndex, pair);
      slots[index] := pair;
      log := log + [pair];
    }

    /** Stores the correspondences of the newest pair. */
    method FillPair(c: Correspondences)
      requires RingValid() && currNumFramePairs > 0 && c.Shaped()
      modifies this`log, slots
      ensures RingValid()
      ensures log == old(log)[..|log| - 1] + [slots[GetNthIndexFromEnd(0)]] && |log| == |old(log)|
      ensures slots[GetNthIndexFromEnd(0)] == WithFlow(old(slots[GetNthIndexFromEnd(0)]), c)
      ensures slots[GetNthIndexFromEnd(0)].Shaped()
    {
      var index := GetNthIndexFromEnd(0);
      var pair := WithFlow(slots[index], c);
      RingSetLast(slots[..], firstFrameIndex, log, pair);
      slots[index] := pair;
      log := log[..|log| - 1] + [pair];
    }

    /** False when the timestamp check fails, after which the process is gone. */
    method NextFrame(timestamp: int, c: Correspondences) returns (ok: bool)
      requires Valid() && c.Shaped()
      modifies this`currTime, this`numFrames, this`currNumFramePairs, this`firstFrameIndex,
               this`objects, this`log, slots, weights, deltas
      ensures ok <==> old(currTime) < timestamp
      ensures ok ==> Valid() && Step(old(Abstract()), Frame(timestamp, c), Abstract())
      ensures ok ==> old(log) < log && |log| == |old(log)| + 1 && log[|log| - 1].Shaped()
      ensures ok && old(log) != [] && (alwaysTrack || |old(objects)| > 0) ==>
                && log[|log| - 1].keypoints1 == c.keypoints1 && log[|log| - 1].keypoints2 == c.keypoints2
                && log[|log| - 1].found == c.found && objects.Keys == old(objects).Keys
                && forall id :: id in objects ==> objects[id] == Moved(log[|log| - 1], old(objects)[id])
      ensures ok && (old(log) == [] || (!alwaysTrack && |old(objects)| == 0)) ==>
                log[|log| - 1].NothingFound() && objects == old(objects)
    {
      hide FramePairs.Moved, WellTimed, Ring, Step, Count;
      ghost var s := Abstract();
      StartPair(timestamp);
      ghost var pair := slots[GetNthIndexFromEnd(0)];
      if !(currTime < timestamp) {
        return false;
      }
      WellTimedPush(s.log, pair);
      currTime := timestamp;
      if numFrames == 1 {
        FrameStep(s, timestamp, c, pair, Abstract());
        FrameMovesObjects(s, timestamp, c, Abstract());
        return true;
      }
      if alwaysTrack || |objects| > 0 {
        pair := TrackPair(s.log, c);
      }
      FrameStep(s, timestamp, c, pair, Abstract());
      FrameMovesObjects(s, timestamp, c, Abstract());
      return true;
    }

    /** Finds the correspondences of the newest pair and moves every object by them. */
    method TrackPair(ghost before: seq<FramePair>, c: Correspondences) returns (ghost pair: FramePair)
      requires Valid() && c.Shaped() && WellTimed(before)
      requires before != [] && |log| == |before| + 1 && log == before + [log[|before|]]
      modifies this`objects, this`log, slots, weights, deltas
      ensures Valid() && log == before + [pair] && pair.Shaped()
      ensures pair == WithFlow(old(log)[|before|], c)
      ensures objects.Keys == old(objects).Keys
      ensures forall id :: id in objects ==> objects[id] == Moved(pair, old(objects)[id])
    {
      hide FramePairs.Moved, WellTimed, Ring;
      NewestSlot();
      WellTimedNewest(log);
      FillPair(c);
      pair := slots[GetNthIndexFromEnd(0)];
      assert log == before + [pair];
      WellTimedPush(before, pair);
      TrackObjects();
    }

    lemma NewestSlot()
      requires RingValid() && currNumFramePairs > 0
      ensures slots[GetNthIndexFromEnd(0)] == log[|log| - 1]
    {
    }

    /** Moves every object by the newest pair. */
    method TrackObjects()
      requires Valid() && currNumFramePairs > 0
      modifies this`objects, weights, deltas
      ensures Valid()
      ensures objects.Keys == old(objects).Keys
      ensures forall id :: id in objects ==> objects[id] == Moved(log[|log| - 1], old(objects)[id])
    {
      hide FramePairs.Moved, WellTimed;
      var pair := slots[GetNthIndexFromEnd(0)];
      assert pair == log[|log| - 1];
      var todo := objects.Keys;
      while todo != {}
        invariant todo <= objects.Keys == old(objects).Keys
        invariant forall id :: id in objects ==> objects[id].Valid()
        invariant forall id :: id in objects ==>
                    objects[id] == if id in todo then old(objects)[id] else Moved(pair, old(objects)[id])
        decreases |todo|
      {
        var id :| id in todo;
        var tracked := MoveBox(pair, objects[id], weights, deltas);
        objects := objects[id := tracked];
        todo := todo - {id};
      }
    }

    /** Where a box known to be at `region` at `timestamp` is now. */
    method TrackBox(region: Box, timestamp: int) returns (tracked: Box)
      requires Valid() && region.Valid()
      requires 0 < timestamp <= currTime
      modifies weights, deltas
      ensures Valid() && tracked == Tracked(log, region, timestamp)
    {
      hide FramePairs.Moved, WellTimed, Ring, Since, Replay;
      var foundIt := false;
      var numFramesBack := -1;
      var i := 0;
      while i < currNumFramePairs
        invariant 0 <= i <= currNumFramePairs
        invariant forall k :: |log| - i <= k < |log| ==> log[k].endTime > timestamp
        invariant !foundIt && numFramesBack == -1
        invariant Valid()
      {
        SlotOf(i);
        if slots[GetNthIndexFromEnd(i)].endTime <= timestamp {
          numFramesBack := i - 1;
          foundIt := true;
          break;
        }
        i := i + 1;
      }
      WellTimedShaped(log);
      SinceShaped(log, timestamp);
      if !foundIt {
        return region;
      }
      assert Reaches(log, timestamp) by {
        assert log[|log| - 1 - i].endTime <= timestamp;
      }
      SinceCut(log, timestamp, |log| - 1 - numFramesBack);
      tracked := ReplayLast(region, numFramesBack + 1);
    }

    lemma SlotOf(back: nat)
      requires RingValid() && back < currNumFramePairs
      ensures slots[GetNthIndexFromEnd(back)] == log[|log| - 1 - back]
      ensures log[|log| - 1 - back].Shaped()
    {
    }

    /** The second loop of TrackBox: the newest `n` pairs, oldest first. */
    method ReplayLast(region: Box, n: nat) returns (tracked: Box)
      requires Valid() && region.Valid() && n <= currNumFramePairs
      requires AllShaped(log[|log| - n..])
      modifies weights, deltas
      ensures Valid() && tracked == Replay(log[|log| - n..], region)
    {
      hide FramePairs.Moved, WellTimed;
      ghost var pairs := log[|log| - n..];
      tracked := region;
      var i := n - 1;
      while i >= 0
        invariant -1 <= i < n
        invariant tracked.Valid() && Valid()
        invariant tracked == Replay(pairs[..n - 1 - i], region)
      {
        SlotOf(i);
        assert pairs[..n - i][..n - 1 - i] == pairs[..n - 1 - i];
        tracked := MoveBox(slots[GetNthIndexFromEnd(i)], tracked, weights, deltas);
        i := i - 1;
      }
      assert pairs[..n] == pairs;
    }

    method RegisterNewObject(id: string, box: Box)
      requires Valid() && box.Valid() && id !in objects
      modifies this`objects
      ensures Valid() && Step(old(Abstract()), Register(id, box), Abstract())
      ensures objects == old(objects)[id := box]
    {
      objects := objects[id := box];
    }

    method SetPreviousPositionOfObject(id: string, box: Box, timestamp: int)
      requires Valid() && box.Valid() && id in objects
      requires 0 < timestamp <= currTime
      modifies this`objects, weights, deltas
      ensures Valid() && Step(old(Abstract()), Place(id, box, timestamp), Abstract())
      ensures objects == old(objects)[id := Tracked(log, box, timestamp)]
    {
      var currentPosition := TrackBox(box, timestamp);
      objects := objects[id := currentPosition];
    }

    method ForgetTarget(id: string)
      requires Valid() && id in objects
      modifies this`objects
      ensures Valid() && Step(old(Abstract()), Forget(id), Abstract())
      ensures objects == old(objects) - {id}
    {
      objects := objects - {id};
    }
  }

  function WithFlow(pair: FramePair, c: Correspondences): FramePair {
    pair.(keypoints1 := c.keypoints1, keypoints2 := c.keypoints2, found := c.found)
  }

  // ---------------------------------------------------------------------------------------
  // Runs of the tracker.

  datatype State = State(alwaysTrack: bool, log: seq<FramePair>, objects: map<string, Box>)

  datatype Event =
    | Frame(timestamp: int, c: Correspondences)
    | Register(id: string, box: Box)
    | Place(id: string, box: Box, timestamp: int)
    | Forget(id: string)

  ghost predicate Good(s: State) {
    WellTimed(s.log) && forall id :: id in s.objects ==> s.objects[id].Valid()
  }

  /** Objects move only if this is not the first frame and there is something to track. */
  ghost predicate FrameEffect(s: State, c: Correspondences, pair: FramePair, objects: map<string, Box>)
    requires Good(s) && pair.Shaped()
  {
    && objects.Keys == s.objects.Keys
    && if |s.log| > 0 && (s.alwaysTrack || s.objects != map[])
       then
         && Correspondences(pair.keypoints1, pair.keypoints2, pair.found) == c
         && forall id :: id in s.objects ==> objects[id] == Moved(pair, s.objects[id])
       else pair.NothingFound() && objects == s.objects
  }

  lemma FrameStep(s: State, timestamp: int, c: Correspondences, pair: FramePair, s': State)
    requires Good(s) && Good(s') && c.Shaped() && pair.Shaped() && s'.alwaysTrack == s.alwaysTrack
    requires Now(s.log) < timestamp && s'.log == s.log + [pair]
    requires pair.startTime == Now(s.log) && pair.endTime == timestamp
    requires FrameEffect(s, c, pair, s'.objects)
    ensures Step(s, Frame(timestamp, c), s')
  {
    hide WellTimed, FrameEffect;
    assert s'.log[..|s.log|] == s.log;
  }

  /** One successful call. */
  ghost predicate Step(s: State, e: Event, s': State)
  {
    && Good(s) && Good(s')
    && s'.alwaysTrack == s.alwaysTrack
    && match e
       case Frame(timestamp, c) =>
         && c.Shaped() && Now(s.log) < timestamp
         && |s'.log| == |s.log| + 1 && s'.log[..|s.log|] == s.log
         && s'.log[|s.log|].startTime == Now(s.log) && s'.log[|s.log|].endTime == timestamp
         && FrameEffect(s, c, s'.log[|s.log|], s'.objects)
       case Register(id, box) =>
         && id !in s.objects && box.Valid() && s' == s.(objects := s.objects[id := box])
       case Place(id, box, timestamp) =>
         && id in s.objects && box.Valid() && 0 < timestamp <= Now(s.log)
         && s' == s.(objects := s.objects[id := Tracked(s.log, box, timestamp)])
       case Forget(id) =>
         && id in s.objects && s' == s.(objects := s.objects - {id})
  }

  /**
   From the second frame on, whenever there is an object or tracking is always on, the newest
   pair holds the correspondences and every object is moved by it; else nothing moves.
   */
  lemma FrameMovesObjects(s: State, timestamp: int, c: Correspondences, s': State)
    requires Step(s, Frame(timestamp, c), s')
    ensures s.log < s'.log && |s'.log| == |s.log| + 1 && s'.log[|s.log|].Shaped() && s'.objects.Keys == s.objects.Keys
    ensures forall id :: id in s.objects ==> s.objects[id].Valid()
    ensures s.log != [] && (s.alwaysTrack || |s.objects| > 0) ==>
              && s'.log[|s.log|].keypoints1 == c.keypoints1 && s'.log[|s.log|].keypoints2 == c.keypoints2
              && s'.log[|s.log|].found == c.found
              && forall id :: id in s'.objects ==> s'.objects[id] == Moved(s'.log[|s.log|], s.objects[id])
    ensures s.log == [] || (!s.alwaysTrack && |s.objects| == 0) ==>
              s'.log[|s.log|].NothingFound() && s'.objects == s.objects
  {
    hide FramePairs.Moved;
  }

  /** The correspondences of a frame, whatever its times. */
  function PairOf(c: Correspondences): FramePair {
    FramePair(0, 0, c.keypoints1, c.keypoints2, c.found)
  }

  lemma {:induction false} SameScoreRange(a: FramePair, b: FramePair, n: nat)
    requires a.Shaped() && b.Shaped() && a.keypoints1 == b.keypoints1 && a.found == b.found && n <= MAX_KEYPOINTS
    ensures ScoreRange(a, n) == ScoreRange(b, n)
  {
    if n > 0 {
      SameScoreRange(a, b, n - 1);
    }
  }

  lemma SameEnoughWeight(a: FramePair, b: FramePair, box: Box)
    requires a.Shaped() && b.Shaped() && a.keypoints1 == b.keypoints1 && a.found == b.found && box.Valid()
    requires EnoughWeight(a, box)
    ensures EnoughWeight(b, box)
  {
    hide Core, DistanceScore, IntrinsicScore, ScoreRange;
    SameScoreRange(a, b, MAX_KEYPOINTS);
    forall i | 0 <= i < MAX_KEYPOINTS ensures Weights(a, Core(box))[i] == Weights(b, Core(box))[i] {
      assert Weight(a, Core(box), i) == Weight(b, Core(box), i);
    }
    assert Weights(a, Core(box)) == Weights(b, Core(box));
    WeightsDecideTotal(Weights(a, Core(box)), Xs(Translations(a)), Xs(Translations(b)));
  }

  /** A frame whose found keypoints all move by t moves an object by t, if they carry enough weight for its box. */
  lemma RigidFrameShifts(s: State, timestamp: int, c: Correspondences, s': State, id: string, t: Point)
    requires Step(s, Frame(timestamp, c), s') && s.log != [] && id in s.objects
    requires c.Shaped() && s.objects[id].Valid() && MovesBy(PairOf(c), t) && EnoughWeight(PairOf(c), s.objects[id])
    ensures id in s'.objects && s'.objects[id] == s.objects[id].Shift(t)
  {
    hide FramePairs.Moved, Step, EnoughWeight;
    FrameMovesObjects(s, timestamp, c, s');
    var pair := s'.log[|s.log|];
    SameEnoughWeight(PairOf(c), pair, s.objects[id]);
    assert MovesBy(pair, t);
    RigidTranslationRecovered(pair, s.objects[id], t);
  }

  /** Events that leave the position of `id` to the tracker. */
  predicate Untouched(e: Event, id: string) {
    e.Frame? || e.id != id
  }

  ghost predicate Run(states: seq<State>, events: seq<Event>, id: string) {
    && |states| == |events| + 1
    && forall i :: 0 <= i < |events| ==> Step(states[i], events[i], states[i + 1]) && Untouched(events[i], id)
  }

  /** Frame k of the run moves all found keypoints by ts[k], with enough weight for the object. */
  ghost predicate RigidRun(states: seq<State>, events: seq<Event>, id: string, ts: seq<Point>) {
    && Run(states, events, id) && |ts| == |events| && states[0].log != [] && id in states[0].objects
    && forall k :: 0 <= k < |events| && events[k].Frame? && id in states[k].objects ==>
         && events[k].c.Shaped() && states[k].objects[id].Valid()
         && MovesBy(PairOf(events[k].c), ts[k]) && EnoughWeight(PairOf(events[k].c), states[k].objects[id])
  }

  /** The sum of the motions of the first n events. */
  function Travelled(events: seq<Event>, ts: seq<Point>, n: nat): Point
    requires n <= |events| == |ts|
  {
    if n == 0 then Point(0.0, 0.0)
    else
      var before := Travelled(events, ts, n - 1);
      if events[n - 1].Frame? then Point(before.x + ts[n - 1].x, before.y + ts[n - 1].y) else before
  }

  /** Over a whole run of such frames an object travels by the sum of the motions. */
  lemma {:induction false} RigidRunAddsUp(
    states: seq<State>, events: seq<Event>, id: string, ts: seq<Point>, k: nat)
    requires RigidRun(states, events, id, ts) && k < |states|
    ensures states[k].log != [] && id in states[k].objects
    ensures states[k].objects[id] == states[0].objects[id].Shift(Travelled(events, ts, k))
  {
    hide FramePairs.Moved, Good, FrameEffect, EnoughWeight, MovesBy, Tracked;
    if k > 0 {
      RigidRunAddsUp(states, events, id, ts, k - 1);
      var s, e, s' := states[k - 1], events[k - 1], states[k];
      assert Step(s, e, s') && Untouched(e, id);
      if e.Frame? {
        RigidFrameShifts(s, e.timestamp, e.c, s', id, ts[k - 1]);
      }
    }
  }

  lemma ReachesEarlier(s: State, e: Event, s': State, t: int)
    requires Step(s, e, s') && t <= Now(s.log) && Reaches(s'.log, t)
    ensures Reaches(s.log, t)
  {
    hide WellTimed, FrameEffect, Tracked;
    var i :| |s'.log| - Count(s'.log) <= i < |s'.log| && s'.log[i].endTime <= t;
    if i < |s.log| {
      assert s.log[i] == s'.log[i];
    }
  }

  /** Moving a box frame by frame and replaying it from the ring agree, one step further. */
  lemma TrackingStep(s: State, e: Event, s': State, id: string, box: Box, t: int)
    requires Step(s, e, s') && Untouched(e, id)
    requires box.Valid() && 0 < t <= Now(s.log)
    requires id in s.objects && s.objects[id] == Tracked(s.log, box, t)
    requires Reaches(s'.log, t)
    ensures id in s'.objects && s'.objects[id] == Tracked(s'.log, box, t)
  {
    hide FramePairs.Moved, WellTimed, Since, Replay;
    ReachesEarlier(s, e, s', t);
    if e.Frame? {
      var pair := s'.log[|s.log|];
      assert s'.log == s.log + [pair];
      WellTimedShaped(s.log);
      WellTimedShaped(s'.log);
      SinceShaped(s.log, t);
      SinceSnoc(s.log, pair, t);
      ReplayPush(Since(s.log, t), pair, box);
      assert FrameEffect(s, e.c, pair, s'.objects);
      if !(s.alwaysTrack || s.objects != map[]) {
        assert false;
      }
    }
  }

  lemma ReplayPush(pairs: seq<FramePair>, pair: FramePair, box: Box)
    requires AllShaped(pairs) && pair.Shaped() && box.Valid()
    ensures AllShaped(pairs + [pair])
    ensures Replay(pairs + [pair], box) == Moved(pair, Replay(pairs, box))
  {
    hide FramePairs.Moved;
    assert (pairs + [pair])[..|pairs|] == pairs;
  }

  lemma {:induction false} ReachesThroughout(states: seq<State>, events: seq<Event>, id: string, t: int, k: nat)
    requires Run(states, events, id) && k < |states|
    requires t <= Now(states[0].log) && Reaches(states[|states| - 1].log, t)
    ensures t <= Now(states[k].log) && Reaches(states[k].log, t)
    decreases |states| - k
  {
    hide FramePairs.Moved, WellTimed, Step, Reaches;
    NowGrows(states, events, id, k);
    if k < |states| - 1 {
      ReachesThroughout(states, events, id, t, k + 1);
      ReachesEarlier(states[k], events[k], states[k + 1], t);
    }
  }

  lemma {:induction false} NowGrows(states: seq<State>, events: seq<Event>, id: string, k: nat)
    requires Run(states, events, id) && k < |states|
    ensures Now(states[0].log) <= Now(states[k].log)
  {
    if k > 0 {
      NowGrows(states, events, id, k - 1);
      assert Step(states[k - 1], events[k - 1], states[k]);
    }
  }

  lemma {:induction false} PlacedObjectIsTracked(
    before: State, states: seq<State>, events: seq<Event>, id: string, box: Box, t: int, k: nat)
    requires Run(states, events, id) && k < |states|
    requires Step(before, Place(id, box, t), states[0])
    requires Reaches(states[|states| - 1].log, t)
    ensures Good(states[k])
    ensures id in states[k].objects && states[k].objects[id] == Tracked(states[k].log, box, t)
  {
    hide FramePairs.Moved, WellTimed, Since, Replay, Tracked, Reaches;
    if k > 0 {
      PlacedObjectIsTracked(before, states, events, id, box, t, k - 1);
      NowGrows(states, events, id, k - 1);
      ReachesThroughout(states, events, id, t, k);
      assert Step(states[k - 1], events[k - 1], states[k]);
      TrackingStep(states[k - 1], events[k - 1], states[k], id, box, t);
    }
  }

  /**
   Replay refines incremental tracking over whole runs: an object placed at `box` as of time
   t, now or in the past, and then left to the tracker, is where TrackBox(box, t) puts it,
   and that is the box moved through exactly the pairs that ended after t, oldest first.
   */
  lemma PlacedObjectFollowsReplay(
    before: State, states: seq<State>, events: seq<Event>, id: string, box: Box, t: int, k: nat)
    requires Run(states, events, id) && k < |states|
    requires Step(before, Place(id, box, t), states[0])
    requires Reaches(states[|states| - 1].log, t)
    ensures Good(states[k]) && id in states[k].objects
    ensures states[k].objects[id] == Tracked(states[k].log, box, t)
    ensures states[k].objects[id] == FullReplay(states[k].log, box, t)
  {
    hide FramePairs.Moved, WellTimed, Since, Replay, Step;
    PlacedObjectIsTracked(before, states, events, id, box, t, k);
    WellTimedShaped(states[k].log);
    SinceShaped(states[k].log, t);
    NowAfterPlace(before, states[0], id, box, t);
    ReachesThroughout(states, events, id, t, k);
  }

  lemma NowAfterPlace(before: State, s: State, id: string, box: Box, t: int)
    requires Step(before, Place(id, box, t), s)
    ensures box.Valid() && 0 < t <= Now(s.log)
  {
  }

  /** Telling the tracker late gives the same position as telling it in time. */
  lemma LatePlacementCatchesUp(
    before: State, states: seq<State>, events: seq<Event>, late: State, id: string, box: Box, t: int)
    requires Run(states, events, id)
    requires Step(before, Place(id, box, t), states[0])
    requires Reaches(states[|states| - 1].log, t)
    requires Step(states[|states| - 1], Place(id, box, t), late)
    ensures late == states[|states| - 1]
  {
    var k := |states| - 1;
    PlacedObjectFollowsReplay(before, states, events, id, box, t, k);
    assert late.objects == states[k].objects;
  }

  // ---------------------------------------------------------------------------------------
  // When the history is too short.

  ghost predicate SameTimes(a: seq<FramePair>, b: seq<FramePair>) {
    |a| == |b| && forall i :: 0 <= i < |a| ==> a[i].startTime == b[i].startTime && a[i].endTime == b[i].endTime
  }

  /** Whatever the motion in between was, TrackBox gives the full replay. */
  ghost predicate ReplaysFaithfully(log: seq<FramePair>, t: int) {
    forall log': seq<FramePair>, box: Box :: SameTimes(log, log') && WellTimed(log') && box.Valid() ==>
      Tracked(log', box, t) == FullReplay(log', box, t)
  }

  lemma {:induction false} ReplayStill(pairs: seq<FramePair>, box: Box)
    requires AllShaped(pairs) && box.Valid()
    requires forall i :: 0 <= i < |pairs| ==> pairs[i].NothingFound()
    ensures Replay(pairs, box) == box
  {
    hide FramePairs.Moved;
    if pairs != [] {
      ReplayStill(pairs[..|pairs| - 1], box);
      UnmovedWhenNothingFound(pairs[|pairs| - 1], box);
    }
  }

  function Still(pair: FramePair): (r: FramePair)
    ensures r.Shaped() && r.NothingFound()
  {
    var key := Keypoint(Point(0.0, 0.0), 0.0, 0);
    FramePair(pair.startTime, pair.endTime, seq(MAX_KEYPOINTS, _ => key), seq(MAX_KEYPOINTS, _ => key),
              seq(MAX_KEYPOINTS, _ => false))
  }

  /** One keypoint, seen moving from the origin to (1, 0). */
  function Nudge(pair: FramePair): (r: FramePair)
    ensures r.Shaped()
  {
    var from := Keypoint(Point(0.0, 0.0), 0.0, 0);
    var to := Keypoint(Point(1.0, 0.0), 0.0, 0);
    FramePair(pair.startTime, pair.endTime, seq(MAX_KEYPOINTS, _ => from), seq(MAX_KEYPOINTS, _ => to),
              seq(MAX_KEYPOINTS, i => i == 0))
  }

  lemma NudgeMoves(pair: FramePair)
    ensures var box := Box(-1.0, -1.0, 1.0, 1.0); Moved(Nudge(pair), box) == Box(0.0, -1.0, 2.0, 1.0)
  {
    var box := Box(-1.0, -1.0, 1.0, 1.0);
    assert Core(box) == Box(-0.4, -0.4, 0.4, 0.4);
    CoreKeypointIsEnough(Nudge(pair), box, 0);
    RigidTranslationRecovered(Nudge(pair), box, Point(1.0, 0.0));
  }

  /** The same times, standing still until the last pair. */
  function LateNudge(log: seq<FramePair>): (r: seq<FramePair>)
    requires log != []
    ensures |r| == |log| && SameTimes(log, r)
  {
    seq(|log| - 1, i requires 0 <= i < |log| - 1 => Still(log[i])) + [Nudge(log[|log| - 1])]
  }

  lemma LateNudgeWellTimed(log: seq<FramePair>)
    requires WellTimed(log) && |log| > 1
    ensures WellTimed(LateNudge(log))
  {
    var r := LateNudge(log);
    forall i | 0 <= i < |r|
      ensures r[i].Shaped() && r[i].startTime == Now(r[..i]) && r[i].startTime < r[i].endTime
    {
      assert log[i].startTime == Now(log[..i]);
    }
  }

  lemma {:induction false} SinceStill(log: seq<FramePair>, t: int)
    requires AllShaped(log) && forall i :: 0 <= i < |log| ==> log[i].NothingFound()
    ensures AllShaped(Since(log, t))
    ensures forall i :: 0 <= i < |Since(log, t)| ==> Since(log, t)[i].NothingFound()
  {
    if log != [] {
      SinceStill(log[..|log| - 1], t);
    }
  }

  lemma LateNudgeMissed(log: seq<FramePair>, t: int)
    requires WellTimed(log) && |log| > 1 && !Reaches(log, t)
    ensures var r := LateNudge(log); var box := Box(-1.0, -1.0, 1.0, 1.0);
      && WellTimed(r) && Tracked(r, box, t) == box != FullReplay(r, box, t)
  {
    hide FramePairs.Moved, WellTimed;
    var r := LateNudge(log);
    var n := |log| - 1;
    var box := Box(-1.0, -1.0, 1.0, 1.0);
    LateNudgeWellTimed(log);
    assert !Reaches(r, t) by {
      if i :| |r| - Count(r) <= i < |r| && r[i].endTime <= t {
        assert log[i].endTime <= t;
      }
    }
    assert log[n].endTime > t;
    assert r == r[..n] + [Nudge(log[n])];
    SinceStill(r[..n], t);
    SinceSnoc(r[..n], Nudge(log[n]), t);
    ReplayPush(Since(r[..n], t), Nudge(log[n]), box);
    ReplayStill(Since(r[..n], t), box);
    NudgeMoves(log[n]);
    SinceShaped(r, t) by {
      WellTimedShaped(r);
    }
  }

  lemma FaithfulWhenReached(log: seq<FramePair>, box: Box, t: int)
    requires WellTimed(log) && box.Valid()
    requires Reaches(log, t) || |log| <= 1
    ensures Tracked(log, box, t) == FullReplay(log, box, t)
  {
    hide FramePairs.Moved;
    if !Reaches(log, t) {
      SinceStill(log, t);
      ReplayStill(Since(log, t), box);
    }
  }

  lemma SameTimesReach(log: seq<FramePair>, log': seq<FramePair>, t: int)
    requires SameTimes(log, log') && Reaches(log, t)
    ensures Reaches(log', t)
  {
    var i :| |log| - Count(log) <= i < |log| && log[i].endTime <= t;
    assert log'[i].endTime <= t;
  }

  /** The ring reaches back to t exactly if the oldest of the newest 512 pairs ended by then. */
  lemma ReachesTells(log: seq<FramePair>, t: int)
    requires WellTimed(log) && log != []
    ensures Reaches(log, t) <==> log[if |log| <= 512 then 0 else |log| - 512].endTime <= t
  {
    var oldest := if |log| <= 512 then 0 else |log| - 512;
    if i :| |log| - Count(log) <= i < |log| && log[i].endTime <= t {
      if oldest < i {
        TimesIncrease(log, oldest, i);
      }
    }
  }

  /**
   TrackBox gives the full replay exactly when a pair that ended by t is still in the ring,
   or when there is no second frame yet; otherwise it returns the box as given.
   */
  lemma FaithfulExactlyWhenReached(log: seq<FramePair>, t: int)
    requires WellTimed(log)
    ensures ReplaysFaithfully(log, t) <==>
              |log| <= 1 || log[if |log| <= 512 then 0 else |log| - 512].endTime <= t
  {
    hide FramePairs.Moved, WellTimed, Tracked, FullReplay;
    if log != [] {
      ReachesTells(log, t);
    }
    hide Reaches;
    if Reaches(log, t) || |log| <= 1 {
      forall log': seq<FramePair>, box: Box | SameTimes(log, log') && WellTimed(log') && box.Valid()
        ensures Tracked(log', box, t) == FullReplay(log', box, t)
      {
        if Reaches(log, t) {
          SameTimesReach(log, log', t);
        }
        FaithfulWhenReached(log', box, t);
      }
    } else {
      LateNudgeMissed(log, t);
    }
  }
}
