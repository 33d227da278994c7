/**
 Picking spaced keypoints box by box (SelectKeypointsInBox and SelectKeypoints in
 keypoint_detector.cc).  Candidates come sorted by score; the order is all that matters.
 */
module KeypointSelection {
  import opened Geometry
  import FramePairs
  import Marking

  type Keypoint = FramePairs.Keypoint

  const MAX_KEYPOINTS_FOR_OBJECT: nat := 16
  const CLOSEST_PERCENT: real := 0.6

  /** Conversion of a float to an int: towards zero. */
  function Truncate(r: real): int {
    if r >= 0.0 then r.Floor else -((-r).Floor)
  }

  function PixelX(k: Keypoint): int {
    Truncate(k.pos.x)
  }

  function PixelY(k: Keypoint): int {
    Truncate(k.pos.y)
  }

  /** How far apart keypoints are kept in a box. */
  function Distance(box: Box): (d: nat)
    ensures d >= 1
  {
    var side := if box.Width() > box.Height() then box.Height() else box.Width();
    var d := side * CLOSEST_PERCENT / 2.0;
    Truncate(if 1.0 > d then 1.0 else d)
  }

  /** The fraction is dropped. */
  lemma TruncateTells(r: real)
    ensures r >= 0.0 ==> Truncate(r) as real <= r < Truncate(r) as real + 1.0
    ensures r <= 0.0 ==> Truncate(r) as real - 1.0 < r <= Truncate(r) as real
  {
    var i := (-r).Floor;
    assert i as real <= -r < i as real + 1.0;
    assert (-i) as real == -(i as real);
  }

  /** 30 percent of the shorter side, the fraction dropped, but at least 1. */
  lemma DistanceTells(box: Box, d: nat)
    ensures d == Distance(box) <==>
              if 0.3 * (box.right - box.left) < 1.0 || 0.3 * (box.bottom - box.top) < 1.0 then d == 1
              else
                && d as real <= 0.3 * (box.right - box.left) && d as real <= 0.3 * (box.bottom - box.top)
                && (0.3 * (box.right - box.left) < d as real + 1.0 || 0.3 * (box.bottom - box.top) < d as real + 1.0)
  {
  }

  predicate ValidPixel(width: nat, height: nat, k: Keypoint) {
    0 <= PixelX(k) < width && 0 <= PixelY(k) < height
  }

  /** The pixel of k is marked by a disc around the pixel of m. */
  predicate MarkedBy(m: Keypoint, distance: nat, k: Keypoint) {
    Marking.Marked(PixelX(m), PixelY(m), distance, PixelX(k), PixelY(k))
  }

  predicate Covered(marks: seq<Keypoint>, distance: nat, k: Keypoint) {
    exists i :: 0 <= i < |marks| && MarkedBy(marks[i], distance, k)
  }

  /** Squared distance between two pixels. */
  function PixelDistance(a: Keypoint, b: Keypoint): int {
    Marking.Square(PixelX(a) - PixelX(b)) + Marking.Square(PixelY(a) - PixelY(b))
  }

  // ---------------------------------------------------------------------------------------
  // One box.

  /** The marks a box starts from: keypoints selected earlier that lie inside it. */
  function InBox(box: Box, keypoints: seq<Keypoint>): (r: seq<Keypoint>)
    ensures forall k :: k in r <==> k in keypoints && box.Contains(k.pos)
    ensures |r| <= |keypoints|
  {
    if keypoints == [] then []
    else
      var k := keypoints[|keypoints| - 1];
      InBox(box, keypoints[..|keypoints| - 1]) + (if box.Contains(k.pos) then [k] else [])
  }

  predicate Fits(box: Box, width: nat, height: nat, marks: seq<Keypoint>, k: Keypoint) {
    box.Contains(k.pos) && ValidPixel(width, height, k) && !Covered(marks, Distance(box), k)
  }

  /** Indices of the candidates from `from` on that are taken, given the marks so far. */
  function Picks(box: Box, width: nat, height: nat, candidates: seq<Keypoint>,
                 from: nat, marks: seq<Keypoint>, cap: nat)
    : (r: seq<nat>)
    requires from <= |candidates|
    ensures |r| <= cap
    ensures forall i :: 0 <= i < |r| ==> from <= r[i] < |candidates|
    decreases |candidates| - from
  {
    if cap == 0 || from == |candidates| then []
    else if Fits(box, width, height, marks, candidates[from])
    then [from] + Picks(box, width, height, candidates, from + 1, marks + [candidates[from]], cap - 1)
    else Picks(box, width, height, candidates, from + 1, marks, cap)
  }

  function At(candidates: seq<Keypoint>, picks: seq<nat>): (r: seq<Keypoint>)
    requires forall i :: 0 <= i < |picks| ==> picks[i] < |candidates|
    ensures |r| == |picks| && forall i :: 0 <= i < |r| ==> r[i] == candidates[picks[i]]
  {
    seq(|picks|, i requires 0 <= i < |picks| => candidates[picks[i]])
  }

  /** A picked candidate fits among the marks and the picks before it; picks go upwards. */
  lemma {:induction false} PicksFit(box: Box, width: nat, height: nat, candidates: seq<Keypoint>,
                                    from: nat, marks: seq<Keypoint>, cap: nat, i: nat)
    requires from <= |candidates|
    requires i < |Picks(box, width, height, candidates, from, marks, cap)|
    ensures var picks := Picks(box, width, height, candidates, from, marks, cap);
      && Fits(box, width, height, marks + At(candidates, picks[..i]), candidates[picks[i]])
      && forall j :: 0 <= j < i ==> picks[j] < picks[i]
    decreases |candidates| - from
  {
    hide Fits, Distance;
    var picks := Picks(box, width, height, candidates, from, marks, cap);
    if Fits(box, width, height, marks, candidates[from]) {
      var rest := Picks(box, width, height, candidates, from + 1, marks + [candidates[from]], cap - 1);
      if i == 0 {
        assert marks + At(candidates, picks[..0]) == marks;
      } else {
        PicksFit(box, width, height, candidates, from + 1, marks + [candidates[from]], cap - 1, i - 1);
        assert marks + At(candidates, picks[..i]) == marks + [candidates[from]] + At(candidates, rest[..i - 1]);
      }
    } else {
      PicksFit(box, width, height, candidates, from + 1, marks, cap, i);
    }
  }

  /** Nothing that still fits is passed over unless the cap was reached. */
  lemma {:induction false} PicksComplete(box: Box, width: nat, height: nat, candidates: seq<Keypoint>,
                                         from: nat, marks: seq<Keypoint>, cap: nat, c: nat)
    requires from <= c < |candidates|
    ensures var picks := Picks(box, width, height, candidates, from, marks, cap);
      c in picks || |picks| == cap || !Fits(box, width, height, marks + At(candidates, picks), candidates[c])
    decreases |candidates| - from
  {
    hide Fits, Distance;
    var picks := Picks(box, width, height, candidates, from, marks, cap);
    if cap > 0 {
      if Fits(box, width, height, marks, candidates[from]) {
        var rest := Picks(box, width, height, candidates, from + 1, marks + [candidates[from]], cap - 1);
        if c > from {
          PicksComplete(box, width, height, candidates, from + 1, marks + [candidates[from]], cap - 1, c);
          assert marks + At(candidates, picks) == marks + [candidates[from]] + At(candidates, rest);
        }
      } else if c > from {
        PicksComplete(box, width, height, candidates, from + 1, marks, cap, c);
      } else {
        MoreMarksFitLess(box, width, height, marks, At(candidates, picks), candidates[c]);
      }
    }
  }

  lemma MoreMarksFitLess(box: Box, width: nat, height: nat, marks: seq<Keypoint>, more: seq<Keypoint>, k: Keypoint)
    requires !Fits(box, width, height, marks, k)
    ensures !Fits(box, width, height, marks + more, k)
  {
    if Covered(marks, Distance(box), k) {
      var i :| 0 <= i < |marks| && MarkedBy(marks[i], Distance(box), k);
      assert (marks + more)[i] == marks[i];
    }
  }

  /** An uncovered pixel is further from every mark than the distance. */
  lemma UncoveredIsFar(marks: seq<Keypoint>, distance: nat, k: Keypoint, i: nat)
    requires i < |marks| && !Covered(marks, distance, k)
    ensures PixelDistance(k, marks[i]) > Marking.Square(distance)
  {
    Marking.UnmarkedIsFar(PixelX(marks[i]), PixelY(marks[i]), distance, PixelX(k), PixelY(k));
  }

  lemma SelfCovered(marks: seq<Keypoint>, distance: nat, k: Keypoint)
    requires k in marks
    ensures Covered(marks, distance, k)
  {
    var i :| 0 <= i < |marks| && marks[i] == k;
    Marking.CenterMarked(PixelX(k), PixelY(k), distance);
    assert MarkedBy(marks[i], distance, k);
  }

  // ---------------------------------------------------------------------------------------
  // All boxes.

  function Min(a: int, b: int): int {
    if a > b then b else a
  }

  /** How many more keypoints a box may take. */
  function Cap(box: Box, selected: seq<Keypoint>): nat {
    var room := Min(MAX_KEYPOINTS_FOR_OBJECT - |InBox(box, selected)|, FramePairs.MAX_KEYPOINTS - |selected|);
    if room <= 0 then 0 else room
  }

  /** The box takes no more than 16 keypoints in all, and all boxes no more than 76. */
  lemma CapTells(box: Box, selected: seq<Keypoint>, n: nat)
    ensures n <= Cap(box, selected) <==> n == 0 || (|InBox(box, selected)| + n <= 16 && |selected| + n <= 76)
  {
  }

  function NewPicks(box: Box, width: nat, height: nat, candidates: seq<Keypoint>, selected: seq<Keypoint>)
    : (r: seq<nat>)
    ensures |r| <= Cap(box, selected)
    ensures forall i :: 0 <= i < |r| ==> r[i] < |candidates|
  {
    Picks(box, width, height, candidates, 0, InBox(box, selected), Cap(box, selected))
  }

  /** Indices of all selected candidates after the first n boxes. */
  function Selection(boxes: seq<Box>, width: nat, height: nat, candidates: seq<Keypoint>, n: nat): (r: seq<nat>)
    requires n <= |boxes|
    ensures forall i :: 0 <= i < |r| ==> r[i] < |candidates|
  {
    if n == 0 then []
    else
      var before := Selection(boxes, width, height, candidates, n - 1);
      before + NewPicks(boxes[n - 1], width, height, candidates, At(candidates, before))
  }

  /** At most 76 candidates, all on valid pixels and none twice. */
  ghost predicate Sound(width: nat, height: nat, candidates: seq<Keypoint>, picks: seq<nat>)
  {
    && |picks| <= FramePairs.MAX_KEYPOINTS
    && (forall i :: 0 <= i < |picks| ==> picks[i] < |candidates| && ValidPixel(width, height, candidates[picks[i]]))
    && (forall i, j :: 0 <= i < j < |picks| ==> picks[i] != picks[j])
  }

  lemma {:induction false} SelectionSound(boxes: seq<Box>, width: nat, height: nat, candidates: seq<Keypoint>, n: nat)
    requires n <= |boxes|
    ensures Sound(width, height, candidates, Selection(boxes, width, height, candidates, n))
  {
    hide NewPicks, Sound;
    if n == 0 {
      NoneSound(width, height, candidates);
    } else {
      SelectionSound(boxes, width, height, candidates, n - 1);
      BoxKeepsSound(boxes[n - 1], width, height, candidates, Selection(boxes, width, height, candidates, n - 1));
    }
  }

  lemma NoneSound(width: nat, height: nat, candidates: seq<Keypoint>)
    ensures Sound(width, height, candidates, [])
  {
  }

  lemma BoxKeepsSound(box: Box, width: nat, height: nat, candidates: seq<Keypoint>, before: seq<nat>)
    requires forall i :: 0 <= i < |before| ==> before[i] < |candidates|
    requires Sound(width, height, candidates, before)
    ensures Sound(width, height, candidates, before + NewPicks(box, width, height, candidates, At(candidates, before)))
  {
    hide Fits, Distance, Cap, Picks, ValidPixel;
    var selected := At(candidates, before);
    var more := NewPicks(box, width, height, candidates, selected);
    CapWithinTotal(box, selected);
    forall j | 0 <= j < |more|
      ensures ValidPixel(width, height, candidates[more[j]])
      ensures more[j] !in before && forall i :: 0 <= i < j ==> more[i] != more[j]
    {
      PicksFit(box, width, height, candidates, 0, InBox(box, selected), Cap(box, selected), j);
      FitIsNew(box, width, height, selected, At(candidates, more[..j]), candidates[more[j]]);
      assert forall i :: 0 <= i < |before| ==> selected[i] in selected;
    }
    forall i, j | 0 <= i < j < |before + more| ensures (before + more)[i] != (before + more)[j] {
      assert i < |before| ==> (before + more)[i] in before;
    }
  }

  lemma CapWithinTotal(box: Box, selected: seq<Keypoint>)
    ensures Cap(box, selected) > 0 ==> |selected| + Cap(box, selected) <= FramePairs.MAX_KEYPOINTS
    ensures Cap(box, selected) > 0 ==> |InBox(box, selected)| + Cap(box, selected) <= MAX_KEYPOINTS_FOR_OBJECT
  {
  }

  /** What fits in a box is valid, in the box, and not among the keypoints already selected. */
  lemma FitIsNew(box: Box, width: nat, height: nat, selected: seq<Keypoint>, more: seq<Keypoint>, k: Keypoint)
    requires Fits(box, width, height, InBox(box, selected) + more, k)
    ensures ValidPixel(width, height, k) && box.Contains(k.pos) && k !in selected
  {
    if k in selected {
      assert k in InBox(box, selected);
      SelfCovered(InBox(box, selected) + more, Distance(box), k);
    }
  }

  /** A new keypoint is further than the box's distance from every other keypoint in the box. */
  lemma NewKeypointsSpaced(
    box: Box, width: nat, height: nat, candidates: seq<Keypoint>, selected: seq<Keypoint>, j: nat)
    requires j < |NewPicks(box, width, height, candidates, selected)|
    ensures var new_ := At(candidates, NewPicks(box, width, height, candidates, selected));
      && box.Contains(new_[j].pos)
      && (forall k :: k in selected && box.Contains(k.pos) ==>
            PixelDistance(new_[j], k) > Marking.Square(Distance(box)))
      && (forall i :: 0 <= i < j ==> PixelDistance(new_[j], new_[i]) > Marking.Square(Distance(box)))
  {
    hide PixelDistance, Distance, Cap, Picks, InBox;
    var picks := NewPicks(box, width, height, candidates, selected);
    var new_ := At(candidates, picks);
    var marks := InBox(box, selected);
    PicksFit(box, width, height, candidates, 0, marks, Cap(box, selected), j);
    var all := marks + At(candidates, picks[..j]);
    forall m | 0 <= m < |all| ensures PixelDistance(new_[j], all[m]) > Marking.Square(Distance(box)) {
      UncoveredIsFar(all, Distance(box), new_[j], m);
    }
    forall k | k in selected && box.Contains(k.pos)
      ensures PixelDistance(new_[j], k) > Marking.Square(Distance(box))
    {
      assert k in marks;
      var m :| 0 <= m < |marks| && marks[m] == k;
      assert all[m] == k;
    }
    forall i | 0 <= i < j ensures PixelDistance(new_[j], new_[i]) > Marking.Square(Distance(box)) {
      assert all[|marks| + i] == new_[i];
    }
  }

  /** In a row within d, and at most one step outside the circle of radius d. */
  predicate Near(a: Keypoint, b: Keypoint, d: nat) {
    var dx, dy := Marking.Abs(PixelX(a) - PixelX(b)), Marking.Abs(PixelY(a) - PixelY(b));
    dy <= d && (dx == 0 || (dx - 1) * (dx - 1) + dy * dy < d * d)
  }

  lemma MarkedIsNear(m: Keypoint, d: nat, k: Keypoint)
    ensures MarkedBy(m, d, k) <==> Near(k, m, d)
  {
    Marking.MarkedIsDisc(PixelX(m), PixelY(m), d, PixelX(k), PixelY(k));
    Marking.SquareAbs(PixelY(k) - PixelY(m));
  }

  /** Every valid candidate in a box is selected, or near a keypoint of the box, or came after a cap was reached. */
  lemma NoCandidatePassedOver(
    box: Box, width: nat, height: nat, candidates: seq<Keypoint>, selected: seq<Keypoint>, c: nat)
    requires c < |candidates| && box.Contains(candidates[c].pos) && ValidPixel(width, height, candidates[c])
    ensures var picks := NewPicks(box, width, height, candidates, selected);
      || c in picks
      || |InBox(box, selected)| + |picks| >= 16
      || |selected| + |picks| >= 76
      || exists k :: k in InBox(box, selected) + At(candidates, picks) && Near(candidates[c], k, Distance(box))
  {
    hide Distance, Cap, Near, MarkedBy, InBox, Picks;
    var picks := NewPicks(box, width, height, candidates, selected);
    PicksComplete(box, width, height, candidates, 0, InBox(box, selected), Cap(box, selected), c);
    if |picks| == Cap(box, selected) {
      CapTells(box, selected, |picks| + 1);
    } else if c !in picks {
      var marks := InBox(box, selected) + At(candidates, picks);
      var i :| 0 <= i < |marks| && MarkedBy(marks[i], Distance(box), candidates[c]);
      MarkedIsNear(marks[i], Distance(box), candidates[c]);
      assert marks[i] in marks;
    }
  }

  // ---------------------------------------------------------------------------------------
  // The code.

  lemma AtConcat(candidates: seq<Keypoint>, a: seq<nat>, b: seq<nat>)
    requires forall i :: 0 <= i < |a| ==> a[i] < |candidates|
    requires forall i :: 0 <= i < |b| ==> b[i] < |candidates|
    ensures At(candidates, a + b) == At(candidates, a) + At(candidates, b)
  {
  }

  lemma SoundKeypointsValid(width: nat, height: nat, candidates: seq<Keypoint>, picks: seq<nat>)
    requires forall i :: 0 <= i < |picks| ==> picks[i] < |candidates|
    requires Sound(width, height, candidates, picks)
    ensures forall k :: k in At(candidates, picks) ==> ValidPixel(width, height, k)
  {
  }

  /** The keypoints picked. */
  function Picked(box: Box, width: nat, height: nat, candidates: seq<Keypoint>,
                  from: nat, marks: seq<Keypoint>, cap: nat)
    : seq<Keypoint>
    requires from <= |candidates|
  {
    At(candidates, Picks(box, width, height, candidates, from, marks, cap))
  }

  lemma PickedStep(box: Box, width: nat, height: nat, candidates: seq<Keypoint>, i: nat, marks: seq<Keypoint>, cap: nat)
    requires i < |candidates| && cap > 0
    ensures Picked(box, width, height, candidates, i, marks, cap)
         == if Fits(box, width, height, marks, candidates[i])
            then [candidates[i]] + Picked(box, width, height, candidates, i + 1, marks + [candidates[i]], cap - 1)
            else Picked(box, width, height, candidates, i + 1, marks, cap)
  {
    hide Fits;
  }

  /** Nothing is picked beyond the cap, or after the last candidate. */
  lemma PickedEnd(box: Box, width: nat, height: nat, candidates: seq<Keypoint>, marks: seq<Keypoint>, n: nat)
    ensures n <= |candidates| ==> Picked(box, width, height, candidates, n, marks, 0) == []
    ensures Picked(box, width, height, candidates, |candidates|, marks, n) == []
  {
  }

  lemma NewPicksAre(box: Box, width: nat, height: nat, candidates: seq<Keypoint>, selected: seq<Keypoint>)
    ensures NewPicks(box, width, height, candidates, selected)
         == Picks(box, width, height, candidates, 0, InBox(box, selected), Cap(box, selected))
  {
  }

  class Detector {
    const width: nat
    const height: nat
    const interestMap: array2<bool>
    /** Keypoints of the current change. */
    var keypoints: seq<Keypoint>

    ghost predicate Valid()
      reads this
    {
      interestMap.Length0 == height && interestMap.Length1 == width
    }

    constructor (width: nat, height: nat)
      ensures Valid() && this.width == width && this.height == height && fresh(interestMap)
    {
      this.width, this.height := width, height;
      interestMap := new bool[height, width]((_, _) => false);
      keypoints := [];
    }

    /** The map marks exactly what the discs around `marks` cover. */
    ghost predicate Maps(marks: seq<Keypoint>, distance: nat)
      requires Valid()
      reads this, interestMap
    {
      forall x, y :: 0 <= x < width && 0 <= y < height ==>
        (interestMap[y, x] <==>
         exists i :: 0 <= i < |marks| && Marking.Marked(PixelX(marks[i]), PixelY(marks[i]), distance, x, y))
    }

    method Mark(ghost marks: seq<Keypoint>, k: Keypoint, distance: nat)
      requires Valid() && Maps(marks, distance) && ValidPixel(width, height, k)
      modifies interestMap
      ensures Maps(marks + [k], distance)
    {
      hide Marking.Marked;
      Marking.MarkImage(PixelX(k), PixelY(k), distance, interestMap);
      ghost var more := marks + [k];
      assert more[|marks|] == k;
      assert forall i :: 0 <= i < |marks| ==> more[i] == marks[i];
    }

    method SelectKeypointsInBox(box: Box, candidates: seq<Keypoint>, maxKeypoints: int, existing: seq<Keypoint>)
      returns (final: seq<Keypoint>)
      requires Valid()
      requires forall k :: k in existing ==> ValidPixel(width, height, k)
      modifies interestMap
      ensures final == Picked(box, width, height, candidates, 0, InBox(box, existing),
                              if maxKeypoints <= 0 then 0 else maxKeypoints)
    {
      hide Fits, Distance, Maps;
      if maxKeypoints <= 0 {
        return [];
      }
      var distance := Distance(box);
      forall x, y | 0 <= x < width && 0 <= y < height {
        interestMap[y, x] := false;
      }
      ClearMapsNothing(distance);
      ghost var marks: seq<Keypoint> := [];
      for i := 0 to |existing|
        invariant marks == InBox(box, existing[..i]) && Maps(marks, distance)
      {
        assert existing[..i + 1][..i] == existing[..i];
        if box.Contains(existing[i].pos) {
          Mark(marks, existing[i], distance);
          marks := marks + [existing[i]];
        }
      }
      assert existing[..|existing|] == existing;
      final := SelectUncovered(box, candidates, maxKeypoints, marks, distance);
    }

    lemma ClearMapsNothing(distance: nat)
      requires Valid() && forall x, y :: 0 <= x < width && 0 <= y < height ==> !interestMap[y, x]
      ensures Maps([], distance)
    {
    }

    lemma MapTells(marks: seq<Keypoint>, distance: nat, k: Keypoint)
      requires Valid() && Maps(marks, distance) && ValidPixel(width, height, k)
      ensures interestMap[PixelY(k), PixelX(k)] <==> Covered(marks, distance, k)
    {
    }

    /** The second loop: take what still fits, in order, up to the cap. */
    method SelectUncovered(
        box: Box, candidates: seq<Keypoint>, maxKeypoints: nat, ghost start: seq<Keypoint>, distance: nat)
      returns (final: seq<Keypoint>)
      requires Valid() && maxKeypoints > 0 && distance == Distance(box) && Maps(start, distance)
      modifies interestMap
      ensures final == Picked(box, width, height, candidates, 0, start, maxKeypoints)
    {
      hide Distance, Maps, Truncate, Covered, Picked, Box.Contains;
      final := [];
      ghost var marks := start;
      ghost var wanted := Picked(box, width, height, candidates, 0, start, maxKeypoints);
      var i := 0;
      while i < |candidates|
        invariant i <= |candidates| && |final| < maxKeypoints
        invariant Maps(marks, distance)
        invariant wanted == final + Picked(box, width, height, candidates, i, marks, maxKeypoints - |final|)
      {
        var k := candidates[i];
        PickedStep(box, width, height, candidates, i, marks, maxKeypoints - |final|);
        if box.Contains(k.pos) && ValidPixel(width, height, k) {
          MapTells(marks, distance, k);
          if !interestMap[PixelY(k), PixelX(k)] {
            final := final + [k];
            if |final| >= maxKeypoints {
              PickedEnd(box, width, height, candidates, marks + [k], i + 1);
              return;
            }
            Mark(marks, k, distance);
            marks := marks + [k];
          }
        }
        i := i + 1;
      }
      PickedEnd(box, width, height, candidates, marks, maxKeypoints - |final|);
    }

    method SelectKeypoints(boxes: seq<Box>, candidates: seq<Keypoint>)
      requires Valid()
      modifies this`keypoints, interestMap
      ensures Valid()
      ensures keypoints == At(candidates, Selection(boxes, width, height, candidates, |boxes|))
    {
      hide NewPicks, Sound, Picks, InBox, Box.Contains, At;
      keypoints := [];
      for n := 0 to |boxes|
        invariant Valid()
        invariant keypoints == At(candidates, Selection(boxes, width, height, candidates, n))
      {
        var box := boxes[n];
        var alreadyInBox := CountInBox(box);
        ghost var picks := Selection(boxes, width, height, candidates, n);
        SelectionSound(boxes, width, height, candidates, n);
        SoundKeypointsValid(width, height, candidates, picks);
        var maxToFind := Min(MAX_KEYPOINTS_FOR_OBJECT - alreadyInBox, FramePairs.MAX_KEYPOINTS - |keypoints|);
        var found := SelectKeypointsInBox(box, candidates, maxToFind, keypoints);
        ghost var more := NewPicks(box, width, height, candidates, keypoints);
        NewPicksAre(box, width, height, candidates, keypoints);
        AtConcat(candidates, picks, more);
        keypoints := keypoints + found;
      }
    }

    method CountInBox(box: Box) returns (count: nat)
      ensures count == |InBox(box, keypoints)|
    {
      count := 0;
      for i := 0 to |keypoints|
        invariant count == |InBox(box, keypoints[..i])|
      {
        assert keypoints[..i + 1][..i] == keypoints[..i];
        if box.Contains(keypoints[i].pos) {
          count := count + 1;
        }
      }
      assert keypoints[..|keypoints|] == keypoints;
    }
  }
}
