/** "Filled chiclet" stepping: a keyboard step of exactly 6 snaps onto the
    threshold table drawn as the on-screen chiclets instead of adding 6. */
module FilledChiclets {
  import opened Common

  /** `FILLED_CHICLETS_THRESHOLDS`; every entry of Lunar's `Float` table is whole. */
  const FilledChicletsThresholds: seq<int> :=
    [0, 6, 12, 19, 25, 31, 37, 44, 50, 56, 62, 69, 75, 81, 87, 94, 100]

  /** The shape of the threshold table the stepping properties rely on:
      non-empty, and consecutive entries are 6 to 11 apart. */
  ghost predicate WellSpaced(t: seq<int>) {
    |t| > 0 && forall i :: 0 < i < |t| ==> 6 <= t[i] - t[i - 1] <= 11
  }

  /** The index that `enumerated().min(by: <=)` picks from the distances of `t`
      to `x`: a closest entry, and of several equally close entries the last,
      because the scan replaces its candidate whenever the next distance is `<=`. */
  function NearestIndex(t: seq<int>, x: int): (i: nat)
    requires |t| > 0
    ensures i < |t|
    ensures forall j :: 0 <= j < |t| ==> Abs(t[i] - x) <= Abs(t[j] - x)
    ensures forall j :: i < j < |t| ==> Abs(t[i] - x) < Abs(t[j] - x)
    decreases |t|
  {
    if |t| == 1 then 0
    else
      var k := NearestIndex(t[..|t| - 1], x);
      if Abs(t[|t| - 1] - x) <= Abs(t[k] - x) then |t| - 1 else k
  }

  /** `getFilledChicletValue` over an arbitrary threshold table `t`. */
  function SnapToThresholds(t: seq<int>, value: int, offset: int): (r: int)
    requires |t| > 0
    ensures Abs(offset) != 6 ==> r == value + offset
    ensures Abs(offset) == 6 ==> r in t
  {
    var newValue := value + offset;
    if Abs(offset) != 6 then newValue
    else
      var index := NearestIndex(t, newValue);
      var backupIndex := Cap(index + (if offset < 0 then -1 else 1), 0, |t| - 1);
      if t[index] != value then t[index] else t[backupIndex]
  }

  /** `getFilledChicletValue(value, offset:)` on Lunar's own table. */
  function FilledChicletValue(value: int, offset: int): (r: int)
    ensures Abs(offset) != 6 ==> r == value + offset
    ensures Abs(offset) == 6 ==> r in FilledChicletsThresholds && 0 <= r <= 100
  {
    ThresholdsWellSpaced();
    SnapWithinTable(FilledChicletsThresholds, value, offset);
    SnapToThresholds(FilledChicletsThresholds, value, offset)
  }

  lemma ThresholdsWellSpaced()
    ensures WellSpaced(FilledChicletsThresholds)
  {
    var t := FilledChicletsThresholds;
    forall i | 0 < i < |t|
      ensures 6 <= t[i] - t[i - 1] <= 11
    {
      if i <= 8 {
        assert t[..9] == [0, 6, 12, 19, 25, 31, 37, 44, 50];
      } else {
        assert t[8..] == [50, 56, 62, 69, 75, 81, 87, 94, 100];
        assert t[i] == t[8..][i - 8] && t[i - 1] == t[8..][i - 9];
      }
    }
  }

  /** Entries further apart in the table differ by at least 6 per position. */
  lemma {:induction false} SpacedApart(t: seq<int>, i: nat, j: nat)
    requires WellSpaced(t) && i < j < |t|
    ensures t[j] - t[i] >= 6 * (j - i)
    decreases j
  {
    if i + 1 < j {
      SpacedApart(t, i, j - 1);
    }
  }

  /** Every entry of a well-spaced table lies between its first and last entries. */
  lemma InTableBounds(t: seq<int>, v: int)
    requires WellSpaced(t) && v in t
    ensures t[0] <= v <= t[|t| - 1]
  {
    var k :| 0 <= k < |t| && t[k] == v;
    if 0 < k { SpacedApart(t, 0, k); }
    if k < |t| - 1 { SpacedApart(t, k, |t| - 1); }
  }

  /** A step of 6 never leaves the span of the table. */
  lemma SnapWithinTable(t: seq<int>, value: int, offset: int)
    requires WellSpaced(t)
    ensures Abs(offset) == 6 ==> t[0] <= SnapToThresholds(t, value, offset) <= t[|t| - 1]
  {
    if Abs(offset) == 6 {
      InTableBounds(t, SnapToThresholds(t, value, offset));
    }
  }

  /** An index whose entry is strictly closest to `x` is the one picked. */
  lemma NearestIsUnique(t: seq<int>, x: int, m: nat)
    requires m < |t|
    requires forall j :: 0 <= j < |t| && j != m ==> Abs(t[m] - x) < Abs(t[j] - x)
    ensures NearestIndex(t, x) == m
  {
  }

  /** From a table entry, a step of +6 lands on the next entry, or stays on the last one. */
  lemma StepUpFromEntry(t: seq<int>, k: nat)
    requires WellSpaced(t) && k < |t|
    ensures SnapToThresholds(t, t[k], 6) == t[if k + 1 < |t| then k + 1 else k]
  {
    var x := t[k] + 6;
    var m := if k + 1 < |t| then k + 1 else k;
    forall j | 0 <= j < |t| && j != m
      ensures Abs(t[m] - x) < Abs(t[j] - x)
    {
      if j < k { SpacedApart(t, j, k); }
      if m + 1 < j { SpacedApart(t, m + 1, j); }
    }
    NearestIsUnique(t, x, m);
  }

  /** From a table entry, a step of -6 lands on the previous entry, or stays on the first one. */
  lemma StepDownFromEntry(t: seq<int>, k: nat)
    requires WellSpaced(t) && k < |t|
    ensures SnapToThresholds(t, t[k], -6) == t[if k > 0 then k - 1 else 0]
  {
    var x := t[k] - 6;
    var m := if k > 0 then k - 1 else 0;
    forall j | 0 <= j < |t| && j != m
      ensures Abs(t[m] - x) < Abs(t[j] - x)
    {
      if k < j { SpacedApart(t, k, j); }
      if j + 1 < m { SpacedApart(t, j, m - 1); }
    }
    NearestIsUnique(t, x, m);
  }

  lemma FirstAbove(t: seq<int>, v: int) returns (j: nat)
    requires |t| > 0 && v < t[|t| - 1]
    ensures j < |t| && v < t[j] && (j == 0 || t[j - 1] <= v)
  {
    j := |t| - 1;
    while j > 0 && v < t[j - 1]
      invariant j < |t| && v < t[j]
    {
      j := j - 1;
    }
  }

  lemma LastBelow(t: seq<int>, v: int) returns (j: nat)
    requires |t| > 0 && t[0] < v
    ensures j < |t| && t[j] < v && (j == |t| - 1 || v <= t[j + 1])
  {
    j := 0;
    while j < |t| - 1 && t[j + 1] < v
      invariant j < |t| && t[j] < v
    {
      j := j + 1;
    }
  }

  /** A +6 step below the top of the table always moves the value up. */
  lemma StepUpProgresses(t: seq<int>, v: int)
    requires WellSpaced(t) && v < t[|t| - 1]
    ensures SnapToThresholds(t, v, 6) > v
  {
    var x := v + 6;
    var i := NearestIndex(t, x);
    var j := FirstAbove(t, v);
    if j == 0 {
      if 0 < i { SpacedApart(t, 0, i); }
    } else {
      assert Abs(t[i] - x) <= Abs(t[j] - x) <= 5;
    }
  }

  /** A -6 step above the bottom of the table always moves the value down. */
  lemma StepDownProgresses(t: seq<int>, v: int)
    requires WellSpaced(t) && t[0] < v
    ensures SnapToThresholds(t, v, -6) < v
  {
    var x := v - 6;
    var i := NearestIndex(t, x);
    var j := LastBelow(t, v);
    if j == |t| - 1 {
      if i < j { SpacedApart(t, i, j); }
    } else {
      assert Abs(t[i] - x) <= Abs(t[j] - x) <= 5;
    }
  }

  /** A step of 6 leaves the value where it was exactly at the first entry going
      down and at the last entry going up, where the backup index is clamped. */
  lemma StaysOnlyAtEnds(t: seq<int>, v: int, offset: int)
    requires WellSpaced(t) && Abs(offset) == 6
    ensures SnapToThresholds(t, v, offset) == v <==>
              (offset < 0 && v == t[0]) || (offset > 0 && v == t[|t| - 1])
  {
    var n := |t|;
    if offset > 0 {
      if v < t[n - 1] {
        StepUpProgresses(t, v);
      } else if v == t[n - 1] {
        StepUpFromEntry(t, n - 1);
      } else {
        InTableBounds(t, SnapToThresholds(t, v, offset));
      }
    } else {
      if t[0] < v {
        StepDownProgresses(t, v);
      } else if v == t[0] {
        StepDownFromEntry(t, 0);
      } else {
        InTableBounds(t, SnapToThresholds(t, v, offset));
      }
    }
  }

  /** Stepping on Lunar's table: from an entry a key press moves to the
      neighbouring entry, and the value only stays put at 0 going down and at 100
      going up. */
  lemma FilledChicletStepping(k: nat, v: int, offset: int)
    requires k < |FilledChicletsThresholds| && Abs(offset) == 6
    ensures var t := FilledChicletsThresholds;
            FilledChicletValue(t[k], 6) == t[if k + 1 < |t| then k + 1 else k] &&
            FilledChicletValue(t[k], -6) == t[if k > 0 then k - 1 else 0]
    ensures FilledChicletValue(v, offset) == v <==> (offset < 0 && v == 0) || (offset > 0 && v == 100)
    ensures offset > 0 && v < 100 ==> FilledChicletValue(v, offset) > v
    ensures offset < 0 && v > 0 ==> FilledChicletValue(v, offset) < v
  {
    var t := FilledChicletsThresholds;
    ThresholdsWellSpaced();
    StepUpFromEntry(t, k);
    StepDownFromEntry(t, k);
    StaysOnlyAtEnds(t, v, offset);
    if offset > 0 && v < 100 { StepUpProgresses(t, v); }
    if offset < 0 && v > 0 { StepDownProgresses(t, v); }
  }

  /** From 6, a +6 key step reaches the next chiclet, 12. */
  lemma ChicletStepFromSix()
    ensures FilledChicletValue(6, 6) == 12
  {
    var t := FilledChicletsThresholds;
    ThresholdsWellSpaced();
    assert t[1] == 6;
    StepUpFromEntry(t, 1);
    assert SnapToThresholds(t, t[1], 6) == t[2];
  }

  /** At the ends of the table a key step stays put; other steps add. */
  lemma ChicletEndExamples()
    ensures FilledChicletValue(100, 6) == 100
    ensures FilledChicletValue(0, -6) == 0
    ensures FilledChicletValue(50, 3) == 53
  {
    FilledChicletStepping(16, 100, 6);
    FilledChicletStepping(0, 0, -6);
  }

  /** The last index among the closest entries is the one picked. */
  lemma NearestIsLastClosest(t: seq<int>, x: int, m: nat)
    requires m < |t|
    requires forall j :: 0 <= j < m ==> Abs(t[m] - x) <= Abs(t[j] - x)
    requires forall j :: m < j < |t| ==> Abs(t[m] - x) < Abs(t[j] - x)
    ensures NearestIndex(t, x) == m
  {
  }

  /** A +6 step that aims exactly between two neighbouring entries lands on the
      later one, since the scan keeps the last of equally close entries. */
  lemma StepTieGoesUp(t: seq<int>, value: int, i: nat)
    requires WellSpaced(t) && i + 1 < |t|
    requires (value + 6) - t[i] == t[i + 1] - (value + 6) && t[i + 1] != value
    ensures SnapToThresholds(t, value, 6) == t[i + 1]
  {
    var x := value + 6;
    forall j | 0 <= j < i + 1
      ensures Abs(t[i + 1] - x) <= Abs(t[j] - x)
    {
      if j < i { SpacedApart(t, j, i); }
    }
    forall j | i + 1 < j < |t|
      ensures Abs(t[i + 1] - x) < Abs(t[j] - x)
    {
      SpacedApart(t, i + 1, j);
    }
    NearestIsLastClosest(t, x, i + 1);
  }

  /** From 3 a +6 step aims at 9, which is as far from 6 as from 12: the later
      entry wins the tie, so the result is 12. */
  lemma ChicletTieExample()
    ensures FilledChicletValue(3, 6) == 12
  {
    var t := FilledChicletsThresholds;
    ThresholdsWellSpaced();
    assert t[1] == 6 && t[2] == 12;
    StepTieGoesUp(t, 3, 1);
  }
}
