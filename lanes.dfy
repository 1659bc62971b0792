/**
 * The pure parts of the lane packer in src/ts/model/Data.ts: the doubling
 * ring of candidate angles (`lanesAtRadius`), the nearest-value helper
 * (`closest`), the proximity order of candidates, and the first-fit choice
 * `addToLane` makes, with the lane registry it leaves behind.
 */
module Lanes {
  import opened Wrappers
  import opened Settings
  import opened Scales
  import opened Skills
  import opened Sorting

  function Abs(x: real): real
  {
    if x < 0.0 then -x else x
  }

  function Pow2(k: nat): (p: nat)
    ensures p >= 1
  {
    if k == 0 then 1 else 2 * Pow2(k - 1)
  }

  /**
   * `ring`: the largest k with InitialCount * 2^k <= maxCount, or 0 when
   * maxCount < InitialCount (where the source's floor of a negative, or of
   * log2(0) = -Infinity, is clamped to 0).
   */
  function Ring(maxCount: nat): (k: nat)
    ensures maxCount >= InitialCount ==> InitialCount * Pow2(k) <= maxCount
    ensures maxCount < InitialCount * Pow2(k + 1)
    ensures maxCount < InitialCount ==> k == 0
  {
    if maxCount < 2 * InitialCount then 0
    else
      var k' := Ring(maxCount / 2);
      assert InitialCount * Pow2(k' + 1) == 2 * (InitialCount * Pow2(k'));
      assert InitialCount * Pow2(k' + 2) == 2 * (InitialCount * Pow2(k' + 1));
      1 + k'
  }

  /** `count`: the number of lanes on the ring for `maxCount` slots. */
  function LaneCount(maxCount: nat): nat
  {
    InitialCount * Pow2(Ring(maxCount))
  }

  /** `Array(count).fill(0).map((v, i) => (i * 360) / count)` */
  function EvenDivision(count: nat): (r: seq<real>)
    ensures |r| == count
  {
    seq(count, i requires 0 <= i < count => (i * 360) as real / count as real)
  }

  /** `lanesAtRadius`, with `maxCount` (the slots that fit around the circle) as input. */
  function LanesAtRadius(maxCount: nat): (r: seq<real>)
    ensures |r| == LaneCount(maxCount)
  {
    EvenDivision(LaneCount(maxCount))
  }

  /**
   * The lane count is a multiple of InitialCount, at least InitialCount,
   * at most `maxCount` when that many slots fit, and more than half of it.
   */
  lemma LaneCountBounds(maxCount: nat)
    ensures LaneCount(maxCount) >= InitialCount
    ensures LaneCount(maxCount) % InitialCount == 0
    ensures maxCount >= InitialCount ==> LaneCount(maxCount) <= maxCount
    ensures maxCount < 2 * LaneCount(maxCount)
  {
    var k := Ring(maxCount);
    assert InitialCount * Pow2(k + 1) == 2 * (InitialCount * Pow2(k));
  }

  /** Evenly spread fractions of the circle lie in [0, 360) and increase strictly. */
  lemma EvenAngles(count: nat)
    requires count > 0
    ensures forall i :: 0 <= i < count ==> 0.0 <= (i * 360) as real / count as real < 360.0
    ensures forall i, j :: 0 <= i < j < count ==>
      (i * 360) as real / count as real < (j * 360) as real / count as real
  {
    forall i | 0 <= i < count ensures 0.0 <= (i * 360) as real / count as real < 360.0 {
      EvenAngleBelow(i, count);
    }
    forall i, j | 0 <= i < j < count ensures (i * 360) as real / count as real < (j * 360) as real / count as real {
      DivideBelow((i * 360) as real, (j * 360) as real, count as real);
    }
  }

  lemma EvenAngleBelow(i: nat, count: nat)
    requires i < count
    ensures 0.0 <= (i * 360) as real / count as real < 360.0
  {
    var c := count as real;
    assert (i * 360) as real < (count * 360) as real;
    DivideBelow((i * 360) as real, (count * 360) as real, c);
    assert (count * 360) as real == 360.0 * c;
    assert (count * 360) as real / c == 360.0;
  }

  lemma DivideBelow(x: real, y: real, c: real)
    requires 0.0 <= x < y && c > 0.0
    ensures 0.0 <= x / c < y / c
  {
    assert x / c * c == x;
    assert y / c * c == y;
  }

  /**
   * The candidate angles split the circle evenly: element i is i*360/count,
   * they increase strictly from 0 and all lie in [0, 360).
   */
  lemma LaneAngles(maxCount: nat)
    ensures var r, count := LanesAtRadius(maxCount), LaneCount(maxCount);
      && |r| == count && r[0] == 0.0
      && (forall i :: 0 <= i < count ==> r[i] == (i * 360) as real / count as real)
      && (forall i :: 0 <= i < count ==> 0.0 <= r[i] < 360.0)
      && StrictlyIncreasing(r)
  {
    LaneCountBounds(maxCount);
    EvenAngles(LaneCount(maxCount));
  }

  lemma {:induction false} RingMonotone(m1: nat, m2: nat)
    requires m1 <= m2
    ensures Ring(m1) <= Ring(m2)
  {
    if m1 >= 2 * InitialCount {
      RingMonotone(m1 / 2, m2 / 2);
    }
  }

  lemma {:induction false} Pow2Split(a: nat, b: nat)
    ensures Pow2(a + b) == Pow2(a) * Pow2(b)
  {
    if a > 0 {
      Pow2Split(a - 1, b);
    }
  }

  /**
   * More slots never mean fewer lanes: the count grows by whole multiples,
   * so every angle of the smaller ring is also an angle of the larger one.
   */
  lemma LanesNested(m1: nat, m2: nat)
    requires m1 <= m2
    ensures Ring(m1) <= Ring(m2)
    ensures LaneCount(m2) == LaneCount(m1) * Pow2(Ring(m2) - Ring(m1))
    ensures LaneCount(m1) <= LaneCount(m2)
    ensures forall a :: a in LanesAtRadius(m1) ==> a in LanesAtRadius(m2)
  {
    NestedCounts(m1, m2);
    LaneCountBounds(m1);
    SubDivision(LaneCount(m1), Pow2(Ring(m2) - Ring(m1)));
  }

  lemma NestedCounts(m1: nat, m2: nat)
    requires m1 <= m2
    ensures Ring(m1) <= Ring(m2)
    ensures LaneCount(m2) == LaneCount(m1) * Pow2(Ring(m2) - Ring(m1))
    ensures LaneCount(m1) <= LaneCount(m2)
  {
    RingMonotone(m1, m2);
    var k1, k2 := Ring(m1), Ring(m2);
    CountFactor(k1, k2);
    MulMonotone(1, Pow2(k2 - k1), LaneCount(m1));
  }

  /** Every angle of the even c-division is one of the even (c*d)-division. */
  lemma SubDivision(c: nat, d: nat)
    requires c > 0 && d > 0
    ensures forall a :: a in EvenDivision(c) ==> a in EvenDivision(c * d)
  {
    forall a | a in EvenDivision(c) ensures a in EvenDivision(c * d) {
      SubAngle(c, d, a);
    }
  }

  lemma CountFactor(k1: nat, k2: nat)
    requires k1 <= k2
    ensures InitialCount * Pow2(k2) == (InitialCount * Pow2(k1)) * Pow2(k2 - k1)
  {
    Pow2Split(k1, k2 - k1);
    var p, d := Pow2(k1), Pow2(k2 - k1);
    assert Pow2(k2) == p * d;
    assert InitialCount * (p * d) == (InitialCount * p) * d;
  }

  lemma {:induction false} MulMonotone(a: nat, b: nat, d: nat)
    requires a <= b
    ensures a * d <= b * d
  {
    if d > 0 {
      MulMonotone(a, b, d - 1);
      assert a * d == a * (d - 1) + a;
      assert b * d == b * (d - 1) + b;
    }
  }

  /** An angle of the even c-division is one of the even (c*d)-division. */
  lemma SubAngle(c: nat, d: nat, a: real)
    requires c > 0 && d > 0
    requires a in EvenDivision(c)
    ensures a in EvenDivision(c * d)
  {
    var r1, r2 := EvenDivision(c), EvenDivision(c * d);
    var i :| 0 <= i < c && r1[i] == a;
    var j := i * d;
    MulMonotone(i + 1, c, d);
    assert (i + 1) * d == j + d;
    CancelFactor(i, c, d);
    assert r2[j] == a;
  }

  /** (i*d*360) / (c*d) == (i*360) / c */
  lemma CancelFactor(i: nat, c: nat, d: nat)
    requires c > 0 && d > 0
    ensures (i * d * 360) as real / (c * d) as real == (i * 360) as real / c as real
  {
    var x, y, dr := (i * 360) as real, c as real, d as real;
    assert (i * d * 360) as real == x * dr;
    assert (c * d) as real == y * dr;
    assert (x * dr) / (y * dr) == x / y;
  }

  // ---- closest ---------------------------------------------------------------

  /** One step of the `reduce` in `closest`: equal distances go to the larger value. */
  function Nearer(needle: real, a: real, b: real): (r: real)
    ensures r == a || r == b
    ensures Abs(r - needle) <= Abs(a - needle) && Abs(r - needle) <= Abs(b - needle)
    ensures Abs(a - needle) == Abs(b - needle) ==> a <= r && b <= r
  {
    if Abs(a - needle) == Abs(b - needle) then (if a > b then a else b)
    else if Abs(b - needle) < Abs(a - needle) then b
    else a
  }

  /** The `reduce` of `closest`, left to right from the accumulator `acc`. */
  function ClosestFrom(needle: real, acc: real, rest: seq<real>): (r: real)
    ensures r == acc || r in rest
    ensures Abs(r - needle) < Abs(acc - needle) || (Abs(r - needle) == Abs(acc - needle) && acc <= r)
    ensures forall x :: x in rest ==>
      Abs(r - needle) < Abs(x - needle) || (Abs(r - needle) == Abs(x - needle) && x <= r)
    decreases |rest|
  {
    if rest == [] then acc
    else
      assert forall x :: x in rest ==> x == rest[0] || x in rest[1..];
      ClosestFrom(needle, Nearer(needle, acc, rest[0]), rest[1..])
  }

  /**
   * `closest`: an element of the non-empty haystack nearest to the needle,
   * the largest one among equally near elements.
   */
  function Closest(needle: real, haystack: seq<real>): (r: real)
    requires |haystack| > 0
    ensures r in haystack
    ensures forall x :: x in haystack ==> Abs(r - needle) <= Abs(x - needle)
    ensures forall x :: x in haystack && Abs(x - needle) == Abs(r - needle) ==> x <= r
  {
    assert forall x :: x in haystack ==> x == haystack[0] || x in haystack[1..];
    ClosestFrom(needle, haystack[0], haystack[1..])
  }

  // ---- candidate order -------------------------------------------------------

  /** The sort key of `addToLane`: unwrapped distance, no wrap-around at 360. */
  function DistanceFrom(angle: real): real -> real
  {
    a => Abs(a - angle)
  }

  /** The lane angles of the ring in the order `addToLane` tries them. */
  function Candidates(maxCount: nat, angle: real): (c: seq<real>)
    ensures multiset(c) == multiset(LanesAtRadius(maxCount))
    ensures |c| == LaneCount(maxCount)
  {
    SortBy(LanesAtRadius(maxCount), DistanceFrom(angle))
  }

  /**
   * The candidates are the ring's lane angles, each once, by ascending
   * distance from the preferred angle, the smaller angle first on a tie.
   */
  lemma CandidateOrder(maxCount: nat, angle: real)
    ensures var c := Candidates(maxCount, angle);
      && multiset(c) == multiset(LanesAtRadius(maxCount))
      && forall i, j :: 0 <= i < j < |c| ==>
           Abs(c[i] - angle) < Abs(c[j] - angle)
           || (Abs(c[i] - angle) == Abs(c[j] - angle) && c[i] < c[j])
  {
    LaneAngles(maxCount);
    SortByTiesAscending(LanesAtRadius(maxCount), DistanceFrom(angle));
  }

  /**
   * The first candidate is as near as `closest` would choose, but on a tie
   * it is the smaller of the two angles while `closest` takes the larger.
   */
  lemma FirstCandidateVersusClosest(maxCount: nat, angle: real)
    ensures var c, l := Candidates(maxCount, angle), LanesAtRadius(maxCount);
      && |c| > 0 && |l| > 0
      && Abs(c[0] - angle) == Abs(Closest(angle, l) - angle)
      && c[0] <= Closest(angle, l)
  {
    var c, l := Candidates(maxCount, angle), LanesAtRadius(maxCount);
    CandidateOrder(maxCount, angle);
    LaneCountBounds(maxCount);
    FirstVersusClosest(c, l, angle);
  }

  lemma FirstVersusClosest(c: seq<real>, l: seq<real>, angle: real)
    requires |l| > 0 && multiset(c) == multiset(l)
    requires forall i, j :: 0 <= i < j < |c| ==>
      Abs(c[i] - angle) < Abs(c[j] - angle) || (Abs(c[i] - angle) == Abs(c[j] - angle) && c[i] < c[j])
    ensures |c| > 0
    ensures Abs(c[0] - angle) == Abs(Closest(angle, l) - angle) && c[0] <= Closest(angle, l)
  {
    assert |c| == |multiset(l)| == |l|;
    var x := Closest(angle, l);
    assert x in multiset(c);
    var j :| 0 <= j < |c| && c[j] == x;
    assert c[0] in multiset(l);
    assert c[0] in l;
  }

  // ---- first fit -------------------------------------------------------------

  /** The lane at `a`, an absent lane reading as empty (the lazy `lanes.set(angle, [])`). */
  function LaneAt(lanes: map<real, seq<Skill>>, a: real): seq<Skill>
  {
    if a in lanes then lanes[a] else []
  }

  /** The lane at `a` can take `skill`: it is empty or its last bar ends a margin before the skill starts. */
  predicate Admits(lanes: map<real, seq<Skill>>, a: real, skill: Skill, sc: Scale)
  {
    var lane := LaneAt(lanes, a);
    |lane| == 0 || lane[|lane| - 1].Total(sc).end + SkillMargin <= skill.Total(sc).start
  }

  function FirstFitFrom(lanes: map<real, seq<Skill>>, cands: seq<real>, i: nat, skill: Skill, sc: Scale): (k: Option<nat>)
    requires i <= |cands|
    ensures k.Some? ==> i <= k.value < |cands| && Admits(lanes, cands[k.value], skill, sc)
    ensures k.Some? ==> forall j :: i <= j < k.value ==> !Admits(lanes, cands[j], skill, sc)
    ensures k.None? ==> forall j :: i <= j < |cands| ==> !Admits(lanes, cands[j], skill, sc)
    decreases |cands| - i
  {
    if i == |cands| then None
    else if Admits(lanes, cands[i], skill, sc) then Some(i)
    else FirstFitFrom(lanes, cands, i + 1, skill, sc)
  }

  /**
   * The position of the lane `addToLane` picks: the first admitting
   * candidate, every earlier one being non-empty with a last bar that ends
   * too late; none when no candidate admits the skill.
   */
  function FirstFit(lanes: map<real, seq<Skill>>, cands: seq<real>, skill: Skill, sc: Scale): (k: Option<nat>)
    ensures k.Some? ==> k.value < |cands| && Admits(lanes, cands[k.value], skill, sc)
    ensures k.Some? ==> forall j :: 0 <= j < k.value ==>
      var lane := LaneAt(lanes, cands[j]);
      |lane| > 0 && lane[|lane| - 1].Total(sc).end + SkillMargin > skill.Total(sc).start
    ensures k.None? ==> forall j :: 0 <= j < |cands| ==> !Admits(lanes, cands[j], skill, sc)
  {
    FirstFitFrom(lanes, cands, 0, skill, sc)
  }

  /**
   * Of all lanes on the ring that admit the skill, the chosen one is the
   * nearest to the preferred angle, the smaller angle on a tie; when no lane
   * is chosen, none on the ring admits it.
   */
  lemma NearestAdmittingLane(lanes: map<real, seq<Skill>>, maxCount: nat, angle: real, skill: Skill, sc: Scale)
    ensures var c := Candidates(maxCount, angle);
      match FirstFit(lanes, c, skill, sc)
      case Some(k) =>
        forall a :: a in LanesAtRadius(maxCount) && Admits(lanes, a, skill, sc) ==>
          Abs(c[k] - angle) < Abs(a - angle) || (Abs(c[k] - angle) == Abs(a - angle) && c[k] <= a)
      case None =>
        forall a :: a in LanesAtRadius(maxCount) ==> !Admits(lanes, a, skill, sc)
  {
    CandidateOrder(maxCount, angle);
    NearestOf(lanes, Candidates(maxCount, angle), LanesAtRadius(maxCount), angle, skill, sc);
  }

  lemma NearestOf(lanes: map<real, seq<Skill>>, c: seq<real>, l: seq<real>, angle: real, skill: Skill, sc: Scale)
    requires multiset(c) == multiset(l)
    requires forall i, j :: 0 <= i < j < |c| ==>
      Abs(c[i] - angle) < Abs(c[j] - angle) || (Abs(c[i] - angle) == Abs(c[j] - angle) && c[i] < c[j])
    ensures match FirstFit(lanes, c, skill, sc)
      case Some(k) =>
        forall a :: a in l && Admits(lanes, a, skill, sc) ==>
          Abs(c[k] - angle) < Abs(a - angle) || (Abs(c[k] - angle) == Abs(a - angle) && c[k] <= a)
      case None =>
        forall a :: a in l ==> !Admits(lanes, a, skill, sc)
  {
    var ff := FirstFit(lanes, c, skill, sc);
    SameElements(c, l);
    if ff.Some? {
      var k := ff.value;
      forall a | a in l && Admits(lanes, a, skill, sc)
        ensures Abs(c[k] - angle) < Abs(a - angle) || (Abs(c[k] - angle) == Abs(a - angle) && c[k] <= a)
      {
        var j :| 0 <= j < |c| && c[j] == a;
        assert k <= j;
      }
    }
  }

  lemma SameElements(c: seq<real>, l: seq<real>)
    requires multiset(c) == multiset(l)
    ensures forall a :: a in l ==> a in c
  {
    forall a | a in l ensures a in c {
      assert a in multiset(c);
    }
  }

  // ---- the lane registry ---------------------------------------------------

  /** Adds an empty lane for every examined angle that had none. */
  function WithEmptyLanes(lanes: map<real, seq<Skill>>, cands: seq<real>): (m: map<real, seq<Skill>>)
  {
    map a | a in lanes.Keys + (set c | c in cands) :: LaneAt(lanes, a)
  }

  /** The registry after appending `skill` to the lane of `cands[k]`, having examined `cands[..k + 1]`. */
  function AppendAt(lanes: map<real, seq<Skill>>, cands: seq<real>, k: nat, skill: Skill): map<real, seq<Skill>>
    requires k < |cands|
  {
    WithEmptyLanes(lanes, cands[..k])[cands[k] := LaneAt(lanes, cands[k]) + [skill]]
  }

  /** The registry after `addToLane`: lanes created for the candidates examined, the skill at the end of the chosen one. */
  function Place(lanes: map<real, seq<Skill>>, cands: seq<real>, skill: Skill, sc: Scale): map<real, seq<Skill>>
  {
    match FirstFit(lanes, cands, skill, sc)
    case Some(k) => AppendAt(lanes, cands, k, skill)
    case None => WithEmptyLanes(lanes, cands)
  }

  /**
   * On success the skill is appended to exactly the chosen lane, every other
   * lane keeps its contents, and only examined candidates gain (empty) keys;
   * when nothing admits the skill no lane gains it.
   */
  lemma PlaceEffect(lanes: map<real, seq<Skill>>, cands: seq<real>, skill: Skill, sc: Scale)
    ensures var p := Place(lanes, cands, skill, sc);
      match FirstFit(lanes, cands, skill, sc)
      case Some(k) =>
        && LaneAt(p, cands[k]) == LaneAt(lanes, cands[k]) + [skill]
        && (forall a :: a != cands[k] ==> LaneAt(p, a) == LaneAt(lanes, a))
        && (forall a :: a in p <==> a in lanes || a in cands[..k + 1])
      case None =>
        && (forall a :: LaneAt(p, a) == LaneAt(lanes, a))
        && (forall a :: a in p <==> a in lanes || a in cands)
  {
    match FirstFit(lanes, cands, skill, sc)
    case Some(k) =>
      AppendAtEffect(lanes, cands, k, skill);
    case None =>
      WithEmptyLanesEffect(lanes, cands);
  }

  lemma AppendAtEffect(lanes: map<real, seq<Skill>>, cands: seq<real>, k: nat, skill: Skill)
    requires k < |cands|
    ensures var p := AppendAt(lanes, cands, k, skill);
      && LaneAt(p, cands[k]) == LaneAt(lanes, cands[k]) + [skill]
      && (forall a :: a != cands[k] ==> LaneAt(p, a) == LaneAt(lanes, a))
      && (forall a :: a in p <==> a in lanes || a in cands[..k + 1])
  {
    var w := WithEmptyLanes(lanes, cands[..k]);
    WithEmptyLanesEffect(lanes, cands[..k]);
    var p := AppendAt(lanes, cands, k, skill);
    assert cands[..k + 1] == cands[..k] + [cands[k]];
    forall a ensures a in p <==> a in lanes || a in cands[..k + 1] {
      assert a in p <==> a in w || a == cands[k];
      assert a in cands[..k + 1] <==> a in cands[..k] || a == cands[k];
    }
  }

  lemma WithEmptyLanesEffect(lanes: map<real, seq<Skill>>, cands: seq<real>)
    ensures forall a :: LaneAt(WithEmptyLanes(lanes, cands), a) == LaneAt(lanes, a)
    ensures forall a :: a in WithEmptyLanes(lanes, cands) <==> a in lanes || a in cands
  {
  }

  /** No two consecutive bars of a lane overlap, a margin apart at least. */
  ghost predicate NoOverlap(lanes: map<real, seq<Skill>>, sc: Scale)
  {
    forall a, i :: a in lanes && 0 <= i < |lanes[a]| - 1 ==>
      lanes[a][i].Total(sc).end + SkillMargin <= lanes[a][i + 1].Total(sc).start
  }

  /** `addToLane` keeps every lane free of overlaps. */
  lemma PlaceKeepsNoOverlap(lanes: map<real, seq<Skill>>, cands: seq<real>, skill: Skill, sc: Scale)
    requires NoOverlap(lanes, sc)
    ensures NoOverlap(Place(lanes, cands, skill, sc), sc)
  {
    var p: map<real, seq<Skill>> := Place(lanes, cands, skill, sc);
    PlaceEffect(lanes, cands, skill, sc);
    forall a: real, i: int | a in p && 0 <= i < |p[a]| - 1
      ensures p[a][i].Total(sc).end + SkillMargin <= p[a][i + 1].Total(sc).start
    {
      assert p[a] == LaneAt(p, a);
      match FirstFit(lanes, cands, skill, sc)
      case Some(k) =>
        if a == cands[k] && i == |p[a]| - 2 {
          assert Admits(lanes, cands[k], skill, sc);
        } else {
          assert lanes[a][i] == p[a][i] && lanes[a][i + 1] == p[a][i + 1];
        }
      case None =>
        assert lanes[a][i] == p[a][i] && lanes[a][i + 1] == p[a][i + 1];
    }
  }

  /** Examining one more candidate adds its lane, empty when it had none. */
  lemma WithEmptyLanesStep(lanes: map<real, seq<Skill>>, cands: seq<real>, c: real)
    ensures WithEmptyLanes(lanes, cands + [c]) == WithEmptyLanes(lanes, cands)[c := LaneAt(lanes, c)]
  {
  }

  /** The first admitting candidate is the one `FirstFit` picks, and `Place` appends the skill there. */
  lemma FirstFitAt(lanes: map<real, seq<Skill>>, cands: seq<real>, i: nat, skill: Skill, sc: Scale)
    requires i < |cands| && Admits(lanes, cands[i], skill, sc)
    requires forall j :: 0 <= j < i ==> !Admits(lanes, cands[j], skill, sc)
    ensures FirstFit(lanes, cands, skill, sc) == Some(i)
    ensures Place(lanes, cands, skill, sc) == AppendAt(lanes, cands, i, skill)
  {
  }

  /** When no candidate admits the skill, `Place` only adds the empty lanes. */
  lemma FirstFitNone(lanes: map<real, seq<Skill>>, cands: seq<real>, skill: Skill, sc: Scale)
    requires forall j :: 0 <= j < |cands| ==> !Admits(lanes, cands[j], skill, sc)
    ensures FirstFit(lanes, cands, skill, sc) == None
    ensures Place(lanes, cands, skill, sc) == WithEmptyLanes(lanes, cands)
  {
  }

  /** After `addToLane` every occupant was an occupant of the same lane before, or is the skill placed. */
  lemma PlaceOccupants(lanes: map<real, seq<Skill>>, cands: seq<real>, skill: Skill, sc: Scale)
    ensures var p := Place(lanes, cands, skill, sc);
      forall a, i :: a in p && 0 <= i < |p[a]| ==>
        p[a][i] == skill || (a in lanes && i < |lanes[a]| && p[a][i] == lanes[a][i])
  {
    var p: map<real, seq<Skill>> := Place(lanes, cands, skill, sc);
    PlaceEffect(lanes, cands, skill, sc);
    forall a: real, i: int | a in p && 0 <= i < |p[a]|
      ensures p[a][i] == skill || (a in lanes && i < |lanes[a]| && p[a][i] == lanes[a][i])
    {
      assert p[a] == LaneAt(p, a);
    }
  }
}
