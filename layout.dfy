/**
 * The current layout pass, class `Tree` of src/ts/model/Data.ts: it sorts the
 * skills by start, takes the time extent, and then, skill by skill, computes
 * the bar segments, links prerequisites, seeds a preferred angle and packs
 * the skill into the first free lane nearest to that angle.
 */
module Layout {
  import opened Wrappers
  import opened Settings
  import opened Scales
  import opened Skills
  import opened Sorting
  import opened Lanes
  import Strings

  function StartKey(): Skill -> real
  {
    (s: Skill) => s.start
  }

  /**
   * `skills.slice().sort((a, b) => a.start - b.start)`: a reordered copy, by
   * non-decreasing start, in which skills with the same start keep their
   * input order.
   */
  function SortByStart(skills: seq<Skill>): (r: seq<Skill>)
    ensures multiset(r) == multiset(skills)
    ensures forall i, j :: 0 <= i < j < |r| ==> r[i].start <= r[j].start
    ensures forall v :: Filter(r, StartKey(), v) == Filter(skills, StartKey(), v)
  {
    var r := SortBy(skills, StartKey());
    assert forall i, j :: 0 <= i < j < |r| ==> StartKey()(r[i]) <= StartKey()(r[j]);
    SortByStable(skills, StartKey());
    r
  }

  function Min(a: real, b: real): real { if a <= b then a else b }
  function Max(a: real, b: real): real { if a >= b then a else b }

  /** The `reduce` computing `skillRange`, from the accumulator `acc`. */
  function RangeFrom(ss: seq<Skill>, acc: (real, real)): (r: (real, real))
    ensures r.0 <= acc.0 && (r.0 == acc.0 || exists i :: 0 <= i < |ss| && r.0 == ss[i].start)
    ensures forall i :: 0 <= i < |ss| ==> r.0 <= ss[i].start
    ensures r.1 >= acc.1 && (r.1 == acc.1 || exists i :: 0 <= i < |ss| && r.1 == ss[i].ActualEnd())
    ensures forall i :: 0 <= i < |ss| ==> ss[i].ActualEnd() <= r.1
  {
    if ss == [] then acc
    else
      var r := RangeFrom(ss[1..], (Min(acc.0, ss[0].start), Max(acc.1, ss[0].ActualEnd())));
      assert forall i :: 1 <= i < |ss| ==> ss[i] == ss[1..][i - 1];
      r
  }

  /**
   * `skillRange`: the earliest start, and the latest `actualEnd` but at least
   * 0. The source reads `sortedSkills[0]`, so there must be a skill.
   */
  function SkillRange(ss: seq<Skill>): (r: (real, real))
    requires |ss| > 0
    ensures (exists i :: 0 <= i < |ss| && r.0 == ss[i].start) && forall i :: 0 <= i < |ss| ==> r.0 <= ss[i].start
    ensures 0.0 <= r.1 && forall i :: 0 <= i < |ss| ==> ss[i].ActualEnd() <= r.1
    ensures r.1 == 0.0 || exists i :: 0 <= i < |ss| && r.1 == ss[i].ActualEnd()
  {
    RangeFrom(ss, (ss[0].start, 0.0))
  }

  /** On the sorted copy the earliest start is that of the first skill. */
  lemma SkillRangeOfSorted(skills: seq<Skill>)
    requires |skills| > 0
    ensures |SortByStart(skills)| > 0
    ensures SkillRange(SortByStart(skills)).0 == SortByStart(skills)[0].start
    ensures multiset(SortByStart(skills)) == multiset(skills)
  {
    var ss := SortByStart(skills);
    assert |ss| == |multiset(skills)| == |skills|;
    var r := SkillRange(ss);
    var i :| 0 <= i < |ss| && r.0 == ss[i].start;
    if i > 0 {
      assert ss[0].start <= ss[i].start;
    }
  }

  /** `new Set(sortedSkills.map((s) => s.type)).size`: the number of distinct types. */
  function KindCount(ss: seq<Skill>): (n: nat)
    ensures n == |set s | s in ss :: s.kind|
    ensures |ss| > 0 ==> n > 0
  {
    var kinds := set s | s in ss :: s.kind;
    if |ss| > 0 then
      assert ss[0].kind in kinds;
      |kinds|
    else |kinds|
  }

  /** The prerequisite ids of a skill whose `prerequisites` is truthy: `prerequisites.split(',')`. */
  function PrerequisiteIds(s: Skill): (ids: seq<string>)
    requires TruthyText(s.prerequisites)
    ensures |ids| == Strings.Occurrences(s.prerequisites.value, ',') + 1
    ensures Strings.Join(ids, ',') == s.prerequisites.value
  {
    Strings.Split(s.prerequisites.value, ',')
  }

  /**
   * Every prerequisite names a skill that comes earlier in processing order.
   * Otherwise `this.skills[prereq]` is undefined and `link.source.children`
   * throws a TypeError, aborting the whole constructor.
   */
  ghost predicate PrerequisitesResolve(ss: seq<Skill>)
  {
    forall i, id :: 0 <= i < |ss| && TruthyText(ss[i].prerequisites) && id in PrerequisiteIds(ss[i]) ==>
      exists j :: 0 <= j < i && ss[j].id == id
  }

  /** The number of prerequisite entries of the first `n` skills of `ss`. */
  function PrerequisiteCount(ss: seq<Skill>, n: nat): nat
    requires n <= |ss|
  {
    if n == 0 then 0
    else PrerequisiteCount(ss, n - 1) + (if TruthyText(ss[n - 1].prerequisites) then |PrerequisiteIds(ss[n - 1])| else 0)
  }

  /** The links `skill.parents` receives: one per prerequisite id, in order, from the registered skill to `skill`. */
  function ParentLinks(skills: map<string, Skill>, skill: Skill): (ls: seq<Link>)
    requires TruthyText(skill.prerequisites)
    requires forall id :: id in PrerequisiteIds(skill) ==> id in skills
    ensures |ls| == |PrerequisiteIds(skill)|
    ensures forall i :: 0 <= i < |ls| ==>
      ls[i].source == skills[PrerequisiteIds(skill)[i]] && ls[i].target == skill
  {
    var ids := PrerequisiteIds(skill);
    seq(|ids|, i requires 0 <= i < |ids| => Link(skills[ids[i]], skill))
  }

  /** The links of `ls` whose source is `o`, in order. */
  function LinksFrom(ls: seq<Link>, o: Skill): seq<Link>
  {
    if ls == [] then []
    else LinksFrom(ls[..|ls| - 1], o) + (if ls[|ls| - 1].source == o then [ls[|ls| - 1]] else [])
  }

  /** The skills stored in the lanes. */
  ghost function OccupantsOf(lanes: map<real, seq<Skill>>): set<Skill>
  {
    set a, i | a in lanes && 0 <= i < |lanes[a]| :: lanes[a][i]
  }

  /** The bar of `skill` is computed with the scale `sc`. */
  ghost predicate RangedSkill(skill: Skill, sc: Scale)
    reads skill`barRanges
  {
    skill.barRanges.Some? && skill.barRanges.value.total == skill.Total(sc)
  }

  /** The skill has been laid out: its segments are those of `setRanges` with `sc`, and it has an angle. */
  ghost predicate Laid(skill: Skill, sc: Scale)
    reads skill`barRanges, skill`angle
  {
    skill.Consistent() && skill.barRanges == Some(skill.Fracture(sc)) && skill.angle.Some?
  }

  /** Every bar in a lane has its segments, computed with the scale `sc`. */
  ghost predicate Ranged(lanes: map<real, seq<Skill>>, sc: Scale)
    reads OccupantsOf(lanes)`barRanges
  {
    forall s :: s in OccupantsOf(lanes) ==> RangedSkill(s, sc)
  }

  /** On ranged lanes, the test `addToLane` makes on the stored segments is `Admits`. */
  lemma RangedAdmits(lanes: map<real, seq<Skill>>, a: real, skill: Skill, sc: Scale)
    requires Ranged(lanes, sc) && RangedSkill(skill, sc)
    ensures var lane := LaneAt(lanes, a); |lane| > 0 ==> lane[|lane| - 1].barRanges.Some?
    ensures var lane := LaneAt(lanes, a);
      Admits(lanes, a, skill, sc) <==>
      (|lane| == 0 || lane[|lane| - 1].barRanges.value.total.end + SkillMargin <= skill.barRanges.value.total.start)
  {
    var lane := LaneAt(lanes, a);
    if |lane| > 0 {
      assert lane[|lane| - 1] in OccupantsOf(lanes);
    }
  }

  /** Placing a ranged skill keeps the lanes ranged. */
  lemma PlaceKeepsRanged(lanes: map<real, seq<Skill>>, cands: seq<real>, skill: Skill, sc: Scale)
    requires Ranged(lanes, sc) && RangedSkill(skill, sc)
    ensures Ranged(Place(lanes, cands, skill, sc), sc)
  {
    var p := Place(lanes, cands, skill, sc);
    PlaceOccupants(lanes, cands, skill, sc);
    forall s | s in OccupantsOf(p) ensures RangedSkill(s, sc) {
      var a, i :| a in p && 0 <= i < |p[a]| && p[a][i] == s;
      if s != skill {
        assert lanes[a][i] in OccupantsOf(lanes);
      }
    }
  }

  lemma SliceStep<T>(s: seq<T>, i: nat)
    requires i < |s|
    ensures s[..i + 1] == s[..i] + [s[i]]
  {
  }

  /** Every skill in the lanes after `addToLane` was in them before, or is the one placed. */
  lemma PlaceOccupantsOf(lanes: map<real, seq<Skill>>, cands: seq<real>, skill: Skill, sc: Scale)
    ensures forall s :: s in OccupantsOf(Place(lanes, cands, skill, sc)) ==> s == skill || s in OccupantsOf(lanes)
  {
    var p := Place(lanes, cands, skill, sc);
    PlaceOccupants(lanes, cands, skill, sc);
    forall s | s in OccupantsOf(p) ensures s == skill || s in OccupantsOf(lanes) {
      var a, i :| a in p && 0 <= i < |p[a]| && p[a][i] == s;
      if s != skill {
        assert lanes[a][i] in OccupantsOf(lanes);
      }
    }
  }

  lemma UpdateTwice<K, V>(m: map<K, V>, k: K, v: V, w: V)
    ensures m[k := v][k := w] == m[k := w]
  {
  }

  lemma UpdateSame<K, V>(m: map<K, V>, k: K)
    requires k in m
    ensures m[k := m[k]] == m
  {
  }

  lemma LinksFromSnoc(ls: seq<Link>, l: Link, o: Skill)
    ensures LinksFrom(ls + [l], o) == LinksFrom(ls, o) + (if l.source == o then [l] else [])
  {
    assert (ls + [l])[..|ls|] == ls;
  }

  class Tree {
    const scale: Scale
    var skills: map<string, Skill>
    var links: seq<Link>
    var types: map<string, seq<Skill>>
    var lanes: map<real, seq<Skill>>
    const skillRange: (real, real)
    /**
     * `Math.floor(2π·radius / (SkillWidth + SkillMargin))`, the number of
     * bars that fit around the circle at a radius: floating-point arithmetic
     * the model takes as given.
     */
    const maxCountAt: real -> nat

    ghost function TypeHeads(): set<Skill>
      reads this
    {
      set t | t in types && |types[t]| > 0 :: types[t][0]
    }

    /** Every type list is non-empty and its first skill has an angle. */
    ghost predicate TypesSeeded()
      reads this, TypeHeads()`angle
    {
      forall t :: t in types ==> |types[t]| > 0 && types[t][0].angle.Some?
    }

    /** Every registered skill has an angle. */
    ghost predicate SkillsSeeded()
      reads this, skills.Values`angle
    {
      forall k :: k in skills ==> skills[k].angle.Some?
    }

    /**
     * The tree's invariant: lane bars are ranged and do not overlap, every
     * type list is non-empty with a first member that has an angle, and every
     * registered skill has an angle.
     */
    ghost predicate Valid()
      reads this, OccupantsOf(lanes)`barRanges, TypeHeads()`angle, skills.Values`angle
    {
      Ranged(lanes, scale) && NoOverlap(lanes, scale) && TypesSeeded() && SkillsSeeded()
    }

    /**
     * The preferred angle the loop body gives `skill` before `addToLane`: its
     * first parent's angle when it has prerequisites; else the angle it
     * already has; else, for a type seen before, the angle of that type's
     * first skill; else the next even share of the circle for a new type.
     */
    function SeedAngle(skill: Skill, typesCount: nat): real
      requires typesCount > 0
      requires TruthyText(skill.prerequisites) ==>
        PrerequisiteIds(skill)[0] in skills && skills[PrerequisiteIds(skill)[0]].angle.Some?
      requires skill.kind in types ==> |types[skill.kind]| > 0 && types[skill.kind][0].angle.Some?
      reads this, skill`angle, skills.Values`angle, (set t | t in types && |types[t]| > 0 :: types[t][0])`angle
    {
      var inherited := if TruthyText(skill.prerequisites) then skills[PrerequisiteIds(skill)[0]].angle else skill.angle;
      if inherited.Some? then inherited.value
      else if skill.kind !in types then (360.0 / typesCount as real) * |types| as real
      else types[skill.kind][0].angle.value
    }

    /**
     * `new Tree(skills)`. The scale is the d3 power scale over
     * [0, skillRange[1]], supplied as `scaleFor`.
     */
    constructor (input: seq<Skill>, scaleFor: real -> Scale, maxCountAt: real -> nat)
      requires |input| > 0
      requires forall s :: s in input ==> s.Consistent()
      requires PrerequisitesResolve(SortByStart(input))
      modifies set s | s in input :: s
      ensures skillRange == SkillRange(SortByStart(input))
      ensures scale == scaleFor(skillRange.1) && this.maxCountAt == maxCountAt
      ensures Valid()
      ensures forall s :: s in OccupantsOf(lanes) ==> s in input
      ensures forall k :: k in skills ==> skills[k] in input && skills[k].id == k
      ensures forall s :: s in input ==> s.id in skills
      ensures forall s :: s in input ==> s.barRanges == Some(s.Fracture(scale)) && s.angle.Some?
      ensures |links| == PrerequisiteCount(SortByStart(input), |input|)
    {
      var ss := SortByStart(input);
      assert |ss| == |input| by {
        assert |multiset(ss)| == |multiset(input)|;
      }
      var typesCount := KindCount(ss);
      var range := SkillRange(ss);
      skillRange := range;
      scale := scaleFor(range.1);
      this.maxCountAt := maxCountAt;
      skills, links, types, lanes := map[], [], map[], map[];
      new;
      ghost var pool := set s | s in input :: s;
      assert forall s :: s in ss <==> s in input by {
        forall s ensures s in ss <==> s in input {
          assert s in ss <==> s in multiset(ss);
        }
      }
      assert forall s :: s in ss ==> s in pool;
      Build(ss, typesCount, pool);
      forall s | s in input ensures s.id in skills && s.barRanges == Some(s.Fracture(scale)) && s.angle.Some? {
        var j :| 0 <= j < |ss| && ss[j] == s;
        assert Laid(ss[j], scale);
      }
    }

    /**
     * What the constructor's loop keeps after the first `i` skills of `ss`:
     * the tree is valid and draws its lanes, registry and type lists from
     * `pool`; the registry holds each processed skill under its id; each
     * processed skill is laid out; one link was added per prerequisite id.
     */
    ghost predicate Built(ss: seq<Skill>, i: nat, pool: set<Skill>)
      reads this, pool, TypeHeads()`angle
    {
      // The comparison with `true` only keeps the verifier cheap: it stops the
      // verifier from splitting `BuiltParts` into one proof goal per conjunct
      // wherever `Built` is passed on. It means exactly `BuiltParts`.
      BuiltParts(ss, i, pool) == true
    }

    ghost predicate BuiltParts(ss: seq<Skill>, i: nat, pool: set<Skill>)
      reads this, pool, TypeHeads()`angle
    {
      && i <= |ss|
      && (forall j :: 0 <= j < |ss| ==> ss[j] in pool)
      && OccupantsOf(lanes) <= pool && skills.Values <= pool
      && Valid()
      && (forall k :: k in skills ==> skills[k].id == k)
      && (forall j :: 0 <= j < i ==> ss[j].id in skills)
      && (forall j :: 0 <= j < i ==> Laid(ss[j], scale))
      && |links| == PrerequisiteCount(ss, i)
    }

    /**
     * Halfway through the pass for `ss[i]`: it is laid out with its preferred
     * angle and its links are in, but it is in no lane, type list or registry
     * yet; `group` is the list of its type.
     */
    ghost predicate Midway(ss: seq<Skill>, i: nat, pool: set<Skill>, group: seq<Skill>)
      reads this, pool, TypeHeads()`angle
    {
      // As in `Built`, the comparison with `true` only keeps the verifier cheap.
      MidwayParts(ss, i, pool, group) == true
    }

    ghost predicate MidwayParts(ss: seq<Skill>, i: nat, pool: set<Skill>, group: seq<Skill>)
      reads this, pool, TypeHeads()`angle
    {
      && i < |ss|
      && (forall j :: 0 <= j < |ss| ==> ss[j] in pool)
      && OccupantsOf(lanes) <= pool && skills.Values <= pool
      && Ranged(lanes, scale) && NoOverlap(lanes, scale) && TypesSeeded() && SkillsSeeded()
      && RangedSkill(ss[i], scale)
      && group == (if ss[i].kind in types then types[ss[i].kind] else [])
      && (forall k :: k in skills ==> skills[k].id == k)
      && (forall j :: 0 <= j < i ==> ss[j].id in skills)
      && (forall j :: 0 <= j <= i ==> Laid(ss[j], scale))
      && |links| == PrerequisiteCount(ss, i + 1)
    }

    /**
     * The constructor's loop over the sorted skills `ss`, from an empty tree;
     * `pool` holds the input skills.
     */
    method Build(ss: seq<Skill>, typesCount: nat, ghost pool: set<Skill>)
      requires typesCount > 0 && skills == map[] && links == [] && types == map[] && lanes == map[]
      requires forall j :: 0 <= j < |ss| ==> ss[j] in pool && ss[j].Consistent()
      requires PrerequisitesResolve(ss)
      modifies this`links, this`types, this`lanes, this`skills, pool
      ensures Valid()
      ensures forall s :: s in OccupantsOf(lanes) ==> s in pool
      ensures forall k :: k in skills ==> skills[k] in pool && skills[k].id == k
      ensures forall j :: 0 <= j < |ss| ==> ss[j].id in skills && Laid(ss[j], scale)
      ensures |links| == PrerequisiteCount(ss, |ss|)
    {
      var i := 0;
      assert TypeHeads() == {};
      while i < |ss|
        invariant 0 <= i <= |ss|
        invariant Built(ss, i, pool)
      {
        var group := Begin(ss, i, typesCount, pool);
        Finish(ss, i, pool, group);
        i := i + 1;
      }
      assert BuiltParts(ss, |ss|, pool);
      forall k | k in skills ensures skills[k] in pool {
        assert skills[k] in skills.Values;
      }
    }

    /** The pass for `ss[i]` up to `addToLane`. */
    method Begin(ss: seq<Skill>, i: nat, typesCount: nat, ghost pool: set<Skill>) returns (group: seq<Skill>)
      requires i < |ss| && typesCount > 0
      requires ss[i].Consistent() && PrerequisitesResolve(ss)
      requires Built(ss, i, pool)
      modifies this`links, {ss[i]}`barRanges, {ss[i]}`parents, {ss[i]}`angle, pool`children
      ensures Midway(ss, i, pool, group)
    {
      var skill := ss[i];
      assert skill in pool;
      if TruthyText(skill.prerequisites) {
        forall id | id in PrerequisiteIds(skill) ensures id in skills {
          var j :| 0 <= j < i && ss[j].id == id;
        }
      }
      group := Prepare(skill, typesCount);
      assert Laid(skill, scale);
      forall j | 0 <= j <= i ensures Laid(ss[j], scale) {
        if ss[j] != skill {
          assert old(Laid(ss[j], scale));
        }
      }
      assert MidwayParts(ss, i, pool, group);
    }

    /** The rest of the pass for `ss[i]`: `addToLane`, its type list and the registry. */
    method Finish(ss: seq<Skill>, i: nat, ghost pool: set<Skill>, group: seq<Skill>)
      requires Midway(ss, i, pool, group)
      modifies this`types, this`lanes, this`skills, {ss[i]}`angle
      ensures Built(ss, i + 1, pool)
    {
      var skill := ss[i];
      ghost var registry := skills;
      Settle(skill, group, ss, i + 1);
      assert skills == registry[skill.id := skill];
      assert BuiltParts(ss, i + 1, pool);
    }

    /**
     * The first half of one pass of the constructor's loop for `skill`:
     * segments, prerequisite links and preferred angle; returns the list of
     * the skill's type, empty for a new type.
     */
    method Prepare(skill: Skill, typesCount: nat) returns (group: seq<Skill>)
      requires Valid() && skill.Consistent() && typesCount > 0
      requires TruthyText(skill.prerequisites) ==> forall id :: id in PrerequisiteIds(skill) ==> id in skills
      modifies this`links, skill`barRanges, skill`parents, skill`angle, skills.Values`children
      ensures Ranged(lanes, scale) && NoOverlap(lanes, scale) && TypesSeeded() && SkillsSeeded()
      ensures skill.barRanges == Some(skill.Fracture(scale)) && RangedSkill(skill, scale)
      ensures skill.angle.Some?
      ensures group == if skill.kind in types then types[skill.kind] else []
      ensures |links| == |old(links)| + if TruthyText(skill.prerequisites) then |PrerequisiteIds(skill)| else 0
    {
      RangeSkill(skill);
      label Ranged:
      group := PreferAngle(skill, typesCount);
      forall t | t in types ensures |types[t]| > 0 && types[t][0].angle.Some? {
        var head := types[t][0];
        assert old(head.angle).Some?;
        if head != skill {
          assert head.angle == old(head.angle);
        }
      }
      forall k | k in skills ensures skills[k].angle.Some? {
        if skills[k] != skill {
          assert old(skills[k].angle).Some?;
        }
      }
      forall s | s in OccupantsOf(lanes) ensures RangedSkill(s, scale) {
        assert old@Ranged(RangedSkill(s, scale));
      }
    }

    /**
     * The second half of the pass: `addToLane`, then the skill joins the list
     * of its type and the registry.
     */
    method Settle(skill: Skill, group: seq<Skill>, ghost laid: seq<Skill>, ghost n: nat)
      requires Ranged(lanes, scale) && NoOverlap(lanes, scale) && TypesSeeded() && SkillsSeeded()
      requires n <= |laid| && forall j :: 0 <= j < n ==> Laid(laid[j], scale)
      requires skill.angle.Some? && RangedSkill(skill, scale)
      requires group == if skill.kind in types then types[skill.kind] else []
      modifies this`types, this`lanes, this`skills, skill`angle
      ensures Valid() && skill.angle.Some?
      ensures skills == old(skills)[skill.id := skill]
      ensures types == old(types)[skill.kind := group + [skill]]
      ensures forall s :: s in OccupantsOf(lanes) ==> s == skill || s in OccupantsOf(old(lanes))
      ensures skills.Values <= old(skills.Values) + {skill}
      ensures forall j :: 0 <= j < n ==> Laid(laid[j], scale)
    {
      AddToLane(skill);
      Register(skill, group);
      forall j | 0 <= j < n ensures Laid(laid[j], scale) {
        assert old(Laid(laid[j], scale));
      }
    }

    /**
     * The skill joins the list of its type (`types.set(type, [])` for a new
     * type, then `push`) and the registry under its id; both stay seeded.
     */
    method Register(skill: Skill, group: seq<Skill>)
      requires TypesSeeded() && SkillsSeeded() && skill.angle.Some?
      requires group == if skill.kind in types then types[skill.kind] else []
      modifies this`types, this`skills
      ensures TypesSeeded() && SkillsSeeded()
      ensures skills == old(skills)[skill.id := skill]
      ensures types == old(types)[skill.kind := group + [skill]]
      ensures skills.Values <= old(skills.Values) + {skill}
    {
      types := types[skill.kind := group + [skill]];
      skills := skills[skill.id := skill];
    }

    /** `skill.setRanges(this.scale)`, which keeps the lanes ranged. */
    method RangeSkill(skill: Skill)
      requires Ranged(lanes, scale) && skill.Consistent()
      modifies skill`barRanges
      ensures skill.barRanges == Some(skill.Fracture(scale)) && RangedSkill(skill, scale)
      ensures Ranged(lanes, scale)
    {
      skill.SetRanges(scale);
      forall s | s in OccupantsOf(lanes) ensures RangedSkill(s, scale) {
        if s != skill {
          assert old(RangedSkill(s, scale));
        }
      }
    }

    /**
     * The part of the loop body between `setRanges` and `addToLane`: links
     * the prerequisites, then gives the skill its preferred angle; returns
     * the list of the skill's type, empty for a new type.
     */
    method PreferAngle(skill: Skill, typesCount: nat) returns (group: seq<Skill>)
      requires typesCount > 0 && TypesSeeded() && SkillsSeeded()
      requires TruthyText(skill.prerequisites) ==> forall id :: id in PrerequisiteIds(skill) ==> id in skills
      modifies this`links, skill`parents, skill`angle, skills.Values`children
      ensures skill.angle == Some(old(SeedAngle(skill, typesCount)))
      ensures group == if skill.kind in types then types[skill.kind] else []
      ensures TruthyText(skill.prerequisites) ==>
        skill.parents == ParentLinks(skills, skill) && links == old(links) + skill.parents
      ensures !TruthyText(skill.prerequisites) ==> skill.parents == old(skill.parents) && links == old(links)
      ensures forall o :: o in skills.Values ==> o.children == old(o.children) + LinksFrom(links[|old(links)|..], o)
    {
      if TruthyText(skill.prerequisites) {
        assert PrerequisiteIds(skill)[0] in skills;
      }
      ghost var seed := SeedAngle(skill, typesCount);
      if TruthyText(skill.prerequisites) {
        LinkPrerequisites(skill);
        assert links[|old(links)|..] == skill.parents;
        assert skill.parents[0].source == skills[PrerequisiteIds(skill)[0]];
        assert skill.parents[0].source.angle == old(skills[PrerequisiteIds(skill)[0]].angle);
        skill.SetAngle(skill.parents[0].source.angle.value);
        assert skill.angle == Some(seed);
      } else {
        assert links[|old(links)|..] == [];
        assert seed == if skill.angle.Some? then skill.angle.value
          else if skill.kind !in types then (360.0 / typesCount as real) * |types| as real
          else types[skill.kind][0].angle.value;
      }
      if skill.kind !in types {
        if skill.angle.None? {
          assert !TruthyText(skill.prerequisites);
          assert seed == (360.0 / typesCount as real) * |types| as real;
          skill.SetAngle((360.0 / typesCount as real) * |types| as real);
        }
        group := [];
        assert skill.angle == Some(seed);
      } else {
        group := types[skill.kind];
        if skill.angle.None? {
          assert group[0].angle == old(group[0].angle);
          skill.SetAngle(group[0].angle.value);
        }
        assert skill.angle == Some(seed);
      }
    }

    /**
     * The prerequisite links of `skill`: one link from each named, registered
     * skill, stored as the skill's parents, appended to `links` and to the
     * source's children.
     */
    method LinkPrerequisites(skill: Skill)
      requires TruthyText(skill.prerequisites)
      requires forall id :: id in PrerequisiteIds(skill) ==> id in skills
      modifies this`links, skill`parents, skills.Values`children
      ensures skill.parents == ParentLinks(skills, skill) && links == old(links) + skill.parents
      ensures forall o :: o in skills.Values ==> o.children == old(o.children) + LinksFrom(skill.parents, o)
    {
      var ps := ParentLinks(skills, skill);
      skill.parents := ps;
      AttachLinks(ps);
    }

    /** The loop over `skill.parents`: each link joins `links` and its source's `children`. */
    method AttachLinks(ps: seq<Link>)
      requires forall i :: 0 <= i < |ps| ==> ps[i].source in skills.Values
      modifies this`links, skills.Values`children
      ensures links == old(links) + ps
      ensures forall o :: o in skills.Values ==> o.children == old(o.children) + LinksFrom(ps, o)
    {
      var n := 0;
      while n < |ps|
        invariant 0 <= n <= |ps|
        invariant links == old(links) + ps[..n]
        invariant forall o :: o in skills.Values ==> o.children == old(o.children) + LinksFrom(ps[..n], o)
      {
        var link := ps[n];
        links := links + [link];
        var source := link.source;
        label Before:
        source.children := source.children + [link];
        SliceStep(ps, n);
        assert links == old(links) + ps[..n + 1];
        forall o | o in skills.Values
          ensures o.children == old(o.children) + LinksFrom(ps[..n + 1], o)
        {
          LinksFromSnoc(ps[..n], link, o);
          assert o.children == old@Before(o.children) + (if source == o then [link] else []);
        }
        n := n + 1;
      }
      assert ps[..n] == ps;
    }

    /**
     * `addToLane`: tries the ring's lane angles in order of distance from the
     * skill's angle and appends the skill to the first lane that is empty or
     * whose last bar ends at least SkillMargin before the skill starts,
     * turning the skill to that angle. When none has room the skill keeps its
     * angle and joins no lane (the source only logs a warning).
     */
    method AddToLane(skill: Skill)
      requires skill.angle.Some? && RangedSkill(skill, scale)
      requires Ranged(lanes, scale) && NoOverlap(lanes, scale)
      requires TypesSeeded() && SkillsSeeded()
      modifies this`lanes, skill`angle
      ensures Ranged(lanes, scale) && NoOverlap(lanes, scale)
      ensures TypesSeeded() && SkillsSeeded() && skill.angle.Some?
      ensures forall s :: s in OccupantsOf(lanes) ==> s == skill || s in OccupantsOf(old(lanes))
      ensures var cands := Candidates(maxCountAt(skill.Total(scale).start), old(skill.angle.value));
        && lanes == Place(old(lanes), cands, skill, scale)
        && skill.angle == match FirstFit(old(lanes), cands, skill, scale)
             case Some(k) => Some(cands[k])
             case None => old(skill.angle)
    {
      ghost var lanes0 := lanes;
      var laneAngles := SortBy(LanesAtRadius(maxCountAt(skill.barRanges.value.total.start)), DistanceFrom(skill.angle.value));
      PlaceAmong(skill, laneAngles);
      PlaceKeepsNoOverlap(lanes0, laneAngles, skill, scale);
      PlaceKeepsRanged(lanes0, laneAngles, skill, scale);
      PlaceOccupantsOf(lanes0, laneAngles, skill, scale);
    }

    /**
     * The loop of `addToLane` over the candidate angles `laneAngles`, in
     * order: lanes are created empty as they are examined, and the first one
     * that admits the skill takes it.
     */
    method PlaceAmong(skill: Skill, laneAngles: seq<real>)
      requires RangedSkill(skill, scale) && Ranged(lanes, scale)
      modifies this`lanes, skill`angle
      ensures lanes == Place(old(lanes), laneAngles, skill, scale)
      ensures skill.angle == match FirstFit(old(lanes), laneAngles, skill, scale)
        case Some(k) => Some(laneAngles[k])
        case None => old(skill.angle)
    {
      ghost var lanes0 := lanes;
      var i := 0;
      while i < |laneAngles|
        invariant 0 <= i <= |laneAngles|
        invariant lanes == WithEmptyLanes(lanes0, laneAngles[..i])
        invariant forall j :: 0 <= j < i ==> !Admits(lanes0, laneAngles[j], skill, scale)
        invariant skill.angle == old(skill.angle)
        invariant Ranged(lanes0, scale) && RangedSkill(skill, scale)
      {
        ghost var before := lanes;
        WithEmptyLanesEffect(lanes0, laneAngles[..i]);
        var angle := laneAngles[i];
        var lane: seq<Skill>;
        if angle in lanes {
          lane := lanes[angle];
          UpdateSame(lanes, angle);
        } else {
          lane := [];
          lanes := lanes[angle := lane];
        }
        assert lane == LaneAt(lanes0, angle) && lanes == before[angle := lane];
        RangedAdmits(lanes0, angle, skill, scale);
        if |lane| == 0 || lane[|lane| - 1].barRanges.value.total.end + SkillMargin <= skill.barRanges.value.total.start {
          Claim(skill, lanes0, laneAngles, i, lane);
          return;
        }
        WithEmptyLanesStep(lanes0, laneAngles[..i], angle);
        SliceStep(laneAngles, i);
        i := i + 1;
      }
      assert laneAngles[..i] == laneAngles;
      FirstFitNone(lanes0, laneAngles, skill, scale);
    }

    /**
     * The branch of `addToLane` that takes a lane: the i-th candidate is the
     * first to admit the skill, which is pushed onto that lane and turned to
     * its angle.
     */
    method Claim(skill: Skill, ghost lanes0: map<real, seq<Skill>>, laneAngles: seq<real>, i: nat, lane: seq<Skill>)
      requires i < |laneAngles| && Admits(lanes0, laneAngles[i], skill, scale)
      requires forall j :: 0 <= j < i ==> !Admits(lanes0, laneAngles[j], skill, scale)
      requires lane == LaneAt(lanes0, laneAngles[i])
      requires lanes == WithEmptyLanes(lanes0, laneAngles[..i])[laneAngles[i] := lane]
      modifies this`lanes, skill`angle
      ensures FirstFit(lanes0, laneAngles, skill, scale) == Some(i)
      ensures lanes == Place(lanes0, laneAngles, skill, scale)
      ensures skill.angle == Some(laneAngles[i])
    {
      FirstFitAt(lanes0, laneAngles, i, skill, scale);
      UpdateTwice(WithEmptyLanes(lanes0, laneAngles[..i]), laneAngles[i], lane, lane + [skill]);
      lanes := lanes[laneAngles[i] := lane + [skill]];
      skill.SetAngle(laneAngles[i]);
    }
  }
}
