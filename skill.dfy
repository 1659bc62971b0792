/** src/ts/model/Skill.ts: a skill, its time bounds and the radial segments of its bar. */
module Skills {
  import opened Wrappers
  import opened Settings
  import opened Scales

  /** JavaScript truthiness of an optional number: absent and 0 are both false (NaN is not modelled). */
  predicate Truthy(o: Option<real>)
  {
    o.Some? && o.value != 0.0
  }

  /** JavaScript truthiness of an optional string: absent and "" are both false. */
  predicate TruthyText(o: Option<string>)
  {
    o.Some? && o.value != ""
  }

  /** A contiguous radial interval in scaled units (`RangeSegment`). */
  datatype RangeSegment = RangeSegment(start: real, length: real, end: real)

  /** `Skill.barRanges`: `total` and `main` always, `start` and `end` optionally. */
  datatype BarRanges = BarRanges(
    total: RangeSegment,
    main: RangeSegment,
    start: Option<RangeSegment>,
    end: Option<RangeSegment>)

  /** src/ts/model/Link.ts: a prerequisite edge; `source` is null where the lookup found nothing. */
  datatype Link = Link(source: Skill?, target: Skill)

  /**
   * `makeBarRange`: the segment between the scaled images of `s` and `e`.
   * Its end is its start plus its length, and for an increasing scale its
   * length is non-negative exactly when the bounds are in order.
   */
  function MakeBarRange(sc: Scale, s: real, e: real): (r: RangeSegment)
    ensures r.start == sc.forward(s) && r.end == sc.forward(e)
    ensures r.start + r.length == r.end
    ensures Increasing(sc) ==> (s <= e <==> 0.0 <= r.length)
  {
    RangeSegment(sc.forward(s), sc.forward(e) - sc.forward(s), sc.forward(e))
  }

  class Skill {
    const id: string
    /** The source's `type` field: the grouping key for default angles. */
    const kind: string
    const start: real
    const end: Option<real>
    const maxStart: Option<real>
    const maxEnd: Option<real>
    /** Comma-separated ids of the skills this one depends on. */
    const prerequisites: Option<string>

    /** The private `#angle` behind the `angle` getter and setter; undefined until set. */
    var angle: Option<real>
    /** Undefined until `setRanges` runs. */
    var barRanges: Option<BarRanges>
    var parents: seq<Link>
    var children: seq<Link>

    /** A parsed row: the record's fields, nothing laid out yet. */
    constructor (id: string, kind: string, start: real, end: Option<real>,
                 maxStart: Option<real>, maxEnd: Option<real>, prerequisites: Option<string>)
      ensures this.id == id && this.kind == kind && this.start == start && this.end == end
      ensures this.maxStart == maxStart && this.maxEnd == maxEnd && this.prerequisites == prerequisites
      ensures angle == None && barRanges == None && parents == [] && children == []
    {
      this.id, this.kind, this.start, this.end := id, kind, start, end;
      this.maxStart, this.maxEnd, this.prerequisites := maxStart, maxEnd, prerequisites;
      angle, barRanges, parents, children := None, None, [], [];
    }

    /** The bounds that are present, in their natural order start, maxStart, end, maxEnd. */
    function Bounds(): (b: seq<real>)
      ensures |b| > 0 && b[0] == start
    {
      [start]
        + (if maxStart.Some? then [maxStart.value] else [])
        + (if end.Some? then [end.value] else [])
        + (if maxEnd.Some? then [maxEnd.value] else [])
    }

    /** The present bounds never decrease along their natural order. */
    ghost predicate Ordered()
    {
      var b := Bounds();
      forall i, j :: 0 <= i < j < |b| ==> b[i] <= b[j]
    }

    /**
     * `actualEnd`: `maxEnd ?? end ?? maxStart ?? start`, which is the last
     * present bound in the natural order, and so the latest of them when the
     * bounds are ordered.
     */
    function ActualEnd(): (r: real)
      ensures r == Bounds()[|Bounds()| - 1]
      ensures Ordered() ==> forall i :: 0 <= i < |Bounds()| ==> Bounds()[i] <= r
    {
      maxEnd.GetOr(end.GetOr(maxStart.GetOr(start)))
    }

    /** A fuzzy completion (`maxEnd` truthy) comes with a firm `end`, which `setRanges` reads. */
    predicate Consistent()
    {
      Truthy(maxEnd) ==> end.Some?
    }

    /** The end of the drawn bar: `actualEnd`, pushed out so the bar is at least MinSkillLength long. */
    function VisualEnd(sc: Scale): real
    {
      var e := ActualEnd();
      if sc.forward(e) - sc.forward(start) < MinSkillLength
      then sc.invert(sc.forward(start) + MinSkillLength)
      else e
    }

    /** `barRanges.total`: from `start` to the visual end. */
    function Total(sc: Scale): RangeSegment
    {
      MakeBarRange(sc, start, VisualEnd(sc))
    }

    /** The segments `setRanges` computes. */
    function Fracture(sc: Scale): (r: BarRanges)
      requires Consistent()
    {
      BarRanges(
        Total(sc),
        MakeBarRange(sc, maxStart.GetOr(start), if Truthy(maxEnd) then end.value else VisualEnd(sc)),
        if Truthy(maxStart) then Some(MakeBarRange(sc, start, maxStart.value)) else None,
        if Truthy(maxEnd) then Some(MakeBarRange(sc, end.value, maxEnd.value)) else None)
    }

    /** `setRanges`: rebuilds `barRanges` from the bounds through the scale and changes nothing else. */
    method SetRanges(sc: Scale)
      requires Consistent()
      modifies this`barRanges
      ensures barRanges == Some(Fracture(sc))
    {
      var visualEnd := ActualEnd();
      if sc.forward(visualEnd) - sc.forward(start) < MinSkillLength {
        visualEnd := sc.invert(sc.forward(start) + MinSkillLength);
      }
      barRanges := Some(BarRanges(
        MakeBarRange(sc, start, visualEnd),
        MakeBarRange(sc, maxStart.GetOr(start), if Truthy(maxEnd) then end.value else visualEnd),
        None,
        None));
      if Truthy(maxStart) {
        barRanges := Some(barRanges.value.(start := Some(MakeBarRange(sc, start, maxStart.value))));
      }
      if Truthy(maxEnd) {
        barRanges := Some(barRanges.value.(end := Some(MakeBarRange(sc, end.value, maxEnd.value))));
      }
    }

    /** The `angle` setter: the getter returns `a` from now on; the rotation side effect is not modelled. */
    method SetAngle(a: real)
      modifies this`angle
      ensures angle == Some(a)
    {
      angle := Some(a);
    }

    /**
     * The total bar starts at the scaled start and is at least MinSkillLength
     * long: exactly that long when the real duration is shorter, and ending at
     * the scaled `actualEnd` otherwise.
     */
    lemma TotalLength(sc: Scale)
      requires ExactInverse(sc)
      ensures Total(sc).start == sc.forward(start)
      ensures Total(sc).length >= MinSkillLength
      ensures sc.forward(ActualEnd()) - sc.forward(start) < MinSkillLength ==> Total(sc).length == MinSkillLength
      ensures sc.forward(ActualEnd()) - sc.forward(start) >= MinSkillLength ==> Total(sc).end == sc.forward(ActualEnd())
    {
      var e := ActualEnd();
      if sc.forward(e) - sc.forward(start) < MinSkillLength {
        assert sc.forward(sc.invert(sc.forward(start) + MinSkillLength)) == sc.forward(start) + MinSkillLength;
      }
    }

    /**
     * Which segments exist and where they lie: `start` exactly when `maxStart`
     * is truthy, spanning start..maxStart; `end` exactly when `maxEnd` is
     * truthy, spanning end..maxEnd; `main` from `maxStart ?? start` to `end`
     * when `maxEnd` is truthy and to the visual end otherwise; `total` as in
     * `Total`. Neighbouring segments meet.
     */
    lemma Segments(sc: Scale)
      requires Consistent()
      ensures Fracture(sc).total == Total(sc)
      ensures Fracture(sc).start.Some? <==> Truthy(maxStart)
      ensures Fracture(sc).end.Some? <==> Truthy(maxEnd)
      ensures Fracture(sc).main.start == sc.forward(maxStart.GetOr(start))
      ensures Truthy(maxEnd) ==> Fracture(sc).main.end == sc.forward(end.value)
      ensures !Truthy(maxEnd) ==> Fracture(sc).main.end == Fracture(sc).total.end
      ensures Truthy(maxStart) ==> Fracture(sc).start.value == MakeBarRange(sc, start, maxStart.value)
      ensures Truthy(maxEnd) ==> Fracture(sc).end.value == MakeBarRange(sc, end.value, maxEnd.value)
      ensures Fracture(sc).start.Some? ==> Fracture(sc).start.value.end == Fracture(sc).main.start
      ensures Fracture(sc).end.Some? ==> Fracture(sc).main.end == Fracture(sc).end.value.start
    {
    }

    /**
     * With ordered bounds and an increasing, exactly invertible scale, every
     * segment has non-negative length and lies within `total`, in the order
     * start segment, main, end segment.
     */
    lemma Containment(sc: Scale)
      requires Consistent() && Ordered()
      requires Increasing(sc) && ExactInverse(sc)
      ensures var r := Fracture(sc);
        && 0.0 <= r.total.length && 0.0 <= r.main.length
        && r.total.start <= r.main.start <= r.main.end <= r.total.end
        && (r.start.Some? ==> r.total.start == r.start.value.start && 0.0 <= r.start.value.length)
        && (r.end.Some? ==> r.end.value.end <= r.total.end && 0.0 <= r.end.value.length)
    {
      var b := Bounds();
      var e := ActualEnd();
      TotalLength(sc);
      var v := VisualEnd(sc);
      assert e <= v by {
        if sc.forward(e) - sc.forward(start) < MinSkillLength {
          assert sc.forward(e) < sc.forward(v);
        }
      }
      var ms := maxStart.GetOr(start);
      assert start <= ms <= e by {
        if maxStart.Some? { assert b[1] == ms; }
      }
      if Truthy(maxEnd) {
        var i := if maxStart.Some? then 2 else 1;
        assert b[i] == end.value && b[i + 1] == maxEnd.value;
        assert ms <= end.value by {
          if maxStart.Some? { assert b[1] == ms; }
        }
      }
    }
  }
}
