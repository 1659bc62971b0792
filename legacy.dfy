/**
 * src/ts/Data.ts: the older tree, which files each parsed row by id and by
 * level and later links every row to the rows its prerequisites name.
 */
module Legacy {
  import opened Wrappers
  import Strings
  import Skills

  /** A parsed row of the older format; `parents` is undefined until `addLinks` sets it. */
  class Node {
    const id: string
    /** The row's level; `None` is `null`, an empty cell. */
    const level: Option<int>
    /** Comma-separated ids of the rows this one depends on. */
    const prerequisites: Option<string>
    var parents: Option<seq<Node?>>

    constructor (id: string, level: Option<int>, prerequisites: Option<string>)
      ensures this.id == id && this.level == level && this.prerequisites == prerequisites
      ensures parents == None
    {
      this.id, this.level, this.prerequisites := id, level, prerequisites;
      parents := None;
    }
  }

  /** The `Link` interface; `source` is null (`undefined`) when the prerequisite id is unknown. */
  datatype Link = Link(source: Node?, target: Node)

  /** `levels[level]`, with a never-assigned index read as an empty list. */
  function LevelAt(levels: map<int, seq<Node>>, level: int): seq<Node>
  {
    if level in levels then levels[level] else []
  }

  /** `Object.values(skills)` when `order` lists the keys in insertion order. */
  function ValuesOf(skills: map<string, Node>, order: seq<string>): (vs: seq<Node>)
    requires forall k :: k in order ==> k in skills
    ensures |vs| == |order|
    ensures forall i :: 0 <= i < |order| ==> vs[i] == skills[order[i]]
  {
    seq(|order|, i requires 0 <= i < |order| => skills[order[i]])
  }

  /** When `order` holds every key, `Object.values` lists exactly the registered rows. */
  lemma ValuesCover(skills: map<string, Node>, order: seq<string>)
    requires forall k :: k in order ==> k in skills
    requires forall k :: k in skills ==> k in order
    ensures forall n :: n in ValuesOf(skills, order) <==> n in skills.Values
  {
    var vs := ValuesOf(skills, order);
    forall n | n in skills.Values ensures n in vs {
      var k :| k in skills && skills[k] == n;
      var i :| 0 <= i < |order| && order[i] == k;
      assert vs[i] == n;
    }
  }

  /**
   * Registering a row under a new id appends it to `Object.values`; under a
   * known id it takes the old row's place and the order stays.
   */
  lemma AddValues(skills: map<string, Node>, order: seq<string>, n: Node)
    requires forall k :: k in order ==> k in skills
    requires forall k :: k in skills ==> k in order
    ensures var order' := if n.id in skills then order else order + [n.id];
      var vs, vs' := ValuesOf(skills, order), ValuesOf(skills[n.id := n], order');
      && (n.id !in skills ==> vs' == vs + [n])
      && (n.id in skills ==> |vs'| == |vs| && forall i :: 0 <= i < |vs| ==> vs'[i] == if order[i] == n.id then n else vs[i])
  {
  }

  /** The ids `prerequisites.split(',')` names. */
  function Ids(n: Node): (ids: seq<string>)
    requires Skills.TruthyText(n.prerequisites)
    ensures |ids| == Strings.Occurrences(n.prerequisites.value, ',') + 1
  {
    Strings.Split(n.prerequisites.value, ',')
  }

  /** `prerequisites.split(',').map(prereq => skills[prereq])`. */
  function Parents(skills: map<string, Node>, n: Node): seq<Node?>
    requires Skills.TruthyText(n.prerequisites)
  {
    var ids := Ids(n);
    seq(|ids|, i requires 0 <= i < |ids| => if ids[i] in skills then skills[ids[i]] else null)
  }

  /**
   * One parent per id, in order: the row of that id, or null exactly when
   * no row has it (the lookup yields `undefined` and nothing is thrown).
   */
  lemma ParentsResolve(skills: map<string, Node>, n: Node)
    requires Skills.TruthyText(n.prerequisites)
    ensures var ps, ids := Parents(skills, n), Ids(n);
      && |ps| == |ids| == Strings.Occurrences(n.prerequisites.value, ',') + 1
      && (forall i :: 0 <= i < |ps| ==> (ps[i] == null <==> ids[i] !in skills))
      && (forall i :: 0 <= i < |ps| && ids[i] in skills ==> ps[i] == skills[ids[i]])
  {
  }

  /** The links `addLinks` pushes for `n`: one from each parent to `n`, none without prerequisites. */
  function LinksOf(skills: map<string, Node>, n: Node): (r: seq<Link>)
    ensures |r| == if Skills.TruthyText(n.prerequisites) then |Ids(n)| else 0
    ensures forall i :: 0 <= i < |r| ==> r[i].target == n
  {
    if Skills.TruthyText(n.prerequisites) then
      var ps := Parents(skills, n);
      seq(|ps|, i requires 0 <= i < |ps| => Link(ps[i], n))
    else []
  }

  /** The links of the rows `ns`, in their order. */
  function AllLinks(skills: map<string, Node>, ns: seq<Node>): seq<Link>
  {
    if ns == [] then [] else AllLinks(skills, ns[..|ns| - 1]) + LinksOf(skills, ns[|ns| - 1])
  }

  /** One more row adds that row's links at the end. */
  lemma AllLinksStep(skills: map<string, Node>, ns: seq<Node>, i: nat)
    requires i < |ns|
    ensures ns[..i + 1] == ns[..i] + [ns[i]]
    ensures AllLinks(skills, ns[..i + 1]) == AllLinks(skills, ns[..i]) + LinksOf(skills, ns[i])
  {
    assert ns[..i + 1][..i] == ns[..i];
  }

  lemma Associative<T>(a: seq<T>, b: seq<T>, c: seq<T>)
    ensures a + b + c == a + (b + c)
  {
  }

  /** The number of prerequisite entries of the rows: the pieces of each truthy comma list. */
  function EntryCount(ns: seq<Node>): nat
  {
    if ns == [] then 0
    else
      var n := ns[|ns| - 1];
      EntryCount(ns[..|ns| - 1])
        + if Skills.TruthyText(n.prerequisites) then Strings.Occurrences(n.prerequisites.value, ',') + 1 else 0
  }

  /** `addLinks` adds exactly one link per prerequisite entry. */
  lemma {:induction false} LinkCount(skills: map<string, Node>, ns: seq<Node>)
    ensures |AllLinks(skills, ns)| == EntryCount(ns)
  {
    if ns != [] {
      LinkCount(skills, ns[..|ns| - 1]);
    }
  }

  /**
   * Every link points at one of the rows, from a registered row or from
   * null; never from a row that is not in the tree.
   */
  lemma {:induction false} LinkEnds(skills: map<string, Node>, ns: seq<Node>)
    ensures forall l :: l in AllLinks(skills, ns) ==> l.target in ns && (l.source == null || l.source in skills.Values)
  {
    if ns != [] {
      var init, n := ns[..|ns| - 1], ns[|ns| - 1];
      LinkEnds(skills, init);
      forall l | l in LinksOf(skills, n) ensures l.target == n && (l.source == null || l.source in skills.Values) {
        var ps := Parents(skills, n);
        var i :| 0 <= i < |ps| && l == Link(ps[i], n);
        ParentsResolve(skills, n);
      }
      forall l | l in AllLinks(skills, init) ensures l.target in ns {
        assert l.target in init;
      }
    }
  }

  class Tree {
    var skills: map<string, Node>
    /** The ids in the order `Object.values` lists them: by first registration. */
    var order: seq<string>
    var links: seq<Link>
    /** The sparse array `levels`: an index that was never assigned is absent. */
    var levels: map<int, seq<Node>>

    /** The registry and its key order hold the same ids, each once, and every row is filed under its own id. */
    ghost predicate Registered()
      reads this`skills, this`order
    {
      && (forall k :: k in skills <==> k in order)
      && (forall i, j :: 0 <= i < j < |order| ==> order[i] != order[j])
      && (forall k :: k in skills ==> skills[k].id == k)
    }

    /** Every level list holds rows of that level. */
    ghost predicate Filed()
      reads this`levels
    {
      forall l, i :: l in levels && 0 <= i < |levels[l]| ==> levels[l][i].level == Some(l)
    }

    ghost predicate Valid()
      reads this
    {
      Registered() && Filed()
    }

    constructor ()
      ensures Valid()
      ensures skills == map[] && order == [] && links == [] && levels == map[]
    {
      skills, order, links, levels := map[], [], [], map[];
    }

    /**
     * `add`: registers the row under its id, replacing any row already there,
     * and when its level is not null appends it to that level's list, which
     * is created empty first. Nothing else changes.
     */
    method Add(skill: Node)
      requires Valid()
      modifies this`skills, this`order, this`levels
      ensures Valid()
      ensures skills == old(skills)[skill.id := skill]
      ensures order == if skill.id in old(skills) then old(order) else old(order) + [skill.id]
      ensures skill.level.None? ==> levels == old(levels)
      ensures skill.level.Some? ==>
        levels == old(levels)[skill.level.value := LevelAt(old(levels), skill.level.value) + [skill]]
    {
      Register(skill);
      File(skill);
    }

    /** `this.skills[skill.id] = skill`; a new id joins the end of the key order. */
    method Register(skill: Node)
      requires Registered()
      modifies this`skills, this`order
      ensures Registered()
      ensures skills == old(skills)[skill.id := skill]
      ensures order == if skill.id in old(skills) then old(order) else old(order) + [skill.id]
    {
      if skill.id !in skills {
        order := order + [skill.id];
      }
      skills := skills[skill.id := skill];
    }

    /** The level half of `add`: a row with a level joins the end of that level's list. */
    method File(skill: Node)
      requires Filed()
      modifies this`levels
      ensures Filed()
      ensures skill.level.None? ==> levels == old(levels)
      ensures skill.level.Some? ==>
        levels == old(levels)[skill.level.value := LevelAt(old(levels), skill.level.value) + [skill]]
    {
      if skill.level.Some? {
        var level := skill.level.value;
        if level !in levels {
          levels := levels[level := []];
        }
        levels := levels[level := levels[level] + [skill]];
      }
    }

    /**
     * `addLinks`: for every registered row with prerequisites, in the order of
     * `Object.values`, sets its parents to the rows its ids name and pushes
     * one link from each parent to it. Existing links are kept, and rows
     * without prerequisites keep their parents.
     */
    method AddLinks()
      requires Valid()
      modifies this`links, skills.Values`parents
      ensures links == old(links) + AllLinks(skills, ValuesOf(skills, order))
      ensures forall n :: n in skills.Values ==>
        n.parents == if Skills.TruthyText(n.prerequisites) then Some(Parents(skills, n)) else old(n.parents)
    {
      var nodes := ValuesOf(skills, order);
      ValuesCover(skills, order);
      LinkAll(nodes);
    }

    /** The loop of `addLinks` over the rows `nodes`, in order. */
    method LinkAll(nodes: seq<Node>)
      requires forall i :: 0 <= i < |nodes| ==> nodes[i] in skills.Values
      modifies this`links, skills.Values`parents
      ensures links == old(links) + AllLinks(skills, nodes)
      ensures forall n :: n in skills.Values ==>
        n.parents == if Skills.TruthyText(n.prerequisites) && n in nodes then Some(Parents(skills, n)) else old(n.parents)
    {
      var i := 0;
      while i < |nodes|
        invariant 0 <= i <= |nodes|
        invariant links == old(links) + AllLinks(skills, nodes[..i])
        invariant forall n :: n in skills.Values ==>
          n.parents == if Skills.TruthyText(n.prerequisites) && n in nodes[..i] then Some(Parents(skills, n)) else old(n.parents)
      {
        var skill := nodes[i];
        AllLinksStep(skills, nodes, i);
        if Skills.TruthyText(skill.prerequisites) {
          LinkRow(skill);
          Associative(old(links), AllLinks(skills, nodes[..i]), LinksOf(skills, skill));
        } else {
          assert LinksOf(skills, skill) == [];
        }
        i := i + 1;
      }
      assert nodes[..i] == nodes;
    }

    /** The body of `addLinks` for one row with prerequisites. */
    method LinkRow(skill: Node)
      requires Skills.TruthyText(skill.prerequisites)
      modifies this`links, skill`parents
      ensures skill.parents == Some(Parents(skills, skill))
      ensures links == old(links) + LinksOf(skills, skill)
    {
      skill.parents := Some(Parents(skills, skill));
      PushLinks(skill.parents.value, skill);
    }

    /** The loop over the parents: one link from each of them to `target`, pushed in order. */
    method PushLinks(ps: seq<Node?>, target: Node)
      modifies this`links
      ensures links == old(links) + seq(|ps|, i requires 0 <= i < |ps| => Link(ps[i], target))
    {
      var n := 0;
      while n < |ps|
        invariant 0 <= n <= |ps|
        invariant links == old(links) + seq(n, i requires 0 <= i < n => Link(ps[i], target))
      {
        links := links + [Link(ps[n], target)];
        n := n + 1;
      }
    }
  }
}
