# Radial skill-tree layout, modelled in Dafny

This project models the layout engine of a radial "skill tree" timeline. Each
skill has a time range, a type and optional prerequisites. The engine places
it on concentric rings: time maps to radius, and an angle is chosen so that
no two bars in the same angular lane overlap.

The model covers three source files.

- **`class Tree` of src/ts/model/Data.ts** (modules `Layout` and `Lanes`).
  - The constructor sorts a copy of the skills by start.
  - It takes the time extent `skillRange` and counts the distinct types.
  - Then, for each skill in order, it:
    - computes the bar's segments;
    - links the skill to its prerequisites;
    - seeds a preferred angle from the first parent, the type's first skill, or the next even share of the circle;
    - packs the skill with `addToLane`.
  - `addToLane` tries the angles of a doubling ring (`lanesAtRadius`) in order of distance from the preferred angle. It appends the skill to the first lane that is empty or whose last bar ends a margin before this one starts.
  - The constructor's loop is `Layout.Tree.Build`. One pass of it is split into `Begin` and `Finish`.
  - `lanesAtRadius` and `closest` are modelled only as functions in `Lanes`.
  - `addToLane` is a method, `Layout.Tree.AddToLane`, with its loop in `Layout.Tree.PlaceAmong`. The two are proved equal to the functions `Lanes.Place` and `Lanes.FirstFit`.
- **`class Skill` of src/ts/model/Skill.ts** (module `Skills`).
  - It holds the bounds `start`, `maxStart`, `end` and `maxEnd`, plus `actualEnd` and `makeBarRange`.
  - `setRanges` fractures a skill into `total`, `main` and optional `start`/`end` segments. It enforces a minimum visual length.
  - It also holds the `angle` getter and setter. `Skill.Fracture` is the function `setRanges` is proved against.
- **The older `class Tree` of src/ts/Data.ts** (module `Legacy`).
  - `add` files a row by id and by level.
  - `addLinks` resolves comma-separated prerequisites into links. An unknown id gives a null source and nothing is thrown.

The supporting modules are:

- `Wrappers`: an `Option` with `??`;
- `Settings`: the constants of src/ts/settings.ts:5-10;
- `Scales`: an abstract radial scale;
- `Strings`: `split(',')` and `join`;
- `Sorting`: ECMAScript's stable `Array.prototype.sort` with a numeric-key comparator, written as a stable insertion sort.

**Classes and pure parts.** Objects whose fields the source updates in place are Dafny classes:

- `Skill`, with `angle`, `barRanges`, `parents` and `children`;
- the current `Tree`, with `skills`, `links`, `types` and `lanes`;
- the legacy `Node` and `Tree`.

Pure computations are functions, and the loops are `while` loops with invariants. The lane registry `lanes: Map<number, Skill[]>` is a `map<real, seq<Skill>>`. Its update by `addToLane` is specified by `Lanes.Place`, which is proved to:

- append the skill to exactly the chosen lane;
- keep every other lane;
- keep the no-overlap invariant.

**External inputs.** Some inputs are parameters of the constructor rather than computed:

- The d3 power scale over `[0, skillRange[1]]` is passed in as `scaleFor`.
- The floating-point `Math.floor(2π·r / (skillWidth + skillMargin))` in `lanesAtRadius` is passed in as `maxCountAt`.

The `Lanes` functions take that slot count `maxCount` as a natural number. They compute `ring` and `count` exactly.

**Behaviour of the code that the model keeps.** Each point below is what the code does, and the model does the same.

- **`main` segment.** Skill.ts:89-96 always builds `main`. When `maxEnd` is falsy, `main` ends at the visual end. Skill.ts:106-108 builds the trailing `end` segment whenever `maxEnd` is truthy, without checking `end`.
- **Candidate ties.** `addToLane` (Data.ts:104-111) breaks ties between equally distant lanes toward the smaller angle. This follows from the stable sort over the ascending ring (`Lanes.CandidateOrder`). `closest` (Data.ts:138-149) breaks ties toward the larger angle. `Lanes.FirstCandidateVersusClosest` states the difference.
- **Distance.** The distance used to order lanes is `|a - angle|`, with no wrap-around at 360 degrees.
- **Unresolved prerequisites.**
  - In the current `Tree`, a prerequisite naming no earlier-registered skill makes `link.source.children` throw (Data.ts:75). The constructor therefore requires `PrerequisitesResolve`.
  - The legacy `addLinks` keeps the undefined source (src/ts/Data.ts:64,67). There it is modelled as `null`.
- **Inverted bounds.** `setRanges` (Skill.ts:82-109) never checks that the time bounds are in order. `Skills.Skill.Containment` proves non-negative segment lengths under the hypothesis that they are ordered.
- **Scale domain.** The d3 scale (Data.ts:55-58) is built over `[0, skillRange[1]]` with no check on that domain; d3 deals with an empty one itself. The model takes the scale as the parameter `scaleFor` and builds none.

## Model

| member | source | states |
|---|---|---|
| Skills.MakeBarRange | src/ts/model/Skill.ts:70-80 | the segment starts and ends at the scaled images of its bounds, and start + length = end; for an increasing scale the length is non-negative exactly when the bounds are in order |
| Skills.Skill.ActualEnd | src/ts/model/Skill.ts:60-62 | `maxEnd ?? end ?? maxStart ?? start` is the last present bound in the order start, maxStart, end, maxEnd, and so the latest bound when they are ordered |
| Skills.Skill.constructor | src/ts/model/Skill.ts:19-48 | a parsed row has its fields, no angle, no segments and empty parent and child lists |
| Skills.Skill.SetRanges | src/ts/model/Skill.ts:82-109 | writes only `barRanges`, which becomes `Fracture(scale)`: the segments are rebuilt, so absent optional segments are cleared |
| Skills.Skill.SetAngle | src/ts/model/Skill.ts:50-58 | writes only the angle; the getter then returns the value set |
| Skills.Skill.VisualEnd | src/ts/model/Skill.ts:83-87 | no contract of its own: the end `setRanges` draws the bar to; `Skills.Skill.TotalLength` states what it gives |
| Skills.Skill.Total | src/ts/model/Skill.ts:90 | no contract of its own: `barRanges.total`, the segment from `start` to the visual end; `Skills.Skill.TotalLength` states its start and length |
| Skills.Skill.Fracture | src/ts/model/Skill.ts:82-109 | no contract of its own: the segments `setRanges` computes; `Skills.Skill.Segments`, `Skills.Skill.TotalLength` and `Skills.Skill.Containment` state them, and `Skills.Skill.SetRanges` is proved to store them |
| Skills.Skill.TotalLength | src/ts/model/Skill.ts:83-90 | for an exactly invertible scale, `total` starts at the scaled start and is at least MinSkillLength long: exactly that long when the scaled duration is shorter, ending at the scaled `actualEnd` otherwise |
| Skills.Skill.Segments | src/ts/model/Skill.ts:89-108 | `start` exists iff `maxStart` is truthy and spans start..maxStart; `end` exists iff `maxEnd` is truthy and spans end..maxEnd; `main` runs from `maxStart ?? start` to `end` when `maxEnd` is truthy, to the end of `total` otherwise; neighbouring segments meet |
| Skills.Skill.Containment | src/ts/model/Skill.ts:82-109 | with ordered bounds and an increasing, exactly invertible scale, all segment lengths are non-negative, and start segment, main and end segment lie inside `total` in that order |
| Strings.Split | src/ts/model/Data.ts:67-69 | `split(',')` gives one more piece than there are commas, no piece holds a comma, and joining the pieces gives the string back |
| Strings.SplitJoin | src/ts/model/Data.ts:67-69 | comma-free pieces split back out of their join: the other half of the round trip |
| Sorting.SortBy | src/ts/model/Data.ts:42 | the sort's result is ordered by the key and is a permutation of its input; its stability is `Sorting.SortByStable` |
| Sorting.InsertByStable | src/ts/model/Data.ts:42 | inserting one element keeps the elements of every key in their order and puts the new one after those it ties with |
| Sorting.SortByStable | src/ts/model/Data.ts:42 | for every key value, the elements with that key come out of the sort in the order they went in: the sort is stable |
| Sorting.SortByTiesAscending | src/ts/model/Data.ts:104-111 | sorting an increasing sequence by any key leaves equal-key elements in ascending order, which is the stability of the sort |
| Layout.SortByStart | src/ts/model/Data.ts:42 | the processing order is a permutation of the input with non-decreasing starts, in which skills with the same start keep their input order |
| Layout.StartKey | src/ts/model/Data.ts:42 | no contract of its own: the key `a.start` of the comparator `a.start - b.start`; `Layout.SortByStart` states the order it gives |
| Layout.KindCount | src/ts/model/Data.ts:44-45 | `typesCount` is the number of distinct types, positive for a non-empty input, so `360 / typesCount` is defined |
| Layout.RangeFrom | src/ts/model/Data.ts:47-53 | from an accumulator, the `reduce` gives a first component no larger than the accumulator or any start and equal to one of them, and a second component no smaller than the accumulator or any `actualEnd` and equal to one of them |
| Layout.SkillRange | src/ts/model/Data.ts:47-53 | `skillRange[0]` is the least start of any skill; `skillRange[1]` is at least 0 and every `actualEnd`, and is 0 or some skill's `actualEnd` |
| Layout.SkillRangeOfSorted | src/ts/model/Data.ts:42-53 | on the sorted copy, `skillRange[0]` is the first skill's start |
| Layout.PrerequisiteIds | src/ts/model/Data.ts:67-69 | the prerequisite ids are the comma-separated pieces of `prerequisites`, one more than its commas, joining back to it |
| Layout.ParentLinks | src/ts/model/Data.ts:68-70 | one link per prerequisite id, in order, from the registered skill of that id to the skill |
| Layout.RangedAdmits | src/ts/model/Data.ts:121-126 | on lanes whose bars have their segments, the test `addToLane` makes on the stored `barRanges.total` is the lane-admission predicate |
| Layout.PlaceKeepsRanged | src/ts/model/Data.ts:113-132 | after placing a skill with segments, every bar in the lanes still has its segments |
| Layout.PlaceOccupantsOf | src/ts/model/Data.ts:113-132 | after `addToLane` every bar in the lanes was there before or is the skill placed |
| Layout.Tree.constructor | src/ts/model/Data.ts:41-100 | `skillRange` is that of the sorted copy and the scale is built from it; afterwards every input skill is registered under its id and has its segments and an angle, the registry and lanes hold only input skills, lanes never overlap, every type list starts with a skill with an angle, and one link was made per prerequisite id |
| Layout.Tree.Build | src/ts/model/Data.ts:60-99 | the loop over the sorted skills: it keeps the tree's invariant, registers every skill under its id, gives each its segments and an angle, and counts one link per prerequisite id |
| Layout.Tree.Begin | src/ts/model/Data.ts:61-92 | the first half of a pass keeps the loop's invariant up to the preferred angle |
| Layout.Tree.Finish | src/ts/model/Data.ts:94-98 | the second half of a pass re-establishes the loop's invariant with one more skill processed |
| Layout.Tree.Prepare | src/ts/model/Data.ts:61-92 | after segments, links and the preferred angle the tree's invariant still holds, the skill has segments `Fracture(scale)` and an angle, the list of its type is returned, and the links grew by one per prerequisite id |
| Layout.Tree.Settle | src/ts/model/Data.ts:94-98 | after `addToLane`, the push to the type list and the registration: the skill is registered under its id, last in its type list, the invariant holds, and lanes gained no bar but this one |
| Layout.Tree.Register | src/ts/model/Data.ts:81-98 | the registry maps the skill's id to it, the skill is appended to its type's list, a new type gets a new list, and nothing else changes |
| Layout.Tree.SeedAngle | src/ts/model/Data.ts:78-92 | no contract of its own: the preferred angle, being the first parent's angle, else the skill's own, else the even share for a new type, else the angle of its type's first skill; `Layout.Tree.PreferAngle` proves the method sets exactly this angle |
| Layout.Tree.RangeSkill | src/ts/model/Data.ts:61 | `setRanges(this.scale)` gives the skill `Fracture(scale)` and keeps all lane bars ranged |
| Layout.Tree.PreferAngle | src/ts/model/Data.ts:67-92 | a skill with prerequisites gets its links as parents, appended to `links` and each source's `children`, and the first parent's angle; otherwise a new type gets `(360/typesCount)·types.size`, a known type its first skill's angle, unless the skill already had an angle |
| Layout.Tree.LinkPrerequisites | src/ts/model/Data.ts:67-76 | `parents` becomes one link per prerequisite id, appended in order to `links` and to each source's `children` |
| Layout.Tree.AttachLinks | src/ts/model/Data.ts:72-76 | each link is pushed onto `links` and onto its source's `children`, in order, and nothing else changes |
| Layout.Tree.AddToLane | src/ts/model/Data.ts:102-136 | the lanes become `Place` over the candidates ordered by distance from the angle; the skill turns to the chosen lane's angle, or keeps its angle when none admits it; lanes stay non-overlapping and gain only this bar |
| Layout.Tree.PlaceAmong | src/ts/model/Data.ts:113-135 | the loop creates empty lanes as it examines candidates and appends the skill to the first admitting one; the result is `Place` and the angle that of `FirstFit` |
| Layout.Tree.Claim | src/ts/model/Data.ts:121-131 | when the i-th candidate is the first to admit the skill, `FirstFit` chooses it, the lanes become `Place` with the skill pushed onto that lane, and the skill takes that lane's angle |
| Lanes.Ring | src/ts/model/Data.ts:157-160 | `ring` is the largest k with InitialCount·2^k ≤ maxCount, and 0 below InitialCount where the source clamps |
| Lanes.LaneCount | src/ts/model/Data.ts:162 | no contract of its own: `initialCount * 2^ring`; `Lanes.LaneCountBounds` states its bounds and `Lanes.LanesNested` its growth |
| Lanes.EvenDivision | src/ts/model/Data.ts:164-166 | the `map` gives `count` angles; `Lanes.LaneAngles` states their values |
| Lanes.LanesAtRadius | src/ts/model/Data.ts:151-167 | the ring has `count` angles; `Lanes.LaneAngles` states their values |
| Lanes.LaneCountBounds | src/ts/model/Data.ts:152-162 | `count` is a multiple of InitialCount, at least InitialCount, at most `maxCount` when that many fit, and more than half of `maxCount` |
| Lanes.LaneAngles | src/ts/model/Data.ts:162-166 | `lanesAtRadius` returns `count` angles, element i being i·360/count, strictly increasing from 0 and all in [0, 360) |
| Lanes.LanesNested | src/ts/model/Data.ts:151-167 | more slots never mean fewer lanes: the count grows by a power of two, so every angle of a smaller ring is an angle of a larger one |
| Lanes.Nearer | src/ts/model/Data.ts:139-147 | one step of the `reduce` returns one of its two arguments, no farther from the needle than either, and the larger of two equally near ones |
| Lanes.ClosestFrom | src/ts/model/Data.ts:139-148 | the `reduce` returns the accumulator or an element, no farther than either, the larger on a tie |
| Lanes.Closest | src/ts/model/Data.ts:138-149 | `closest` returns an element of the non-empty haystack nearest the needle, the largest among equally near ones |
| Lanes.Candidates | src/ts/model/Data.ts:104-111 | the candidates are a permutation of the ring's angles, `count` of them; `Lanes.CandidateOrder` states their order |
| Lanes.DistanceFrom | src/ts/model/Data.ts:105-110 | no contract of its own: the comparator's key `Math.abs(a - skill.angle)`; `Lanes.CandidateOrder` states the order it gives |
| Lanes.CandidateOrder | src/ts/model/Data.ts:104-111 | the candidates are the ring's angles, a permutation, by ascending distance from the angle, the smaller angle first on a tie |
| Lanes.FirstCandidateVersusClosest | src/ts/model/Data.ts:104-111 | the first candidate is as near as `closest`'s choice, but on a tie is the smaller angle where `closest` takes the larger |
| Lanes.LaneAt | src/ts/model/Data.ts:114-119 | no contract of its own: the lane at an angle, an absent lane reading as the empty lane `addToLane` creates; `Lanes.WithEmptyLanesEffect` and `Lanes.AppendAtEffect` state the registry through it |
| Lanes.Admits | src/ts/model/Data.ts:121-126 | no contract of its own: the admission test, an empty lane or a last bar ending a margin before the skill starts; `Layout.RangedAdmits` proves it is the test on the stored `barRanges`, and `Lanes.NearestAdmittingLane` that the chosen lane is the nearest admitting one |
| Lanes.FirstFitFrom | src/ts/model/Data.ts:113-133 | from position i, the `for…of` with its early return finds the first admitting candidate, all those between i and it failing the test; none when no candidate from i admits the skill |
| Lanes.FirstFit | src/ts/model/Data.ts:113-133 | the chosen position admits the skill and every earlier candidate lane is non-empty with a last bar ending too late; none when no candidate admits it |
| Lanes.NearestAdmittingLane | src/ts/model/Data.ts:102-136 | of all lanes on the ring that admit the skill, the one chosen is nearest to the preferred angle, the smaller on a tie; when none is chosen, no lane admits it |
| Lanes.WithEmptyLanes | src/ts/model/Data.ts:114-119 | no contract of its own: the registry once every examined angle has a lane; `Lanes.WithEmptyLanesEffect` states it |
| Lanes.WithEmptyLanesEffect | src/ts/model/Data.ts:114-119 | creating the empty lanes changes no lane's contents and adds exactly the examined angles as keys |
| Lanes.AppendAt | src/ts/model/Data.ts:114-128 | no contract of its own: the registry after `lane.push(skill)` on the k-th candidate; `Lanes.AppendAtEffect` states it |
| Lanes.AppendAtEffect | src/ts/model/Data.ts:114-128 | the chosen lane gains the skill at its end, every other lane keeps its contents, and the keys are the old ones plus the candidates examined up to the chosen one |
| Lanes.Place | src/ts/model/Data.ts:113-135 | no contract of its own: the lane registry after `addToLane`; `Lanes.PlaceEffect`, `Lanes.PlaceKeepsNoOverlap` and `Lanes.PlaceOccupants` state its properties, and `Layout.Tree.AddToLane` is proved to produce it |
| Lanes.PlaceEffect | src/ts/model/Data.ts:113-132 | on success the skill is appended to exactly the chosen lane, every other lane keeps its contents and only examined candidates gain (empty) entries; on failure no lane changes contents |
| Lanes.PlaceKeepsNoOverlap | src/ts/model/Data.ts:121-128 | if consecutive bars of every lane are a margin apart, they still are after `addToLane` |
| Lanes.PlaceOccupants | src/ts/model/Data.ts:113-132 | every bar in a lane after `addToLane` is the placed skill or the bar at the same position of that lane before |
| Legacy.Node.constructor | src/ts/Data.ts:23 | a parsed row has its fields and no parents yet |
| Legacy.ValuesOf | src/ts/Data.ts:60 | `Object.values(this.skills)` lists one row per key, in key order |
| Legacy.ValuesCover | src/ts/Data.ts:60 | when the order holds every key, `Object.values` lists exactly the registered rows |
| Legacy.AddValues | src/ts/Data.ts:47 | registering a new id appends the row to `Object.values`; re-registering an id puts the row in the old one's place |
| Legacy.Ids | src/ts/Data.ts:62-63 | the ids of a row are one more than the commas of its prerequisites |
| Legacy.Parents | src/ts/Data.ts:62-64 | no contract of its own: the lookup of each prerequisite id; `Legacy.ParentsResolve` states it |
| Legacy.ParentsResolve | src/ts/Data.ts:62-64 | the parents are one lookup per id, in order: the row of that id, or null exactly when no row has it |
| Legacy.LinksOf | src/ts/Data.ts:61-69 | a row with prerequisites gets one link per id, each targeting that row; a row without prerequisites gets none |
| Legacy.AllLinks | src/ts/Data.ts:59-71 | no contract of its own: the links of the rows in order; `Legacy.LinkCount` and `Legacy.LinkEnds` state their number and ends |
| Legacy.LinkCount | src/ts/Data.ts:59-71 | `addLinks` makes exactly one link per prerequisite entry, summed over the rows |
| Legacy.LinkEnds | src/ts/Data.ts:66-68 | every link targets one of the rows and comes from a registered row or from null |
| Legacy.Tree.constructor | src/ts/Data.ts:39-43 | a new tree is empty and valid |
| Legacy.Tree.Add | src/ts/Data.ts:46-57 | the registry maps the id to the row, replacing any earlier one; a new id joins the key order; a row with a level is appended to that level's list, created empty if absent; a null level leaves the levels unchanged; the invariant is kept |
| Legacy.Tree.Register | src/ts/Data.ts:47 | `skills[skill.id] = skill`, a new id at the end of the key order, ids distinct and each row under its own id |
| Legacy.Tree.File | src/ts/Data.ts:49-56 | only the row's level list changes, by appending the row; every level list holds rows of that level |
| Legacy.LevelAt | src/ts/Data.ts:51-53 | no contract of its own: `levels[level]`, a never-assigned level reading as the empty list the source creates; `Legacy.Tree.File` and `Legacy.Tree.Add` state the update through it |
| Legacy.Tree.AddLinks | src/ts/Data.ts:59-71 | `links` gains, after the existing ones, the links of every row in `Object.values` order; rows with prerequisites get their parents, the others keep theirs |
| Legacy.Tree.LinkAll | src/ts/Data.ts:60-70 | the loop over the rows appends their links in order and sets the parents of exactly the rows with prerequisites |
| Legacy.Tree.LinkRow | src/ts/Data.ts:61-69 | one row with prerequisites: its parents are the lookups of its ids, and one link per parent is appended |
| Legacy.Tree.PushLinks | src/ts/Data.ts:66-68 | one link from each parent to the row is pushed, in order |

## Left out

- src/ts/Graph.ts, src/ts/model/TreeNode.ts, src/main.ts, src/index.ts and src/ts/settings.js are rendering or bootstrapping, not layout. Both `parseData` methods fetch and coerce CSV through d3.
- `nodeList` is only filled by `parseData`.
- `Skill.arc`, `toString`, `getIconDetails`, `updateRotation` and the setter's DOM side effect are drawing concerns. They rely on code that is not part of this model.
- `console.log` and `console.warn` in `addToLane` are output only. The model's failure case is "no lane gains the skill, its angle is kept".
- The d3 power scale (`scalePow().exponent(0.5)`) is an abstract `Scale` passed in as `scaleFor`. Its floating-point square root and any domain edge case lie outside the model. `Increasing` and `ExactInverse` are hypotheses of the lemmas that need them.
- `Math.PI`, `Math.log2` and `Math.floor` in `lanesAtRadius` give the slot count `maxCount`. It enters as the supplied function `maxCountAt`, and `Ring` reproduces the floor-of-log and the clamp to 0 exactly.
- A negative `maxCount` (a negative radius) is outside the model, since `maxCount` is a `nat`.
- Floating-point numbers are modelled as exact reals. NaN bounds are not modelled.
- `Skills.Skill.Consistent` excludes a truthy `maxEnd` without `end`. The source would compute NaN `main` and `end` segments in that case, since both use the missing `end` (Skill.ts:94, Skill.ts:105-106).
- Layout.Tree.constructor: throws when a prerequisite names no earlier-registered skill. The model takes that as the precondition `PrerequisitesResolve` rather than modelling the exception.
- Layout.Tree.constructor: requires a non-empty input, as the source reads `sortedSkills[0]`. An empty input throws there.
- The `id` and type keys are only ever compared for equality. Several JavaScript details are not modelled:
  - numeric CSV cells that `autoType` turns into numbers (a numeric `prerequisites` has no `split`);
  - prototype property names like `__proto__`;
  - `Object.values` listing integer-like keys first.
- `Legacy.Node.level`: a level is an integer or null in the model. A fractional level, or an undefined one when the column is missing, would be stored under a string key in the source.
- Layout.Tree.Build: its contract restates only the loop's invariant.
- Layout.Tree.Begin: its contract restates only the loop's invariant.
- Layout.Tree.Finish: its contract restates only the loop's invariant.
- Layout.Tree.Prepare, Layout.Tree.Settle: these are the two halves of one loop pass. Their contracts carry the invariant and the bookkeeping facts. The angle and lane semantics are stated on `PreferAngle` and `AddToLane`, which they call.
- Layout.Tree.constructor: does not restate the ordering of `types` lists or the per-skill `parents` and `children`. Those are stated per pass by `PreferAngle` and `Register`.
