/** Roadmap flattening (app.py:58-91): a career's three staged task lists
    become one level-tagged task list, starting from the chosen level. */
module Roadmaps {

  datatype Level = Beginner | Intermediate | Advanced

  /** The catalog's `roadmap` object: one ordered task list per level. */
  datatype Roadmap = Roadmap(beginner: seq<string>, intermediate: seq<string>, advanced: seq<string>)

  /** One `(level, step)` pair of `roadmap_steps`. */
  datatype Step = Step(level: Level, task: string)

  /** The label the program uses for a level, in the radio button and as tag. */
  function Label(l: Level): string {
    match l
    case Beginner => "Beginner"
    case Intermediate => "Intermediate"
    case Advanced => "Advanced"
  }

  /** Position of a level on the learning path. */
  function Rank(l: Level): nat {
    match l
    case Beginner => 0
    case Intermediate => 1
    case Advanced => 2
  }

  /** `roadmap[label]` */
  function Tasks(rm: Roadmap, l: Level): seq<string> {
    match l
    case Beginner => rm.beginner
    case Intermediate => rm.intermediate
    case Advanced => rm.advanced
  }

  /** The level the flattening starts from: the selected label when it names
      Beginner or Intermediate, and Advanced for every other value. */
  function StartLevel(selected: string): (l: Level)
    ensures Label(l) == selected || l == Advanced
    ensures l == Advanced <==> selected != "Beginner" && selected != "Intermediate"
  {
    if selected == "Beginner" then Beginner
    else if selected == "Intermediate" then Intermediate
    else Advanced
  }

  /** Whether a level's tasks belong to the roadmap for the selected level:
      the remaining path from the starting level on. */
  predicate Included(selected: string, l: Level) {
    Rank(StartLevel(selected)) <= Rank(l)
  }

  /** `[(level, step) for step in tasks]` */
  function Tag(l: Level, tasks: seq<string>): (r: seq<Step>)
    ensures |r| == |tasks|
    ensures forall i :: 0 <= i < |r| ==> r[i] == Step(l, tasks[i])
    ensures Project(r) == tasks
    ensures forall s :: s in r ==> s.level == l
  {
    seq(|tasks|, i requires 0 <= i < |tasks| => Step(l, tasks[i]))
  }

  /** Levels never decrease along a list of steps. */
  predicate LevelOrdered(steps: seq<Step>) {
    forall i, j :: 0 <= i < j < |steps| ==> Rank(steps[i].level) <= Rank(steps[j].level)
  }

  /** `roadmap_steps` (app.py:58-67): the tagged tasks of every included level,
      Beginner before Intermediate before Advanced. */
  function Flatten(rm: Roadmap, selected: string): (r: seq<Step>)
    ensures forall i :: 0 <= i < |r| ==> Included(selected, r[i].level)
    ensures LevelOrdered(r)
    ensures |r| == (if Included(selected, Beginner) then |rm.beginner| else 0)
                 + (if Included(selected, Intermediate) then |rm.intermediate| else 0)
                 + |rm.advanced|
  {
    var b := Tag(Beginner, rm.beginner);
    var m := Tag(Intermediate, rm.intermediate);
    var a := Tag(Advanced, rm.advanced);
    match StartLevel(selected)
    case Beginner => b + m + a
    case Intermediate => m + a
    case Advanced => a
  }

  /** `[step for lvl, step in steps if lvl == level]` (app.py:71) */
  function StepsAt(steps: seq<Step>, l: Level): (r: seq<string>)
    ensures |r| <= |steps|
  {
    if steps == [] then []
    else (if steps[0].level == l then [steps[0].task] else []) + StepsAt(steps[1..], l)
  }

  /** `[step for _, step in steps]` (app.py:91) */
  function Project(steps: seq<Step>): (r: seq<string>)
    ensures |r| == |steps|
    ensures forall i :: 0 <= i < |r| ==> r[i] == steps[i].task
  {
    seq(|steps|, i requires 0 <= i < |steps| => steps[i].task)
  }

  lemma {:induction false} StepsAtAppend(a: seq<Step>, b: seq<Step>, l: Level)
    ensures StepsAt(a + b, l) == StepsAt(a, l) + StepsAt(b, l)
  {
    if a == [] {
      assert a + b == b;
    } else {
      var ab := a + b;
      assert ab[0] == a[0] && ab[1..] == a[1..] + b;
      StepsAtAppend(a[1..], b, l);
      var head := if a[0].level == l then [a[0].task] else [];
      var x, y := StepsAt(a[1..], l), StepsAt(b, l);
      assert StepsAt(ab, l) == head + (x + y);
      assert head + (x + y) == (head + x) + y;
    }
  }

  /** Filtering a block tagged with one level gives back its tasks for that
      level and nothing for any other. */
  lemma {:induction false} StepsAtTag(tag: Level, tasks: seq<string>, l: Level)
    ensures StepsAt(Tag(tag, tasks), l) == (if tag == l then tasks else [])
  {
    if tasks != [] {
      assert Tag(tag, tasks)[1..] == Tag(tag, tasks[1..]);
      StepsAtTag(tag, tasks[1..], l);
    }
  }

  /** Regrouping by level (app.py:70-71) recovers each included level's task
      list unchanged, and finds nothing for an excluded level. */
  lemma RegroupRecovers(rm: Roadmap, selected: string, l: Level)
    ensures StepsAt(Flatten(rm, selected), l) == (if Included(selected, l) then Tasks(rm, l) else [])
  {
    var b := Tag(Beginner, rm.beginner);
    var m := Tag(Intermediate, rm.intermediate);
    var a := Tag(Advanced, rm.advanced);
    StepsAtTag(Beginner, rm.beginner, l);
    StepsAtTag(Intermediate, rm.intermediate, l);
    StepsAtTag(Advanced, rm.advanced, l);
    match StartLevel(selected)
    case Beginner =>
      StepsAtAppend(b + m, a, l);
      StepsAtAppend(b, m, l);
    case Intermediate =>
      StepsAtAppend(m, a, l);
    case Advanced =>
  }

  /** The tracker's task list (app.py:91): the included levels' task lists
      concatenated in level order. */
  lemma SelectedTasks(rm: Roadmap, selected: string)
    ensures Project(Flatten(rm, selected))
         == (if Included(selected, Beginner) then rm.beginner else [])
          + (if Included(selected, Intermediate) then rm.intermediate else [])
          + rm.advanced
  {
    var b := Tag(Beginner, rm.beginner);
    var m := Tag(Intermediate, rm.intermediate);
    var a := Tag(Advanced, rm.advanced);
    ProjectAppend(b + m, a);
    ProjectAppend(b, m);
    ProjectAppend(m, a);
    assert Project(b) == rm.beginner;
    assert Project(m) == rm.intermediate;
    assert Project(a) == rm.advanced;
  }

  lemma ProjectAppend(a: seq<Step>, b: seq<Step>)
    ensures Project(a + b) == Project(a) + Project(b)
  {
  }

  /** The per-level sections of the roadmap page, read top to bottom, list
      exactly the tasks the tracker numbers, in the same order. */
  lemma SectionsMatchTracker(rm: Roadmap, selected: string)
    ensures var steps := Flatten(rm, selected);
      StepsAt(steps, Beginner) + StepsAt(steps, Intermediate) + StepsAt(steps, Advanced) == Project(steps)
  {
    RegroupRecovers(rm, selected, Beginner);
    RegroupRecovers(rm, selected, Intermediate);
    RegroupRecovers(rm, selected, Advanced);
    SelectedTasks(rm, selected);
  }
}
