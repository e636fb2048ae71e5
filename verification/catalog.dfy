/** Career records of the catalog file and the per-record operations of the
    career form (app.py:29, 49-50). */
module Catalog {
  import opened Wrappers
  import opened Text
  import opened Roadmaps

  /** One record of the catalog file. */
  datatype Career = Career(
    name: string,
    requiredSkills: seq<string>,
    interestTags: seq<string>,
    roadmap: Roadmap,
    resources: seq<string>)

  /** `" ".join(c["required_skills"] + c["interest_tags"])` (app.py:29): the
      required skills and then the interest tags, one space between
      neighbours. */
  function CareerText(c: Career): (r: string)
    ensures |c.requiredSkills| > 0 && |c.interestTags| > 0 ==>
      r == Join(c.requiredSkills, ' ') + " " + Join(c.interestTags, ' ')
    ensures c.interestTags == [] ==> r == Join(c.requiredSkills, ' ')
    ensures c.requiredSkills == [] ==> r == Join(c.interestTags, ' ')
  {
    JoinPair(c.requiredSkills, c.interestTags, ' ');
    Join(c.requiredSkills + c.interestTags, ' ')
  }

  /** `[c["career"] for c in recommendations]` (app.py:49) */
  function Names(recs: seq<Career>): (r: seq<string>)
    ensures |r| == |recs|
    ensures forall i :: 0 <= i < |r| ==> r[i] == recs[i].name
    ensures forall c :: c in recs ==> c.name in r
  {
    seq(|recs|, i requires 0 <= i < |recs| => recs[i].name)
  }

  /** Position of the first record named `name`, if any. */
  function IndexOfName(recs: seq<Career>, name: string): (r: Option<nat>)
    ensures r.None? <==> forall j :: 0 <= j < |recs| ==> recs[j].name != name
    ensures r.Some? ==> r.value < |recs| && recs[r.value].name == name
    ensures r.Some? ==> forall j :: 0 <= j < r.value ==> recs[j].name != name
  {
    if recs == [] then None
    else if recs[0].name == name then Some(0)
    else
      match IndexOfName(recs[1..], name)
      case None => None
      case Some(i) => Some(i + 1)
  }

  /** `next(c for c in recommendations if c["career"] == name)` (app.py:50):
      the first record carrying `name`; `None` stands for the
      `StopIteration` raised when no record does. */
  function FindByName(recs: seq<Career>, name: string): (r: Option<Career>)
    ensures r.None? <==> name !in Names(recs)
    ensures r.Some? ==> r.value in recs && r.value.name == name
  {
    match IndexOfName(recs, name)
    case None => None
    case Some(i) => Some(recs[i])
  }

  /** A name picked from the recommendations' own names always finds a record. */
  lemma FindListedName(recs: seq<Career>, i: nat)
    requires i < |recs|
    ensures FindByName(recs, recs[i].name).Some?
    ensures FindByName(recs, recs[i].name).value.name == recs[i].name
  {
    assert Names(recs)[i] == recs[i].name;
  }

  /** The record found is the first one carrying the name. */
  lemma FindByNameFirst(recs: seq<Career>, name: string)
    requires FindByName(recs, name).Some?
    ensures exists i :: 0 <= i < |recs| && recs[i] == FindByName(recs, name).value
                        && (forall j :: 0 <= j < i ==> recs[j].name != name)
  {
    var i := IndexOfName(recs, name).value;
    assert recs[i] == FindByName(recs, name).value;
  }
}
