/** The console crew: the tasks declared for the agents, the `context=` list of each (the
    tasks whose output it reads) and the order in which the crew runs them. The declared
    edges form a DAG along that order. */
module Pipeline {

  datatype TaskName =
    | CollectProfile
    | Normalize
    | MatchUniversities
    | RankPrograms
    | FindScholarships
    | CollectReviews
    | FinalReport

  /** The `context=` list of each task; a task declared without one reads no other task. */
  function Context(t: TaskName): (r: seq<TaskName>)
    ensures forall c :: c in r ==> c != CollectProfile && Stage(c) < Stage(t)
  {
    match t
    case CollectProfile => []
    case Normalize => []
    case MatchUniversities => [Normalize]
    case RankPrograms => [MatchUniversities]
    case FindScholarships => [Normalize, RankPrograms]
    case CollectReviews => [RankPrograms]
    case FinalReport => [Normalize, RankPrograms, FindScholarships, CollectReviews]
  }

  /** `Crew(tasks=[...])`: the profile collection task is declared but not run. */
  const CrewOrder: seq<TaskName> :=
    [Normalize, MatchUniversities, RankPrograms, FindScholarships, CollectReviews, FinalReport]

  /** The first position of `t` in `order`. */
  function IndexOf(order: seq<TaskName>, t: TaskName): (i: nat)
    requires t in order
    ensures i < |order| && order[i] == t
    ensures forall j :: 0 <= j < i ==> order[j] != t
  {
    if order[0] == t then 0 else 1 + IndexOf(order[1..], t)
  }

  /** The position of a task in the crew's list (the profile task, which is not run,
      counts as the first). */
  function Stage(t: TaskName): (n: nat)
    ensures n < |CrewOrder| && (t != CollectProfile ==> CrewOrder[n] == t)
  {
    match t
    case CollectProfile => 0
    case Normalize => 0
    case MatchUniversities => 1
    case RankPrograms => 2
    case FindScholarships => 3
    case CollectReviews => 4
    case FinalReport => 5
  }

  /** Every task of `order` reads only tasks that come before it in `order`. */
  predicate ContextsPrecede(order: seq<TaskName>)
  {
    forall i :: 0 <= i < |order| ==> forall c :: c in Context(order[i]) ==> c in order[..i]
  }

  /** The crew runs every task after the tasks it reads. */
  lemma CrewContextsPrecede()
    ensures ContextsPrecede(CrewOrder)
  {
    forall i, c | 0 <= i < |CrewOrder| && c in Context(CrewOrder[i])
      ensures c in CrewOrder[..i]
    {
      assert Stage(CrewOrder[i]) == i;
      assert CrewOrder[..i][Stage(c)] == c;
    }
  }

  /** A chain of reads: each task of `path` reads the next one. */
  ghost predicate ContextPath(path: seq<TaskName>)
  {
    forall k :: 0 <= k < |path| - 1 ==> path[k + 1] in Context(path[k])
  }

  /** Along an order whose contexts precede, following reads only moves backwards. */
  lemma {:induction false} PathDescends(order: seq<TaskName>, path: seq<TaskName>)
    requires ContextsPrecede(order)
    requires |path| >= 2 && ContextPath(path) && path[0] in order
    ensures path[|path| - 1] in order
    ensures IndexOf(order, path[|path| - 1]) < IndexOf(order, path[0])
    decreases |path|
  {
    var i0 := IndexOf(order, path[0]);
    assert path[1] in Context(order[i0]);
    assert path[1] in order[..i0];
    var j :| 0 <= j < i0 && order[j] == path[1];
    assert IndexOf(order, path[1]) <= j;
    if |path| > 2 {
      var rest := path[1..];
      assert ContextPath(rest) by {
        forall k | 0 <= k < |rest| - 1
          ensures rest[k + 1] in Context(rest[k])
        {
          assert rest[k] == path[k + 1] && rest[k + 1] == path[k + 2];
        }
      }
      PathDescends(order, rest);
    }
  }

  /** No task of the crew reads its own output, directly or through other tasks. */
  lemma NoContextCycle(path: seq<TaskName>)
    requires |path| >= 2 && ContextPath(path) && path[0] in CrewOrder
    ensures path[|path| - 1] != path[0]
  {
    CrewContextsPrecede();
    PathDescends(CrewOrder, path);
  }

  /** Every task a crew task reads is itself run by the crew; the profile collection task
      is never read. */
  lemma ContextsInCrew(t: TaskName, c: TaskName)
    requires t in CrewOrder && c in Context(t)
    ensures c in CrewOrder && c != CollectProfile
  {
    CrewContextsPrecede();
    var i := IndexOf(CrewOrder, t);
    assert c in CrewOrder[..i];
  }
}
