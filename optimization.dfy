/**
 * The assignment optimizer: per-member workload, the dependency check,
 * the weighted re-ranking of the assistant's candidate matches for one
 * task, and the bulk pass over several tasks.
 *
 * Scores are exact reals; the source computes them in binary floating
 * point.
 */
module Optimization {
  import opened Common

  /** The fields of a task the optimizer reads. */
  datatype Task = Task(id: string, status: TaskStatus, assigneeId: Option<string>, dependsOn: Option<seq<string>>)

  /** One candidate returned by the matching service for a task. */
  datatype UserMatch = UserMatch(userId: string, matchScore: real, skillCoverage: real)

  datatype AssignmentOptimization = AssignmentOptimization(
    taskId: string,
    suggestedAssigneeId: string,
    confidence: real,
    reason: string)

  /** How much a task adds to its assignee's workload. */
  function Weight(status: TaskStatus): real
  {
    match status
    case IN_PROGRESS => 2.0
    case IN_REVIEW => 1.5
    case DONE => 0.0
    case _ => 1.0
  }

  predicate AssignedTo(t: Task, memberId: string)
  {
    Truthy(t.assigneeId) && t.assigneeId.value == memberId
  }

  /** The weighted number of tasks assigned to memberId. */
  function LoadOf(tasks: seq<Task>, memberId: string): (load: real)
    ensures load >= 0.0
    decreases |tasks|
  {
    if tasks == [] then 0.0
    else
      var last := tasks[|tasks| - 1];
      LoadOf(tasks[..|tasks| - 1], memberId) + (if AssignedTo(last, memberId) then Weight(last.status) else 0.0)
  }

  /** A member with no open (non-DONE) task assigned carries no load. */
  lemma {:induction false} LoadOfIdle(tasks: seq<Task>, memberId: string)
    requires forall i :: 0 <= i < |tasks| && AssignedTo(tasks[i], memberId) ==> tasks[i].status == DONE
    ensures LoadOf(tasks, memberId) == 0.0
    decreases |tasks|
  {
    if tasks != [] {
      LoadOfIdle(tasks[..|tasks| - 1], memberId);
    }
  }

  /** Each open task assigned to the member adds at least one unit. */
  lemma {:induction false} LoadOfCountsOpenTasks(tasks: seq<Task>, memberId: string, i: int)
    requires 0 <= i < |tasks| && AssignedTo(tasks[i], memberId) && tasks[i].status != DONE
    ensures LoadOf(tasks, memberId) >= 1.0
    decreases |tasks|
  {
    if i < |tasks| - 1 {
      LoadOfCountsOpenTasks(tasks[..|tasks| - 1], memberId, i);
    }
  }

  /**
   * The workload map: every listed member starts at zero and each task
   * whose assignee is listed adds its status weight.
   */
  method CalculateWorkload(tasks: seq<Task>, memberIds: seq<string>) returns (workload: map<string, real>)
    ensures workload.Keys == set m | m in memberIds
    ensures forall m :: m in workload ==> workload[m] == LoadOf(tasks, m)
  {
    workload := map[];
    for i := 0 to |memberIds|
      invariant workload.Keys == set m | m in memberIds[..i]
      invariant forall m :: m in workload ==> workload[m] == 0.0
    {
      assert memberIds[..i + 1] == memberIds[..i] + [memberIds[i]];
      workload := workload[memberIds[i] := 0.0];
    }
    assert memberIds[..|memberIds|] == memberIds;
    for j := 0 to |tasks|
      invariant workload.Keys == set m | m in memberIds
      invariant forall m :: m in workload ==> workload[m] == LoadOf(tasks[..j], m)
    {
      assert tasks[..j + 1][..j] == tasks[..j];
      var task := tasks[j];
      if task.assigneeId.Some? && task.assigneeId.value != "" && task.assigneeId.value in workload {
        var current := workload[task.assigneeId.value];
        var weight := 1.0;
        if task.status == IN_PROGRESS { weight := 2.0; }
        if task.status == IN_REVIEW { weight := 1.5; }
        if task.status == DONE { weight := 0.0; }
        workload := workload[task.assigneeId.value := current + weight];
      }
    }
    assert tasks[..|tasks|] == tasks;
  }

  /** `workload.get(userId) || 0`. */
  function WorkloadOf(tasks: seq<Task>, memberIds: seq<string>, userId: string): real
  {
    if userId in memberIds then LoadOf(tasks, userId) else 0.0
  }

  function MaxLoad(tasks: seq<Task>, memberIds: seq<string>): (r: real)
    requires |memberIds| > 0
    ensures forall m :: m in memberIds ==> LoadOf(tasks, m) <= r
    ensures exists m :: m in memberIds && LoadOf(tasks, m) == r
  {
    var here := LoadOf(tasks, memberIds[0]);
    if |memberIds| == 1 then here
    else
      var rest := MaxLoad(tasks, memberIds[1..]);
      assert memberIds == [memberIds[0]] + memberIds[1..];
      if here >= rest then here else rest
  }

  function MinLoad(tasks: seq<Task>, memberIds: seq<string>): (r: real)
    requires |memberIds| > 0
    ensures forall m :: m in memberIds ==> r <= LoadOf(tasks, m)
    ensures exists m :: m in memberIds && LoadOf(tasks, m) == r
  {
    var here := LoadOf(tasks, memberIds[0]);
    if |memberIds| == 1 then here
    else
      var rest := MinLoad(tasks, memberIds[1..]);
      assert memberIds == [memberIds[0]] + memberIds[1..];
      if here <= rest then here else rest
  }

  /** `max - min || 1`: the spread of the workloads, or 1 when they are all equal. */
  function LoadRange(tasks: seq<Task>, memberIds: seq<string>): (r: real)
    requires |memberIds| > 0
    ensures r > 0.0
    ensures MaxLoad(tasks, memberIds) > MinLoad(tasks, memberIds) ==> r == MaxLoad(tasks, memberIds) - MinLoad(tasks, memberIds)
  {
    var spread := MaxLoad(tasks, memberIds) - MinLoad(tasks, memberIds);
    if spread == 0.0 then 1.0 else spread
  }

  /** `1 - (load - lo) / range`: a load normalised against the lowest one. */
  function Normalise(load: real, lo: real, range: real): real
    requires range > 0.0
  {
    1.0 - (load - lo) / range
  }

  lemma NormaliseBounds(load: real, lo: real, hi: real, range: real)
    requires range > 0.0 && lo <= load <= hi && hi - lo <= range
    ensures 0.0 <= Normalise(load, lo, range) <= 1.0
  {
    assert 0.0 <= (load - lo) / range <= 1.0 by {
      var q := (load - lo) / range;
      assert q * range == load - lo;
    }
  }

  lemma NormaliseAntitone(a: real, b: real, lo: real, range: real)
    requires range > 0.0 && a <= b
    ensures Normalise(a, lo, range) >= Normalise(b, lo, range)
  {
    var qa, qb := (a - lo) / range, (b - lo) / range;
    assert qa * range == a - lo && qb * range == b - lo;
    if qa > qb {
      assert qa * range > qb * range;
    }
  }

  lemma NormaliseAtMost(load: real, lo: real, range: real)
    requires range > 0.0 && load <= lo
    ensures Normalise(load, lo, range) >= 1.0
  {
    var q := (load - lo) / range;
    assert q * range == load - lo;
  }

  /** Normalised workload, lower load scoring higher. */
  function WorkloadScore(tasks: seq<Task>, memberIds: seq<string>, userId: string): real
    requires |memberIds| > 0
  {
    Normalise(WorkloadOf(tasks, memberIds, userId), MinLoad(tasks, memberIds), LoadRange(tasks, memberIds))
  }

  /** For a listed member the workload score lies in [0, 1]. */
  lemma WorkloadScoreBounds(tasks: seq<Task>, memberIds: seq<string>, userId: string)
    requires |memberIds| > 0 && userId in memberIds
    ensures 0.0 <= WorkloadScore(tasks, memberIds, userId) <= 1.0
  {
    var lo, hi, range := MinLoad(tasks, memberIds), MaxLoad(tasks, memberIds), LoadRange(tasks, memberIds);
    NormaliseBounds(LoadOf(tasks, userId), lo, hi, range);
  }

  /** The least loaded listed members score exactly 1. */
  lemma LeastLoadedScoresOne(tasks: seq<Task>, memberIds: seq<string>, userId: string)
    requires |memberIds| > 0 && userId in memberIds
    requires LoadOf(tasks, userId) == MinLoad(tasks, memberIds)
    ensures WorkloadScore(tasks, memberIds, userId) == 1.0
  {
    var lo, range := MinLoad(tasks, memberIds), LoadRange(tasks, memberIds);
    assert (lo - lo) / range == 0.0;
  }

  /** When every listed member carries the same load, each of them scores 1. */
  lemma EqualLoadsScoreOne(tasks: seq<Task>, memberIds: seq<string>, userId: string)
    requires |memberIds| > 0 && userId in memberIds
    requires forall m :: m in memberIds ==> LoadOf(tasks, m) == LoadOf(tasks, memberIds[0])
    ensures WorkloadScore(tasks, memberIds, userId) == 1.0
  {
    var lo := MinLoad(tasks, memberIds);
    var m :| m in memberIds && LoadOf(tasks, m) == lo;
    LeastLoadedScoresOne(tasks, memberIds, userId);
  }

  /** More load never scores higher. */
  lemma WorkloadScoreAntitone(tasks: seq<Task>, memberIds: seq<string>, a: string, b: string)
    requires |memberIds| > 0 && a in memberIds && b in memberIds
    requires LoadOf(tasks, a) <= LoadOf(tasks, b)
    ensures WorkloadScore(tasks, memberIds, a) >= WorkloadScore(tasks, memberIds, b)
  {
    NormaliseAntitone(LoadOf(tasks, a), LoadOf(tasks, b), MinLoad(tasks, memberIds), LoadRange(tasks, memberIds));
  }

  /** A candidate who is not a listed member is treated as load 0: it scores at least 1. */
  lemma OutsiderScoresAtLeastOne(tasks: seq<Task>, memberIds: seq<string>, userId: string)
    requires |memberIds| > 0 && userId !in memberIds
    ensures WorkloadScore(tasks, memberIds, userId) >= 1.0
  {
    var lo := MinLoad(tasks, memberIds);
    var m :| m in memberIds && LoadOf(tasks, m) == lo;
    NormaliseAtMost(0.0, lo, LoadRange(tasks, memberIds));
  }

  /** 50% match score, 30% workload balance, 20% skill coverage. */
  function CombinedScore(tasks: seq<Task>, memberIds: seq<string>, m: UserMatch): real
    requires |memberIds| > 0
  {
    m.matchScore * 0.5 + WorkloadScore(tasks, memberIds, m.userId) * 0.3 + m.skillCoverage * 0.2
  }

  /** With scores in [0, 1] and a listed candidate, the confidence lies in [0, 1]. */
  lemma CombinedScoreBounds(tasks: seq<Task>, memberIds: seq<string>, m: UserMatch)
    requires |memberIds| > 0 && m.userId in memberIds
    requires 0.0 <= m.matchScore <= 1.0 && 0.0 <= m.skillCoverage <= 1.0
    ensures 0.0 <= CombinedScore(tasks, memberIds, m) <= 1.0
  {
    WorkloadScoreBounds(tasks, memberIds, m.userId);
  }

  /**
   * The position a stable descending sort brings to the front: a maximal
   * score, and the first one among equals.
   */
  function FirstMax(scores: seq<real>): (k: nat)
    requires |scores| > 0
    ensures k < |scores|
    ensures forall j :: 0 <= j < |scores| ==> scores[j] <= scores[k]
    ensures forall j :: 0 <= j < k ==> scores[j] < scores[k]
  {
    if |scores| == 1 then 0
    else
      var k' := 1 + FirstMax(scores[1..]);
      if scores[0] >= scores[k'] then 0 else k'
  }

  /** The first task in the list with the given id (`allTasks.find`). */
  function FindTask(allTasks: seq<Task>, id: string): (r: Option<Task>)
    ensures r.None? <==> forall i :: 0 <= i < |allTasks| ==> allTasks[i].id != id
    ensures r.Some? ==> exists i :: 0 <= i < |allTasks| && allTasks[i] == r.value && r.value.id == id
                                    && forall j :: 0 <= j < i ==> allTasks[j].id != id
  {
    if allTasks == [] then None
    else if allTasks[0].id == id then Some(allTasks[0])
    else
      var r := FindTask(allTasks[1..], id);
      if r.Some? then
        var i :| 0 <= i < |allTasks[1..]| && allTasks[1..][i] == r.value && r.value.id == id
                 && forall j :: 0 <= j < i ==> allTasks[1..][j] != r.value && allTasks[1..][j].id != id;
        assert allTasks[i + 1] == r.value;
        r
      else r
  }

  /** True when there are no prerequisites or every one is found and DONE. */
  predicate AreDependenciesSatisfied(task: Task, allTasks: seq<Task>)
  {
    task.dependsOn.None? || |task.dependsOn.value| == 0 ||
    forall i :: 0 <= i < |task.dependsOn.value| ==>
      var dep := FindTask(allTasks, task.dependsOn.value[i]);
      dep.Some? && dep.value.status == DONE
  }

  /** A prerequisite that is not among the tasks makes the task blocked. */
  lemma MissingPrerequisiteBlocks(task: Task, allTasks: seq<Task>, dep: string)
    requires task.dependsOn.Some? && dep in task.dependsOn.value
    requires forall t :: t in allTasks ==> t.id != dep
    ensures !AreDependenciesSatisfied(task, allTasks)
  {
    var i :| 0 <= i < |task.dependsOn.value| && task.dependsOn.value[i] == dep;
    assert FindTask(allTasks, dep).None?;
  }

  /** A prerequisite whose first occurrence is not DONE makes the task blocked. */
  lemma UnfinishedPrerequisiteBlocks(task: Task, allTasks: seq<Task>, i: int)
    requires task.dependsOn.Some? && 0 <= i < |task.dependsOn.value|
    requires var dep := FindTask(allTasks, task.dependsOn.value[i]); dep.Some? && dep.value.status != DONE
    ensures !AreDependenciesSatisfied(task, allTasks)
  {
  }

  /** The explanation attached to a recommendation. */
  function ReasonText(percent: int, balanced: bool, blocked: bool): string
  {
    "Best match based on skills (" + IntToString(percent) + "% match)"
    + (if balanced then " and balanced workload" else "")
    + (if blocked then WarningSuffix() else "")
  }

  function WarningSuffix(): string
  {
    ". Warning: Dependencies not yet satisfied"
  }

  predicate EndsWith(s: string, suffix: string)
  {
    |suffix| <= |s| && s[|s| - |suffix|..] == suffix
  }

  /** The reason ends with the dependency warning exactly when the task is blocked. */
  lemma {:induction false} ReasonWarnsIffBlocked(percent: int, balanced: bool, blocked: bool)
    ensures EndsWith(ReasonText(percent, balanced, blocked), WarningSuffix()) <==> blocked
  {
    var s := ReasonText(percent, balanced, blocked);
    var w := WarningSuffix();
    if !blocked && |w| <= |s| {
      assert w[|w| - 2] == 'e';
      if balanced {
        assert s[|s| - 2] == 'a';
      } else {
        assert s[|s| - 1] == ')';
        assert w[|w| - 1] == 'd';
      }
      assert s[|s| - |w|..][|w| - 2] == s[|s| - 2];
      assert s[|s| - |w|..][|w| - 1] == s[|s| - 1];
    }
  }

  /** The recommendation built for the candidate at position k. */
  function Recommendation(task: Task, matches: seq<UserMatch>, allTasks: seq<Task>, memberIds: seq<string>, k: int)
    : AssignmentOptimization
    requires |memberIds| > 0 && 0 <= k < |matches|
  {
    var best := matches[k];
    AssignmentOptimization(
      task.id,
      best.userId,
      CombinedScore(allTasks, memberIds, best),
      ReasonText(Round(best.matchScore * 100.0),
                 WorkloadScore(allTasks, memberIds, best.userId) > 0.7,
                 !AreDependenciesSatisfied(task, allTasks)))
  }

  /**
   * What it means for o to recommend the candidate at position k: no
   * candidate scores higher, every earlier one scores strictly lower, and
   * o carries that candidate's id, score and explanation.
   */
  predicate IsRecommendation(
    o: AssignmentOptimization, task: Task, matches: seq<UserMatch>,
    allTasks: seq<Task>, memberIds: seq<string>, k: int)
    requires |memberIds| > 0
  {
    0 <= k < |matches| &&
    var score := CombinedScore(allTasks, memberIds, matches[k]);
    (forall j :: 0 <= j < |matches| ==> CombinedScore(allTasks, memberIds, matches[j]) <= score) &&
    (forall j :: 0 <= j < k ==> CombinedScore(allTasks, memberIds, matches[j]) < score) &&
    o == Recommendation(task, matches, allTasks, memberIds, k)
  }

  /**
   * Re-ranks the candidates for one task and recommends the best; null
   * when there is no candidate.
   */
  function OptimizeAssignments(task: Task, matches: seq<UserMatch>, allTasks: seq<Task>, memberIds: seq<string>)
    : (r: Option<AssignmentOptimization>)
    requires |memberIds| > 0
    ensures r.None? <==> matches == []
  {
    if matches == [] then None
    else Some(Recommendation(task, matches, allTasks, memberIds, FirstMax(Scores(allTasks, memberIds, matches))))
  }

  /** The combined score of every candidate, in candidate order. */
  function Scores(allTasks: seq<Task>, memberIds: seq<string>, matches: seq<UserMatch>): (r: seq<real>)
    requires |memberIds| > 0
    ensures |r| == |matches|
    ensures forall j :: 0 <= j < |matches| ==> r[j] == CombinedScore(allTasks, memberIds, matches[j])
  {
    seq(|matches|, i requires 0 <= i < |matches| => CombinedScore(allTasks, memberIds, matches[i]))
  }

  /** The recommendation is for the candidate with the highest combined score, the earliest among equals. */
  lemma OptimizeAssignmentsPicksBest(task: Task, matches: seq<UserMatch>, allTasks: seq<Task>, memberIds: seq<string>)
    requires |memberIds| > 0 && matches != []
    ensures exists k :: IsRecommendation(OptimizeAssignments(task, matches, allTasks, memberIds).value, task, matches, allTasks, memberIds, k)
  {
    var scores := Scores(allTasks, memberIds, matches);
    var k := FirstMax(scores);
    assert IsRecommendation(OptimizeAssignments(task, matches, allTasks, memberIds).value, task, matches, allTasks, memberIds, k);
  }

  /** The recommendation is unique: two candidates cannot both be the one chosen. */
  lemma RecommendationUnique(
    o: AssignmentOptimization, task: Task, matches: seq<UserMatch>,
    allTasks: seq<Task>, memberIds: seq<string>, k1: int, k2: int)
    requires |memberIds| > 0
    requires IsRecommendation(o, task, matches, allTasks, memberIds, k1)
    requires IsRecommendation(o, task, matches, allTasks, memberIds, k2)
    ensures k1 == k2
  {
  }

  /** Among candidates with equal combined scores the one listed first wins. */
  lemma TieGoesToEarlierCandidate(task: Task, matches: seq<UserMatch>, allTasks: seq<Task>, memberIds: seq<string>)
    requires |memberIds| > 0 && |matches| > 0
    requires forall j :: 0 <= j < |matches| ==>
      CombinedScore(allTasks, memberIds, matches[j]) <= CombinedScore(allTasks, memberIds, matches[0])
    ensures OptimizeAssignments(task, matches, allTasks, memberIds).Some?
    ensures OptimizeAssignments(task, matches, allTasks, memberIds).value.suggestedAssigneeId == matches[0].userId
  {
    OptimizeAssignmentsPicksBest(task, matches, allTasks, memberIds);
    var o := OptimizeAssignments(task, matches, allTasks, memberIds).value;
    var k :| IsRecommendation(o, task, matches, allTasks, memberIds, k);
  }

  /** `dependsOn?.length || 0`. */
  function DependencyCount(t: Task): int
  {
    if t.dependsOn.Some? then |t.dependsOn.value| else 0
  }

  /** `aiMatchesMap.get(id) || []`. */
  function MatchesFor(matchesMap: map<string, seq<UserMatch>>, id: string): seq<UserMatch>
  {
    if id in matchesMap then matchesMap[id] else []
  }

  predicate UniqueTaskIds(tasks: seq<Task>)
  {
    forall i, j :: 0 <= i < j < |tasks| ==> tasks[i].id != tasks[j].id
  }

  /**
   * The recommendations gathered over the visited tasks, in visiting
   * order: a later task with the same id overwrites an earlier one.
   */
  function BulkPlan(visited: seq<Task>, matchesMap: map<string, seq<UserMatch>>, allTasks: seq<Task>, memberIds: seq<string>)
    : (r: map<string, AssignmentOptimization>)
    requires |memberIds| > 0
    ensures r.Keys == set t | t in visited && MatchesFor(matchesMap, t.id) != [] :: t.id
    decreases |visited|
  {
    if visited == [] then map[]
    else
      var t := visited[|visited| - 1];
      var before := visited[..|visited| - 1];
      var prev := BulkPlan(before, matchesMap, allTasks, memberIds);
      assert visited == before + [t];
      match OptimizeAssignments(t, MatchesFor(matchesMap, t.id), allTasks, memberIds)
      case None => prev
      case Some(o) => prev[t.id := o]
  }

  /** Visiting one more task adds its recommendation, if it has one. */
  lemma BulkPlanNext(visited: seq<Task>, i: int, matchesMap: map<string, seq<UserMatch>>, allTasks: seq<Task>, memberIds: seq<string>)
    requires |memberIds| > 0 && 0 <= i < |visited|
    ensures var o := OptimizeAssignments(visited[i], MatchesFor(matchesMap, visited[i].id), allTasks, memberIds);
      BulkPlan(visited[..i + 1], matchesMap, allTasks, memberIds) ==
        if o.Some? then BulkPlan(visited[..i], matchesMap, allTasks, memberIds)[visited[i].id := o.value]
        else BulkPlan(visited[..i], matchesMap, allTasks, memberIds)
  {
    assert visited[..i + 1][..i] == visited[..i];
  }

  /** Every gathered recommendation is the one computed for a visited task with that id. */
  lemma {:induction false} BulkPlanValues(visited: seq<Task>, matchesMap: map<string, seq<UserMatch>>, allTasks: seq<Task>, memberIds: seq<string>)
    requires |memberIds| > 0
    ensures var plan := BulkPlan(visited, matchesMap, allTasks, memberIds);
      forall id :: id in plan ==>
        exists t :: t in visited && t.id == id &&
          OptimizeAssignments(t, MatchesFor(matchesMap, id), allTasks, memberIds) == Some(plan[id])
    decreases |visited|
  {
    if visited != [] {
      var t := visited[|visited| - 1];
      var before := visited[..|visited| - 1];
      BulkPlanValues(before, matchesMap, allTasks, memberIds);
      assert visited == before + [t];
      var plan := BulkPlan(visited, matchesMap, allTasks, memberIds);
      var prev := BulkPlan(before, matchesMap, allTasks, memberIds);
      forall id | id in plan
        ensures exists u :: (u in visited && u.id == id &&
          OptimizeAssignments(u, MatchesFor(matchesMap, id), allTasks, memberIds) == Some(plan[id]))
      {
        if id != t.id || OptimizeAssignments(t, MatchesFor(matchesMap, t.id), allTasks, memberIds).None? {
          var u :| u in before && u.id == id &&
            OptimizeAssignments(u, MatchesFor(matchesMap, id), allTasks, memberIds) == Some(prev[id]);
          assert u in visited;
        } else {
          assert t in visited;
        }
      }
    }
  }

  /** Gathering over a reordering of the tasks covers the same ids, each computed for one of the tasks. */
  lemma BulkPlanReordered(tasks: seq<Task>, visited: seq<Task>, matchesMap: map<string, seq<UserMatch>>, memberIds: seq<string>)
    requires |memberIds| > 0
    requires forall t :: t in visited <==> t in tasks
    ensures var plan := BulkPlan(visited, matchesMap, tasks, memberIds);
      plan.Keys == (set t | t in tasks && MatchesFor(matchesMap, t.id) != [] :: t.id) &&
      forall id :: id in plan ==>
        exists t :: t in tasks && t.id == id &&
          OptimizeAssignments(t, MatchesFor(matchesMap, id), tasks, memberIds) == Some(plan[id])
  {
    BulkPlanValues(visited, matchesMap, tasks, memberIds);
    assert (set t | t in visited && MatchesFor(matchesMap, t.id) != [] :: t.id) ==
      (set t | t in tasks && MatchesFor(matchesMap, t.id) != [] :: t.id);
  }

  /** With unique task ids, each task that has candidates gets exactly its own recommendation. */
  lemma BulkPlanOwnTask(tasks: seq<Task>, visited: seq<Task>, matchesMap: map<string, seq<UserMatch>>, memberIds: seq<string>)
    requires |memberIds| > 0 && UniqueTaskIds(tasks)
    requires forall t :: t in visited <==> t in tasks
    ensures var plan := BulkPlan(visited, matchesMap, tasks, memberIds);
      forall t :: t in tasks && t.id in plan ==>
        OptimizeAssignments(t, MatchesFor(matchesMap, t.id), tasks, memberIds) == Some(plan[t.id])
  {
    var plan := BulkPlan(visited, matchesMap, tasks, memberIds);
    BulkPlanValues(visited, matchesMap, tasks, memberIds);
    forall t | t in tasks && t.id in plan
      ensures OptimizeAssignments(t, MatchesFor(matchesMap, t.id), tasks, memberIds) == Some(plan[t.id])
    {
      var t' :| t' in visited && t'.id == t.id &&
        OptimizeAssignments(t', MatchesFor(matchesMap, t.id), tasks, memberIds) == Some(plan[t.id]);
      var i :| 0 <= i < |tasks| && tasks[i] == t;
      var j :| 0 <= j < |tasks| && tasks[j] == t';
      assert i == j;
    }
  }

  /**
   * Recommends an assignee for every task that has candidates, visiting
   * tasks with fewer prerequisites first; each task is scored against the
   * unsorted task list.
   */
  method OptimizeBulkAssignments(tasks: seq<Task>, matchesMap: map<string, seq<UserMatch>>, memberIds: seq<string>)
    returns (results: map<string, AssignmentOptimization>)
    requires |memberIds| > 0
    ensures results == BulkPlan(SortBy(tasks, DependencyCount), matchesMap, tasks, memberIds)
  {
    results := map[];
    var sortedTasks := SortBy(tasks, DependencyCount);
    for i := 0 to |sortedTasks|
      invariant results == BulkPlan(sortedTasks[..i], matchesMap, tasks, memberIds)
    {
      var task := sortedTasks[i];
      BulkPlanNext(sortedTasks, i, matchesMap, tasks, memberIds);
      var optimization := OptimizeAssignments(task, MatchesFor(matchesMap, task.id), tasks, memberIds);
      if optimization.Some? {
        results := results[task.id := optimization.value];
      }
    }
    assert sortedTasks[..|sortedTasks|] == sortedTasks;
  }

  /**
   * The bulk recommendations cover exactly the tasks with candidates; each
   * is computed for a task with that id, and with unique ids for that very task.
   */
  lemma BulkAssignmentsCover(tasks: seq<Task>, matchesMap: map<string, seq<UserMatch>>, memberIds: seq<string>)
    requires |memberIds| > 0
    ensures var results := BulkPlan(SortBy(tasks, DependencyCount), matchesMap, tasks, memberIds);
      results.Keys == (set t | t in tasks && MatchesFor(matchesMap, t.id) != [] :: t.id) &&
      (forall id :: id in results ==>
        exists t :: t in tasks && t.id == id &&
          OptimizeAssignments(t, MatchesFor(matchesMap, id), tasks, memberIds) == Some(results[id])) &&
      (UniqueTaskIds(tasks) ==> forall t :: t in tasks && t.id in results ==>
        OptimizeAssignments(t, MatchesFor(matchesMap, t.id), tasks, memberIds) == Some(results[t.id]))
  {
    var sortedTasks := SortBy(tasks, DependencyCount);
    SortByMembers(tasks, DependencyCount);
    BulkPlanReordered(tasks, sortedTasks, matchesMap, memberIds);
    if UniqueTaskIds(tasks) {
      BulkPlanOwnTask(tasks, sortedTasks, matchesMap, memberIds);
    }
  }
}
