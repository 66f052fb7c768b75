/**
 * `CoordinatorAgent` of `services/llm/MultiAgents/CoordinatorAgent.py`: the
 * plan an LLM analysis yields is sorted by priority, given task ids, run task
 * by task under dependency gating, and the task outputs are combined into one
 * answer. The LLM analysis is an input value and each registered agent's
 * `execute` is the oracle `run(agent, instruction)`, whose `Err` stands for an
 * exception it raised.
 */
module Coordinator {
  import opened Wrappers
  import opened PyText
  import Seqs
  import StableSort

  // ---------------------------------------------------------------------------
  // The plan
  // ---------------------------------------------------------------------------

  /** One entry of the analysis's `tasks` list; a missing key is `None`. */
  datatype Task = Task(
    agent: Option<string>,
    instruction: string,
    priority: Option<int>,
    id: Option<string>,
    dependsOn: Option<seq<string>>)

  datatype Analysis = Analysis(primaryIntent: string, tasks: seq<Task>)

  /**
   * What became of the LLM's analysis: a parsed JSON plan, a reply holding no
   * JSON object, or an exception (from the LLM call or from `json.loads`).
   */
  datatype AnalysisReply = Parsed(analysis: Analysis) | NoJson | Failed

  /** The one-task plan used when the analysis is unusable. */
  function DefaultPlan(request: string): seq<Task> {
    [Task(Some("WritingAgent"), request, Some(1), None, None)]
  }

  /** `_analyze_request`: the parsed plan, or a single WritingAgent task on the raw request. */
  function AnalyzeRequest(request: string, reply: AnalysisReply): (a: Analysis)
    ensures reply.Parsed? ==> a == reply.analysis
    ensures !reply.Parsed? ==> |a.tasks| == 1 && a.tasks[0].instruction == request
                               && a.tasks[0].agent == Some("WritingAgent")
  {
    match reply
    case Parsed(a) => a
    case NoJson => Analysis("Process user request", DefaultPlan(request))
    case Failed => Analysis("Process user request (error in analysis)", DefaultPlan(request))
  }

  /** `task.get("priority", 999)`. */
  function PriorityOf(t: Task): int {
    t.priority.GetOr(999)
  }

  function ByPriority(t: Task): seq<int> {
    [PriorityOf(t)]
  }

  /** The key of `sorted(..., key=priority, reverse=True)`. */
  function ByPriorityDesc(t: Task): seq<int> {
    [-PriorityOf(t)]
  }

  /** `sorted(tasks, key=lambda x: x.get("priority", 999))`. */
  function SortTasks(tasks: seq<Task>): (r: seq<Task>)
    ensures multiset(r) == multiset(tasks)
    ensures forall i, j :: 0 <= i < j < |r| ==> PriorityOf(r[i]) <= PriorityOf(r[j])
  {
    var r := StableSort.SortBy(tasks, ByPriority);
    forall i, j | 0 <= i < j < |r| ensures PriorityOf(r[i]) <= PriorityOf(r[j]) {
      StableSort.LexLeSingle(PriorityOf(r[i]), PriorityOf(r[j]));
    }
    r
  }

  /** Tasks of equal priority keep their order in the analysis. */
  lemma SortTasksStable(tasks: seq<Task>, p: int)
    ensures Seqs.Filter(SortTasks(tasks), StableSort.KeyIs(ByPriority, [p]))
         == Seqs.Filter(tasks, StableSort.KeyIs(ByPriority, [p]))
  {
    StableSort.SortStable(tasks, ByPriority, [p]);
  }

  /** The id generated for the task at position `i` of the sorted plan. */
  function TaskId(i: nat): string {
    "task_" + NatToString(i + 1)
  }

  /** The loop that gives `task_{i+1}` to every task lacking an id. */
  function AssignIds(tasks: seq<Task>): (r: seq<Task>)
    ensures |r| == |tasks|
    ensures forall i :: 0 <= i < |r| ==> r[i].id.Some?
    ensures forall i :: 0 <= i < |r| && tasks[i].id.Some? ==> r[i] == tasks[i]
    ensures forall i :: 0 <= i < |r| && tasks[i].id.None? ==> r[i] == tasks[i].(id := Some(TaskId(i)))
  {
    seq(|tasks|, i requires 0 <= i < |tasks| =>
      if tasks[i].id.Some? then tasks[i] else tasks[i].(id := Some(TaskId(i))))
  }

  /** Giving ids a second time changes nothing. */
  lemma AssignIdsIdempotent(tasks: seq<Task>)
    ensures AssignIds(AssignIds(tasks)) == AssignIds(tasks)
  {
  }

  /** Generated ids never collide with each other. */
  lemma GeneratedIdsDistinct(tasks: seq<Task>, i: nat, j: nat)
    requires i < j < |tasks| && tasks[i].id.None? && tasks[j].id.None?
    ensures AssignIds(tasks)[i].id != AssignIds(tasks)[j].id
  {
    assert TaskId(i)[5..] == NatToString(i + 1);
    assert TaskId(j)[5..] == NatToString(j + 1);
  }

  /** The plan `process_request` executes: sorted, then every task given an id. */
  function Plan(a: Analysis): (plan: seq<Task>)
    ensures |plan| == |a.tasks|
    ensures forall i :: 0 <= i < |plan| ==> plan[i].id.Some?
    ensures forall i, j :: 0 <= i < j < |plan| ==> PriorityOf(plan[i]) <= PriorityOf(plan[j])
  {
    AssignIds(SortTasks(a.tasks))
  }

  // ---------------------------------------------------------------------------
  // Placeholders
  // ---------------------------------------------------------------------------

  /** The end of the run of `[a-zA-Z0-9_]` characters starting at `j`. */
  function WordEnd(s: string, j: nat): (e: nat)
    requires j <= |s|
    ensures j <= e <= |s|
    ensures forall k :: j <= k < e ==> IsWordChar(s[k])
    ensures e < |s| ==> !IsWordChar(s[e])
    decreases |s| - j
  {
    if j < |s| && IsWordChar(s[j]) then WordEnd(s, j + 1) else j
  }

  predicate IsKey(k: string) {
    |k| > 0 && forall c :: c in k ==> IsWordChar(c)
  }

  function Braced(k: string): string {
    "{" + k + "}"
  }

  /**
   * `re.finditer(r'\{([a-zA-Z0-9_]+)\}', s)` from position `i`: the keys of
   * the non-overlapping placeholders, left to right.
   */
  function PlaceholdersFrom(s: string, i: nat): (keys: seq<string>)
    requires i <= |s|
    ensures forall k :: k in keys ==> IsKey(k) && Contains(s, Braced(k))
    decreases |s| - i
  {
    if i == |s| then []
    else if s[i] == '{' && WordEnd(s, i + 1) > i + 1 && WordEnd(s, i + 1) < |s| && s[WordEnd(s, i + 1)] == '}' then
      var e := WordEnd(s, i + 1);
      var k := s[i + 1..e];
      assert OccursAt(s, Braced(k), i) by {
        assert s[i..e + 1] == [s[i]] + k + [s[e]];
      }
      [k] + PlaceholdersFrom(s, e + 1)
    else PlaceholdersFrom(s, i + 1)
  }

  function Placeholders(s: string): (keys: seq<string>)
    ensures forall k :: k in keys ==> IsKey(k) && Contains(s, Braced(k))
    ensures forall i, k :: IsKey(k) && OccursAt(s, Braced(k), i) ==> k in keys
  {
    PlaceholdersComplete(s, 0);
    PlaceholdersFrom(s, 0)
  }

  /** The run of word characters after `{` at `i` is exactly the key of a placeholder there. */
  lemma BracedAt(s: string, k: string, i: nat)
    requires IsKey(k) && OccursAt(s, Braced(k), i)
    ensures WordEnd(s, i + 1) == i + 1 + |k|
    ensures s[i] == '{' && s[i + 1 + |k|] == '}' && s[i + 1..i + 1 + |k|] == k
  {
    var e := i + 1 + |k|;
    assert s[i..e + 1] == Braced(k);
    assert forall j :: i + 1 <= j < e ==> s[j] == k[j - i - 1];
    WordEndAt(s, i + 1, e);
  }

  /** `WordEnd` stops at the first character past a run of word characters. */
  lemma {:induction false} WordEndAt(s: string, j: nat, e: nat)
    requires j <= e < |s| && !IsWordChar(s[e])
    requires forall m :: j <= m < e ==> IsWordChar(s[m])
    ensures WordEnd(s, j) == e
    decreases e - j
  {
    if j < e {
      WordEndAt(s, j + 1, e);
    }
  }

  /** Every placeholder at or after `from` is found: the scan never skips over one. */
  lemma {:induction false} PlaceholdersComplete(s: string, from: nat)
    requires from <= |s|
    ensures forall i, k :: from <= i && IsKey(k) && OccursAt(s, Braced(k), i) ==> k in PlaceholdersFrom(s, from)
    decreases |s| - from
  {
    if from < |s| {
      var keys := PlaceholdersFrom(s, from);
      if s[from] == '{' && WordEnd(s, from + 1) > from + 1 && WordEnd(s, from + 1) < |s| && s[WordEnd(s, from + 1)] == '}' {
        var e := WordEnd(s, from + 1);
        PlaceholdersComplete(s, e + 1);
        forall i, k | from <= i && IsKey(k) && OccursAt(s, Braced(k), i) ensures k in keys {
          BracedAt(s, k, i);
          if i == from {
            assert k == s[from + 1..e];
          } else if i <= e {
            assert false;
          }
        }
      } else {
        PlaceholdersComplete(s, from + 1);
        forall i, k | from <= i && IsKey(k) && OccursAt(s, Braced(k), i) ensures k in keys {
          BracedAt(s, k, i);
        }
      }
    }
  }

  /**
   * The substitution loop of `_execute_task`: for each placeholder found in
   * the original instruction, in order, every `{key}` of the current text is
   * replaced by the result of task `key` when there is one.
   */
  function Substitute(s: string, keys: seq<string>, results: map<string, string>): (r: string)
    ensures (forall k :: k in keys ==> !Contains(s, Braced(k))) ==> r == s
    decreases |keys|
  {
    if |keys| == 0 then s
    else
      var k := keys[0];
      Substitute(if k in results then ReplaceAll(s, Braced(k), results[k]) else s, keys[1..], results)
  }

  /** Keys without a result are skipped: only the keys that have one matter. */
  lemma {:induction false} SubstituteOnlyKnown(s: string, keys: seq<string>, results: map<string, string>)
    ensures Substitute(s, keys, results)
         == Substitute(s, Seqs.Filter(keys, (k: string) => k in results), results)
    decreases |keys|
  {
    if |keys| > 0 {
      SubstituteOnlyKnown(if keys[0] in results then ReplaceAll(s, Braced(keys[0]), results[keys[0]]) else s,
                          keys[1..], results);
    }
  }

  /** With no result for any of the keys, the instruction is left as it is. */
  lemma {:induction false} SubstituteNoResults(s: string, keys: seq<string>, results: map<string, string>)
    requires forall k :: k in keys ==> k !in results
    ensures Substitute(s, keys, results) == s
    decreases |keys|
  {
    if |keys| > 0 {
      SubstituteNoResults(s, keys[1..], results);
    }
  }

  // ---------------------------------------------------------------------------
  // Running the plan
  // ---------------------------------------------------------------------------

  /** The record `task_results` keeps for one task. */
  datatype TaskResult = Success(output: string) | Error(message: string) | Skipped

  /**
   * A Python dict from task id to record: `keys` is its insertion order (a
   * key written again keeps its place), `at` its contents.
   */
  datatype Table = Table(keys: seq<string>, at: map<string, TaskResult>)

  ghost predicate ValidTable(t: Table) {
    Seqs.Distinct(t.keys) && (forall k :: k in t.keys <==> k in t.at)
  }

  function Put(t: Table, k: string, v: TaskResult): (r: Table)
    requires ValidTable(t)
    ensures ValidTable(r)
    ensures r.at == t.at[k := v]
    ensures k in t.at ==> r.keys == t.keys
  {
    if k in t.at then Table(t.keys, t.at[k := v]) else Table(t.keys + [k], t.at[k := v])
  }

  /** The instruction a task's agent receives: its placeholders filled from `results`. */
  function Instruction(t: Task, results: map<string, string>): string {
    Substitute(t.instruction, Placeholders(t.instruction), results)
  }

  /** `f"Agent {agent_name} not registered"`, where a missing name prints as `None`. */
  function NotRegistered(agent: Option<string>): string {
    "Agent " + (if agent.Some? then agent.value else "None") + " not registered"
  }

  /** `_execute_task`: an unregistered agent is an error and nothing runs. */
  function ExecuteTask(t: Task, results: map<string, string>, agents: set<string>,
                       run: (string, string) -> Result<string>): (r: TaskResult)
    ensures !r.Skipped?
    ensures (t.agent.None? || t.agent.value !in agents) ==> r == Error(NotRegistered(t.agent))
    ensures r.Success? ==> (t.agent.Some? && t.agent.value in agents
              && run(t.agent.value, Instruction(t, results)) == Ok(r.output))
    ensures t.agent.Some? && t.agent.value in agents ==> r == Outcome(run(t.agent.value, Instruction(t, results)))
  {
    if t.agent.None? || t.agent.value !in agents then Error(NotRegistered(t.agent))
    else Outcome(run(t.agent.value, Instruction(t, results)))
  }

  /** The record of an agent's run: its output on success, the exception's message otherwise. */
  function Outcome(reply: Result<string>): (r: TaskResult)
    ensures reply.Ok? <==> r.Success?
    ensures reply.Ok? ==> r == Success(reply.value)
    ensures reply.Err? ==> r == Error(reply.error)
  {
    match reply
    case Ok(out) => Success(out)
    case Err(e) => Error(e)
  }

  /** An unregistered agent's task has the same outcome whatever the agents would do. */
  lemma UnregisteredRunsNothing(t: Task, results: map<string, string>, agents: set<string>,
                                run1: (string, string) -> Result<string>, run2: (string, string) -> Result<string>)
    requires t.agent.None? || t.agent.value !in agents
    ensures ExecuteTask(t, results, agents, run1) == ExecuteTask(t, results, agents, run2)
  {
  }

  /** Every dependency already finished with status success (an empty or missing list is met). */
  predicate DepsMet(table: Table, t: Task) {
    match t.dependsOn
    case None => true
    case Some(ds) => forall d :: d in ds ==> d in table.at && table.at[d].Success?
  }

  /** The state of the loop of `process_request`: `results` and `task_results`. */
  datatype Progress = Progress(results: map<string, string>, table: Table)

  /** `results` holds the output of every task whose record says success. */
  ghost predicate Consistent(p: Progress) {
    ValidTable(p.table)
    && p.results.Keys <= p.table.at.Keys
    && forall k :: k in p.table.at && p.table.at[k].Success? ==> k in p.results && p.results[k] == p.table.at[k].output
  }

  /** One iteration: run the task when its dependencies are met, otherwise mark it skipped. */
  function Step(p: Progress, t: Task, agents: set<string>, run: (string, string) -> Result<string>): (q: Progress)
    requires t.id.Some? && Consistent(p)
    ensures Consistent(q)
    ensures q.table.at.Keys == p.table.at.Keys + {t.id.value}
  {
    var id := t.id.value;
    if DepsMet(p.table, t) then
      var r := ExecuteTask(t, p.results, agents, run);
      Progress(if r.Success? then p.results[id := r.output] else p.results, Put(p.table, id, r))
    else
      Progress(p.results, Put(p.table, id, Skipped))
  }

  /** A task is recorded as skipped exactly when a dependency has not succeeded. */
  lemma StepSkipsIffDepsUnmet(p: Progress, t: Task, agents: set<string>, run: (string, string) -> Result<string>)
    requires t.id.Some? && Consistent(p)
    ensures Step(p, t, agents, run).table.at[t.id.value].Skipped? <==> !DepsMet(p.table, t)
  {
  }

  /** `results` grows only by the output of a task that succeeded in this step. */
  lemma StepResults(p: Progress, t: Task, agents: set<string>, run: (string, string) -> Result<string>)
    requires t.id.Some? && Consistent(p)
    ensures var q := Step(p, t, agents, run);
            q.results == p.results || (q.table.at[t.id.value].Success? && q.results == p.results[t.id.value := q.table.at[t.id.value].output])
  {
  }

  function Ids(tasks: seq<Task>): set<string> {
    set t | t in tasks && t.id.Some? :: t.id.value
  }

  /** The loop over the sorted plan. */
  function RunTasks(p: Progress, tasks: seq<Task>, agents: set<string>, run: (string, string) -> Result<string>): (q: Progress)
    requires Consistent(p) && forall t :: t in tasks ==> t.id.Some?
    ensures Consistent(q)
    ensures q.table.at.Keys == p.table.at.Keys + Ids(tasks)
    decreases |tasks|
  {
    if |tasks| == 0 then p
    else
      assert Ids(tasks) == {tasks[0].id.value} + Ids(tasks[1..]);
      RunTasks(Step(p, tasks[0], agents, run), tasks[1..], agents, run)
  }

  // ---------------------------------------------------------------------------
  // Combining the results
  // ---------------------------------------------------------------------------

  const FailureMessage := "The system was unable to process your request completely."

  predicate Succeeded(table: Table, t: Task) {
    t.id.Some? && t.id.value in table.at && table.at[t.id.value].Success?
  }

  /** The index of the first task of `s` whose record says success. */
  function FirstSuccess(s: seq<Task>, table: Table): (r: Option<nat>)
    ensures r.Some? ==> r.value < |s| && Succeeded(table, s[r.value])
    ensures r.Some? ==> forall j :: 0 <= j < r.value ==> !Succeeded(table, s[j])
    ensures r.None? ==> forall j :: 0 <= j < |s| ==> !Succeeded(table, s[j])
  {
    if |s| == 0 then None
    else if Succeeded(table, s[0]) then Some(0)
    else match FirstSuccess(s[1..], table)
      case None => None
      case Some(i) => Some(i + 1)
  }

  /**
   * The task `_combine_results` takes the answer from: among the tasks that
   * succeeded, one with the largest priority value. The source sorts the
   * analysis's own list, whose entries received their ids in place; sorting
   * the plan gives the same order, since the plan is a stable sort of that
   * list and tasks of equal priority stay in their relative order.
   */
  function Chosen(plan: seq<Task>, table: Table): (c: Option<Task>)
    ensures c.Some? ==> c.value in plan && Succeeded(table, c.value)
    ensures c.Some? ==> forall u :: u in plan && Succeeded(table, u) ==> PriorityOf(u) <= PriorityOf(c.value)
    ensures c.None? ==> forall u :: u in plan ==> !Succeeded(table, u)
    ensures c.Some? ==> var tied := Seqs.Filter(plan, StableSort.KeyIs(ByPriorityDesc, ByPriorityDesc(c.value)));
              FirstSuccess(tied, table).Some? && c.value == tied[FirstSuccess(tied, table).value]
  {
    var rev := StableSort.SortBy(plan, ByPriorityDesc);
    SameElements(plan, rev);
    match FirstSuccess(rev, table)
    case None => None
    case Some(i) =>
      FirstSuccessIsMax(rev, i, table);
      var key := StableSort.KeyIs(ByPriorityDesc, ByPriorityDesc(rev[i]));
      StableSort.SortStable(plan, ByPriorityDesc, ByPriorityDesc(rev[i]));
      FirstSuccessFiltered(rev, table, key);
      Some(rev[i])
  }

  /**
   * The first success of a list is also the first success among the entries
   * a condition keeps, when it keeps that one.
   */
  lemma {:induction false} FirstSuccessFiltered(s: seq<Task>, table: Table, keep: Task -> bool)
    requires FirstSuccess(s, table).Some? && keep(s[FirstSuccess(s, table).value])
    ensures var f := Seqs.Filter(s, keep);
            FirstSuccess(f, table).Some? && f[FirstSuccess(f, table).value] == s[FirstSuccess(s, table).value]
    decreases |s|
  {
    if !Succeeded(table, s[0]) {
      var i := FirstSuccess(s, table).value;
      assert FirstSuccess(s[1..], table) == Some(i - 1);
      FirstSuccessFiltered(s[1..], table, keep);
      if keep(s[0]) {
        var f := Seqs.Filter(s, keep);
        assert f == [s[0]] + Seqs.Filter(s[1..], keep);
        assert f[1..] == Seqs.Filter(s[1..], keep);
      }
    }
  }

  lemma SameElements(a: seq<Task>, b: seq<Task>)
    requires multiset(a) == multiset(b)
    ensures forall u :: u in a <==> u in b
  {
    forall u ensures u in a <==> u in b {
      assert u in a <==> u in multiset(a);
      assert u in b <==> u in multiset(b);
    }
  }

  /** In a plan sorted by descending priority, the first success has the largest priority among successes. */
  lemma FirstSuccessIsMax(rev: seq<Task>, i: nat, table: Table)
    requires StableSort.Sorted(rev, ByPriorityDesc)
    requires i < |rev| && forall j :: 0 <= j < i ==> !Succeeded(table, rev[j])
    ensures forall j :: 0 <= j < |rev| && Succeeded(table, rev[j]) ==> PriorityOf(rev[j]) <= PriorityOf(rev[i])
  {
    forall j | 0 <= j < |rev| && Succeeded(table, rev[j]) ensures PriorityOf(rev[j]) <= PriorityOf(rev[i]) {
      if j > i {
        assert StableSort.LexLe(ByPriorityDesc(rev[i]), ByPriorityDesc(rev[j]));
        StableSort.LexLeSingle(-PriorityOf(rev[i]), -PriorityOf(rev[j]));
      }
    }
  }

  /** The outputs of the successful records, in the dict's order. */
  function SuccessOutputs(keys: seq<string>, at: map<string, TaskResult>): (outs: seq<string>)
    ensures |outs| <= |keys|
    ensures (forall k :: k in keys && k in at ==> !at[k].Success?) ==> outs == []
    ensures forall k :: k in keys && k in at && at[k].Success? ==> at[k].output in outs
    ensures forall o :: o in outs ==> exists k :: k in keys && k in at && at[k].Success? && at[k].output == o
    decreases |keys|
  {
    if |keys| == 0 then []
    else
      var rest := SuccessOutputs(keys[1..], at);
      if keys[0] in at && at[keys[0]].Success? then [at[keys[0]].output] + rest else rest
  }

  /**
   * `_combine_results`: the chosen task's output when it is in `results`,
   * else the success outputs joined by blank lines, else the failure message.
   */
  function Combine(plan: seq<Task>, table: Table, results: map<string, string>): (r: string)
    ensures var c := Chosen(plan, table);
            c.Some? && c.value.id.value != "" && c.value.id.value in results ==> r == results[c.value.id.value]
    ensures Chosen(plan, table).None? && (forall k :: k in table.keys && k in table.at ==> !table.at[k].Success?) ==>
              r == FailureMessage
    ensures var c := Chosen(plan, table);
            !(c.Some? && c.value.id.value != "" && c.value.id.value in results) && SuccessOutputs(table.keys, table.at) != [] ==>
              r == Join(SuccessOutputs(table.keys, table.at), "\n\n")
  {
    var chosen := Chosen(plan, table);
    if chosen.Some? && chosen.value.id.value != "" && chosen.value.id.value in results then
      results[chosen.value.id.value]
    else
      var outs := SuccessOutputs(table.keys, table.at);
      if |outs| == 0 then FailureMessage else Join(outs, "\n\n")
  }

  /** `process_request`: the final answer, the analysis and the per-task records. */
  function ProcessRequest(request: string, reply: AnalysisReply, agents: set<string>,
                          run: (string, string) -> Result<string>): (r: (string, Analysis, Table))
    ensures r.1 == AnalyzeRequest(request, reply)
    ensures r.2.at.Keys == Ids(Plan(r.1))
  {
    var a := AnalyzeRequest(request, reply);
    var plan := Plan(a);
    var q := RunTasks(Progress(map[], Table([], map[])), plan, agents, run);
    (Combine(plan, q.table, q.results), a, q.table)
  }

  /**
   * The answer of `process_request`: the fixed failure message when no task
   * succeeded, and otherwise the recorded output of the successful task with
   * the largest priority value (provided its id is non-empty).
   */
  lemma ProcessRequestAnswer(request: string, reply: AnalysisReply, agents: set<string>,
                             run: (string, string) -> Result<string>)
    ensures var r := ProcessRequest(request, reply, agents, run);
            var c := Chosen(Plan(r.1), r.2);
            (c.None? ==> r.0 == FailureMessage)
            && (c.Some? && c.value.id.value != "" ==> r.0 == r.2.at[c.value.id.value].output)
  {
    var a := AnalyzeRequest(request, reply);
    var plan := Plan(a);
    var q := RunTasks(Progress(map[], Table([], map[])), plan, agents, run);
    var c := Chosen(plan, q.table);
    if c.None? {
      forall k | k in q.table.keys && k in q.table.at ensures !q.table.at[k].Success? {
        assert k in Ids(plan);
        var t :| t in plan && t.id.Some? && t.id.value == k;
        assert !Succeeded(q.table, t);
      }
    }
  }

  /**
   * Without a usable analysis the request goes to the WritingAgent as it is:
   * its output is the answer, or the failure message when it cannot run.
   */
  lemma DefaultPlanAnswer(request: string, reply: AnalysisReply, agents: set<string>,
                          run: (string, string) -> Result<string>)
    requires !reply.Parsed?
    ensures ProcessRequest(request, reply, agents, run).0
         == if "WritingAgent" in agents && run("WritingAgent", request).Ok?
            then run("WritingAgent", request).value else FailureMessage
  {
    var plan := Plan(AnalyzeRequest(request, reply));
    DefaultPlanIs(request, reply);
    var t := plan[0];
    var p0 := Progress(map[], Table([], map[]));
    var q := RunTasks(p0, plan, agents, run);
    SingleTaskRun(p0, t, agents, run);
    assert Instruction(t, map[]) == request by {
      SubstituteNoResults(request, Placeholders(request), map[]);
    }
    ProcessRequestAnswer(request, reply, agents, run);
    if "WritingAgent" in agents && run("WritingAgent", request).Ok? {
      assert Succeeded(q.table, t);
      assert Chosen(plan, q.table) == Some(t);
    } else {
      assert !Succeeded(q.table, t);
    }
  }

  /** The default plan is the one WritingAgent task, given the id `task_1`. */
  lemma DefaultPlanIs(request: string, reply: AnalysisReply)
    requires !reply.Parsed?
    ensures Plan(AnalyzeRequest(request, reply)) == [Task(Some("WritingAgent"), request, Some(1), Some(TaskId(0)), None)]
  {
    var a := AnalyzeRequest(request, reply);
    assert StableSort.SortBy(a.tasks, ByPriority) == a.tasks;
  }

  /** Running a one-task plan is one step. */
  lemma SingleTaskRun(p: Progress, t: Task, agents: set<string>, run: (string, string) -> Result<string>)
    requires Consistent(p) && t.id.Some?
    ensures RunTasks(p, [t], agents, run) == Step(p, t, agents, run)
  {
    assert [t][1..] == [];
  }
}
