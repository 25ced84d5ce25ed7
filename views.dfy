/** The three evaluation endpoints: synchronous `evaluate`, `evaluate_async`
    which checks the names and schedules the worker, and `task_result`
    which reads the task backend and turns the worker's dictionary into an
    HTTP response. */
module Views {
  import opened Json
  import Models
  import opened Evaluator
  import opened RuleService
  import opened Tasks

  /** The request body once `RuleEvaluationRequestSerializer` has looked at
      it: refused, or the rule names and the payload. */
  datatype Request = Invalid | Valid(rules: seq<string>, payload: JSON)

  datatype Body =
    | SerializerErrors
    | VerdictBody(result: string, passedRules: seq<string>, failedRules: seq<string>)
    | Detail(detail: string)
    | TaskStatus(taskId: string, status: string, message: string)
    | TaskError(taskId: string, status: string, detail: string)

  datatype Response = Response(code: int, body: Body)

  /** The arguments handed to the worker by `delay`. */
  datatype Job = Job(ruleNames: seq<string>, payload: JSON)

  /** What `evaluate_async` answers, and the job it enqueued, if any. */
  datatype Submission = Submission(response: Response, enqueued: Option<Job>)

  /** The name of a task state other than PENDING and SUCCESS, which have
      their own branches: FAILURE, STARTED, RETRY, REVOKED, ... */
  type OtherStateName = s: string | s != "PENDING" && s != "SUCCESS" witness "FAILURE"

  /** A task as the backend reports it: PENDING (also what an unknown id
      reads as), SUCCESS with the worker's dictionary, or any other state. */
  datatype TaskState = Pending | Succeeded(value: WorkerResult) | OtherState(name: OtherStateName)

  const ScheduledMessage: string := "Rule evaluation has been scheduled"
  const InProgressMessage: string := "Task is still in progress"
  const MissingTaskIdText: string := "task_id parameter is required"
  const TaskFailedPrefix: string := "Task failed with status: "

  /** `evaluate`: 400 on a refused body, 404 when a name is not an active
      rule, 500 with the exception's text when a condition raises, else
      200 with the verdict and both lists. */
  function Evaluate(store: seq<Models.Rule>, req: Request): (resp: Response)
    ensures resp.code == 400 <==> req.Invalid?
    ensures resp.code == 404 <==> req.Valid? && exists n :: n in req.rules && !IsActiveRule(store, n)
    ensures resp.code == 200 ==> resp.body.VerdictBody? && (resp.body.result == "APPROVED" <==> resp.body.failedRules == [])
    ensures resp.code in {200, 400, 404, 500}
    ensures resp.code != 200 ==> !resp.body.VerdictBody?
    ensures resp.code == 404 ==> resp.body == Detail(NotFoundText)
    ensures req.Valid? && GetRulesByNames(store, req.rules).Resolved? ==>
      var agg := Aggregate(GetRulesByNames(store, req.rules).pairs, req.payload);
      && (resp.code == 200 <==> agg.Completed?)
      && (resp.code == 500 <==> agg.Raised?)
      && (agg.Completed? ==> resp.body == VerdictBody(VerdictText(VerdictOf(agg.failedRules)), agg.passedRules, agg.failedRules))
      && (agg.Raised? ==> resp.body == Detail(FaultText(agg.fault)))
  {
    match req
    case Invalid => Response(400, SerializerErrors)
    case Valid(names, payload) =>
      match GetRulesByNames(store, names)
      case RuleNotFound => Response(404, Detail(NotFoundText))
      case Resolved(pairs) =>
        match Aggregate(pairs, payload)
        case Raised(f) => Response(500, Detail(FaultText(f)))
        case Completed(passed, failed) => Response(200, VerdictBody(VerdictText(VerdictOf(failed)), passed, failed))
  }

  /** `evaluate_async`: the same 400 and 404 checks as `evaluate`, made
      before anything is enqueued; otherwise the job is enqueued with the
      request's names and payload and 202 is returned with the new task id. */
  function EvaluateAsync(store: seq<Models.Rule>, req: Request, newTaskId: string): (s: Submission)
    ensures s.enqueued.Some? <==> s.response.code == 202
    ensures s.enqueued.Some? ==> req.Valid? && s.enqueued.value == Job(req.rules, req.payload)
    ensures s.response.code == 202 ==> s.response.body == TaskStatus(newTaskId, "pending", ScheduledMessage)
  {
    match req
    case Invalid => Submission(Response(400, SerializerErrors), None)
    case Valid(names, payload) =>
      match GetRulesByNames(store, names)
      case RuleNotFound => Submission(Response(404, Detail(NotFoundText)), None)
      case Resolved(_) =>
        Submission(Response(202, TaskStatus(newTaskId, "pending", ScheduledMessage)), Some(Job(names, payload)))
  }

  /** What the backend says about a task id; ids it has never seen read as PENDING. */
  function StateOf(backend: map<string, TaskState>, taskId: string): TaskState {
    if taskId in backend then backend[taskId] else Pending
  }

  /** `task_result`: 400 without a task id; 200 "pending" while the task
      has not finished; on SUCCESS, 400 with the worker's error or 200 with
      its verdict; 500 for any other state. */
  function TaskResult(taskId: Option<string>, backend: map<string, TaskState>): (resp: Response)
    ensures taskId.None? || taskId == Some("") ==> resp == Response(400, Detail(MissingTaskIdText))
    ensures resp.code == 200 && resp.body.TaskStatus? ==> taskId.Some? && StateOf(backend, taskId.value).Pending?
    ensures resp.code == 500 ==> taskId.Some? && StateOf(backend, taskId.value).OtherState?
    ensures taskId.Some? && taskId.value != "" && StateOf(backend, taskId.value).Pending? ==>
      resp == Response(200, TaskStatus(taskId.value, "pending", InProgressMessage))
    ensures taskId.Some? && taskId.value != "" && StateOf(backend, taskId.value).OtherState? ==>
      resp == Response(500, TaskError(taskId.value, "error", TaskFailedPrefix + StateOf(backend, taskId.value).name))
  {
    if taskId.None? || taskId.value == "" then Response(400, Detail(MissingTaskIdText))
    else
      var id := taskId.value;
      match StateOf(backend, id)
      case Pending => Response(200, TaskStatus(id, "pending", InProgressMessage))
      case Succeeded(result) =>
        if result.Error? then Response(400, TaskError(id, "error", result.error))
        else Response(200, VerdictBody(VerdictText(result.result), result.passedRules, result.failedRules))
      case OtherState(name) => Response(500, TaskError(id, "error", TaskFailedPrefix + name))
  }

  /** The full classification of a poll: 400 without an id or for a
      worker error, 200 while pending or for a worker verdict, 500 for any
      other state. */
  lemma TaskResultClassification(taskId: Option<string>, backend: map<string, TaskState>)
    ensures var resp := TaskResult(taskId, backend);
      var state := if taskId.Some? then StateOf(backend, taskId.value) else Pending;
      var hasId := taskId.Some? && taskId.value != "";
      && (resp.code == 400 <==> !hasId || (state.Succeeded? && state.value.Error?))
      && (resp.code == 200 <==> hasId && (state.Pending? || (state.Succeeded? && state.value.Success?)))
      && (resp.code == 500 <==> hasId && state.OtherState?)
      && (resp.code == 200 && state.Succeeded? ==>
            resp.body == VerdictBody(VerdictText(state.value.result), state.value.passedRules, state.value.failedRules))
      && (resp.code == 400 && hasId ==> resp.body == TaskError(taskId.value, "error", state.value.error))
  {
  }

  /** The backend after the worker has run job `job` under task id `id`
      against the rules stored at that moment. */
  function RunJob(backend: map<string, TaskState>, id: string, job: Job, store: seq<Models.Rule>): map<string, TaskState> {
    backend[id := Succeeded(EvaluateRulesAsync(store, job.ruleNames, job.payload))]
  }

  /** The asynchronous path refuses exactly the requests the synchronous
      one refuses with 400 or 404, with the same response, and enqueues a
      job for all the others. */
  lemma AsyncRefusesLikeSync(store: seq<Models.Rule>, req: Request, id: string)
    ensures EvaluateAsync(store, req, id).enqueued.None?
        <==> Evaluate(store, req).code == 400 || Evaluate(store, req).code == 404
    ensures EvaluateAsync(store, req, id).enqueued.None?
        ==> EvaluateAsync(store, req, id).response == Evaluate(store, req)
  {
  }

  /** Submit, let the worker run on the same rules, then poll: the answer is
      the synchronous endpoint's 200 answer, and where the synchronous
      endpoint would answer 500 the poll answers 400 with the prefixed text. */
  lemma PollAgreesWithSync(store: seq<Models.Rule>, req: Request, id: string, backend: map<string, TaskState>)
    requires id != ""
    requires EvaluateAsync(store, req, id).enqueued.Some?
    ensures var after := RunJob(backend, id, EvaluateAsync(store, req, id).enqueued.value, store);
      Evaluate(store, req).code == 200 ==> TaskResult(Some(id), after) == Evaluate(store, req)
    ensures var after := RunJob(backend, id, EvaluateAsync(store, req, id).enqueued.value, store);
      Evaluate(store, req).code == 500 ==>
        TaskResult(Some(id), after) == Response(400, TaskError(id, "error", UnexpectedPrefix + Evaluate(store, req).body.detail))
    ensures Evaluate(store, req).code == 200 || Evaluate(store, req).code == 500
  {
  }

  /** The worker reads the rules again when it runs: if a requested rule
      has been deactivated or deleted since the request was accepted, the
      poll reports the not-found error with status 400, not 404. */
  lemma RuleRemovedBeforeRun(store: seq<Models.Rule>, later: seq<Models.Rule>, req: Request, id: string,
                             backend: map<string, TaskState>, n: string)
    requires id != ""
    requires EvaluateAsync(store, req, id).enqueued.Some?
    requires n in req.rules && !IsActiveRule(later, n)
    ensures IsActiveRule(store, n)
    ensures TaskResult(Some(id), RunJob(backend, id, EvaluateAsync(store, req, id).enqueued.value, later))
         == Response(400, TaskError(id, "error", NotFoundText))
  {
  }

  /** Until the worker stores a result, polling reports the task pending. */
  lemma PendingUntilRun(id: string, backend: map<string, TaskState>)
    requires id != "" && id !in backend
    ensures TaskResult(Some(id), backend) == Response(200, TaskStatus(id, "pending", InProgressMessage))
  {
  }
}
