# Rule engine: validation, evaluation and the evaluation endpoints

This project models the rule-evaluation core of a Django service. A stored
rule has a unique name, an `is_active` flag and a JSON condition tree.

- A condition tree is either an `AND`/`OR` node holding a list of
  sub-conditions, or a leaf `{"field", "operator", "value"}`.
- A client names some rules and sends a JSON payload.
- The service resolves the names to active rules and evaluates every
  condition against the payload.
- It answers with the rule names that passed and failed and a verdict:
  APPROVED when nothing failed, REJECTED otherwise.

Evaluation runs in one of two ways:
- synchronously, through `evaluate`;
- through a background worker: `evaluate_async` schedules the worker and
  `task_result` polls it.

The modules follow the source files:

- `Json` (json.dfy): JSON values, and the parts of Python's value
  semantics the engine relies on.
  - Truthiness and hashability.
  - `==`, where `True == 1`, lists compare item-wise and dicts key-wise.
  - The four ordering operators, returning `None` where Python raises
    TypeError. Numbers compare with bools counted as numbers, strings by
    code point, and lists at the first item that differs.
- `Models` (models.py):
  - the condition validator;
  - the rule record, and the unique-name property of the store;
  - the active-only name filter `by_names`.
- `Operators` (the `OPERATORS` table in services.py): the seven leaf
  operators, with `contains` on lists, strings and dicts.
- `Evaluator` (`evaluate_condition` and `evaluate_rules` in services.py).
  - The condition interpreter returns `Returns(b)` or `Raises(fault)`.
    `Raises` stands for the exceptions the source does not catch: AND/OR
    over a non-iterable value, a node that is not a dict, an unhashable
    operator, and a truthy field that is not a string.
  - The dotted path walk, and the loop that sorts rule names into passed
    and failed. That loop is a method proved against a specification
    function.
- `RuleService` (`get_rules_by_names`): all-or-nothing resolution of rule
  names.
- `Tasks` (tasks.py): the worker, which folds every outcome into a result
  dictionary.
- `Views` (views.py): the decision logic of the three endpoints, with the
  task backend as a map from task id to task state.
- `StrictValidation`: the places where the validator and the evaluator
  disagree (see "## Findings"), and a validator that agrees with the
  evaluator.
- `Scenarios`: the nested AND/OR example of the service's tests.

Evaluation is meant to fail closed: a leaf that cannot be checked counts
as `false`. The code does this at three points of `evaluate_condition`.
The truthiness guard at src/apps/rules/services.py:69-70 returns `False`
for a missing or empty field or operator and a missing or null value. The
table lookup at services.py:72-73 returns `False` for an unknown operator.
The walk at services.py:78-82 returns `False` for a path that breaks, and
the `try`/`except` at services.py:84-87 turns a TypeError or ValueError
from the operator call into `False`. Four exceptions escape all of these:
- iterating a number, bool or null under `AND`/`OR` (services.py:55-63);
- evaluating a non-dict child;
- testing a list or dict operator against the table;
- calling `split` on a non-string field (services.py:75).

In the model these appear as `Raises`, which `evaluate` turns into a 500
and the worker into an "unexpected error" result.

## Model

| member | source | states |
|---|---|---|
| `Json.PyEqReflexive` | src/apps/rules/services.py:39 | every JSON value is `==` to itself |
| `Json.PyEqSymmetric` | src/apps/rules/services.py:39-40 | `a == b` and `b == a` agree, so `==`/`!=` do not depend on operand order |
| `Json.OrderConverse` | src/apps/rules/services.py:41-44 | `a < b` agrees with `b > a` (and `<=` with `>=`), including on whether it raises TypeError |
| `Models.ValidateEachAccepted` | src/apps/rules/models.py:17-22 | a sub-condition list is accepted iff every element is accepted |
| `Models.AndListDecides` | src/apps/rules/models.py:16-19 | with a list under `AND`, the node is valid iff every element is valid, and an `OR` key beside it is ignored |
| `Models.OrListDecides` | src/apps/rules/models.py:20-22 | with no list under `AND` and a list under `OR`, the node is valid iff every `OR` element is valid |
| `Models.LogicWithoutListRefused` | src/apps/rules/models.py:23-24 | a node with an `AND` or `OR` key but no list under either is refused |
| `Models.LeafAcceptedIff` | src/apps/rules/models.py:12-36 | a non-object is refused, and a leaf is accepted iff it has `field`, `operator` and `value` and the operator is one of the seven tokens |
| `Models.EmptyLogicAccepted` | src/apps/rules/models.py:17-22 | empty `AND` and `OR` lists are accepted |
| `Models.CreateRule` | src/apps/rules/models.py:45 | a rule whose name is taken is refused, any other is appended, and unique names are preserved |
| `Models.ByNamesMembers` | src/apps/rules/models.py:40-41 | a stored rule is returned iff its name was requested and it is active, and the filter returns no more rules than are stored |
| `Models.ByNamesUnique` | src/apps/rules/models.py:40-45 | the filtered rules still have unique names |
| `Operators.ParseOperator` | src/apps/rules/services.py:38-46 | the operator table has exactly the seven tokens the validator accepts |
| `Operators.SubstringAt` | src/apps/rules/services.py:45 | string `contains` holds iff the needle starts at some position of the haystack |
| `Operators.ContainsMeaning` | src/apps/rules/services.py:45 | `contains` tests element membership by `==` on a list, substring on a string and key membership on a dict, and is false on anything else |
| `Operators.ApplyProperties` | src/apps/rules/services.py:38-44 | `==` and `!=` never raise and always disagree; `>`/`<` and `>=`/`<=` are each other's converses |
| `Evaluator.SplitDotsJoin` | src/apps/rules/services.py:75 | the pieces of `field.split('.')` join back with dots to the field |
| `Evaluator.SplitDotsNoDot` | src/apps/rules/services.py:75 | no piece of `field.split('.')` holds a dot |
| `Evaluator.SplitWithoutDots` | src/apps/rules/services.py:75 | a field without dots is one piece |
| `Evaluator.WalkPath` | src/apps/rules/services.py:76-82 | the cursor loop reaches the value the path names, or gives up at the first piece it cannot follow |
| `Evaluator.ResolveSplit` | src/apps/rules/services.py:78-82 | walking a path is walking any prefix of it and then the rest |
| `Evaluator.BrokenPathFails` | src/apps/rules/services.py:78-82 | a walk that meets a non-dict or a missing key at any depth fails |
| `Evaluator.AllTrueIff` | src/apps/rules/services.py:55-58 | an `AND` list is true iff every child returns true |
| `Evaluator.AnyFalseIff` | src/apps/rules/services.py:60-63 | an `OR` list is false iff every child returns false |
| `Evaluator.AnyTrueIff` | src/apps/rules/services.py:60-63 | an `OR` list is true iff some child returns true and every child before it returns false |
| `Evaluator.AllFalseIff` | src/apps/rules/services.py:55-58 | an `AND` list is false iff some child returns false and every child before it returns true |
| `Evaluator.AllShortCircuits` | src/apps/rules/services.py:55-58 | after a false child, the `AND` list is false whatever follows, including children that would raise |
| `Evaluator.AnyShortCircuits` | src/apps/rules/services.py:60-63 | after a true child, the `OR` list is true whatever follows |
| `Evaluator.AndOfTwo` | src/apps/rules/services.py:55-58 | `{"AND": [a, b]}` is `a and b` when neither raises |
| `Evaluator.OrOfTwo` | src/apps/rules/services.py:60-63 | `{"OR": [a, b]}` is `a or b` when neither raises |
| `Evaluator.AndKeyWins` | src/apps/rules/services.py:55-63 | an `AND` key decides a node, whatever other keys it holds |
| `Evaluator.OrKeyWins` | src/apps/rules/services.py:60-73 | without `AND`, an `OR` key decides a node over any leaf keys |
| `Evaluator.EmptyLists` | src/apps/rules/services.py:48-63 | an empty `AND` list is true and an empty `OR` list is false |
| `Evaluator.IncompleteLeafIsFalse` | src/apps/rules/services.py:65-73 | a leaf is false, not an exception, when it has a missing or falsy field or operator, a missing or null value, or a hashable operator (a string, number, bool or null) that is not one of the seven tokens |
| `Evaluator.LeafTrueIff` | src/apps/rules/services.py:65-87 | a complete leaf with a string field never raises, and is true iff its path resolves and the operator, applied without a TypeError, returns true |
| `Evaluator.BrokenPathLeafIsFalse` | src/apps/rules/services.py:75-82 | a leaf whose path breaks at any depth is false |
| `Evaluator.EvaluateRules` | src/apps/rules/services.py:90-103 | the loop computes the specification `Aggregate`: the two lists, or the exception of the first rule that raises |
| `Evaluator.AggregateCompletes` | src/apps/rules/services.py:90-103 | `evaluate_rules` returns iff no rule's condition raises |
| `Evaluator.AggregateLists` | src/apps/rules/services.py:90-103 | the passed list holds the names of the true rules and the failed list those of the false rules, each in input order |
| `Evaluator.NamesWherePartition` | src/apps/rules/services.py:94-99 | when nothing raises, the lengths of the two name lists add up to the number of rules |
| `Evaluator.NamesWhereMultiset` | src/apps/rules/services.py:94-99 | when nothing raises, the two lists together hold each input name exactly as often as the input does |
| `Evaluator.AggregatePartition` | src/apps/rules/services.py:90-103 | a completed run puts every input pair into exactly one list: the length sum and the multiset union match the input |
| `Evaluator.NoFailureIff` | src/apps/rules/services.py:90-103 | no rule fails (all names passed, none failed) iff every condition returns true |
| `RuleService.GetRulesByNames` | src/apps/rules/services.py:26-34 | resolution succeeds iff every requested name is an active rule; every returned pair is a requested name with the condition of an active stored rule of that name |
| `RuleService.ResolvedExactlyOnce` | src/apps/rules/services.py:26-34 | with unique names, every requested name is returned exactly once |
| `RuleService.InactiveIsAbsent` | src/apps/rules/models.py:40-41 | deactivating a rule gives the same resolution as deleting it |
| `RuleService.OnlyNameSetMatters` | src/apps/rules/services.py:27-29 | resolution depends only on the set of requested names, not on their order or repetition |
| `Tasks.EvaluateRulesAsync` | src/apps/rules/tasks.py:8-31 | the error `Rule was not found.` appears iff some name is not an active rule, and every other error carries the unexpected-error prefix; status is success iff resolution and evaluation both return, and the lists are those of `evaluate_rules`; APPROVED iff nothing failed |
| `Tasks.ApprovedIffEveryRulePasses` | src/apps/rules/tasks.py:13-15 | the worker approves iff every name resolves and every resolved condition is true |
| `Tasks.EveryRequestedRuleReported` | src/apps/rules/tasks.py:13-21 | with unique names, a successful run lists each requested name in exactly one of the two lists, and nothing else |
| `Views.Evaluate` | src/apps/rules/views.py:56-82 | 400 iff the body is refused, 404 iff some name is not an active rule, with detail `Rule was not found.`; once the names resolve, 200 iff `evaluate_rules` returns, with its passed and failed lists unchanged and APPROVED iff nothing failed, and 500 iff a condition raises, with that exception's text as detail |
| `Views.EvaluateAsync` | src/apps/rules/views.py:96-118 | a job is enqueued iff the answer is 202, and then it carries the request's names and payload and the answer is `pending` with the task id |
| `Views.TaskResult` | src/apps/rules/views.py:131-171 | no or empty id gives 400 `task_id parameter is required`; a PENDING task (stored or unknown) gives 200 with the `pending` reply and `Task is still in progress`, and only such a task does; any state other than PENDING and SUCCESS gives 500 with detail `Task failed with status: <state>`, and only such a state does |
| `Views.TaskResultClassification` | src/apps/rules/views.py:131-171 | 400 iff there is no id or the worker reported an error (with that error as detail); 200 iff pending or a worker verdict (passed through unchanged); 500 iff any other state |
| `Views.AsyncRefusesLikeSync` | src/apps/rules/views.py:96-107 | the async endpoint enqueues nothing exactly when the sync endpoint answers 400 or 404, and then gives the same answer |
| `Views.PollAgreesWithSync` | src/apps/rules/views.py:139-165 | submit, run on the same rules and poll: the poll repeats the sync 200 answer; where sync answers 500, the poll answers 400 with the prefixed text |
| `Views.RuleRemovedBeforeRun` | src/apps/rules/tasks.py:13 | the worker reads the store again, so a rule deactivated after submission makes the poll answer 400 `Rule was not found.` |
| `Views.PendingUntilRun` | src/apps/rules/views.py:139-146 | before the worker stores a result, the poll reports the task pending |
| `StrictValidation.AndBesideOrListAcceptedButRaises` | src/apps/rules/models.py:16-24 | `{"AND": 1, "OR": []}` is accepted by the validator, but its evaluation raises |
| `StrictValidation.AndDictBesideOrListApprovesEverything` | src/apps/rules/models.py:16-22 | `{"AND": {}, "OR": [age > 100]}` is accepted by the validator, and evaluates to true on every payload |
| `StrictValidation.NonStringFieldAcceptedButRaises` | src/apps/rules/models.py:29-36 | `{"field": 1, "operator": "==", "value": 1}` is accepted by the validator, but its evaluation raises |
| `StrictValidation.StrictRefusesTheExamples` | src/apps/rules/models.py:16-36 | the corrected validator refuses the three examples |
| `StrictValidation.StrictLogicReadsItsList` | src/apps/rules/services.py:55-63 | under the corrected validator, an `AND` node holds iff every child of its list holds, and an `OR` node iff some child holds with every child before it false |
| `StrictValidation.StrictImpliesAccepted` | src/apps/rules/models.py:12-36 | the corrected validator accepts only conditions the written one accepts |
| `StrictValidation.StrictNeverRaises` | src/apps/rules/services.py:54-87 | a condition the corrected validator accepts evaluates to true or false on every payload, never raising |
| `StrictValidation.StrictStoreNeverFails` | src/apps/rules/views.py:64-82 | with every stored condition accepted by the corrected validator, `evaluate` never answers 500 and the worker reports no unexpected error |
| `Scenarios.AdultInRegionMeaning` | src/apps/rules/tests.py:90-101 | the nested example is true exactly for persons aged 18 or more living in Thailand or Singapore |
| `Scenarios.AdultInRegionCases` | src/apps/rules/tests.py:102-105 | the four test payloads give true, true, false and false |

## Left out

- Floating-point numbers. Every JSON number is an integer here, so comparisons such as a grade of 3.0 are not modelled.
- Exception texts. `Tasks.FaultText` gives one fixed, non-empty text per cause. Python's actual message names the offending type (`'int' object is not iterable`, and so on). The 500 detail and the unexpected-error text therefore match the source only in structure: the prefix, and a non-empty message.
- Which exception type is raised. `Evaluator.Fault` records the cause of an uncaught exception, not its Python class.
- Request deserialisation. `Views.Request` is either refused or the rule names plus payload. The serializer's own rules are not modelled: at least one name, coercion and trimming of names, and the error body.
- Response re-validation. The response serializer re-checks the verdict and lists before answering. In the model this check always passes.
- Task transport. Enqueueing, task id generation and result retention are not modelled. The task id is a parameter, and the backend is a map in which an unknown id reads as PENDING. A worker crash, retry or revocation appears only as a state other than PENDING and SUCCESS.
- The order in which rules come back. The database query has no ordering, so the store's sequence order stands in for it. Every resolution property holds whatever that order is.
- Persistence. Creation through the repository, `created_by`, the timestamps, rule CRUD, authentication, permissions and the API documentation decorators are left out. None of them takes part in evaluation.
- Where the validator runs. The validator is modelled on its own. The model does not say that a rule is saved only through a path that calls it.
- Concurrency. Two workers, or a worker and an edit to the rules, do not interleave within one step. `Views.RuleRemovedBeforeRun` covers an edit made between submission and execution.
- Strings. They are compared by code point. No Unicode normalisation or collation is modelled.

## Findings

| source | as written | input that shows it | evidently intended | confidence | as-written member | corrected member |
|---|---|---|---|---|---|---|
| src/apps/rules/models.py:16-22 | when `AND` holds no list, the validator falls through to an `OR` list, but the evaluator dispatches on the `AND` key alone | `{"AND": 1, "OR": []}` is accepted, then evaluation tries to iterate `1` and raises | a node with an `AND` key must hold a list under `AND` | not executed | `StrictValidation.AndBesideOrListAcceptedButRaises` | `StrictValidation.StrictNeverRaises` |
| src/apps/rules/models.py:29-36 | a leaf's `field` is never checked to be a string, but the evaluator calls `split` on it | `{"field": 1, "operator": "==", "value": 1}` is accepted, then evaluation raises on `(1).split` | a leaf's field must be a string | not executed | `StrictValidation.NonStringFieldAcceptedButRaises` | `StrictValidation.StrictNeverRaises` |
| src/apps/rules/models.py:16-22 | the same fall-through accepts a dict under `AND`, and the evaluator iterates it like a list: `all` over an empty dict is true | `{"AND": {}, "OR": [{"field": "age", "operator": ">", "value": 100}]}` is accepted and holds on every payload, so its rule always passes | a node with an `AND` key must hold a list under `AND`, and the node holds only when its children do | not executed | `StrictValidation.AndDictBesideOrListApprovesEverything` | `StrictValidation.StrictLogicReadsItsList` |
