/**
 The canonical task contract: the statuses a task row can carry, the transition
 table the engine publishes, and the retry policy every worker applies.
 */
module Contract {

  type TaskId = string

  type WorkerId = string

  datatype Option<+T> = None | Some(value: T)

  /** No element occurs twice. */
  predicate Distinct<T(==)>(ts: seq<T>) {
    forall i, j | 0 <= i < j < |ts| :: ts[i] != ts[j]
  }

  datatype TaskStatus =
    | CREATED | QUEUED | RUNNING | PARTIAL | BLOCKED | RETRYING
    | COMPLETED | FAILED | TIMEOUT | CANCELLED | DEADLETTER

  /** The published transition table. */
  function AllowedTransitions(s: TaskStatus): set<TaskStatus> {
    match s
    case CREATED => {QUEUED, CANCELLED}
    case QUEUED => {RUNNING, FAILED, BLOCKED, CANCELLED, DEADLETTER}
    case RUNNING => {COMPLETED, RETRYING, FAILED, PARTIAL, BLOCKED, TIMEOUT, CANCELLED}
    case RETRYING => {RUNNING, FAILED, BLOCKED, CANCELLED}
    case PARTIAL => {COMPLETED, RETRYING, FAILED, BLOCKED, CANCELLED}
    case BLOCKED => {RUNNING, FAILED, COMPLETED, CANCELLED}
    case TIMEOUT => {RETRYING, FAILED, DEADLETTER}
    case COMPLETED => {}
    case FAILED => {RETRYING, DEADLETTER}
    case CANCELLED => {}
    case DEADLETTER => {}
  }

  /** True when writing `to` over `frm` is either no change or a published transition. */
  predicate Legal(frm: TaskStatus, to: TaskStatus) {
    frm == to || to in AllowedTransitions(frm)
  }

  /** What one handler execution, verification included, comes to. */
  datatype Outcome = Ok | Retryable | Fatal

  /** `max_attempts or policy.max_attempts`: a zero cap falls back to the policy's. */
  function EffectiveCap(maxAttempts: int, policyMax: int): int {
    if maxAttempts == 0 then policyMax else maxAttempts
  }

  predicate ShouldRetry(attempt: int, maxAttempts: int, policyMax: int) {
    attempt < EffectiveCap(maxAttempts, policyMax)
  }

  /** Attempts a task can use up: one at least, whatever its cap says. */
  function AttemptBudget(cap: int): (r: nat) {
    if cap < 1 then 1 else cap
  }
}
