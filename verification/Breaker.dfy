/**
 The circuit breaker, and the history of calls it stands for. Its three fields
 are a summary; what decides an answer is how many failures a task type has had
 since its last success, and when the last of them was.
 */
module Breaker {

  type TaskType = string

  // ---- what the calls so far mean ----

  datatype Event =
    | Allowed(ty: TaskType, at: real)      // allow was called, whatever it answered
    | Succeeded(ty: TaskType)
    | Failed(ty: TaskType, at: real)

  /** Failures of a type since its last success. */
  function FailuresSince(h: seq<Event>, ty: TaskType): nat {
    if h == [] then 0
    else
      var e := h[|h| - 1];
      if e == Succeeded(ty) then 0
      else FailuresSince(h[..|h| - 1], ty) + if e.Failed? && e.ty == ty then 1 else 0
  }

  /** When the last failure of a type was. */
  function LastFailure(h: seq<Event>, ty: TaskType): real
    requires FailuresSince(h, ty) > 0
  {
    var e := h[|h| - 1];
    if e.Failed? && e.ty == ty then e.at else LastFailure(h[..|h| - 1], ty)
  }

  /** The type has failed often enough, and at least once. */
  predicate Tripped(threshold: int, h: seq<Event>, ty: TaskType) {
    FailuresSince(h, ty) > 0 && FailuresSince(h, ty) >= threshold
  }

  predicate Refuses(threshold: int, cooldown: real, h: seq<Event>, ty: TaskType, now: real) {
    Tripped(threshold, h, ty) && now - LastFailure(h, ty) < cooldown
  }

  // ---- what the breaker stores ----

  datatype Fields = Fields(failures: map<TaskType, nat>, openedAt: map<TaskType, real>, probing: set<TaskType>)

  const NEW := Fields(map[], map[], {})

  function FailureCount(f: Fields, ty: TaskType): nat {
    if ty in f.failures then f.failures[ty] else 0
  }

  predicate Answer(f: Fields, cooldown: real, ty: TaskType, now: real) {
    ty !in f.openedAt || now - f.openedAt[ty] >= cooldown
  }

  function AfterAllow(f: Fields, cooldown: real, ty: TaskType, now: real): Fields {
    if ty in f.openedAt && now - f.openedAt[ty] >= cooldown then f.(probing := f.probing + {ty}) else f
  }

  function AfterSuccess(f: Fields, ty: TaskType): Fields {
    Fields(f.failures - {ty}, f.openedAt - {ty}, f.probing - {ty})
  }

  function AfterFailure(f: Fields, threshold: int, ty: TaskType, now: real): Fields {
    var n := FailureCount(f, ty) + 1;
    if ty in f.probing || n >= threshold then
      Fields(f.failures[ty := n], f.openedAt[ty := now], f.probing - {ty})
    else f.(failures := f.failures[ty := n])
  }

  function After(f: Fields, threshold: int, cooldown: real, e: Event): Fields {
    match e
    case Allowed(ty, at) => AfterAllow(f, cooldown, ty, at)
    case Succeeded(ty) => AfterSuccess(f, ty)
    case Failed(ty, at) => AfterFailure(f, threshold, ty, at)
  }

  function Replayed(threshold: int, cooldown: real, h: seq<Event>): Fields {
    if h == [] then NEW
    else After(Replayed(threshold, cooldown, h[..|h| - 1]), threshold, cooldown, h[|h| - 1])
  }

  class CircuitBreaker {
    const threshold: int
    const cooldown: real
    var failures: map<TaskType, nat>
    var openedAt: map<TaskType, real>
    var probing: set<TaskType>

    function Contents(): Fields
      reads this
    {
      Fields(failures, openedAt, probing)
    }

    constructor (threshold: int, cooldown: real)
      ensures this.threshold == threshold && this.cooldown == cooldown && Contents() == NEW
    {
      this.threshold, this.cooldown := threshold, cooldown;
      failures, openedAt, probing := map[], map[], {};
    }

    method Allow(ty: TaskType, now: real) returns (ok: bool)
      modifies this
      ensures ok == Answer(old(Contents()), cooldown, ty, now)
      ensures Contents() == After(old(Contents()), threshold, cooldown, Allowed(ty, now))
      ensures ok <==> ty !in old(openedAt) || now - old(openedAt)[ty] >= cooldown
      ensures probing == old(probing) + if ok && ty in old(openedAt) then {ty} else {}
      ensures failures == old(failures) && openedAt == old(openedAt)
    {
      if ty !in openedAt {
        return true;
      }
      if now - openedAt[ty] < cooldown {
        return false;
      }
      probing := probing + {ty};
      return true;
    }

    method RecordSuccess(ty: TaskType)
      modifies this
      ensures Contents() == After(old(Contents()), threshold, cooldown, Succeeded(ty))
      ensures ty !in failures && ty !in openedAt && ty !in probing
    {
      failures := failures - {ty};
      openedAt := openedAt - {ty};
      probing := probing - {ty};
    }

    method RecordFailure(ty: TaskType, now: real)
      modifies this
      ensures Contents() == After(old(Contents()), threshold, cooldown, Failed(ty, now))
      ensures ty in failures && failures[ty] == 1 + if ty in old(failures) then old(failures)[ty] else 0
      ensures if ty in old(probing) || failures[ty] >= threshold then openedAt == old(openedAt)[ty := now]
              else openedAt == old(openedAt)
    {
      var n := 1;
      if ty in failures {
        n := failures[ty] + 1;
      }
      failures := failures[ty := n];
      if ty in probing || n >= threshold {
        openedAt := openedAt[ty := now];
        probing := probing - {ty};
      }
    }

    /** The reporting call reads the fields as `allow` does, and leaves them alone. */
    method State(ty: TaskType, now: real) returns (s: string)
      ensures s == "closed" <==> ty !in openedAt
      ensures s == "open" <==> !Answer(Contents(), cooldown, ty, now)
      ensures s in {"closed", "open", "half-open"}
    {
      if ty !in openedAt {
        return "closed";
      }
      return if now - openedAt[ty] < cooldown then "open" else "half-open";
    }
  }

  // ---- the fields summarise the history ----

  predicate Summarises(threshold: int, f: Fields, h: seq<Event>, ty: TaskType) {
    && FailureCount(f, ty) == FailuresSince(h, ty)
    && (ty in f.openedAt <==> Tripped(threshold, h, ty))
    && (ty in f.openedAt ==> f.openedAt[ty] == LastFailure(h, ty))
    && (ty in f.probing ==> ty in f.openedAt)
  }

  lemma {:induction false} ReplaySummarises(threshold: int, cooldown: real, h: seq<Event>, ty: TaskType)
    ensures Summarises(threshold, Replayed(threshold, cooldown, h), h, ty)
  {
    if h != [] {
      ReplaySummarises(threshold, cooldown, h[..|h| - 1], ty);
    }
  }

  /**
   After any calls, with any threshold, `allow` refuses exactly when the type has
   failed at least threshold times (and at least once) since its last success and
   the last failure is still within the cooldown.
   */
  lemma AllowRefusesByHistory(threshold: int, cooldown: real, h: seq<Event>, ty: TaskType, now: real)
    ensures Answer(Replayed(threshold, cooldown, h), cooldown, ty, now) <==> !Refuses(threshold, cooldown, h, ty, now)
  {
    ReplaySummarises(threshold, cooldown, h, ty);
  }

  /** The outcomes of one type: allow calls and other types' events are gone. */
  function Outcomes(h: seq<Event>, ty: TaskType): seq<Event> {
    if h == [] then []
    else
      var e := h[|h| - 1];
      Outcomes(h[..|h| - 1], ty) + if e.ty == ty && !e.Allowed? then [e] else []
  }

  lemma {:induction false} OnlyOutcomesCount(h: seq<Event>, ty: TaskType)
    ensures FailuresSince(Outcomes(h, ty), ty) == FailuresSince(h, ty)
    ensures FailuresSince(h, ty) > 0 ==> LastFailure(Outcomes(h, ty), ty) == LastFailure(h, ty)
  {
    if h != [] {
      var rest := h[..|h| - 1];
      OnlyOutcomesCount(rest, ty);
      var o := Outcomes(h, ty);
      if o != Outcomes(rest, ty) {
        assert o[..|o| - 1] == Outcomes(rest, ty);
      }
    }
  }

  /**
   No type affects another, and neither does the probing set: two histories in
   which a type had the same successes and failures get the same answers for it,
   whatever else happened and however often `allow` was asked.
   */
  lemma TypesAreIsolated(threshold: int, cooldown: real, h: seq<Event>, h': seq<Event>, ty: TaskType, now: real)
    requires Outcomes(h, ty) == Outcomes(h', ty)
    ensures Answer(Replayed(threshold, cooldown, h), cooldown, ty, now)
         == Answer(Replayed(threshold, cooldown, h'), cooldown, ty, now)
  {
    AllowRefusesByHistory(threshold, cooldown, h, ty, now);
    AllowRefusesByHistory(threshold, cooldown, h', ty, now);
    OnlyOutcomesCount(h, ty);
    OnlyOutcomesCount(h', ty);
  }

  function Asked(ty: TaskType, at: real, n: nat): seq<Event> {
    seq(n, _ => Allowed(ty, at))
  }

  /**
   Half-open is not a single probe: once one caller is let through, any number
   of further callers are let through until an outcome is recorded.
   */
  lemma {:induction false} HalfOpenAdmitsMany(threshold: int, cooldown: real, h: seq<Event>, ty: TaskType, now: real,
                                            n: nat)
    requires Answer(Replayed(threshold, cooldown, h), cooldown, ty, now)
    ensures Answer(Replayed(threshold, cooldown, h + Asked(ty, now, n)), cooldown, ty, now)
  {
    if n == 0 {
      assert h + Asked(ty, now, 0) == h;
    } else {
      HalfOpenAdmitsMany(threshold, cooldown, h, ty, now, n - 1);
      var longer := h + Asked(ty, now, n);
      assert longer[..|longer| - 1] == h + Asked(ty, now, n - 1);
    }
  }
}
