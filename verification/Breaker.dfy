/** `breaker` (`internal/server/breaker.go`): a circuit breaker per domain. The clock is an input. */
module Breaker {
  import opened Wire

  /** The record of a domain; no record is the same as a blank one. */
  datatype Circuit = Circuit(failures: nat, openUntil: Option<int>)

  const Blank := Circuit(0, None)

  datatype Settings = Settings(threshold: int, cooldown: int)

  predicate Sane(k: Settings) {
    k.threshold > 0 && k.cooldown > 0
  }

  type Board = map<string, Circuit>

  function Of(b: Board, domain: string): Circuit {
    if domain in b then b[domain] else Blank
  }

  function AllowStep(b: Board, domain: string, now: int): (Board, bool) {
    if domain !in b || b[domain].openUntil.None? then (b, true)
    else if now < b[domain].openUntil.value then (b, false)
    else (b[domain := Blank], true)
  }

  function SuccessStep(b: Board, domain: string): Board {
    if domain in b then b[domain := Blank] else b
  }

  function FailureStep(k: Settings, b: Board, domain: string, now: int): Board {
    var c := Of(b, domain);
    b[domain := Circuit(c.failures + 1,
                        if c.failures + 1 >= k.threshold && c.openUntil.None?
                        then Some(now + k.cooldown) else c.openUntil)]
  }

  class Breaker {
    const settings: Settings
    var state: Board

    constructor (threshold: int, cooldown: int)
      ensures settings == Settings(if threshold <= 0 then 5 else threshold, if cooldown <= 0 then 30 else cooldown)
      ensures Sane(settings) && state == map[]
    {
      settings := Settings(if threshold <= 0 then 5 else threshold, if cooldown <= 0 then 30 else cooldown);
      state := map[];
    }

    method Allow(domain: string, now: int) returns (ok: bool)
      modifies this
      ensures (state, ok) == AllowStep(old(state), domain, now)
    {
      if domain !in state {
        return true;
      }
      var s := state[domain];
      if s.openUntil.None? {
        return true;
      }
      if now < s.openUntil.value {
        return false;
      }
      state := state[domain := s.(openUntil := None, failures := 0)];
      return true;
    }

    method RecordSuccess(domain: string)
      modifies this
      ensures state == SuccessStep(old(state), domain)
    {
      if domain in state {
        state := state[domain := state[domain].(failures := 0, openUntil := None)];
      }
    }

    method RecordFailure(domain: string, now: int)
      modifies this
      ensures state == FailureStep(settings, old(state), domain, now)
    {
      if domain !in state {
        state := state[domain := Circuit(0, None)];
      }
      var s := state[domain];
      s := s.(failures := s.failures + 1);
      if s.failures >= settings.threshold && s.openUntil.None? {
        s := s.(openUntil := Some(now + settings.cooldown));
      }
      state := state[domain := s];
    }

    method Open(domain: string, now: int) returns (open: bool)
      ensures open <==> !AllowStep(state, domain, now).1
    {
      open := domain in state && state[domain].openUntil.Some? && now < state[domain].openUntil.value;
    }
  }

  // ----- traces -----

  datatype Event =
    | Asked(domain: string, time: int)
    | Succeeded(domain: string, time: int)
    | Failed(domain: string, time: int)

  function Step(k: Settings, b: Board, e: Event): Board {
    match e
    case Asked(d, t) => AllowStep(b, d, t).0
    case Succeeded(d, _) => SuccessStep(b, d)
    case Failed(d, t) => FailureStep(k, b, d, t)
  }

  function After(k: Settings, trace: seq<Event>): Board {
    if trace == [] then map[] else Step(k, After(k, trace[..|trace| - 1]), trace[|trace| - 1])
  }

  /** The times of a domain's failures since its last reset: a success, or a question asked once the
      cooldown since the threshold-th of them had elapsed. */
  function Window(k: Settings, trace: seq<Event>, domain: string): seq<int>
    requires Sane(k)
  {
    if trace == [] then [] else
    var w, e := Window(k, trace[..|trace| - 1], domain), trace[|trace| - 1];
    if e.domain != domain then w else
    match e
    case Succeeded(_, _) => []
    case Failed(_, t) => w + [t]
    case Asked(_, t) => if |w| >= k.threshold && t >= w[k.threshold - 1] + k.cooldown then [] else w
  }

  /** The breaker's record of a domain is exactly what its window says, after every trace. */
  lemma {:induction false} RecordIsWindow(k: Settings, trace: seq<Event>, domain: string)
    requires Sane(k)
    ensures
      var w := Window(k, trace, domain);
      Of(After(k, trace), domain) ==
      Circuit(|w|, if |w| >= k.threshold then Some(w[k.threshold - 1] + k.cooldown) else None)
  {
    if trace != [] {
      RecordIsWindow(k, trace[..|trace| - 1], domain);
    }
  }

  function Project(trace: seq<Event>, domain: string): seq<Event> {
    if trace == [] then []
    else
      var e := trace[|trace| - 1];
      Project(trace[..|trace| - 1], domain) + if e.domain == domain then [e] else []
  }

  lemma {:induction false} WindowIsLocal(k: Settings, trace: seq<Event>, domain: string)
    requires Sane(k)
    ensures Window(k, Project(trace, domain), domain) == Window(k, trace, domain)
  {
    if trace != [] {
      var n := |trace| - 1;
      WindowIsLocal(k, trace[..n], domain);
      var p := Project(trace, domain);
      if trace[n].domain == domain {
        assert p[..|p| - 1] == Project(trace[..n], domain) && p[|p| - 1] == trace[n];
      } else {
        assert p == Project(trace[..n], domain);
      }
    }
  }

  /** Events of other domains never change an answer. */
  lemma OtherDomainsDoNotMatter(k: Settings, trace: seq<Event>, domain: string, now: int)
    requires Sane(k)
    ensures AllowStep(After(k, trace), domain, now).1 == AllowStep(After(k, Project(trace, domain)), domain, now).1
  {
    RecordIsWindow(k, trace, domain);
    RecordIsWindow(k, Project(trace, domain), domain);
    WindowIsLocal(k, trace, domain);
  }

  // ----- when a request is refused -----

  /** Event `i` is the threshold-th failure of the domain since its last reset. */
  ghost predicate Opens(k: Settings, trace: seq<Event>, domain: string, i: nat)
    requires Sane(k)
  {
    i < |trace| && trace[i].Failed? && trace[i].domain == domain
    && |Window(k, trace[..i], domain)| == k.threshold - 1
  }

  ghost predicate NoSuccessSince(trace: seq<Event>, domain: string, i: nat) {
    forall j | i < j < |trace| :: !(trace[j].Succeeded? && trace[j].domain == domain)
  }

  ghost predicate Monotone(trace: seq<Event>, now: int) {
    && (forall i, j | 0 <= i < j < |trace| :: trace[i].time <= trace[j].time)
    && (forall i | 0 <= i < |trace| :: trace[i].time <= now)
  }

  /** A window that has reached the threshold was opened by one event, and nothing reset it since. */
  lemma {:induction false} WindowWasOpened(k: Settings, trace: seq<Event>, domain: string) returns (i: nat)
    requires Sane(k) && |Window(k, trace, domain)| >= k.threshold
    ensures Opens(k, trace, domain, i) && NoSuccessSince(trace, domain, i)
    ensures trace[i].time == Window(k, trace, domain)[k.threshold - 1]
  {
    var n := |trace| - 1;
    var front, e := trace[..n], trace[n];
    var w := Window(k, front, domain);
    if |w| >= k.threshold {
      i := WindowWasOpened(k, front, domain);
      assert front[..i] == trace[..i];
      assert Window(k, trace, domain)[..|w|] == w;
    } else {
      i := n;
    }
  }

  /** Before the cooldown is over, an opened window survives everything but a success. */
  lemma {:induction false} OpenedWindowStays(k: Settings, trace: seq<Event>, domain: string, i: nat, now: int)
    requires Sane(k) && Monotone(trace, now) && Opens(k, trace, domain, i) && NoSuccessSince(trace, domain, i)
    requires now < trace[i].time + k.cooldown
    ensures |Window(k, trace, domain)| >= k.threshold
    ensures Window(k, trace, domain)[k.threshold - 1] == trace[i].time
    decreases |trace|
  {
    var n := |trace| - 1;
    if i < n {
      assert trace[..n][..i] == trace[..i];
      OpenedWindowStays(k, trace[..n], domain, i, now);
    }
  }

  /** Over every trace with a clock that does not go back, a request is refused exactly when the
      threshold-th failure of its domain since the last reset lies less than a cooldown ago and no
      success of the domain has been recorded since. */
  lemma RefusedExactlyWhenOpen(k: Settings, trace: seq<Event>, domain: string, now: int)
    requires Sane(k) && Monotone(trace, now)
    ensures !AllowStep(After(k, trace), domain, now).1 <==>
            exists i: nat :: Opens(k, trace, domain, i) && NoSuccessSince(trace, domain, i)
                             && now < trace[i].time + k.cooldown
  {
    RecordIsWindow(k, trace, domain);
    if !AllowStep(After(k, trace), domain, now).1 {
      var i := WindowWasOpened(k, trace, domain);
    }
    if i: nat :| Opens(k, trace, domain, i) && NoSuccessSince(trace, domain, i) && now < trace[i].time + k.cooldown {
      OpenedWindowStays(k, trace, domain, i, now);
    }
  }
}
