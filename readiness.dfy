/** `waitForN8N`: the bounded readiness poll of a tenant's n8n container. */
module Readiness {
  import opened Common

  /** `waitForN8N(containerId, maxAttempts = 30)` */
  const DefaultMaxAttempts: nat := 30

  /** The Docker commands the poll issues, by attempt number. */
  datatype Probe =
    | Inspect(attempt: nat)      // docker inspect --format='{{.State.Status}}'
    | HealthCheck(attempt: nat)  // docker exec ... wget .../healthz

  datatype Outcome =
    | Ready(attempt: nat)        // returns true on this attempt
    | TimedOut(attempts: nat)    // throws "N8N failed to become ready after N attempts"

  function AttemptsMade(o: Outcome): nat
  {
    match o
    case Ready(k) => k
    case TimedOut(n) => n
  }

  /** The container counts as running when `docker inspect` printed "running",
      up to surrounding white space; None stands for a failed inspection. */
  predicate IsRunning(state: Option<string>)
  {
    state.Some? && Trim(state.value) == "running"
  }

  /** Attempt k (counting from 1) finds the container running and healthy. */
  predicate SucceedsAt(states: seq<Option<string>>, healthy: seq<bool>, k: nat)
    requires 1 <= k <= |states| && k <= |healthy|
  {
    IsRunning(states[k - 1]) && healthy[k - 1]
  }

  /** The commands of attempt k: an inspection, then a health check only if running. */
  function AttemptProbes(states: seq<Option<string>>, k: nat): seq<Probe>
    requires 1 <= k <= |states|
  {
    [Inspect(k)] + if IsRunning(states[k - 1]) then [HealthCheck(k)] else []
  }

  /** The commands of attempts 1 through n, in order. */
  function ProbesThrough(states: seq<Option<string>>, n: nat): seq<Probe>
    requires n <= |states|
  {
    if n == 0 then [] else ProbesThrough(states, n - 1) + AttemptProbes(states, n)
  }

  /** `waitForN8N`: the answers of `docker inspect` and of the health probe are
      the per-attempt oracles `states` and `healthy`; the two-second sleeps are no-ops. */
  method WaitForN8N(maxAttempts: nat, states: seq<Option<string>>, healthy: seq<bool>)
    returns (outcome: Outcome, probes: seq<Probe>)
    requires maxAttempts <= |states| && maxAttempts <= |healthy|
    ensures outcome.Ready? ==>
              && 1 <= outcome.attempt <= maxAttempts
              && SucceedsAt(states, healthy, outcome.attempt)
              && forall j :: 1 <= j < outcome.attempt ==> !SucceedsAt(states, healthy, j)
    ensures outcome.TimedOut? ==>
              && outcome.attempts == maxAttempts
              && forall j :: 1 <= j <= maxAttempts ==> !SucceedsAt(states, healthy, j)
    ensures probes == ProbesThrough(states, AttemptsMade(outcome))
  {
    probes := [];
    for attempt := 1 to maxAttempts + 1
      invariant probes == ProbesThrough(states, attempt - 1)
      invariant forall j :: 1 <= j < attempt ==> !SucceedsAt(states, healthy, j)
    {
      var ready, issued := Attempt(states, healthy, attempt);
      probes := probes + issued;
      assert probes == ProbesThrough(states, attempt);
      if ready {
        return Ready(attempt), probes;
      }
    }
    return TimedOut(maxAttempts), probes;
  }

  /** One attempt of the poll: inspect the container and, only if it runs,
      probe the health endpoint; `ready` is whether the attempt returns true. */
  method Attempt(states: seq<Option<string>>, healthy: seq<bool>, attempt: nat)
    returns (ready: bool, issued: seq<Probe>)
    requires 1 <= attempt <= |states| && attempt <= |healthy|
    ensures issued == AttemptProbes(states, attempt)
    ensures ready == SucceedsAt(states, healthy, attempt)
  {
    issued := [Inspect(attempt)];
    var running := IsRunning(states[attempt - 1]);
    if !running {
      return false, issued;
    }
    issued := issued + [HealthCheck(attempt)];
    ready := healthy[attempt - 1];
  }

  /** The health endpoint is only ever probed on an attempt that found the container running. */
  lemma {:induction false} HealthCheckedOnlyWhenRunning(states: seq<Option<string>>, n: nat, k: nat)
    requires n <= |states|
    requires HealthCheck(k) in ProbesThrough(states, n)
    ensures 1 <= k <= n && IsRunning(states[k - 1])
  {
    if n > 0 {
      if HealthCheck(k) !in AttemptProbes(states, n) {
        HealthCheckedOnlyWhenRunning(states, n - 1, k);
      }
    }
  }

  /** How many times the command `p` occurs in `probes`. */
  function Occurrences(probes: seq<Probe>, p: Probe): nat
  {
    if probes == [] then 0
    else Occurrences(probes[..|probes| - 1], p) + if probes[|probes| - 1] == p then 1 else 0
  }

  lemma {:induction false} OccurrencesAppend(a: seq<Probe>, b: seq<Probe>, p: Probe)
    ensures Occurrences(a + b, p) == Occurrences(a, p) + Occurrences(b, p)
  {
    if b != [] {
      assert (a + b)[..|a + b| - 1] == a + b[..|b| - 1];
      OccurrencesAppend(a, b[..|b| - 1], p);
    } else {
      assert a + b == a;
    }
  }

  /** The count is the multiplicity of `p` in the multiset of the commands. */
  lemma {:induction false} OccurrencesIsMultiplicity(probes: seq<Probe>, p: Probe)
    ensures Occurrences(probes, p) == multiset(probes)[p]
  {
    if probes != [] {
      var last := |probes| - 1;
      assert probes == probes[..last] + [probes[last]];
      OccurrencesIsMultiplicity(probes[..last], p);
    }
  }

  lemma OccurrencesOfOne(x: Probe, p: Probe)
    ensures Occurrences([x], p) == if x == p then 1 else 0
  {
    assert [x][..0] == [];
  }

  /** Attempt n issues exactly one inspection, its own. */
  lemma AttemptInspectsOnce(states: seq<Option<string>>, n: nat, k: nat)
    requires 1 <= n <= |states|
    ensures Occurrences(AttemptProbes(states, n), Inspect(k)) == if k == n then 1 else 0
  {
    var check: seq<Probe> := if IsRunning(states[n - 1]) then [HealthCheck(n)] else [];
    assert AttemptProbes(states, n) == [Inspect(n)] + check;
    OccurrencesAppend([Inspect(n)], check, Inspect(k));
    OccurrencesOfOne(Inspect(n), Inspect(k));
    if check != [] {
      OccurrencesOfOne(HealthCheck(n), Inspect(k));
    }
  }

  /** Attempt k's inspection occurs once among the commands of attempts 1 to n
      when k is one of them, and not at all otherwise. */
  lemma {:induction false} InspectCount(states: seq<Option<string>>, n: nat, k: nat)
    requires n <= |states|
    ensures Occurrences(ProbesThrough(states, n), Inspect(k)) == if 1 <= k <= n then 1 else 0
  {
    if n > 0 {
      InspectCount(states, n - 1, k);
      OccurrencesAppend(ProbesThrough(states, n - 1), AttemptProbes(states, n), Inspect(k));
      AttemptInspectsOnce(states, n, k);
    }
  }

  /** Each attempt issues one or two commands. */
  lemma {:induction false} AtMostTwoCommandsPerAttempt(states: seq<Option<string>>, n: nat)
    requires n <= |states|
    ensures n <= |ProbesThrough(states, n)| <= 2 * n
  {
    if n > 0 {
      AtMostTwoCommandsPerAttempt(states, n - 1);
    }
  }

  /** Each of the n attempts inspects the container exactly once, and there are
      at most two commands per attempt. */
  lemma OneInspectionPerAttempt(states: seq<Option<string>>, n: nat)
    requires n <= |states|
    ensures forall k: nat :: multiset(ProbesThrough(states, n))[Inspect(k)] == if 1 <= k <= n then 1 else 0
    ensures forall k: nat :: Inspect(k) in ProbesThrough(states, n) <==> 1 <= k <= n
    ensures |ProbesThrough(states, n)| <= 2 * n
  {
    var probes := ProbesThrough(states, n);
    forall k: nat
      ensures multiset(probes)[Inspect(k)] == if 1 <= k <= n then 1 else 0
      ensures Inspect(k) in probes <==> 1 <= k <= n
    {
      InspectCount(states, n, k);
      OccurrencesIsMultiplicity(probes, Inspect(k));
      assert Inspect(k) in probes <==> Inspect(k) in multiset(probes);
    }
    AtMostTwoCommandsPerAttempt(states, n);
  }

  /** Any attempt at all issues a command: the first one inspects the container. */
  lemma FirstAttemptInspects(states: seq<Option<string>>, n: nat)
    requires 1 <= n <= |states|
    ensures |ProbesThrough(states, n)| >= 1
  {
  }
}
