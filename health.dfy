/**
 * The health endpoint (frontend/app/api/v1/health/route.ts): the database is checked with
 * a ping, embedding and chat are reported up without a check, and the overall status is
 * derived from the three.
 */
module Health {
  datatype ServiceState = Up | Down

  datatype Services = Services(database: ServiceState, embedding: ServiceState, chat: ServiceState)

  datatype HealthStatus = Healthy | Degraded | Unhealthy

  datatype HealthResponse = HealthResponse(status: HealthStatus, version: string, services: Services)

  const Version: string := "1.0.0"

  /** `Object.values(services)`, in declaration order. */
  function States(s: Services): (r: seq<ServiceState>)
    ensures |r| == 3
  {
    [s.database, s.embedding, s.chat]
  }

  /** `states.every((s) => s === state)` */
  predicate Every(states: seq<ServiceState>, state: ServiceState) {
    forall i :: 0 <= i < |states| ==> states[i] == state
  }

  /** Healthy when every service is up, unhealthy when every one is down, degraded otherwise. */
  function OverallStatus(s: Services): (r: HealthStatus)
    ensures r == Healthy <==> s.database == Up && s.embedding == Up && s.chat == Up
    ensures r == Unhealthy <==> s.database == Down && s.embedding == Down && s.chat == Down
    ensures r == Degraded <==> (Up in States(s) && Down in States(s))
  {
    var allUp := Every(States(s), Up);
    var allDown := Every(States(s), Down);
    assert allUp <==> s.database == Up && s.embedding == Up && s.chat == Up by {
      if allUp { assert States(s)[0] == Up && States(s)[1] == Up && States(s)[2] == Up; }
    }
    assert allDown <==> s.database == Down && s.embedding == Down && s.chat == Down by {
      if allDown { assert States(s)[0] == Down && States(s)[1] == Down && States(s)[2] == Down; }
    }
    if allUp then Healthy else if allDown then Unhealthy else Degraded
  }

  /** `GET`, with the outcome of the `SELECT 1` ping as a parameter. */
  method Get(pingSucceeded: bool) returns (response: HealthResponse)
    ensures response.version == Version
    ensures response.services == Services(if pingSucceeded then Up else Down, Up, Up)
    ensures response.status == OverallStatus(response.services)
  {
    var services := Services(Down, Up, Up);
    if pingSucceeded {
      services := services.(database := Up);
    } else {
      services := services.(database := Down);
    }
    response := HealthResponse(OverallStatus(services), Version, services);
  }

  /** Embedding and chat are always up, so the endpoint reports healthy or degraded, never unhealthy, and healthy exactly when the ping succeeds. */
  lemma NeverUnhealthy(pingSucceeded: bool)
    ensures var s := OverallStatus(Services(if pingSucceeded then Up else Down, Up, Up));
      s != Unhealthy && (s == Healthy <==> pingSucceeded) && (s == Degraded <==> !pingSucceeded)
  {
  }
}
