/** The orchestrator's operations run against the state they change: the
    tenants table, the compose files on disk and the Docker networks. Each
    answer from Docker, the filesystem or PostgreSQL comes in as a parameter;
    every method is proved to produce what the functions in Tenants say. */
module Orchestrator {
  import opened Common
  import Plans
  import Subdomain
  import Password
  import Subnet
  import Manifest
  import Readiness
  import opened Tenants

  class TenantStore {
    /** The committed rows of the tenants table, in creation order. */
    var rows: seq<Tenant>
    /** A logical clock standing for NOW(): it ticks once per call. */
    var clock: nat
    /** Compose files on disk, by path. */
    var composeFiles: map<string, string>
    /** Docker networks that exist. */
    var networks: set<string>

    ghost predicate Valid()
      reads this
    {
      TableInvariant(rows, clock)
    }

    constructor()
      ensures Valid()
      ensures rows == [] && composeFiles == map[] && networks == {}
    {
      rows := [];
      clock := 0;
      composeFiles := map[];
      networks := {};
    }

    /** `createTenant(name, plan)`. `readinessStates` and `readinessHealth`
        answer the readiness poll, whose outcome the code ignores; `probes`
        are the commands that poll issued. */
    method CreateTenant(name: string, plan: string, env: CreateEnv,
                        readinessStates: seq<Option<string>>, readinessHealth: seq<bool>)
      returns (r: Result<CreatedTenant, CreateError>, probes: seq<Readiness.Probe>)
      requires Valid() && WellFormedCreateEnv(env)
      requires Readiness.DefaultMaxAttempts <= |readinessStates|
      requires Readiness.DefaultMaxAttempts <= |readinessHealth|
      modifies this
      ensures Valid()
      ensures clock == old(clock) + 1
      ensures r == CreateOutcome(old(rows), old(clock), name, plan, env)
      ensures rows == TableAfterCreate(old(rows), old(clock), name, plan, env)
      ensures composeFiles ==
                if ComposeFileSaved(old(rows), name, plan, env)
                then old(composeFiles)[ComposeFilePath(env.newId) := ComposeFileFor(old(rows), old(clock), name, plan, env)]
                else old(composeFiles)
      ensures networks ==
                if ComposeFileSaved(old(rows), name, plan, env) && env.networkCreated
                then old(networks) + {NetworkName(env.newId)}
                else old(networks)
      ensures probes != [] <==> ContainersLookedUp(old(rows), name, plan, env) && Trim(env.n8nPs.value) != ""
    {
      CreateKeepsInvariant(rows, clock, name, plan, env);
      r, probes := CreateTenantSteps(name, plan, env, readinessStates, readinessHealth);
    }

    /** The steps of `createTenant`, one transaction against the store. */
    method CreateTenantSteps(name: string, plan: string, env: CreateEnv,
                             readinessStates: seq<Option<string>>, readinessHealth: seq<bool>)
      returns (r: Result<CreatedTenant, CreateError>, probes: seq<Readiness.Probe>)
      requires WellFormedCreateEnv(env)
      requires Readiness.DefaultMaxAttempts <= |readinessStates|
      requires Readiness.DefaultMaxAttempts <= |readinessHealth|
      modifies this
      ensures clock == old(clock) + 1
      ensures r == CreateOutcome(old(rows), old(clock), name, plan, env)
      ensures rows == TableAfterCreate(old(rows), old(clock), name, plan, env)
      ensures composeFiles ==
                if ComposeFileSaved(old(rows), name, plan, env)
                then old(composeFiles)[ComposeFilePath(env.newId) := ComposeFileFor(old(rows), old(clock), name, plan, env)]
                else old(composeFiles)
      ensures networks ==
                if ComposeFileSaved(old(rows), name, plan, env) && env.networkCreated
                then old(networks) + {NetworkName(env.newId)}
                else old(networks)
      ensures probes != [] <==> ContainersLookedUp(old(rows), name, plan, env) && Trim(env.n8nPs.value) != ""
    {
      var before, now := rows, clock;
      clock := clock + 1;

      // BEGIN, validation and INSERT: the row is seen by this transaction only.
      var inserted := InsertRow(name, plan, env, now);
      if inserted.Err? {
        CreateRefusedAtInsert(before, now, name, plan, env);
        return Err(inserted.error), [];
      }
      CreateAfterInsert(before, now, name, plan, env, inserted.value);
      r, probes := Provision(before, inserted.value, now, env, readinessStates, readinessHealth);
    }

    /** Validation and the INSERT of `createTenant`: the plan must pass the
        catalogue's property read and the subdomain must be unused; the new row
        is appended with status 'provisioning'. */
    method InsertRow(name: string, plan: string, env: CreateEnv, now: nat) returns (inserted: Result<Tenant, CreateError>)
      requires WellFormedCreateEnv(env)
      modifies this`rows
      ensures inserted == InsertResult(old(rows), now, name, plan, env)
      ensures rows == if inserted.Ok? then old(rows) + [inserted.value] else old(rows)
    {
      if !Plans.PlanAcceptedAsWritten(plan) {
        return Err(InvalidPlan(plan));
      }
      var subdomain := Subdomain.GenerateSubdomain(name);
      var postgresPassword := Password.GeneratePassword(Password.DefaultLength, env.postgresRandom);
      var redisPassword := Password.GeneratePassword(Password.DefaultLength, env.redisRandom);
      var subnet := Subnet.NextSubnet(LatestSubnet(rows));
      if SubdomainTaken(rows, subdomain) {
        return Err(SubdomainExists(subdomain));
      }
      if !env.insertOk || IdTaken(rows, env.newId) {
        return Err(InsertFailed);
      }
      var row := Tenant(env.newId, name, subdomain, plan, Provisioning, postgresPassword, redisPassword,
                        Some(subnet), N8nUrl(subdomain), None, None, None, now, now, None);
      rows := rows + [row];
      return Ok(row);
    }

    /** The rest of `createTenant` once `row` is inserted on top of `before`:
        write the compose file, create the network (its failure ignored), start
        the containers, look up their ids, poll n8n when its id is non-empty,
        activate the row and commit; any failure rolls the row back. */
    method Provision(before: seq<Tenant>, row: Tenant, now: nat, env: CreateEnv,
                     readinessStates: seq<Option<string>>, readinessHealth: seq<bool>)
      returns (r: Result<CreatedTenant, CreateError>, probes: seq<Readiness.Probe>)
      requires rows == before + [row]
      requires Readiness.DefaultMaxAttempts <= |readinessStates|
      requires Readiness.DefaultMaxAttempts <= |readinessHealth|
      modifies this`rows, this`composeFiles, this`networks
      ensures r == ProvisionOutcome(row, now, env)
      ensures rows == if r.Ok? then before + [Activated(row, now, env)] else before
      ensures composeFiles ==
                if env.template.Some? && env.composeFileWritten
                then old(composeFiles)[ComposeFilePath(row.id) := Manifest.RenderAsWritten(env.template.value, ManifestValuesOf(row))]
                else old(composeFiles)
      ensures networks ==
                if env.template.Some? && env.composeFileWritten && env.networkCreated
                then old(networks) + {NetworkName(row.id)}
                else old(networks)
      ensures probes != [] <==> DeployError(env).None? && Trim(env.n8nPs.value) != ""
    {
      probes := [];
      if env.template.None? {
        rows := before;  // ROLLBACK
        return Err(TemplateUnreadable), probes;
      }
      var manifest := Manifest.RenderAsWritten(env.template.value, ManifestValuesOf(row));
      if !env.composeFileWritten {
        rows := before;
        return Err(ComposeFileNotWritten), probes;
      }
      ghost var files0, networks0 := composeFiles, networks;
      composeFiles := composeFiles[ComposeFilePath(row.id) := manifest];
      if env.networkCreated {
        networks := networks + {NetworkName(row.id)};
      }
      assert composeFiles == files0[ComposeFilePath(row.id) := manifest];
      assert networks == if env.networkCreated then networks0 + {NetworkName(row.id)} else networks0;
      if !env.composeUpOk {
        rows := before;
        return Err(ComposeUpFailed), probes;
      }
      if env.n8nPs.None? || env.postgresPs.None? || env.redisPs.None? {
        rows := before;
        return Err(ContainerLookupFailed), probes;
      }
      var n8nId := Trim(env.n8nPs.value);
      if n8nId != "" {
        // A poll that times out is logged and creation goes on.
        var outcome;
        outcome, probes := Readiness.WaitForN8N(Readiness.DefaultMaxAttempts, readinessStates, readinessHealth);
        Readiness.FirstAttemptInspects(readinessStates, Readiness.AttemptsMade(outcome));
      }

      if !env.updateOk {
        rows := before;
        return Err(ActivationFailed), probes;
      }
      var active := Activated(row, now, env);
      rows := before + [active];
      if !env.commitOk {
        rows := before;
        return Err(CommitFailed), probes;
      }
      return Ok(Created(active)), probes;
    }

    /** The first row with this id, found by a scan of the table. */
    method Lookup(id: string) returns (k: Option<nat>)
      ensures k == FindById(rows, id)
    {
      var i := 0;
      while i < |rows|
        invariant 0 <= i <= |rows|
        invariant forall j :: 0 <= j < i ==> rows[j].id != id
      {
        if rows[i].id == id {
          FirstIdIsFound(rows, id, i);
          return Some(i);
        }
        i := i + 1;
      }
      return None;
    }

    /** `deleteTenant(id)`. */
    method DeleteTenant(id: string, env: DeleteEnv) returns (r: Result<DeletedTenant, DeleteError>)
      requires Valid()
      modifies this
      ensures Valid()
      ensures clock == old(clock) + 1
      ensures r == DeleteOutcome(old(rows), old(clock), id, env)
      ensures rows == TableAfterDelete(old(rows), old(clock), id, env)
      ensures composeFiles == old(composeFiles)
      ensures networks ==
                if IdTaken(old(rows), id) && env.networkRemoved then old(networks) - {NetworkName(id)}
                else old(networks)
    {
      DeleteKeepsInvariant(rows, clock, id, env);
      r := DeleteTenantSteps(id, env);
    }

    /** The steps of `deleteTenant`, from BEGIN to COMMIT or ROLLBACK. */
    method DeleteTenantSteps(id: string, env: DeleteEnv) returns (r: Result<DeletedTenant, DeleteError>)
      modifies this
      ensures clock == old(clock) + 1
      ensures r == DeleteOutcome(old(rows), old(clock), id, env)
      ensures rows == TableAfterDelete(old(rows), old(clock), id, env)
      ensures composeFiles == old(composeFiles)
      ensures networks ==
                if IdTaken(old(rows), id) && env.networkRemoved then old(networks) - {NetworkName(id)}
                else old(networks)
    {
      var before, now := rows, clock;
      clock := clock + 1;

      var found := Lookup(id);
      if found.None? {
        return Err(TenantNotFound(id));
      }
      var tenant := rows[found.value];

      // `docker compose down -v` runs; its failure is ignored.
      // A failing `docker network rm` is ignored too.
      if env.networkRemoved {
        networks := networks - {NetworkName(id)};
      }

      if !env.updateOk {
        return Err(SoftDeleteFailed);
      }
      var marked := MarkDeleted(rows, id, now);
      rows := marked;
      if !env.commitOk {
        rows := before;
        return Err(DeleteCommitFailed);
      }
      assert DeleteOutcome(before, now, id, env) == Ok(DeletedTenant(id, tenant.name, Deleted, now));
      return Ok(DeletedTenant(id, tenant.name, Deleted, now));
    }

    /** `getTenantStatus(id)`. */
    method GetTenantStatus(id: string, counts: ExecutionCounts, inspect: string -> Option<string>)
      returns (r: Result<StatusView, StatusError>)
      ensures r == StatusOutcome(rows, id, counts, inspect)
    {
      var found := Lookup(id);
      if found.None? {
        return Err(StatusTenantNotFound(id));
      }
      var tenant := rows[found.value];
      var containers: map<string, string> := map[];
      if Truthy(tenant.n8nContainer) {
        containers := containers["n8n" := ContainerReport(inspect(tenant.n8nContainer.value))];
      }
      if Truthy(tenant.postgresContainer) {
        containers := containers["postgres" := ContainerReport(inspect(tenant.postgresContainer.value))];
      }
      if Truthy(tenant.redisContainer) {
        containers := containers["redis" := ContainerReport(inspect(tenant.redisContainer.value))];
      }
      var metrics := Metrics(CountOrZero(counts.total), CountOrZero(counts.successful), CountOrZero(counts.failed));
      return Ok(StatusView(tenant.id, tenant.name, tenant.subdomain, tenant.plan, StatusName(tenant.status),
                           tenant.n8nUrl, containers, metrics, tenant.createdAt, tenant.updatedAt));
    }

    /** `listTenants(filters)`. */
    method ListTenants(filters: ListFilters) returns (r: seq<TenantSummary>)
      ensures r == ListResult(rows, filters)
    {
      var queryText, params, columns := BuildListQuery(filters);
      SelectIsFilter(rows, filters);
      var selected := Select(rows, columns, params);
      r := [];
      for k := 0 to |selected|
        invariant r == seq(k, j requires 0 <= j < k => Summary(selected[j]))
      {
        r := r + [Summary(selected[k])];
      }
    }
  }

  /** The query text and parameters `listTenants` builds, filter by filter;
      `columns` records which column each parameter is compared with. */
  method BuildListQuery(filters: ListFilters) returns (queryText: string, params: seq<string>, columns: seq<string>)
    ensures columns == ListColumns(filters) && params == ListParams(filters)
    ensures queryText == ListQueryText(columns)
  {
    queryText := "SELECT * FROM tenants WHERE 1=1";
    params := [];
    columns := [];
    var paramCount := 1;
    if Truthy(filters.status) {
      ConditionsSnoc(columns, "status", 1);
      queryText := queryText + Condition("status", paramCount);
      params := params + [filters.status.value];
      columns := columns + ["status"];
      paramCount := paramCount + 1;
    }
    assert queryText == "SELECT * FROM tenants WHERE 1=1" + Conditions(columns, 1);
    assert paramCount == |columns| + 1;
    if Truthy(filters.plan) {
      ConditionsSnoc(columns, "plan_tier", 1);
      queryText := queryText + Condition("plan_tier", paramCount);
      params := params + [filters.plan.value];
      columns := columns + ["plan_tier"];
      paramCount := paramCount + 1;
    }
    assert queryText == "SELECT * FROM tenants WHERE 1=1" + Conditions(columns, 1);
    queryText := queryText + " ORDER BY created_at DESC";
  }

  /** Scanning from the front, the first row carrying the id is the one found. */
  lemma FirstIdIsFound(rows: seq<Tenant>, id: string, i: nat)
    requires i < |rows| && rows[i].id == id
    requires forall j :: 0 <= j < i ==> rows[j].id != id
    ensures FindById(rows, id) == Some(i)
  {
  }
}
