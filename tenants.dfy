/** The tenants table and what each orchestrator operation does to it, stated
    as functions of the table and of the answers Docker, the filesystem and
    PostgreSQL give (`createTenant`, `deleteTenant`, `getTenantStatus`,
    `listTenants`). The store class in TenantStore runs these steps in place. */
module Tenants {
  import opened Common
  import Plans
  import Subdomain
  import Password
  import Subnet
  import Manifest

  datatype Status = Provisioning | Active | Suspended | Deleted

  /** The text stored in the `status` column. */
  function StatusName(s: Status): string
  {
    match s
    case Provisioning => "provisioning"
    case Active => "active"
    case Suspended => "suspended"
    case Deleted => "deleted"
  }

  /** One row of the `tenants` table. */
  datatype Tenant = Tenant(
    id: string,
    name: string,
    subdomain: string,
    plan: string,
    status: Status,
    postgresPassword: string,
    redisPassword: string,
    subnet: Option<string>,
    n8nUrl: string,
    n8nContainer: Option<string>,
    postgresContainer: Option<string>,
    redisContainer: Option<string>,
    createdAt: nat,
    updatedAt: nat,
    deletedAt: Option<nat>)

  function N8nUrl(subdomain: string): string
  {
    "https://" + subdomain + ".app.bythewise.com"
  }

  function ComposeFilePath(id: string): string
  {
    "docker/tenants/docker-compose-tenant-" + id + ".yml"
  }

  function NetworkName(id: string): string
  {
    "tenant_" + id
  }

  // ---------------------------------------------------------------------------
  // Queries over the table
  // ---------------------------------------------------------------------------

  /** `SELECT subnet_cidr FROM tenants WHERE subnet_cidr IS NOT NULL
      ORDER BY created_at DESC LIMIT 1`: the table is kept in creation order,
      so this is the last row that has a subnet, whatever its status. */
  function LatestSubnet(rows: seq<Tenant>): (r: Option<string>)
    ensures r.Some? ==> exists i :: 0 <= i < |rows| && rows[i].subnet == r
                                    && (forall j :: i < j < |rows| ==> rows[j].subnet.None?)
    ensures r.None? ==> forall i :: 0 <= i < |rows| ==> rows[i].subnet.None?
  {
    LatestSubnetBefore(rows, |rows|)
  }

  /** The subnet of the last of the first n rows that has one. */
  function LatestSubnetBefore(rows: seq<Tenant>, n: nat): (r: Option<string>)
    requires n <= |rows|
    ensures r.Some? ==> exists i :: 0 <= i < n && rows[i].subnet == r
                                    && (forall j :: i < j < n ==> rows[j].subnet.None?)
    ensures r.None? ==> forall i :: 0 <= i < n ==> rows[i].subnet.None?
  {
    if n == 0 then None
    else if rows[n - 1].subnet.Some? then rows[n - 1].subnet
    else LatestSubnetBefore(rows, n - 1)
  }

  /** Some row, whatever its status, already holds the subdomain. */
  predicate SubdomainTaken(rows: seq<Tenant>, subdomain: string)
  {
    exists i :: 0 <= i < |rows| && rows[i].subdomain == subdomain
  }

  predicate IdTaken(rows: seq<Tenant>, id: string)
  {
    exists i :: 0 <= i < |rows| && rows[i].id == id
  }

  /** The first row with the id, whatever its status. */
  function FindById(rows: seq<Tenant>, id: string): (r: Option<nat>)
    ensures r.Some? ==> r.value < |rows| && rows[r.value].id == id
                        && forall j :: 0 <= j < r.value ==> rows[j].id != id
    ensures r.None? <==> !IdTaken(rows, id)
  {
    if rows == [] then None
    else if rows[0].id == id then Some(0)
    else
      var r := FindById(rows[1..], id);
      assert forall j :: 1 <= j < |rows| ==> rows[j] == rows[1..][j - 1];
      if r.Some? then Some(r.value + 1) else None
  }

  // ---------------------------------------------------------------------------
  // The table invariant
  // ---------------------------------------------------------------------------

  /** What every operation keeps true of a table that started empty and was
      changed only by these operations under the clock `clock`: ids and
      subdomains are unique over all rows (deleted ones included), rows are in
      creation order, and row i holds the block 172.(100+i).0.0/24. */
  ghost predicate TableInvariant(rows: seq<Tenant>, clock: nat)
  {
    && (forall i, j :: 0 <= i < j < |rows| ==> rows[i].id != rows[j].id)
    && (forall i, j :: 0 <= i < j < |rows| ==> rows[i].subdomain != rows[j].subdomain)
    && (forall i, j :: 0 <= i < j < |rows| ==> rows[i].createdAt < rows[j].createdAt)
    && (forall i :: 0 <= i < |rows| ==> rows[i].createdAt < clock)
    && (forall i :: 0 <= i < |rows| ==> rows[i].subnet == Some(Subnet.SubnetFor(100 + i)))
  }

  /** Under the invariant the next block is the one after the newest row's. */
  lemma {:induction false} NextSubnetAfterTable(rows: seq<Tenant>, clock: nat)
    requires TableInvariant(rows, clock)
    ensures Subnet.NextSubnet(LatestSubnet(rows)) == Subnet.SubnetFor(100 + |rows|)
  {
    if rows == [] {
      Subnet.SeedIsOctet100();
    } else {
      assert LatestSubnet(rows) == Some(Subnet.SubnetFor(100 + |rows| - 1));
      Subnet.NextSubnetIncrements(100 + |rows| - 1);
    }
  }

  /** No two tenants, deleted or not, ever share a subnet. */
  lemma SubnetsDistinct(rows: seq<Tenant>, clock: nat, i: nat, j: nat)
    requires TableInvariant(rows, clock)
    requires i < j < |rows|
    ensures rows[i].subnet != rows[j].subnet
  {
    if rows[i].subnet == rows[j].subnet {
      Subnet.SubnetForInjective(100 + i, 100 + j);
    }
  }

  // ---------------------------------------------------------------------------
  // createTenant
  // ---------------------------------------------------------------------------

  /** The answers the outside world gives one `createTenant` call. */
  datatype CreateEnv = CreateEnv(
    postgresRandom: seq<Password.Byte>,  // randomBytes(32) for the database password
    redisRandom: seq<Password.Byte>,     // randomBytes(32) for the cache password
    newId: string,                       // the id the INSERT assigns
    insertOk: bool,                      // the INSERT itself succeeds
    template: Option<string>,            // readFileSync of the template (None: throws)
    composeFileWritten: bool,            // mkdirSync + writeFileSync succeed
    networkCreated: bool,                // docker network create (failure ignored)
    composeUpOk: bool,                   // docker compose up -d
    n8nPs: Option<string>,               // stdout of docker ps -q -f name=n8n-tenant-<id>
    postgresPs: Option<string>,
    redisPs: Option<string>,
    updateOk: bool,                      // the UPDATE that activates the row
    commitOk: bool)                      // COMMIT

  datatype CreateError =
    | InvalidPlan(plan: string)
    | SubdomainExists(subdomain: string)
    | InsertFailed
    | TemplateUnreadable
    | ComposeFileNotWritten
    | ComposeUpFailed
    | ContainerLookupFailed
    | ActivationFailed
    | CommitFailed

  /** The object `createTenant` resolves to. */
  datatype CreatedTenant = CreatedTenant(
    id: string,
    name: string,
    subdomain: string,
    plan: string,
    status: Status,
    n8nUrl: string,
    createdAt: nat,
    n8nContainer: string,
    postgresContainer: string,
    redisContainer: string)

  predicate WellFormedCreateEnv(env: CreateEnv)
  {
    |env.postgresRandom| == Password.DefaultLength && |env.redisRandom| == Password.DefaultLength
  }

  /** The check before or at the INSERT that fails first, if any. The plan
      check is the catalogue's property read, which inherited names pass. */
  function InsertError(rows: seq<Tenant>, name: string, plan: string, env: CreateEnv): Option<CreateError>
  {
    var subdomain := Subdomain.GenerateSubdomain(name);
    if !Plans.PlanAcceptedAsWritten(plan) then Some(InvalidPlan(plan))
    else if SubdomainTaken(rows, subdomain) then Some(SubdomainExists(subdomain))
    else if !env.insertOk || IdTaken(rows, env.newId) then Some(InsertFailed)
    else None
  }

  /** The filesystem or Docker step after the INSERT that fails first, if any:
      reading the template, writing the compose file, `docker compose up`, and
      the three `docker ps` lookups. */
  function DeployError(env: CreateEnv): Option<CreateError>
  {
    if env.template.None? then Some(TemplateUnreadable)
    else if !env.composeFileWritten then Some(ComposeFileNotWritten)
    else if !env.composeUpOk then Some(ComposeUpFailed)
    else if env.n8nPs.None? || env.postgresPs.None? || env.redisPs.None? then Some(ContainerLookupFailed)
    else None
  }

  /** The activating UPDATE or the COMMIT, whichever fails first, if any. */
  function CommitError(env: CreateEnv): Option<CreateError>
  {
    if !env.updateOk then Some(ActivationFailed)
    else if !env.commitOk then Some(CommitFailed)
    else None
  }

  /** The INSERT runs and succeeds. */
  predicate Inserted(rows: seq<Tenant>, name: string, plan: string, env: CreateEnv)
  {
    InsertError(rows, name, plan, env).None?
  }

  /** The compose file is written to disk (it stays there whatever follows). */
  predicate ComposeFileSaved(rows: seq<Tenant>, name: string, plan: string, env: CreateEnv)
  {
    Inserted(rows, name, plan, env) && env.template.Some? && env.composeFileWritten
  }

  /** All three `docker ps` lookups run and succeed. */
  predicate ContainersLookedUp(rows: seq<Tenant>, name: string, plan: string, env: CreateEnv)
  {
    Inserted(rows, name, plan, env) && DeployError(env).None?
  }

  /** The values substituted into the template: those of the inserted row. */
  function ManifestValuesOf(row: Tenant): Manifest.ManifestValues
  {
    Manifest.ManifestValues(row.id, row.name, row.plan, row.subdomain, row.postgresPassword, row.redisPassword,
                            if row.subnet.Some? then row.subnet.value else "")
  }

  /** The compose file written for the tenant: the template with the inserted
      row's values substituted as JavaScript replacement strings. */
  function ComposeFileFor(rows: seq<Tenant>, now: nat, name: string, plan: string, env: CreateEnv): string
    requires WellFormedCreateEnv(env) && ComposeFileSaved(rows, name, plan, env)
  {
    Manifest.RenderAsWritten(env.template.value, ManifestValuesOf(InsertResult(rows, now, name, plan, env).value))
  }

  /** The row as INSERTed, with status 'provisioning'. */
  function ProvisioningRow(rows: seq<Tenant>, now: nat, name: string, plan: string, env: CreateEnv): Tenant
    requires WellFormedCreateEnv(env)
  {
    var subdomain := Subdomain.GenerateSubdomain(name);
    Tenant(env.newId, name, subdomain, plan, Provisioning,
           Password.GeneratePassword(Password.DefaultLength, env.postgresRandom),
           Password.GeneratePassword(Password.DefaultLength, env.redisRandom),
           Some(Subnet.NextSubnet(LatestSubnet(rows))), N8nUrl(subdomain),
           None, None, None, now, now, None)
  }

  /** The activating UPDATE: status 'active', the trimmed container ids, a new updated_at. */
  function Activated(row: Tenant, now: nat, env: CreateEnv): Tenant
    requires env.n8nPs.Some? && env.postgresPs.Some? && env.redisPs.Some?
  {
    row.(status := Active,
         n8nContainer := Some(Trim(env.n8nPs.value)),
         postgresContainer := Some(Trim(env.postgresPs.value)),
         redisContainer := Some(Trim(env.redisPs.value)),
         updatedAt := now)
  }

  /** What the INSERT ... RETURNING * of `createTenant` gives: the new row, or
      the error of the first check that fails. */
  function InsertResult(rows: seq<Tenant>, now: nat, name: string, plan: string, env: CreateEnv)
    : Result<Tenant, CreateError>
    requires WellFormedCreateEnv(env)
  {
    if InsertError(rows, name, plan, env).Some? then Err(InsertError(rows, name, plan, env).value)
    else Ok(ProvisioningRow(rows, now, name, plan, env))
  }

  /** The row after the activating UPDATE. */
  function ActiveRow(rows: seq<Tenant>, now: nat, name: string, plan: string, env: CreateEnv): Tenant
    requires WellFormedCreateEnv(env) && ContainersLookedUp(rows, name, plan, env)
  {
    Activated(InsertResult(rows, now, name, plan, env).value, now, env)
  }

  /** The object `createTenant` resolves to, read off the activated row. */
  function Created(row: Tenant): CreatedTenant
    requires row.n8nContainer.Some? && row.postgresContainer.Some? && row.redisContainer.Some?
  {
    CreatedTenant(row.id, row.name, row.subdomain, row.plan, Active, row.n8nUrl, row.createdAt,
                  row.n8nContainer.value, row.postgresContainer.value, row.redisContainer.value)
  }

  /** What `createTenant` resolves to or throws once `row` is inserted. */
  function ProvisionOutcome(row: Tenant, now: nat, env: CreateEnv): Result<CreatedTenant, CreateError>
  {
    if DeployError(env).Some? then Err(DeployError(env).value)
    else if CommitError(env).Some? then Err(CommitError(env).value)
    else Ok(Created(Activated(row, now, env)))
  }

  /** What `createTenant(name, plan)` resolves to or throws. The readiness
      poll's answers are not among the arguments: its failure is swallowed. */
  function CreateOutcome(rows: seq<Tenant>, now: nat, name: string, plan: string, env: CreateEnv)
    : Result<CreatedTenant, CreateError>
    requires WellFormedCreateEnv(env)
  {
    match InsertResult(rows, now, name, plan, env)
    case Err(e) => Err(e)
    case Ok(row) => ProvisionOutcome(row, now, env)
  }

  /** The committed table after `createTenant`: one more row, or no change at all. */
  function TableAfterCreate(rows: seq<Tenant>, now: nat, name: string, plan: string, env: CreateEnv): seq<Tenant>
    requires WellFormedCreateEnv(env)
  {
    if CreateOutcome(rows, now, name, plan, env).Ok? then rows + [ActiveRow(rows, now, name, plan, env)]
    else rows
  }

  /** An inherited property name passes the plan check and is inserted as the
      tenant's plan, exactly as the catalogue's property read lets it through. */
  lemma InheritedPlanNameIsInserted(rows: seq<Tenant>, now: nat, name: string, env: CreateEnv)
    requires WellFormedCreateEnv(env) && env.insertOk
    requires !SubdomainTaken(rows, Subdomain.GenerateSubdomain(name)) && !IdTaken(rows, env.newId)
    ensures InsertResult(rows, now, name, "constructor", env).Ok?
    ensures InsertResult(rows, now, name, "constructor", env).value.plan == "constructor"
  {
    Plans.InheritedNameAcceptedAsPlan();
  }

  /** The compose file carries the values verbatim whenever none of them holds a '$'. */
  lemma ComposeFileVerbatimWithoutDollar(rows: seq<Tenant>, now: nat, name: string, plan: string, env: CreateEnv)
    requires WellFormedCreateEnv(env) && ComposeFileSaved(rows, name, plan, env)
    requires Manifest.HasNoDollar(ManifestValuesOf(InsertResult(rows, now, name, plan, env).value))
    ensures ComposeFileFor(rows, now, name, plan, env) ==
              Manifest.Render(env.template.value, ManifestValuesOf(InsertResult(rows, now, name, plan, env).value))
  {
    Manifest.RenderAgreesWithoutDollar(env.template.value, ManifestValuesOf(InsertResult(rows, now, name, plan, env).value));
  }

  /** Unknown plans are refused before any row is inserted. */
  lemma CreateRefusesUnknownPlan(rows: seq<Tenant>, now: nat, name: string, plan: string, env: CreateEnv)
    requires WellFormedCreateEnv(env)
    requires !Plans.PlanAcceptedAsWritten(plan)
    ensures CreateOutcome(rows, now, name, plan, env) == Err(InvalidPlan(plan))
    ensures TableAfterCreate(rows, now, name, plan, env) == rows
  {
  }

  /** A subdomain held by any row, deleted ones included, is refused. */
  lemma CreateRefusesTakenSubdomain(rows: seq<Tenant>, now: nat, name: string, plan: string, env: CreateEnv, i: nat)
    requires WellFormedCreateEnv(env)
    requires Plans.PlanAcceptedAsWritten(plan)
    requires i < |rows| && rows[i].subdomain == Subdomain.GenerateSubdomain(name)
    ensures CreateOutcome(rows, now, name, plan, env) == Err(SubdomainExists(rows[i].subdomain))
    ensures TableAfterCreate(rows, now, name, plan, env) == rows
  {
  }

  /** On success exactly one row is added: active, with the tenant's URL, the
      next subnet and the three container ids returned. */
  lemma CreateAddsOneActiveRow(rows: seq<Tenant>, now: nat, name: string, plan: string, env: CreateEnv)
    requires WellFormedCreateEnv(env)
    requires CreateOutcome(rows, now, name, plan, env).Ok?
    ensures var after := TableAfterCreate(rows, now, name, plan, env);
            var r := CreateOutcome(rows, now, name, plan, env).value;
            && |after| == |rows| + 1 && after[..|rows|] == rows
            && after[|rows|].id == r.id == env.newId && !IdTaken(rows, r.id)
            && after[|rows|].status == Active && r.status == Active
            && after[|rows|].subdomain == r.subdomain == Subdomain.GenerateSubdomain(name)
            && after[|rows|].name == r.name == name && after[|rows|].plan == r.plan == plan
            && after[|rows|].n8nUrl == r.n8nUrl
            && r.n8nUrl == "https://" + r.subdomain + ".app.bythewise.com"
            && after[|rows|].subnet == Some(Subnet.NextSubnet(LatestSubnet(rows)))
            && after[|rows|].n8nContainer == Some(r.n8nContainer)
            && after[|rows|].postgresContainer == Some(r.postgresContainer)
            && after[|rows|].redisContainer == Some(r.redisContainer)
            && |after[|rows|].postgresPassword| == |after[|rows|].redisPassword| == Password.DefaultLength
  {
  }

  /** A failing `docker compose up` rolls the inserted row back. */
  lemma ComposeUpFailureRollsBack(rows: seq<Tenant>, now: nat, name: string, plan: string, env: CreateEnv)
    requires WellFormedCreateEnv(env)
    requires ComposeFileSaved(rows, name, plan, env) && !env.composeUpOk
    ensures CreateOutcome(rows, now, name, plan, env) == Err(ComposeUpFailed)
    ensures TableAfterCreate(rows, now, name, plan, env) == rows
  {
  }

  /** Appending a row with a fresh id, a fresh subdomain, the current time and
      the next block keeps the table invariant. */
  lemma AppendKeepsInvariant(rows: seq<Tenant>, clock: nat, row: Tenant)
    requires TableInvariant(rows, clock)
    requires !IdTaken(rows, row.id) && !SubdomainTaken(rows, row.subdomain)
    requires row.createdAt == clock && row.subnet == Some(Subnet.SubnetFor(100 + |rows|))
    ensures TableInvariant(rows + [row], clock + 1)
  {
    var after := rows + [row];
    forall i, j | 0 <= i < j < |after|
      ensures after[i].id != after[j].id && after[i].subdomain != after[j].subdomain
      ensures after[i].createdAt < after[j].createdAt
    {
      assert after[i] == rows[i];
      if j == |rows| {
        assert after[j] == row;
        assert rows[i].id != row.id && rows[i].subdomain != row.subdomain;
      } else {
        assert after[j] == rows[j];
      }
    }
    forall i | 0 <= i < |after|
      ensures after[i].createdAt < clock + 1 && after[i].subnet == Some(Subnet.SubnetFor(100 + i))
    {
      if i < |rows| {
        assert after[i] == rows[i];
      }
    }
  }

  /** `createTenant` keeps the table invariant: the table either stays as it
      was or gains the activated row. */
  lemma CreateKeepsInvariant(rows: seq<Tenant>, clock: nat, name: string, plan: string, env: CreateEnv)
    requires WellFormedCreateEnv(env)
    requires TableInvariant(rows, clock)
    ensures TableInvariant(TableAfterCreate(rows, clock, name, plan, env), clock + 1)
  {
    if CreateOutcome(rows, clock, name, plan, env).Ok? {
      NextSubnetAfterTable(rows, clock);
      AppendKeepsInvariant(rows, clock, ActiveRow(rows, clock, name, plan, env));
    }
  }

  /** Once the INSERT went through with `row`, the rest of `createTenant`
      depends on that row and on the environment only. */
  lemma CreateAfterInsert(rows: seq<Tenant>, now: nat, name: string, plan: string, env: CreateEnv, row: Tenant)
    requires WellFormedCreateEnv(env)
    requires InsertResult(rows, now, name, plan, env) == Ok(row)
    ensures CreateOutcome(rows, now, name, plan, env) == ProvisionOutcome(row, now, env)
    ensures TableAfterCreate(rows, now, name, plan, env) ==
              if ProvisionOutcome(row, now, env).Ok? then rows + [Activated(row, now, env)] else rows
    ensures ComposeFileSaved(rows, name, plan, env) <==> env.template.Some? && env.composeFileWritten
    ensures ComposeFileSaved(rows, name, plan, env) ==>
              ComposeFileFor(rows, now, name, plan, env) == Manifest.RenderAsWritten(env.template.value, ManifestValuesOf(row))
    ensures ContainersLookedUp(rows, name, plan, env) <==> DeployError(env).None?
    ensures row.id == env.newId
  {
  }

  /** A refused INSERT leaves nothing behind. */
  lemma CreateRefusedAtInsert(rows: seq<Tenant>, now: nat, name: string, plan: string, env: CreateEnv)
    requires WellFormedCreateEnv(env)
    requires InsertResult(rows, now, name, plan, env).Err?
    ensures CreateOutcome(rows, now, name, plan, env) == Err(InsertResult(rows, now, name, plan, env).error)
    ensures TableAfterCreate(rows, now, name, plan, env) == rows
    ensures !ComposeFileSaved(rows, name, plan, env) && !ContainersLookedUp(rows, name, plan, env)
  {
  }

  // ---------------------------------------------------------------------------
  // deleteTenant
  // ---------------------------------------------------------------------------

  /** The answers the outside world gives one `deleteTenant` call. The outcome
      of `docker compose down -v` is ignored by the code and so is not asked. */
  datatype DeleteEnv = DeleteEnv(
    networkRemoved: bool,  // docker network rm tenant_<id> (failure ignored)
    updateOk: bool,        // the soft-delete UPDATE
    commitOk: bool)        // COMMIT

  datatype DeleteError = TenantNotFound(id: string) | SoftDeleteFailed | DeleteCommitFailed

  /** The object `deleteTenant` resolves to. */
  datatype DeletedTenant = DeletedTenant(id: string, name: string, status: Status, deletedAt: nat)

  /** The soft delete: every row with the id is marked deleted at `now`; nothing else changes. */
  function MarkDeleted(rows: seq<Tenant>, id: string, now: nat): (r: seq<Tenant>)
    ensures |r| == |rows|
    ensures forall i :: 0 <= i < |rows| && rows[i].id != id ==> r[i] == rows[i]
    ensures forall i :: 0 <= i < |rows| && rows[i].id == id ==>
              && r[i].status == Deleted && r[i].deletedAt == Some(now) && r[i].updatedAt == now
              && r[i].id == id && r[i].name == rows[i].name && r[i].subdomain == rows[i].subdomain
              && r[i].plan == rows[i].plan && r[i].postgresPassword == rows[i].postgresPassword
              && r[i].redisPassword == rows[i].redisPassword
              && r[i].subnet == rows[i].subnet && r[i].n8nUrl == rows[i].n8nUrl
              && r[i].n8nContainer == rows[i].n8nContainer
              && r[i].postgresContainer == rows[i].postgresContainer
              && r[i].redisContainer == rows[i].redisContainer
              && r[i].createdAt == rows[i].createdAt
  {
    seq(|rows|, i requires 0 <= i < |rows| =>
      if rows[i].id == id then rows[i].(status := Deleted, deletedAt := Some(now), updatedAt := now)
      else rows[i])
  }

  function DeleteOutcome(rows: seq<Tenant>, now: nat, id: string, env: DeleteEnv): Result<DeletedTenant, DeleteError>
  {
    match FindById(rows, id)
    case None => Err(TenantNotFound(id))
    case Some(i) =>
      if !env.updateOk then Err(SoftDeleteFailed)
      else if !env.commitOk then Err(DeleteCommitFailed)
      else Ok(DeletedTenant(id, rows[i].name, Deleted, now))
  }

  function TableAfterDelete(rows: seq<Tenant>, now: nat, id: string, env: DeleteEnv): seq<Tenant>
  {
    if DeleteOutcome(rows, now, id, env).Ok? then MarkDeleted(rows, id, now) else rows
  }

  /** An id with no row is refused and nothing changes. */
  lemma DeleteRefusesUnknownId(rows: seq<Tenant>, now: nat, id: string, env: DeleteEnv)
    requires !IdTaken(rows, id)
    ensures DeleteOutcome(rows, now, id, env) == Err(TenantNotFound(id))
    ensures TableAfterDelete(rows, now, id, env) == rows
  {
  }

  /** A successful delete marks the tenant's row deleted, stamps deleted_at and
      updated_at, reports 'deleted', and leaves every other column of that row,
      and every other row, as it was. */
  lemma DeleteMarksOnlyTarget(rows: seq<Tenant>, now: nat, id: string, env: DeleteEnv)
    requires DeleteOutcome(rows, now, id, env).Ok?
    ensures DeleteOutcome(rows, now, id, env).value.status == Deleted
    ensures DeleteOutcome(rows, now, id, env).value.deletedAt == now
    ensures var after := TableAfterDelete(rows, now, id, env);
            && |after| == |rows|
            && (forall i :: 0 <= i < |rows| && rows[i].id != id ==> after[i] == rows[i])
            && (forall i :: 0 <= i < |rows| && rows[i].id == id ==>
                  after[i] == rows[i].(status := Deleted, deletedAt := Some(now), updatedAt := now))
  {
  }

  /** No status filter: deleting an already deleted tenant succeeds again. */
  lemma DeleteIsRepeatable(rows: seq<Tenant>, now: nat, later: nat, id: string, env: DeleteEnv, env2: DeleteEnv)
    requires DeleteOutcome(rows, now, id, env).Ok?
    requires env2.updateOk && env2.commitOk
    ensures DeleteOutcome(TableAfterDelete(rows, now, id, env), later, id, env2).Ok?
  {
    var i := FindById(rows, id).value;
    assert TableAfterDelete(rows, now, id, env)[i].id == id;
  }

  /** Soft deletion keeps the row, so the status query still finds it, now 'deleted'. */
  lemma DeletedTenantStillFound(rows: seq<Tenant>, now: nat, id: string, env: DeleteEnv)
    requires DeleteOutcome(rows, now, id, env).Ok?
    ensures var after := TableAfterDelete(rows, now, id, env);
            FindById(after, id).Some? && after[FindById(after, id).value].status == Deleted
  {
    var i := FindById(rows, id).value;
    assert TableAfterDelete(rows, now, id, env)[i].id == id;
  }

  /** A deleted tenant's subdomain is never handed out again. */
  lemma DeletedSubdomainStaysTaken(rows: seq<Tenant>, now: nat, id: string, denv: DeleteEnv,
                                   later: nat, name: string, plan: string, cenv: CreateEnv)
    requires WellFormedCreateEnv(cenv)
    requires DeleteOutcome(rows, now, id, denv).Ok? && Plans.PlanAcceptedAsWritten(plan)
    requires Subdomain.GenerateSubdomain(name) == rows[FindById(rows, id).value].subdomain
    ensures CreateOutcome(TableAfterDelete(rows, now, id, denv), later, name, plan, cenv).Err?
  {
    var i := FindById(rows, id).value;
    assert TableAfterDelete(rows, now, id, denv)[i].subdomain == rows[i].subdomain;
  }

  /** Deleting does not change the block the next tenant receives. */
  lemma DeleteKeepsLatestSubnet(rows: seq<Tenant>, id: string, now: nat)
    ensures LatestSubnet(MarkDeleted(rows, id, now)) == LatestSubnet(rows)
  {
    DeleteKeepsLatestSubnetBefore(rows, id, now, |rows|);
  }

  lemma {:induction false} DeleteKeepsLatestSubnetBefore(rows: seq<Tenant>, id: string, now: nat, n: nat)
    requires n <= |rows|
    ensures LatestSubnetBefore(MarkDeleted(rows, id, now), n) == LatestSubnetBefore(rows, n)
  {
    if n > 0 {
      assert MarkDeleted(rows, id, now)[n - 1].subnet == rows[n - 1].subnet;
      DeleteKeepsLatestSubnetBefore(rows, id, now, n - 1);
    }
  }

  /** `deleteTenant` keeps the table invariant. */
  lemma DeleteKeepsInvariant(rows: seq<Tenant>, clock: nat, id: string, env: DeleteEnv)
    requires TableInvariant(rows, clock)
    ensures TableInvariant(TableAfterDelete(rows, clock, id, env), clock + 1)
  {
    var after := TableAfterDelete(rows, clock, id, env);
    assert |after| == |rows|;
    assert forall i :: 0 <= i < |rows| ==>
             && after[i].id == rows[i].id && after[i].subdomain == rows[i].subdomain
             && after[i].createdAt == rows[i].createdAt && after[i].subnet == rows[i].subnet;
  }

  // ---------------------------------------------------------------------------
  // getTenantStatus
  // ---------------------------------------------------------------------------

  /** The three 30-day execution counts of the aggregate query; None stands for
      a value `parseInt` cannot read. */
  datatype ExecutionCounts = ExecutionCounts(total: Option<nat>, successful: Option<nat>, failed: Option<nat>)

  datatype Metrics = Metrics(totalExecutions: nat, successfulExecutions: nat, failedExecutions: nat)

  /** The object `getTenantStatus` resolves to. */
  datatype StatusView = StatusView(
    id: string,
    name: string,
    subdomain: string,
    plan: string,
    status: string,
    n8nUrl: string,
    containers: map<string, string>,
    metrics: Metrics,
    createdAt: nat,
    updatedAt: nat)

  datatype StatusError = StatusTenantNotFound(id: string)

  /** A count that cannot be read is reported as 0. */
  function CountOrZero(c: Option<nat>): nat
  {
    if c.Some? then c.value else 0
  }

  /** What one container reports: the trimmed `docker inspect` output, or
      'not_found' when the inspection throws (None). */
  function ContainerReport(inspected: Option<string>): string
  {
    if inspected.Some? then Trim(inspected.value) else "not_found"
  }

  /** The `containers` object: an entry for each container whose id is
      recorded and non-empty, holding what inspecting that id reports. */
  function Containers(t: Tenant, inspect: string -> Option<string>): map<string, string>
  {
    var withN8n: map<string, string> :=
      if Truthy(t.n8nContainer) then map["n8n" := ContainerReport(inspect(t.n8nContainer.value))] else map[];
    var withPostgres :=
      if Truthy(t.postgresContainer) then withN8n["postgres" := ContainerReport(inspect(t.postgresContainer.value))]
      else withN8n;
    if Truthy(t.redisContainer) then withPostgres["redis" := ContainerReport(inspect(t.redisContainer.value))]
    else withPostgres
  }

  /** What `getTenantStatus(id)` resolves to or throws; `inspect` answers
      `docker inspect` for a container id, None when it throws. */
  function StatusOutcome(rows: seq<Tenant>, id: string, counts: ExecutionCounts,
                         inspect: string -> Option<string>): Result<StatusView, StatusError>
  {
    match FindById(rows, id)
    case None => Err(StatusTenantNotFound(id))
    case Some(i) =>
      var t := rows[i];
      Ok(StatusView(t.id, t.name, t.subdomain, t.plan, StatusName(t.status), t.n8nUrl,
                    Containers(t, inspect),
                    Metrics(CountOrZero(counts.total), CountOrZero(counts.successful), CountOrZero(counts.failed)),
                    t.createdAt, t.updatedAt))
  }

  /** The status of an existing tenant is found, and its containers map has an
      entry exactly for the recorded, non-empty container ids; an id that does
      not print gets 'not_found'. */
  lemma StatusReportsRecordedContainers(rows: seq<Tenant>, id: string, counts: ExecutionCounts,
                                        inspect: string -> Option<string>)
    requires IdTaken(rows, id)
    ensures var r := StatusOutcome(rows, id, counts, inspect);
            var t := rows[FindById(rows, id).value];
            && r.Ok? && r.value.id == id && r.value.status == StatusName(t.status)
            && r.value.name == t.name && r.value.plan == t.plan && r.value.subdomain == t.subdomain
            && ("n8n" in r.value.containers <==> Truthy(t.n8nContainer))
            && ("postgres" in r.value.containers <==> Truthy(t.postgresContainer))
            && ("redis" in r.value.containers <==> Truthy(t.redisContainer))
            && (Truthy(t.n8nContainer) ==>
                  r.value.containers["n8n"] ==
                    if inspect(t.n8nContainer.value).Some? then Trim(inspect(t.n8nContainer.value).value)
                    else "not_found")
            && (Truthy(t.postgresContainer) ==>
                  r.value.containers["postgres"] ==
                    if inspect(t.postgresContainer.value).Some? then Trim(inspect(t.postgresContainer.value).value)
                    else "not_found")
            && (Truthy(t.redisContainer) ==>
                  r.value.containers["redis"] ==
                    if inspect(t.redisContainer.value).Some? then Trim(inspect(t.redisContainer.value).value)
                    else "not_found")
            && r.value.containers.Keys <= {"n8n", "postgres", "redis"}
            && r.value.metrics.totalExecutions == (if counts.total.Some? then counts.total.value else 0)
            && r.value.metrics.successfulExecutions == (if counts.successful.Some? then counts.successful.value else 0)
            && r.value.metrics.failedExecutions == (if counts.failed.Some? then counts.failed.value else 0)
  {
  }

  /** Right after a successful creation the status view reports the tenant as
      'active' with the plan it was created with. */
  lemma StatusAfterCreate(rows: seq<Tenant>, clock: nat, name: string, plan: string, env: CreateEnv,
                          counts: ExecutionCounts, inspect: string -> Option<string>)
    requires WellFormedCreateEnv(env) && TableInvariant(rows, clock)
    requires CreateOutcome(rows, clock, name, plan, env).Ok?
    ensures var r := StatusOutcome(TableAfterCreate(rows, clock, name, plan, env), env.newId, counts, inspect);
            && r.Ok? && r.value.status == "active" && r.value.plan == plan
            && r.value.subdomain == CreateOutcome(rows, clock, name, plan, env).value.subdomain
  {
    var after := TableAfterCreate(rows, clock, name, plan, env);
    CreateAddsOneActiveRow(rows, clock, name, plan, env);
    var active := after[|rows|];
    assert after == rows + [active];
    StatusOfAppended(rows, active, counts, inspect);
  }

  /** The status view of a row appended under a fresh id is that row's. */
  lemma StatusOfAppended(rows: seq<Tenant>, row: Tenant, counts: ExecutionCounts, inspect: string -> Option<string>)
    requires !IdTaken(rows, row.id)
    ensures var r := StatusOutcome(rows + [row], row.id, counts, inspect);
            && r.Ok? && r.value.status == StatusName(row.status)
            && r.value.plan == row.plan && r.value.subdomain == row.subdomain
  {
    FindByIdAfterAppend(rows, row);
  }

  /** A row appended under a fresh id is the one found by that id. */
  lemma FindByIdAfterAppend(rows: seq<Tenant>, row: Tenant)
    requires !IdTaken(rows, row.id)
    ensures FindById(rows + [row], row.id) == Some(|rows|)
  {
    var after := rows + [row];
    assert after[|rows|].id == row.id;
    assert forall j :: 0 <= j < |rows| ==> after[j].id != row.id;
  }

  // ---------------------------------------------------------------------------
  // listTenants
  // ---------------------------------------------------------------------------

  /** `filters.status` and `filters.plan`; an empty string counts as absent. */
  datatype ListFilters = ListFilters(status: Option<string>, plan: Option<string>)

  /** The object `listTenants` returns for each row. */
  datatype TenantSummary = TenantSummary(
    id: string,
    name: string,
    subdomain: string,
    plan: string,
    status: string,
    n8nUrl: string,
    createdAt: nat)

  function Summary(t: Tenant): TenantSummary
  {
    TenantSummary(t.id, t.name, t.subdomain, t.plan, StatusName(t.status), t.n8nUrl, t.createdAt)
  }

  /** The columns the query filters on, in the order the code appends them. */
  function ListColumns(filters: ListFilters): seq<string>
  {
    (if Truthy(filters.status) then ["status"] else [])
    + (if Truthy(filters.plan) then ["plan_tier"] else [])
  }

  /** ` AND <column> = $<n>` */
  function Condition(column: string, n: nat): string
  {
    " AND " + column + " = $" + NatToString(n)
  }

  /** The conditions for the columns, numbered from n on. */
  function Conditions(columns: seq<string>, n: nat): string
  {
    if columns == [] then ""
    else Condition(columns[0], n) + Conditions(columns[1..], n + 1)
  }

  /** Appending a column adds its condition with the next placeholder number. */
  lemma {:induction false} ConditionsSnoc(columns: seq<string>, column: string, n: nat)
    ensures Conditions(columns + [column], n) == Conditions(columns, n) + Condition(column, n + |columns|)
  {
    if columns == [] {
      assert [] + [column] == [column];
    } else {
      assert (columns + [column])[1..] == columns[1..] + [column];
      ConditionsSnoc(columns[1..], column, n + 1);
    }
  }

  function ListQueryText(columns: seq<string>): string
  {
    "SELECT * FROM tenants WHERE 1=1" + Conditions(columns, 1) + " ORDER BY created_at DESC"
  }

  function ColumnValue(t: Tenant, column: string): string
  {
    if column == "status" then StatusName(t.status)
    else if column == "plan_tier" then t.plan
    else ""
  }

  predicate RowMatches(t: Tenant, columns: seq<string>, params: seq<string>)
    requires |columns| == |params|
  {
    forall k :: 0 <= k < |columns| ==> ColumnValue(t, columns[k]) == params[k]
  }

  /** Executing the query: the matching rows, newest first. */
  function Select(rows: seq<Tenant>, columns: seq<string>, params: seq<string>): seq<Tenant>
    requires |columns| == |params|
  {
    if rows == [] then []
    else
      var last := rows[|rows| - 1];
      (if RowMatches(last, columns, params) then [last] else [])
      + Select(rows[..|rows| - 1], columns, params)
  }

  /** The filters as the caller means them. */
  predicate MatchesFilters(t: Tenant, filters: ListFilters)
  {
    && (Truthy(filters.status) ==> StatusName(t.status) == filters.status.value)
    && (Truthy(filters.plan) ==> t.plan == filters.plan.value)
  }

  function ListParams(filters: ListFilters): seq<string>
  {
    (if Truthy(filters.status) then [filters.status.value] else [])
    + (if Truthy(filters.plan) then [filters.plan.value] else [])
  }

  /** The query built from the filters selects exactly the rows the filters
      describe: every selected row is a matching row of the table, and every
      matching row is selected. */
  lemma {:induction false} SelectIsFilter(rows: seq<Tenant>, filters: ListFilters)
    ensures |ListColumns(filters)| == |ListParams(filters)|
    ensures forall t :: t in Select(rows, ListColumns(filters), ListParams(filters))
                        <==> t in rows && MatchesFilters(t, filters)
  {
    var cols, params := ListColumns(filters), ListParams(filters);
    forall t ensures RowMatches(t, cols, params) <==> MatchesFilters(t, filters) {
      if Truthy(filters.status) && Truthy(filters.plan) {
        assert cols == ["status", "plan_tier"] && params == [filters.status.value, filters.plan.value];
        assert RowMatches(t, cols, params) <==> ColumnValue(t, cols[0]) == params[0] && ColumnValue(t, cols[1]) == params[1];
      } else if Truthy(filters.status) {
        assert cols == ["status"] && params == [filters.status.value];
        assert RowMatches(t, cols, params) <==> ColumnValue(t, cols[0]) == params[0];
      } else if Truthy(filters.plan) {
        assert cols == ["plan_tier"] && params == [filters.plan.value];
        assert RowMatches(t, cols, params) <==> ColumnValue(t, cols[0]) == params[0];
      } else {
        assert cols == [] && params == [];
      }
    }
    if rows != [] {
      SelectIsFilter(rows[..|rows| - 1], filters);
      assert rows == rows[..|rows| - 1] + [rows[|rows| - 1]];
    }
  }

  predicate NewestFirst(s: seq<Tenant>)
  {
    forall i, j :: 0 <= i < j < |s| ==> s[i].createdAt > s[j].createdAt
  }

  /** Putting a row newer than all others in front keeps the order. */
  lemma NewestFirstPrepend(x: Tenant, s: seq<Tenant>)
    requires NewestFirst(s)
    requires forall t :: t in s ==> t.createdAt < x.createdAt
    ensures NewestFirst([x] + s)
  {
    var xs := [x] + s;
    forall i, j | 0 <= i < j < |xs| ensures xs[i].createdAt > xs[j].createdAt {
      assert xs[j] == s[j - 1];
      if i > 0 {
        assert xs[i] == s[i - 1];
      }
    }
  }

  /** Only rows of the table are selected. */
  lemma {:induction false} SelectFromRows(rows: seq<Tenant>, columns: seq<string>, params: seq<string>)
    requires |columns| == |params|
    ensures forall t :: t in Select(rows, columns, params) ==> t in rows
  {
    if rows != [] {
      var init := rows[..|rows| - 1];
      SelectFromRows(init, columns, params);
      assert forall t :: t in init ==> t in rows;
    }
  }

  /** The selection is ordered by created_at, newest first. */
  lemma {:induction false} SelectNewestFirst(rows: seq<Tenant>, columns: seq<string>, params: seq<string>)
    requires |columns| == |params|
    requires forall i, j :: 0 <= i < j < |rows| ==> rows[i].createdAt < rows[j].createdAt
    ensures NewestFirst(Select(rows, columns, params))
  {
    if rows != [] {
      var init := rows[..|rows| - 1];
      var last := rows[|rows| - 1];
      SelectNewestFirst(init, columns, params);
      SelectFromRows(init, columns, params);
      var si := Select(init, columns, params);
      if RowMatches(last, columns, params) {
        forall t | t in si ensures t.createdAt < last.createdAt {
          var k :| 0 <= k < |init| && init[k] == t;
        }
        NewestFirstPrepend(last, si);
      }
    }
  }

  /** The first two conditions as text. */
  lemma ConditionTexts()
    ensures Condition("status", 1) == " AND status = $1"
    ensures Condition("plan_tier", 1) == " AND plan_tier = $1"
    ensures Condition("plan_tier", 2) == " AND plan_tier = $2"
  {
    assert NatToString(1) == "1" && NatToString(2) == "2";
  }

  /** With both filters the placeholders are $1 for the status and $2 for the plan. */
  lemma ListQueryBothFilters(status: string, plan: string)
    requires status != "" && plan != ""
    ensures ListQueryText(ListColumns(ListFilters(Some(status), Some(plan))))
            == "SELECT * FROM tenants WHERE 1=1" + " AND status = $1" + " AND plan_tier = $2" + " ORDER BY created_at DESC"
  {
    var both := ["status", "plan_tier"];
    assert ListColumns(ListFilters(Some(status), Some(plan))) == both;
    assert both == ["status"] + ["plan_tier"];
    ConditionsSnoc(["status"], "plan_tier", 1);
    assert Conditions(["status"], 1) == Condition("status", 1) + "";
    ConditionTexts();
  }

  /** A plan filter alone takes placeholder $1; an empty status filter adds nothing. */
  lemma ListQueryPlanOnly(status: Option<string>, plan: string)
    requires !Truthy(status) && plan != ""
    ensures ListQueryText(ListColumns(ListFilters(status, Some(plan))))
            == "SELECT * FROM tenants WHERE 1=1" + " AND plan_tier = $1" + " ORDER BY created_at DESC"
  {
    assert ListColumns(ListFilters(status, Some(plan))) == ["plan_tier"];
    assert Conditions(["plan_tier"], 1) == Condition("plan_tier", 1) + "";
    ConditionTexts();
  }

  /** What `listTenants(filters)` returns: the summaries of the selected rows. */
  function ListResult(rows: seq<Tenant>, filters: ListFilters): seq<TenantSummary>
  {
    SelectIsFilter(rows, filters);
    var selected := Select(rows, ListColumns(filters), ListParams(filters));
    seq(|selected|, k requires 0 <= k < |selected| => Summary(selected[k]))
  }

  /** A summary is listed exactly when it is the summary of a row that matches
      the filters. */
  lemma ListResultExact(rows: seq<Tenant>, filters: ListFilters)
    ensures forall s :: s in ListResult(rows, filters) <==>
                        exists i :: 0 <= i < |rows| && MatchesFilters(rows[i], filters) && Summary(rows[i]) == s
  {
    SelectIsFilter(rows, filters);
    var selected := Select(rows, ListColumns(filters), ListParams(filters));
    var r := ListResult(rows, filters);
    forall s ensures s in r <==> exists i :: 0 <= i < |rows| && MatchesFilters(rows[i], filters) && Summary(rows[i]) == s {
      if s in r {
        var k :| 0 <= k < |r| && r[k] == s;
        assert selected[k] in selected;
        var i :| 0 <= i < |rows| && rows[i] == selected[k];
      }
      if exists i :: 0 <= i < |rows| && MatchesFilters(rows[i], filters) && Summary(rows[i]) == s {
        var i :| 0 <= i < |rows| && MatchesFilters(rows[i], filters) && Summary(rows[i]) == s;
        assert rows[i] in rows;
        var k :| 0 <= k < |selected| && selected[k] == rows[i];
        assert r[k] == s;
      }
    }
  }

  /** The list is ordered newest first. */
  lemma ListResultNewestFirst(rows: seq<Tenant>, clock: nat, filters: ListFilters)
    requires TableInvariant(rows, clock)
    ensures var r := ListResult(rows, filters);
            forall i, j :: 0 <= i < j < |r| ==> r[i].createdAt > r[j].createdAt
  {
    SelectIsFilter(rows, filters);
    var selected := Select(rows, ListColumns(filters), ListParams(filters));
    SelectNewestFirst(rows, ListColumns(filters), ListParams(filters));
    var r := ListResult(rows, filters);
    assert forall k :: 0 <= k < |r| ==> r[k].createdAt == selected[k].createdAt;
  }
}
