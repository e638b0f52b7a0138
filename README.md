# BEE-SEO tenant orchestration and authentication, modelled in Dafny

BEE-SEO runs one isolated n8n stack per customer (tenant). The modelled core has four parts:

- **The tenant orchestrator** (`api/src/services/orchestrator.js`). It creates a tenant by:
  - checking the plan tier;
  - deriving a subdomain slug and generating two passwords;
  - choosing the next free `172.x.0.0/24` subnet;
  - inserting a `provisioning` row;
  - rendering a Docker Compose file from a template;
  - creating a network and bringing the stack up;
  - recording the container ids;
  - polling n8n until it is healthy;
  - activating the row.

  Any failure rolls the whole transaction back. The orchestrator also soft-deletes a tenant, reports a tenant's status (containers and execution metrics) and lists tenants newest first, with optional filters on status and plan.
- **The API's JWT middleware** (`api/src/middleware/auth.js`). It covers the secret fallback, token payloads, bearer-header authentication and the per-tenant access rule.
- **The API's authentication routes** (`api/src/routes/auth.js`). These are login, registration and "who am I". They work over an in-memory user list seeded with a demo user.
- **The dashboard's route guard** (`dashboard/src/middleware.ts`). It sends anonymous visitors of `/dashboard…` to `/login` and signed-in visitors of `/login` or `/register` to `/dashboard`. Its path matcher decides which paths it runs on.

Layout, one module per file:

- `common.dfy`: `Option`/`Result`, JavaScript truthiness, `startsWith`, decimal rendering, `trim`.
- `plans.dfy`: the plan catalogue.
- `subdomain.dfy`: `generateSubdomain`.
- `password.dfy`: `generatePassword`.
- `subnet.dfy`: `getNextAvailableSubnet`'s text handling.
- `manifest.dfy`: the template's placeholder substitution.
- `readiness.dfy`: `waitForN8N`.
- `tenants.dfy`: the tenant table and the specification functions of the four orchestrator operations.
- `orchestrator.dfy`: the `TenantStore` class, whose methods change the table, the written compose files and the Docker networks, and are proved against those functions.
- `auth_middleware.dfy`: the middleware, with a `Request` class for the per-request `user` slot.
- `auth_routes.dfy`: the routes, with a `UserRegistry` class over the mutable user list.
- `route_guard.dfy`: the dashboard guard and its matcher.

Outside effects are parameters, described by what they return:

- PostgreSQL's answers, Docker's and the file system's success flags, `docker ps`/`inspect` output and `NOW()` are fields of `CreateEnv`/`DeleteEnv` or a logical clock.
- `uuid` and `crypto.randomBytes` are given values.
- `jsonwebtoken` is a pair of functions (`JwtLibrary`).
- SHA-256 and the `email` format check are functions in `Services`.

## Model

| member | source | states |
|---|---|---|
| Plans.PlanConfigFor | api/src/services/orchestrator.js:15-40 | a tier has a configuration exactly when it is one of the catalogue's four own names |
| Plans.CatalogueEntries | api/src/services/orchestrator.js:15-40 | the limits and price of each of the four tiers |
| Plans.PlanArgument | api/src/services/orchestrator.js:122 | a given tier is used as is; an omitted one defaults |
| Plans.OmittedPlanIsStarter | api/src/services/orchestrator.js:122 | omitting the tier provisions `starter`, which passes the plan check |
| Plans.PlanAcceptedAsWritten | api/src/services/orchestrator.js:129-131 | the check as written: the property read `PLAN_CONFIGS[plan]` is truthy for the four tiers and for the inherited `Object.prototype` names |
| Plans.IsPlan | api/src/services/orchestrator.js:15-40 | the corrected check: the tier is one of the catalogue's own four names |
| Plans.InheritedNameAcceptedAsPlan | api/src/services/orchestrator.js:129-131 | the check as written accepts `constructor`, which is not a tier |
| Plans.IsPlanExactlyTheFourTiers | api/src/services/orchestrator.js:129-131 | the corrected check accepts exactly the four tiers; the written one differs only on `Object.prototype` names |
| Password.Base64 | api/src/services/orchestrator.js:44 | the base64 text of n bytes has 4·⌈n/3⌉ characters |
| Password.Base64PrefixIsDigits | api/src/services/orchestrator.js:44 | every character before the padding (four per full group of three bytes, then two or three) is a standard-alphabet digit, and every later one is `=` |
| Password.GeneratePassword | api/src/services/orchestrator.js:43-45 | the password has the requested length and uses only the standard base64 alphabet |
| Password.PasswordNotUrlSafe | api/src/services/orchestrator.js:44 | passwords can contain `+` and `/` (standard, not URL-safe, base64) |
| Subdomain.CollapseDashes | api/src/services/orchestrator.js:52 | no double hyphen remains, and the first and last characters are kept |
| Subdomain.CollapseDashesKeepsWords | api/src/services/orchestrator.js:52 | collapsing keeps the words (the maximal hyphen-free pieces) of the text, in order |
| Subdomain.WordsDetermineText | api/src/services/orchestrator.js:52 | two texts without double hyphens that have the same words and the same first and last characters are equal |
| Subdomain.CollapseDashesExactly | api/src/services/orchestrator.js:52 | any text with the input's words and ends and no double hyphen is the collapsed text, so each run of hyphens becomes exactly one hyphen (`-+` replaced by `-`) and nothing else changes |
| Subdomain.CollapseDashesKeepsOthers | api/src/services/orchestrator.js:52 | collapsing removes hyphens only: deleting every hyphen from the input and from the result gives the same text |
| Subdomain.TrimDashes | api/src/services/orchestrator.js:53 | the result is the input without one leading hyphen, if any, and then without one trailing hyphen, if any; over text without double hyphens no hyphen is left at either end |
| Subdomain.GenerateSubdomain | api/src/services/orchestrator.js:48-55 | the slug has at most 50 characters from `[a-z0-9-]`, no double hyphen, no leading hyphen, and a trailing hyphen only when the 50-character cut lands after one |
| Subdomain.GenerateSubdomainFixesCleanSlugs | api/src/services/orchestrator.js:48-55 | every clean slug is its own subdomain |
| Subdomain.GenerateSubdomainIdempotent | api/src/services/orchestrator.js:48-55 | slugging a slug that does not end in a hyphen changes nothing |
| Subdomain.AcmeCorpExample | api/src/services/orchestrator.js:48-55 | `Acme Corp!` becomes `acme-corp` |
| Subnet.SeedIsOctet100 | api/src/services/orchestrator.js:63-64 | the first subnet is `172.100.0.0/24` |
| Subnet.FindMatch | api/src/services/orchestrator.js:68 | a reported number is the match at some position from the start on, and there is none exactly when no position matches |
| Subnet.FindMatchIsLeftmost | api/src/services/orchestrator.js:68 | the reported number is the match at the leftmost position where the pattern matches, as `String.prototype.match` returns |
| Subnet.MatchSubnetFor | api/src/services/orchestrator.js:68 | the pattern reads back the second octet of a subnet the service wrote |
| Subnet.NextSubnet | api/src/services/orchestrator.js:58-76 | the seed `172.100.0.0/24` without a latest subnet or when the pattern does not match, else `172.(octet+1).0.0/24` |
| Subnet.NextSubnetIncrements | api/src/services/orchestrator.js:67-75 | the next subnet after `172.n.0.0/24` is `172.(n+1).0.0/24` |
| Subnet.NextSubnetFallsBackToSeed | api/src/services/orchestrator.js:67-71 | a latest subnet the pattern does not match gives the seed subnet |
| Subnet.NextSubnetPassesOctetLimit | api/src/services/orchestrator.js:74-75 | after `172.255.0.0/24` comes `172.256.0.0/24`: nothing caps the octet |
| Subnet.SubnetForInjective | api/src/services/orchestrator.js:75 | distinct octets give distinct subnets |
| Manifest.RenderAsWritten | api/src/services/orchestrator.js:180-187 | the seven global replacements in source order, each value read as a JavaScript replacement string |
| Manifest.Render | api/src/services/orchestrator.js:180-187 | the same seven replacements with every value inserted verbatim, as evidently intended |
| Manifest.ReplaceAllWithoutOccurrence | api/src/services/orchestrator.js:180-187 | replacing an absent placeholder leaves the text unchanged |
| Manifest.ReplaceAllAtLeftmost | api/src/services/orchestrator.js:180-187 | a global replace rewrites the leftmost occurrence and continues after it |
| Manifest.ReplaceAsWrittenAgrees | api/src/services/orchestrator.js:180-187 | with no `$` in the value, JavaScript's `replace` inserts the value verbatim |
| Manifest.RenderAgreesWithoutDollar | api/src/services/orchestrator.js:180-187 | the written chain and the verbatim rendering agree when no value holds `$` |
| Manifest.RenderWithoutPlaceholders | api/src/services/orchestrator.js:180-187 | a template without placeholders is written out unchanged |
| Manifest.NamePlaceholderGetsName | api/src/services/orchestrator.js:180-187 | the tenant-name placeholder receives the name verbatim |
| Manifest.DollarNameNotInsertedVerbatim | api/src/services/orchestrator.js:182 | as written, a tenant named `$&` gets the placeholder text instead of its name |
| Readiness.WaitForN8N | api/src/services/orchestrator.js:79-114 | it returns Ready(k) at the first attempt whose container runs and answers healthy, or times out after every attempt failed; the probes issued are exactly those of the attempts made |
| Readiness.Attempt | api/src/services/orchestrator.js:83-106 | one attempt inspects the container and health-checks it only when it runs |
| Readiness.HealthCheckedOnlyWhenRunning | api/src/services/orchestrator.js:88-96 | every health check was issued in an attempt whose container was running |
| Readiness.InspectCount | api/src/services/orchestrator.js:82-88 | attempt k's inspection occurs exactly once among the commands of attempts 1 to n when 1 ≤ k ≤ n, and never otherwise |
| Readiness.OneInspectionPerAttempt | api/src/services/orchestrator.js:82-100 | the multiset of commands holds each attempt's inspection exactly once (multiplicity 1 for 1 ≤ k ≤ n, 0 otherwise), and there are at most two commands per attempt |
| Readiness.AtMostTwoCommandsPerAttempt | api/src/services/orchestrator.js:82-100 | n attempts issue between n and 2n commands |
| Readiness.FirstAttemptInspects | api/src/services/orchestrator.js:83-88 | any attempt made issues at least one probe |
| Tenants.LatestSubnet | api/src/services/orchestrator.js:60-65 | the latest recorded subnet is some row's subnet, and absent only when no row has one |
| Tenants.FindById | api/src/services/orchestrator.js:297-304 | a tenant is found by id exactly when such a row exists |
| Tenants.NextSubnetAfterTable | api/src/services/orchestrator.js:58-76 | over a well-formed table the next subnet is `172.(100+n).0.0/24` for n rows |
| Tenants.SubnetsDistinct | api/src/services/orchestrator.js:58-76 | no two tenants share a subnet |
| Tenants.CreateOutcome | api/src/services/orchestrator.js:122-283 | the value `createTenant` resolves to, or the error of the first failing step |
| Tenants.TableAfterCreate | api/src/services/orchestrator.js:122-283 | the table after `createTenant`: the activated row appended on success, the old table after the ROLLBACK otherwise |
| Tenants.CreateRefusesUnknownPlan | api/src/services/orchestrator.js:129-131 | a tier that fails the catalogue's property read is refused with `InvalidPlan` and the table is unchanged |
| Tenants.InheritedPlanNameIsInserted | api/src/services/orchestrator.js:129-172 | as written, `createTenant(name, 'constructor')` passes the plan check and inserts a row with tier `constructor` |
| Tenants.CreateRefusesTakenSubdomain | api/src/services/orchestrator.js:140-147 | a subdomain held by any row, deleted ones included, is refused and the table is unchanged |
| Tenants.CreateAddsOneActiveRow | api/src/services/orchestrator.js:150-274 | a successful creation appends one active row under the assigned, previously unused id, carrying the name, tier, slug, URL, subnet and container ids it reports |
| Tenants.ComposeUpFailureRollsBack | api/src/services/orchestrator.js:211-214 | a failed `compose up` leaves the table as it was |
| Tenants.CreateKeepsInvariant | api/src/services/orchestrator.js:122-283 | creation keeps ids and slugs unique, creation times increasing and subnets sequential |
| Tenants.CreateAfterInsert | api/src/services/orchestrator.js:150-274 | once the row is inserted, the outcome is the provisioning outcome, the compose file is saved exactly when the template was read and written, and its text is the template after the as-written `replace` chain |
| Tenants.ComposeFileVerbatimWithoutDollar | api/src/services/orchestrator.js:180-187 | when no inserted value holds `$`, the saved compose file is the template with every value inserted verbatim |
| Tenants.CreateRefusedAtInsert | api/src/services/orchestrator.js:129-174 | a refusal before the insert writes no file and makes no Docker call |
| Tenants.MarkDeleted | api/src/services/orchestrator.js:328-335 | only rows with the id change: their status, `deleted_at` and `updated_at` become deleted and the deletion time, and every other column keeps its value |
| Tenants.DeleteOutcome | api/src/services/orchestrator.js:290-355 | `Tenant not found` for an unknown id, else the deletion report or the error of a failing UPDATE or COMMIT |
| Tenants.TableAfterDelete | api/src/services/orchestrator.js:290-355 | the table after `deleteTenant`: the soft-deleted rows when it commits, the old table otherwise |
| Tenants.DeleteRefusesUnknownId | api/src/services/orchestrator.js:297-307 | an unknown id is `Tenant not found` and changes nothing |
| Tenants.DeleteMarksOnlyTarget | api/src/services/orchestrator.js:328-346 | deletion reports status deleted; the target row is the old row with only status, `deleted_at` and `updated_at` changed, and every other row is unchanged |
| Tenants.DeleteIsRepeatable | api/src/services/orchestrator.js:297-304 | a deleted tenant can be deleted again, since the lookup ignores status |
| Tenants.DeletedTenantStillFound | api/src/services/orchestrator.js:328-335 | the row stays, so the tenant is still found |
| Tenants.DeletedSubdomainStaysTaken | api/src/services/orchestrator.js:140-147 | a deleted tenant's slug can never be reused |
| Tenants.DeleteKeepsLatestSubnet | api/src/services/orchestrator.js:60-65 | deletion does not change the subnet the next tenant gets |
| Tenants.DeleteKeepsInvariant | api/src/services/orchestrator.js:290-355 | deletion keeps the table invariant |
| Tenants.StatusReportsRecordedContainers | api/src/services/orchestrator.js:362-439 | status reports the row's id, name, tier, slug and status; each of n8n, postgres and redis appears exactly when a truthy id is recorded for it, with the trimmed `docker inspect` answer or `not_found` when inspection fails; each execution count is the query's number, or 0 when it gives none |
| Tenants.StatusAfterCreate | api/src/services/orchestrator.js:362-439 | right after a creation, the new tenant's status is `active` with its tier and slug |
| Tenants.StatusOfAppended | api/src/services/orchestrator.js:365-381 | a row appended under a fresh id is the one status reports |
| Tenants.ConditionsSnoc | api/src/services/orchestrator.js:458-468 | each filter adds one ` AND column = $k` condition numbered after the previous ones |
| Tenants.Select | api/src/services/orchestrator.js:456-472 | the rows the built query returns: those whose columns equal the parameters, newest first |
| Tenants.SelectIsFilter | api/src/services/orchestrator.js:456-471 | the query keeps exactly the rows matching every given filter |
| Tenants.SelectNewestFirst | api/src/services/orchestrator.js:470 | rows are listed newest first |
| Tenants.ConditionTexts | api/src/services/orchestrator.js:460-467 | the condition texts for status and plan |
| Tenants.ListQueryBothFilters | api/src/services/orchestrator.js:456-470 | with both filters the query tests status as `$1` and plan as `$2` |
| Tenants.ListQueryPlanOnly | api/src/services/orchestrator.js:458-468 | an empty status filter is skipped and the plan becomes `$1` |
| Tenants.ListResult | api/src/services/orchestrator.js:452-488 | `listTenants`: the summary of each selected row, in query order |
| Tenants.ListResultExact | api/src/services/orchestrator.js:452-488 | a summary is listed exactly when it summarises a row that matches the filters |
| Tenants.ListResultNewestFirst | api/src/services/orchestrator.js:470-482 | over a well-formed table the summaries are in strictly decreasing creation time |
| Orchestrator.TenantStore.CreateTenant | api/src/services/orchestrator.js:122-283 | the outcome and new table are those of the specification (plan check as written, as-written rendering); the compose file is added whenever the template was read and written and the network whenever it was also created, and both stay after a later failure, since only the table rolls back; health probes run only once the containers are found; the table invariant holds |
| Orchestrator.TenantStore.CreateTenantSteps | api/src/services/orchestrator.js:128-279 | the creation steps in source order, with the plan check and rendering as written, meet the same specification |
| Orchestrator.TenantStore.InsertRow | api/src/services/orchestrator.js:129-174 | the checks before the insert (the plan must pass the catalogue's property read), and the provisioning row appended when they pass |
| Orchestrator.TenantStore.Provision | api/src/services/orchestrator.js:177-279 | deployment writes the as-written rendering of the template and activates the row, or rolls the table back when a step fails; the compose file and network written before the failure stay |
| Orchestrator.TenantStore.Lookup | api/src/services/orchestrator.js:297-304 | the scan returns the first row with the id |
| Orchestrator.TenantStore.DeleteTenant | api/src/services/orchestrator.js:290-355 | the outcome and new table are those of the specification; the tenant's network is removed only when the tenant exists and `docker network rm` succeeds; compose files are untouched; the invariant holds |
| Orchestrator.TenantStore.DeleteTenantSteps | api/src/services/orchestrator.js:296-351 | the deletion steps in source order meet the same specification |
| Orchestrator.TenantStore.GetTenantStatus | api/src/services/orchestrator.js:362-445 | the status is the specified view of the stored table |
| Orchestrator.TenantStore.ListTenants | api/src/services/orchestrator.js:452-488 | the list is the specified filtered, newest-first summary |
| Orchestrator.BuildListQuery | api/src/services/orchestrator.js:456-468 | the loop builds the specified query text, parameters and columns |
| Orchestrator.FirstIdIsFound | api/src/services/orchestrator.js:297-304 | the lookup finds the first row with the id |
| AuthMiddleware.SecretNeverEmpty | api/src/middleware/auth.js:3 | the signing secret is the configured one when truthy, else the built-in default, so never empty |
| AuthMiddleware.TokenPayload | api/src/middleware/auth.js:19-25 | a token carries the user's id, email and role, and `tenant_id` when truthy, else `tenantId` |
| AuthMiddleware.AuthenticateOutcome | api/src/middleware/auth.js:33-62 | the `authenticate` hook: 401 without a bearer header or for a token that does not verify, else the decoded claims |
| AuthMiddleware.HeaderCheckedBeforeToken | api/src/middleware/auth.js:37-42 | a missing or non-bearer header is refused before any token check, whatever the secret |
| AuthMiddleware.BearerTokenAuthenticates | api/src/middleware/auth.js:44-55 | a bearer header authenticates exactly when its token verifies, as the decoded claims |
| AuthMiddleware.AuthenticatedOnlyByVerifiedToken | api/src/middleware/auth.js:33-55 | an authenticated request had a bearer header whose token verifies to the attached user |
| AuthMiddleware.AuthenticateRejectsWith401 | api/src/middleware/auth.js:37-52 | every refusal is a 401 |
| AuthMiddleware.GeneratedTokenAuthenticates | api/src/middleware/auth.js:19-55 | a token the service signed authenticates as its payload |
| AuthMiddleware.TenantAccessReply | api/src/middleware/auth.js:67-85 | `checkTenantAccess`: 401 without a user, 403 for a non-admin of another tenant, no reply otherwise |
| AuthMiddleware.GuardReply | api/src/middleware/auth.js:33-85 | the two hooks in order: the authentication refusal if any, else the tenant access reply |
| AuthMiddleware.TenantAccessRule | api/src/middleware/auth.js:67-85 | 401 without a user, 403 for a non-admin of another tenant, pass otherwise, each both ways |
| AuthMiddleware.GuardPassesExactly | api/src/middleware/auth.js:33-85 | authenticate then check-access passes exactly for a verified token of the tenant or of an admin |
| AuthMiddleware.GuardNeverMissesUser | api/src/middleware/auth.js:71-76 | after authentication the "not authenticated" reply can no longer occur |
| AuthMiddleware.AdminReachesEveryTenant | api/src/middleware/auth.js:79 | an admin's verified token reaches every tenant |
| AuthMiddleware.Request.constructor | api/src/middleware/auth.js:33-35 | a request starts with its header, its tenant id and no user |
| AuthMiddleware.Request.Authenticate | api/src/middleware/auth.js:33-62 | a refusal sends the specified reply and attaches nothing; a success attaches the decoded claims |
| AuthMiddleware.Request.CheckTenantAccess | api/src/middleware/auth.js:67-85 | the reply follows the tenant access rule on the attached user |
| AuthMiddleware.Request.RunTenantHooks | api/src/middleware/auth.js:33-85 | the two hooks in order give the specified guard reply |
| AuthRoutes.FirstWithEmail | api/src/routes/auth.js:45 | `find` returns the first user with the email, and nothing when none has it |
| AuthRoutes.FirstWithId | api/src/routes/auth.js:151 | `find` returns the first user with the id, and nothing when none has it |
| AuthRoutes.LoginResponse | api/src/routes/auth.js:30-80 | the login reply: schema refusal, 401 `Invalid email or password` for an unknown email or a wrong password, or the token and public user fields |
| AuthRoutes.LoginFailuresLookAlike | api/src/routes/auth.js:47-61 | an unknown email and a wrong password get the same 401 reply |
| AuthRoutes.LoginSucceedsExactly | api/src/routes/auth.js:42-79 | with distinct emails, login succeeds exactly when the hash matches, returning the user's token and public fields |
| AuthRoutes.NewUser | api/src/routes/auth.js:110-118 | a registered user has role `user`, the given name and email and the password's hash |
| AuthRoutes.RegisterResponse | api/src/routes/auth.js:86-139 | the registration reply: schema refusal, 400 for a taken email, or success with the token and the new user's public fields |
| AuthRoutes.UsersAfterRegister | api/src/routes/auth.js:102-120 | the user list after registration: the new user appended, unless refused |
| AuthRoutes.RegisterAppendsOne | api/src/routes/auth.js:99-120 | registration appends exactly one user when it succeeds, and refuses a taken email with 400 |
| AuthRoutes.RegisterKeepsEmailsDistinct | api/src/routes/auth.js:102-120 | registration keeps emails unique |
| AuthRoutes.RegisterThenLogin | api/src/routes/auth.js:86-139 | a new user can log in with the password they registered |
| AuthRoutes.MeResponse | api/src/routes/auth.js:145-173 | `/me`: the authentication refusal, 404 without a user of the token's id, else that user's public fields |
| AuthRoutes.MeAnswersTokenOwner | api/src/routes/auth.js:145-173 | an authenticated caller gets the first user with the token's id, or 404 |
| AuthRoutes.DemoLogin | api/src/routes/auth.js:5-15 | the seeded demo user logs in with `demo123` |
| AuthRoutes.UserRegistry.constructor | api/src/routes/auth.js:5-15 | the registry starts with the demo user alone |
| AuthRoutes.UserRegistry.FindByEmail | api/src/routes/auth.js:45 | the scan returns the first user with the email |
| AuthRoutes.UserRegistry.FindById | api/src/routes/auth.js:151 | the scan returns the first user with the id |
| AuthRoutes.UserRegistry.Login | api/src/routes/auth.js:30-80 | the reply is the specified login response |
| AuthRoutes.UserRegistry.Register | api/src/routes/auth.js:86-139 | the reply and the new user list are the specified ones; emails stay unique |
| AuthRoutes.UserRegistry.Me | api/src/routes/auth.js:145-173 | the reply is the specified response after the authenticate hook |
| RouteGuard.Middleware | dashboard/src/middleware.ts:4-23 | the guard's decision: the dashboard check first, then the signed-in check on the auth pages, else pass |
| RouteGuard.Route | dashboard/src/middleware.ts:4-27 | paths outside the matcher pass untouched; the others get the guard's decision |
| RouteGuard.MiddlewareDecides | dashboard/src/middleware.ts:4-23 | redirect to `/login` exactly for a dashboard path without a token, to `/dashboard` exactly for `/login` or `/register` with one, otherwise pass |
| RouteGuard.EmptyCookieIsNoToken | dashboard/src/middleware.ts:5-18 | an empty cookie counts as no token |
| RouteGuard.PublicRouteNeverSentToLogin | dashboard/src/middleware.ts:9-15 | a public page is never sent to the login page |
| RouteGuard.ExcludedPathsPassThrough | dashboard/src/middleware.ts:25-27 | paths under `api`, `_next/static`, `_next/image` or `favicon.ico` are never redirected |
| RouteGuard.DashboardNeedsToken | dashboard/src/middleware.ts:13-15 | every dashboard path without a token leads to the login page |
| RouteGuard.NoRedirectLoop | dashboard/src/middleware.ts:4-27 | following a redirect with the same cookie lands on a page that is let through |
| Common.NatToString | api/src/services/orchestrator.js:75 | decimal text: at least one digit and no leading zero |
| Common.DigitsValueOfNatToString | api/src/services/orchestrator.js:74-75 | `parseInt` of the decimal text gives the number back |
| Common.Trim | api/src/services/orchestrator.js:232 | `trim` returns a contiguous part of the text with no whitespace at either end, and everything it drops before and after that part is whitespace |

## Left out

- Orchestrator.TenantStore.CreateTenant: takes the tier as a string. The default for an omitted tier is modelled separately by `Plans.PlanArgument`, so that the table operations keep a single plan type.
- The database and Docker are outcomes, not processes. `CreateEnv`/`DeleteEnv` give each step's success and `docker ps` output. The model does not capture failed SELECTs (other than the ones the code checks), concurrent transactions, or two tenants created at the same `NOW()`.
- Containers that `compose up` started are not stopped when a later step rolls back; the code does not stop them either. The model tracks only the table, the compose files and the networks.
- Orchestrator.TenantStore.DeleteTenant: the result of `compose down` is ignored, as it is in the source. The stopped containers themselves are not modelled.
- Subdomain.GenerateSubdomain: lower-cases ASCII letters only. Unicode case mapping is not modelled.
- `parseInt` is modelled on the digit runs the service writes. Floating-point precision for very long digit runs is not modelled.
- Tenants.StatusReportsRecordedContainers: the plan-limit columns that `getTenantStatus` echoes into `metrics` (`max_workflows`, `max_executions_per_month`, `max_articles_per_week`) are not modelled: `Metrics` holds only the three execution counts. The 30-day window of those counts is not modelled either; the counts are an input. The error log line is left out.
- `waitForN8N`'s sleeps and `execAsync` timeouts are not modelled. Each attempt's container state and health answer are given as sequences.
- The template and compose paths are plain strings. Path joining and the file system's layout are not modelled.
- `jsonwebtoken` is a pair of functions, so signing, expiry (`7d` is recorded as 604800 seconds) and the claims `iat`/`exp` are not modelled.
- SHA-256 is the function `hashPassword` of `Services`. Its collision resistance is not assumed anywhere.
- The `format: 'email'` schema check is the predicate `isEmail`. Fastify's type coercion and its schema error texts are not modelled; a schema failure is `SchemaRejected`.
- AuthMiddleware.Request.Authenticate: the `catch` branch (`Authentication failed`) is not modelled. Headers are strings and `verifyToken` catches every verification error, so it cannot be reached.
- Registration ids come from `Date.now()` and `Math.random()`. They are given values and are not proved unique; a `/me` lookup takes the first match, as `find` does.
- `api/src/server.js` registers neither a `fastify.authenticate` nor a `fastify.checkTenantAccess` decorator (the latter is only referenced, by the dashboard routes), and its registration of the auth routes is commented out. The model treats the two hooks and the routes as wired up. `api/src/server.js` is not part of this model.
- RouteGuard.Route: the matcher is read as a regular expression anchored at the path. Next.js path-to-regexp compilation, locales and the redirect URL's origin are not modelled.
- Tenants.DeleteOutcome: the reported `deleted_at` is the deletion time written to the row. The code reports `new Date()`, the API process's clock after COMMIT, which can differ from the database's `NOW()`; the model has one logical clock.
- Logging is not modelled anywhere.

Facts about the code that the proofs make explicit:

- Passwords are standard base64 and can contain `+` and `/` (`Password.PasswordNotUrlSafe`).
- The subdomain check, deletion and the status lookup ignore a tenant's status (`Tenants.DeletedSubdomainStaysTaken`, `Tenants.DeleteIsRepeatable`).
- A failed `compose up` rolls back the whole creation, so no row with status `error` remains (`Tenants.ComposeUpFailureRollsBack`).
- The subnet octet has no upper bound (`Subnet.NextSubnetPassesOctetLimit`).
- The store follows the code as written: the plan check is the property read `PLAN_CONFIGS[plan]` (`Plans.PlanAcceptedAsWritten`) and the compose file is the as-written `replace` chain (`Manifest.RenderAsWritten`). The corrected definitions of the two findings below are proved alongside. They differ from the code only on inherited `Object.prototype` names (`Plans.IsPlanExactlyTheFourTiers`) and on values that hold `$` (`Tenants.ComposeFileVerbatimWithoutDollar`).

## Findings

| source | as written | input that shows it | evidently intended | confidence | as-written member | corrected member |
|---|---|---|---|---|---|---|
| api/src/services/orchestrator.js:129 | `PLAN_CONFIGS[plan]` is a property read on a plain object, so inherited names pass the plan check | plan `constructor` | only the four catalogue tiers are accepted | not executed | Plans.InheritedNameAcceptedAsPlan | Plans.IsPlanExactlyTheFourTiers |
| api/src/services/orchestrator.js:182 | the tenant name is passed to `replace` as a replacement string, so the patterns `$&`, `$$`, `` $` `` and `$'` are expanded (`$1` stays literal, as the pattern has no capture group) | tenant name `$&` | the name is written into the compose file verbatim | not executed | Manifest.DollarNameNotInsertedVerbatim | Manifest.NamePlaceholderGetsName |
