/** The plan catalogue (`PLAN_CONFIGS`) and the plan check `createTenant` performs. */
module Plans {
  import opened Common

  /** The limits and monthly price of one plan tier. */
  datatype PlanConfig = PlanConfig(
    maxWorkflows: nat,
    maxExecutionsPerMonth: nat,
    maxArticlesPerWeek: nat,
    price: nat)

  /** The catalogue's own keys, in declaration order (`Object.keys(PLAN_CONFIGS)`). */
  const PlanNames: seq<string> := ["starter", "pro", "business", "enterprise"]

  /** The default tier of `createTenant(name, plan = 'starter')`. */
  const DefaultPlan: string := "starter"

  /** The tier `createTenant` works with: a default parameter, taken only when
      the argument is omitted. */
  function PlanArgument(plan: Option<string>): (p: string)
    ensures plan.Some? ==> p == plan.value
  {
    if plan.Some? then plan.value else DefaultPlan
  }

  /** Looks a tier up among the catalogue's own entries. */
  function PlanConfigFor(plan: string): (r: Option<PlanConfig>)
    ensures r.Some? <==> plan in PlanNames
  {
    if plan == "starter" then Some(PlanConfig(5, 10000, 2, 49))
    else if plan == "pro" then Some(PlanConfig(25, 50000, 8, 149))
    else if plan == "business" then Some(PlanConfig(999999, 250000, 20, 499))
    else if plan == "enterprise" then Some(PlanConfig(999999, 999999, 999999, 999))
    else None
  }

  /** The properties every plain object literal inherits from `Object.prototype`;
      each of them is a truthy value when read through `PLAN_CONFIGS[plan]`. */
  const ObjectPrototypeKeys: set<string> := {
    "constructor", "__proto__", "__defineGetter__", "__defineSetter__",
    "__lookupGetter__", "__lookupSetter__", "hasOwnProperty", "isPrototypeOf",
    "propertyIsEnumerable", "toString", "toLocaleString", "valueOf"
  }

  /** The check `!PLAN_CONFIGS[plan]` as written: a property read on a plain
      object, which also finds the inherited members of `Object.prototype`. */
  predicate PlanAcceptedAsWritten(plan: string)
  {
    PlanConfigFor(plan).Some? || plan in ObjectPrototypeKeys
  }

  /** The evidently intended check: the tier is one of the catalogue's own entries. */
  predicate IsPlan(plan: string)
  {
    PlanConfigFor(plan).Some?
  }

  /** The as-written check lets an inherited property name through as a plan. */
  lemma InheritedNameAcceptedAsPlan()
    ensures PlanAcceptedAsWritten("constructor") && !IsPlan("constructor")
  {
    assert "constructor" !in PlanNames;
  }

  /** The corrected check accepts exactly the four tiers, and the as-written
      check differs from it only on the inherited property names. */
  lemma IsPlanExactlyTheFourTiers(plan: string)
    ensures IsPlan(plan) <==> plan == "starter" || plan == "pro" || plan == "business" || plan == "enterprise"
    ensures PlanAcceptedAsWritten(plan) <==> IsPlan(plan) || plan in ObjectPrototypeKeys
  {
  }

  /** Omitting the tier provisions the starter tier, which passes the plan check. */
  lemma OmittedPlanIsStarter()
    ensures PlanArgument(None) == "starter" && IsPlan(PlanArgument(None))
    ensures PlanConfigFor(PlanArgument(None)) == Some(PlanConfig(5, 10000, 2, 49))
  {
  }

  /** The catalogue's entries, tier by tier. */
  lemma CatalogueEntries()
    ensures PlanConfigFor("starter") == Some(PlanConfig(5, 10000, 2, 49))
    ensures PlanConfigFor("pro") == Some(PlanConfig(25, 50000, 8, 149))
    ensures PlanConfigFor("business") == Some(PlanConfig(999999, 250000, 20, 499))
    ensures PlanConfigFor("enterprise") == Some(PlanConfig(999999, 999999, 999999, 999))
  {
  }
}
