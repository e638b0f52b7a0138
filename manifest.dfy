/** Rendering the per-tenant compose file: the chain of global `.replace` calls
    `createTenant` applies to the template text. */
module Manifest {

  /** Does p occur in s? */
  predicate Contains(s: string, p: string)
    decreases |s|
  {
    |p| <= |s| && (s[..|p|] == p || Contains(s[1..], p))
  }

  predicate OccursAt(s: string, p: string, i: nat)
  {
    i + |p| <= |s| && s[i..i + |p|] == p
  }

  // ---------------------------------------------------------------------------
  // Replacement as the evidently intended literal substitution
  // ---------------------------------------------------------------------------

  /** Replaces every occurrence of p, scanning left to right without overlap, by r. */
  function ReplaceAll(s: string, p: string, r: string): string
    requires p != []
    decreases |s|
  {
    if |s| < |p| then s
    else if s[..|p|] == p then r + ReplaceAll(s[|p|..], p, r)
    else [s[0]] + ReplaceAll(s[1..], p, r)
  }

  /** Where p does not occur, nothing is replaced. */
  lemma {:induction false} ReplaceAllWithoutOccurrence(s: string, p: string, r: string)
    requires p != [] && !Contains(s, p)
    ensures ReplaceAll(s, p, r) == s
    decreases |s|
  {
    if |s| >= |p| {
      ReplaceAllWithoutOccurrence(s[1..], p, r);
      assert [s[0]] + s[1..] == s;
    }
  }

  /** The leftmost occurrence is replaced by r verbatim, the text before it is
      kept, and the scan resumes right after it. */
  lemma {:induction false} ReplaceAllAtLeftmost(a: string, p: string, b: string, r: string)
    requires p != []
    requires forall i :: 0 <= i < |a| ==> !OccursAt(a + p + b, p, i)
    ensures ReplaceAll(a + p + b, p, r) == a + r + ReplaceAll(b, p, r)
    decreases |a|
  {
    var s := a + p + b;
    if a == [] {
      assert s[..|p|] == p && s[|p|..] == b;
    } else {
      var rest := a[1..];
      assert s[1..] == rest + p + b;
      assert !OccursAt(s, p, 0);
      assert ReplaceAll(s, p, r) == [a[0]] + ReplaceAll(rest + p + b, p, r);
      NoOccurrenceAfterFirst(a, p, b);
      ReplaceAllAtLeftmost(rest, p, b, r);
      assert [a[0]] + (rest + r + ReplaceAll(b, p, r)) == a + r + ReplaceAll(b, p, r);
    }
  }

  /** Dropping the first character of a keeps p out of the rest of a. */
  lemma NoOccurrenceAfterFirst(a: string, p: string, b: string)
    requires a != []
    requires forall i :: 0 <= i < |a| ==> !OccursAt(a + p + b, p, i)
    ensures forall i :: 0 <= i < |a[1..]| ==> !OccursAt(a[1..] + p + b, p, i)
  {
    var s := a + p + b;
    var t := a[1..] + p + b;
    assert t == s[1..];
    forall i | 0 <= i < |a[1..]| ensures !OccursAt(t, p, i) {
      assert !OccursAt(s, p, i + 1);
      if i + |p| <= |t| {
        assert t[i..i + |p|] == s[i + 1..i + 1 + |p|];
      }
    }
  }

  /** Replacing a placeholder by itself changes nothing. */
  lemma {:induction false} ReplaceAllBySelf(s: string, p: string)
    requires p != []
    ensures ReplaceAll(s, p, p) == s
    decreases |s|
  {
    if |s| >= |p| {
      if s[..|p|] == p {
        ReplaceAllBySelf(s[|p|..], p);
        assert p + s[|p|..] == s;
      } else {
        ReplaceAllBySelf(s[1..], p);
        assert [s[0]] + s[1..] == s;
      }
    }
  }

  // ---------------------------------------------------------------------------
  // Replacement as written: `String.prototype.replace` with a string replacement
  // ---------------------------------------------------------------------------

  /** The replacement text JavaScript inserts for a match of length len at
      position pos of s (GetSubstitution, section 22.1.3.19.1 of ECMA-262):
      `$$` is '$', `$&` the match, `` $` `` the text before it, `$'` the text
      after it; with no capture groups every other '$' is literal. */
  function Substitution(repl: string, s: string, pos: nat, len: nat): string
    requires pos + len <= |s|
    decreases |repl|
  {
    if repl == [] then ""
    else if repl[0] == '$' && |repl| >= 2 && repl[1] in "$&`'" then
      var inserted :=
        if repl[1] == '$' then "$"
        else if repl[1] == '&' then s[pos..pos + len]
        else if repl[1] == '`' then s[..pos]
        else s[pos + len..];
      inserted + Substitution(repl[2..], s, pos, len)
    else [repl[0]] + Substitution(repl[1..], s, pos, len)
  }

  /** `s.replace(/p/g, r)` from position i of s onwards. */
  function ReplaceFromAsWritten(s: string, p: string, r: string, i: nat): string
    requires p != [] && i <= |s|
    decreases |s| - i
  {
    if i + |p| > |s| then s[i..]
    else if s[i..i + |p|] == p then Substitution(r, s, i, |p|) + ReplaceFromAsWritten(s, p, r, i + |p|)
    else [s[i]] + ReplaceFromAsWritten(s, p, r, i + 1)
  }

  function ReplaceAllAsWritten(s: string, p: string, r: string): string
    requires p != []
  {
    ReplaceFromAsWritten(s, p, r, 0)
  }

  /** A replacement without '$' is inserted verbatim. */
  lemma {:induction false} SubstitutionWithoutDollar(repl: string, s: string, pos: nat, len: nat)
    requires pos + len <= |s| && '$' !in repl
    ensures Substitution(repl, s, pos, len) == repl
    decreases |repl|
  {
    if repl != [] {
      SubstitutionWithoutDollar(repl[1..], s, pos, len);
      assert [repl[0]] + repl[1..] == repl;
    }
  }

  /** Without '$' in the replacement, the as-written replacement is the literal one. */
  lemma {:induction false} ReplaceAsWrittenAgrees(s: string, p: string, r: string, i: nat)
    requires p != [] && i <= |s| && '$' !in r
    ensures ReplaceFromAsWritten(s, p, r, i) == ReplaceAll(s[i..], p, r)
    decreases |s| - i
  {
    if i + |p| <= |s| {
      assert s[i..][..|p|] == s[i..i + |p|];
      if s[i..i + |p|] == p {
        SubstitutionWithoutDollar(r, s, i, |p|);
        ReplaceAsWrittenAgrees(s, p, r, i + |p|);
        assert s[i..][|p|..] == s[i + |p|..];
      } else {
        ReplaceAsWrittenAgrees(s, p, r, i + 1);
        assert s[i..][1..] == s[i + 1..];
      }
    }
  }

  // ---------------------------------------------------------------------------
  // The rendering chain
  // ---------------------------------------------------------------------------

  /** The values substituted into the template. */
  datatype ManifestValues = ManifestValues(
    tenantId: string,
    name: string,
    plan: string,
    subdomain: string,
    postgresPassword: string,
    redisPassword: string,
    subnet: string)

  const TenantIdKey: string := "TENANT_ID"
  const TenantNameKey: string := "TENANT_NAME"
  const TenantPlanKey: string := "TENANT_PLAN"
  const SubdomainKey: string := "SUBDOMAIN"
  const PostgresPasswordKey: string := "{{POSTGRES_PASSWORD}}"
  const RedisPasswordKey: string := "{{REDIS_PASSWORD}}"
  const SubnetKey: string := "SUBNET_CIDR"

  /** The placeholders in the order the chain replaces them. */
  const Keys: seq<string> :=
    [TenantIdKey, TenantNameKey, TenantPlanKey, SubdomainKey, PostgresPasswordKey, RedisPasswordKey, SubnetKey]

  predicate HasNoKey(s: string)
  {
    forall k :: 0 <= k < |Keys| ==> !Contains(s, Keys[k])
  }

  predicate HasNoDollar(v: ManifestValues)
  {
    && '$' !in v.tenantId && '$' !in v.name && '$' !in v.plan && '$' !in v.subdomain
    && '$' !in v.postgresPassword && '$' !in v.redisPassword && '$' !in v.subnet
  }

  /** The chain exactly as written: each value is a JavaScript replacement string. */
  function RenderAsWritten(template: string, v: ManifestValues): string
  {
    var s1 := ReplaceAllAsWritten(template, TenantIdKey, v.tenantId);
    var s2 := ReplaceAllAsWritten(s1, TenantNameKey, v.name);
    var s3 := ReplaceAllAsWritten(s2, TenantPlanKey, v.plan);
    var s4 := ReplaceAllAsWritten(s3, SubdomainKey, v.subdomain);
    var s5 := ReplaceAllAsWritten(s4, PostgresPasswordKey, v.postgresPassword);
    var s6 := ReplaceAllAsWritten(s5, RedisPasswordKey, v.redisPassword);
    ReplaceAllAsWritten(s6, SubnetKey, v.subnet)
  }

  /** The corrected chain: every value inserted verbatim, as evidently intended. */
  function Render(template: string, v: ManifestValues): string
  {
    var s1 := ReplaceAll(template, TenantIdKey, v.tenantId);
    var s2 := ReplaceAll(s1, TenantNameKey, v.name);
    var s3 := ReplaceAll(s2, TenantPlanKey, v.plan);
    var s4 := ReplaceAll(s3, SubdomainKey, v.subdomain);
    var s5 := ReplaceAll(s4, PostgresPasswordKey, v.postgresPassword);
    var s6 := ReplaceAll(s5, RedisPasswordKey, v.redisPassword);
    ReplaceAll(s6, SubnetKey, v.subnet)
  }

  /** The two renderings agree whenever no value holds a '$'. */
  lemma RenderAgreesWithoutDollar(template: string, v: ManifestValues)
    requires HasNoDollar(v)
    ensures RenderAsWritten(template, v) == Render(template, v)
  {
    var s1 := ReplaceAll(template, TenantIdKey, v.tenantId);
    var s2 := ReplaceAll(s1, TenantNameKey, v.name);
    var s3 := ReplaceAll(s2, TenantPlanKey, v.plan);
    var s4 := ReplaceAll(s3, SubdomainKey, v.subdomain);
    var s5 := ReplaceAll(s4, PostgresPasswordKey, v.postgresPassword);
    var s6 := ReplaceAll(s5, RedisPasswordKey, v.redisPassword);
    ReplaceAsWrittenAgrees(template, TenantIdKey, v.tenantId, 0);
    ReplaceAsWrittenAgrees(s1, TenantNameKey, v.name, 0);
    ReplaceAsWrittenAgrees(s2, TenantPlanKey, v.plan, 0);
    ReplaceAsWrittenAgrees(s3, SubdomainKey, v.subdomain, 0);
    ReplaceAsWrittenAgrees(s4, PostgresPasswordKey, v.postgresPassword, 0);
    ReplaceAsWrittenAgrees(s5, RedisPasswordKey, v.redisPassword, 0);
    ReplaceAsWrittenAgrees(s6, SubnetKey, v.subnet, 0);
    assert template[0..] == template && s1[0..] == s1 && s2[0..] == s2 && s3[0..] == s3;
    assert s4[0..] == s4 && s5[0..] == s5 && s6[0..] == s6;
  }

  /** A template without placeholders is written out unchanged. */
  lemma RenderWithoutPlaceholders(template: string, v: ManifestValues)
    requires HasNoKey(template)
    ensures Render(template, v) == template
  {
    assert !Contains(template, Keys[0]) && !Contains(template, Keys[1]) && !Contains(template, Keys[2]);
    assert !Contains(template, Keys[3]) && !Contains(template, Keys[4]) && !Contains(template, Keys[5]);
    assert !Contains(template, Keys[6]);
    ReplaceAllWithoutOccurrence(template, TenantIdKey, v.tenantId);
    ReplaceAllWithoutOccurrence(template, TenantNameKey, v.name);
    ReplaceAllWithoutOccurrence(template, TenantPlanKey, v.plan);
    ReplaceAllWithoutOccurrence(template, SubdomainKey, v.subdomain);
    ReplaceAllWithoutOccurrence(template, PostgresPasswordKey, v.postgresPassword);
    ReplaceAllWithoutOccurrence(template, RedisPasswordKey, v.redisPassword);
    ReplaceAllWithoutOccurrence(template, SubnetKey, v.subnet);
  }

  /** The tenant name placeholder receives the name verbatim, provided the name
      holds none of the placeholders replaced after it. */
  lemma NamePlaceholderGetsName(v: ManifestValues)
    requires HasNoKey(v.name)
    ensures Render(TenantNameKey, v) == v.name
  {
    assert !Contains(TenantNameKey, TenantIdKey) by {
      assert TenantNameKey[..9][7] != TenantIdKey[7];
      assert TenantNameKey[1..][..9][0] != TenantIdKey[0];
      assert TenantNameKey[2..][..9][0] != TenantIdKey[0];
    }
    ReplaceAllWithoutOccurrence(TenantNameKey, TenantIdKey, v.tenantId);
    assert ReplaceAll(TenantNameKey, TenantNameKey, v.name) == v.name by {
      ReplaceAllAtLeftmost([], TenantNameKey, [], v.name);
      assert [] + TenantNameKey + [] == TenantNameKey;
    }
    assert !Contains(v.name, Keys[2]) && !Contains(v.name, Keys[3]) && !Contains(v.name, Keys[4]);
    assert !Contains(v.name, Keys[5]) && !Contains(v.name, Keys[6]);
    ReplaceAllWithoutOccurrence(v.name, TenantPlanKey, v.plan);
    ReplaceAllWithoutOccurrence(v.name, SubdomainKey, v.subdomain);
    ReplaceAllWithoutOccurrence(v.name, PostgresPasswordKey, v.postgresPassword);
    ReplaceAllWithoutOccurrence(v.name, RedisPasswordKey, v.redisPassword);
    ReplaceAllWithoutOccurrence(v.name, SubnetKey, v.subnet);
  }

  /** As written, a tenant named "$&" puts the placeholder text back instead of its name. */
  lemma DollarNameNotInsertedVerbatim(v: ManifestValues)
    requires v.name == "$&"
    ensures ReplaceAllAsWritten(TenantNameKey, TenantNameKey, v.name) == TenantNameKey
    ensures ReplaceAll(TenantNameKey, TenantNameKey, v.name) == v.name
  {
    var s := TenantNameKey;
    assert s[0..|s|] == s;
    assert Substitution("$&", s, 0, |s|) == s[0..|s|] + Substitution("", s, 0, |s|);
    ReplaceAllAtLeftmost([], TenantNameKey, [], v.name);
    assert [] + TenantNameKey + [] == TenantNameKey;
  }
}
