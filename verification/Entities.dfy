/** The records the domain commands re-assert at the moment of use. */
module Entities {
  import opened Wrappers
  import opened Channels

  type Instant = int

  datatype AuthorityGrant = AuthorityGrant(revokedAtMs: Option<Instant>, expiresAtMs: Instant)

  predicate AuthorityUsableAt(g: AuthorityGrant, atMs: Instant) {
    !(g.revokedAtMs.Some? && g.revokedAtMs.value <= atMs) && atMs < g.expiresAtMs
  }

  datatype RemovalRecipe = RemovalRecipe(enabled: bool, signature: string, freshnessAtMs: Instant)

  predicate RecipeUsableAt(r: RemovalRecipe, atMs: Instant) {
    r.enabled && !Blank(r.signature) && atMs <= r.freshnessAtMs
  }

  datatype PolicyDecision = PolicyDecision(jurisdiction: string, legalBasis: string, policyVersion: nat)

  datatype JurisdictionPolicy = JurisdictionPolicy(
    jurisdiction: string, version: nat, effectiveFromMs: Instant, effectiveToMs: Option<Instant>, rules: seq<string>)

  predicate PolicyInForce(p: JurisdictionPolicy, d: PolicyDecision, atMs: Instant) {
    && p.jurisdiction == d.jurisdiction
    && p.version == d.policyVersion
    && p.effectiveFromMs <= atMs
    && (p.effectiveToMs.Some? ==> atMs < p.effectiveToMs.value)
    && d.legalBasis in p.rules
  }

  datatype PermissionClass = ReadOnly | WritePermitted | WriteUnclear | Prohibited

  datatype Finding = Present | Absent | Inconclusive

  datatype Observation = Observation(
    means: string, observedAtMs: Instant, actorIdentity: string, actingIdentity: string, finding: Finding)
}
