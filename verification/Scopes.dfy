/** Token scopes: what the issuer grants a service and what the proxy demands of it. */
module Scopes {
  import opened Wrappers
  import opened RegistryModel

  datatype Claims = Claims(scopes: Option<seq<string>>, permissions: Option<seq<string>>)

  /** The scopes a service is entitled to: its own and those of the registered services it consumes. */
  ghost predicate Entitled(service: Entry, services: ServiceMap, scope: string) {
    || scope in service.manifest.requiredScopes
    || exists t :: t in service.manifest.consumes && t in services && scope in services[t].manifest.requiredScopes
  }

  predicate NoDuplicates(xs: seq<string>) {
    forall i, j :: 0 <= i < j < |xs| ==> xs[i] != xs[j]
  }

  /** The scope computation of `issueToken`; `service` was read before the secret was checked,
      its targets are looked up after. */
  method BuildScopes(service: Entry, services: ServiceMap) returns (scopes: seq<string>)
    ensures NoDuplicates(scopes)
    ensures forall s :: s in scopes <==> Entitled(service, services, s)
  {
    var own := service.manifest.requiredScopes;
    var consumes := service.manifest.consumes;
    var consumable: seq<string> := [];
    for i := 0 to |consumes|
      invariant forall s :: s in consumable <==>
                  exists j :: 0 <= j < i && consumes[j] in services && s in services[consumes[j]].manifest.requiredScopes
    {
      if consumes[i] in services {
        consumable := consumable + services[consumes[i]].manifest.requiredScopes;
      }
    }
    scopes := Distinct(own + consumable);
    forall s ensures s in scopes <==> Entitled(service, services, s) {
      if s in consumable {
        var j :| 0 <= j < |consumes| && consumes[j] in services && s in services[consumes[j]].manifest.requiredScopes;
        assert consumes[j] in consumes;
      }
      if t :| t in consumes && t in services && s in services[t].manifest.requiredScopes {
        var j :| 0 <= j < |consumes| && consumes[j] == t;
        assert s in consumable;
      }
    }
  }

  /** `[...new Set(xs)]`: first occurrences, in order. */
  method Distinct(xs: seq<string>) returns (ys: seq<string>)
    ensures NoDuplicates(ys)
    ensures forall s :: s in ys <==> s in xs
  {
    ys := [];
    for i := 0 to |xs|
      invariant NoDuplicates(ys)
      invariant forall s :: s in ys <==> s in xs[..i]
    {
      if xs[i] !in ys {
        ys := ys + [xs[i]];
      }
    }
  }

  // -- The checker ------------------------------------------------------------

  function MergeCallerScopes(claims: Claims): (merged: seq<string>)
    ensures forall s :: s in merged <==> s in claims.scopes.GetOr([]) || s in claims.permissions.GetOr([])
  {
    claims.scopes.GetOr([]) + claims.permissions.GetOr([])
  }

  function Without(xs: seq<string>, ys: seq<string>): seq<string> {
    if xs == [] then []
    else if xs[0] in ys then Without(xs[1..], ys)
    else [xs[0]] + Without(xs[1..], ys)
  }

  lemma {:induction false} WithoutMembers(xs: seq<string>, ys: seq<string>)
    ensures forall s :: s in Without(xs, ys) <==> s in xs && s !in ys
  {
    if xs != [] {
      WithoutMembers(xs[1..], ys);
    }
  }

  lemma {:induction false} WithoutEmpty(xs: seq<string>, ys: seq<string>)
    requires forall s :: s in xs ==> s in ys
    ensures Without(xs, ys) == []
  {
    if xs != [] {
      WithoutEmpty(xs[1..], ys);
    }
  }

  /** The required scopes the caller does not have; a request without claims has none. */
  function CheckScopes(user: Option<Claims>, required: seq<string>): (missing: seq<string>)
    ensures forall s :: s in missing <==>
              s in required && !(user.Some? && s in MergeCallerScopes(user.value))
  {
    var callerScopes := if user.Some? then MergeCallerScopes(user.value) else [];
    WithoutMembers(required, callerScopes);
    Without(required, callerScopes)
  }

  // -- Issuer and checker agree -----------------------------------------------

  /** A token carries the scopes computed for `service`, whatever permissions come with it. */
  ghost predicate Grants(claims: Claims, service: Entry, services: ServiceMap) {
    claims.scopes.Some? && forall s :: s in claims.scopes.value <==> Entitled(service, services, s)
  }

  /** While the registry is as it was, the token passes for every registered service its owner
      consumes. */
  lemma IssuedTokenPasses(services: ServiceMap, id: string, target: string, claims: Claims)
    requires id in services && Grants(claims, services[id], services)
    requires CanConsume(services, id, target) && target in services
    ensures CheckScopes(Some(claims), RequiredScopes(services, target)) == []
  {
    forall s | s in RequiredScopes(services, target) ensures s in MergeCallerScopes(claims) {
      assert Entitled(services[id], services, s);
    }
    WithoutEmpty(RequiredScopes(services, target), MergeCallerScopes(claims));
  }

  /** After the registry has changed, what is reported missing is, in the target's order, what
      the target did not require at issue time and the token was not granted. */
  lemma MissingAfterChange(issued: ServiceMap, now: ServiceMap, id: string, target: string, claims: Claims)
    requires id in issued && Grants(claims, issued[id], issued)
    requires CanConsume(issued, id, target) && target in issued
    ensures var newly := Without(RequiredScopes(now, target), RequiredScopes(issued, target));
            CheckScopes(Some(claims), RequiredScopes(now, target)) == Without(newly, MergeCallerScopes(claims))
  {
    forall s | s in RequiredScopes(issued, target) ensures s in MergeCallerScopes(claims) {
      assert Entitled(issued[id], issued, s);
    }
    WithoutTwice(RequiredScopes(now, target), RequiredScopes(issued, target), MergeCallerScopes(claims));
  }

  lemma {:induction false} WithoutTwice(xs: seq<string>, ys: seq<string>, zs: seq<string>)
    requires forall s :: s in ys ==> s in zs
    ensures Without(xs, zs) == Without(Without(xs, ys), zs)
  {
    if xs != [] {
      WithoutTwice(xs[1..], ys, zs);
      var rest := Without(xs[1..], ys);
      assert xs[0] !in ys ==> Without(xs, ys) == [xs[0]] + rest && ([xs[0]] + rest)[1..] == rest;
    }
  }
}
