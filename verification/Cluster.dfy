/** What the head server knows about cluster servers: addresses and last reported health. */
module Cluster {
  import opened Basics
  import opened Text

  /** One entry of the health map, in the order of its server ids. */
  datatype Health = Health(ip: string, isHealthy: bool, diskUsage: real)

  predicate NotColon(c: char) { c != ':' }

  /** The host part that `parse_address` extracts. */
  function HostOf(address: string): string { address[..Span(NotColon, address)] }

  lemma {:induction false} HostEndsAtColon(host: string, rest: string)
    requires All(NotColon, host)
    ensures Span(NotColon, host + ":" + rest) == |host|
  {
    var s := host + ":" + rest;
    if host != "" {
      HostEndsAtColon(host[1..], rest);
      assert s[1..] == host[1..] + ":" + rest;
      assert s[0] == host[0];
    } else {
      assert s == ":" + rest;
    }
  }

  /** The host of an address is what stands before the port, when it has no colon itself. */
  lemma HostIs(host: string, port: int)
    requires All(NotColon, host)
    ensures HostOf(host + ":" + PrintInt(port)) == host
  {
    HostEndsAtColon(host, PrintInt(port));
  }

  predicate Matches(h: Health, address: string) { h.ip == address || h.ip == HostOf(address) }

  /** A registered server may receive replicas of a dead one unless it is reported unhealthy. */
  predicate IsTarget(address: string, health: seq<Health>, dead: string) {
    address != dead && forall i | 0 <= i < |health| :: Matches(health[i], address) ==> health[i].isHealthy
  }

  function HealthyTargets(addresses: seq<string>, health: seq<Health>, dead: string): (targets: seq<string>)
    ensures forall t :: t in targets <==> t in addresses && IsTarget(t, health, dead)
  {
    if addresses == [] then []
    else
      var n := |addresses| - 1;
      assert addresses == addresses[..n] + [addresses[n]];
      HealthyTargets(addresses[..n], health, dead) +
      (if IsTarget(addresses[n], health, dead) then [addresses[n]] else [])
  }

  lemma TargetsSnoc(init: seq<string>, last: string, health: seq<Health>, dead: string)
    ensures HealthyTargets(init + [last], health, dead) ==
      HealthyTargets(init, health, dead) + (if IsTarget(last, health, dead) then [last] else [])
  {
    hide IsTarget;
    assert (init + [last])[..|init|] == init;
  }

  /** The targets are the addresses that qualify, each as often as it is listed and in the
      order of the list. */
  lemma {:induction false} TargetsInOrder(addresses: seq<string>, health: seq<Health>, dead: string)
    returns (from: seq<int>)
    ensures Picks(from, addresses, a => IsTarget(a, health, dead), HealthyTargets(addresses, health, dead))
  {
    hide IsTarget;
    from := [];
    if addresses != [] {
      var n := |addresses| - 1;
      var init, last := addresses[..n], addresses[n];
      assert addresses == init + [last];
      TargetsSnoc(init, last, health, dead);
      from := TargetsInOrder(init, health, dead);
      PicksSnoc(from, init, last, a => IsTarget(a, health, dead), HealthyTargets(init, health, dead));
      hide Picks, HealthyTargets;
      if IsTarget(last, health, dead) { from := from + [n]; }
      else { assert HealthyTargets(init, health, dead) + [] == HealthyTargets(init, health, dead); }
    }
  }

  method FindTargets(addresses: seq<string>, health: seq<Health>, dead: string) returns (targets: seq<string>)
    ensures targets == HealthyTargets(addresses, health, dead)
  {
    targets := [];
    for i := 0 to |addresses|
      invariant targets == HealthyTargets(addresses[..i], health, dead)
    {
      var address := addresses[i];
      var ok := address != dead;
      var j := 0;
      while ok && j < |health|
        invariant 0 <= j <= |health| && (address == dead ==> !ok)
        invariant ok ==> forall k | 0 <= k < j :: Matches(health[k], address) ==> health[k].isHealthy
        invariant !ok ==> !IsTarget(address, health, dead)
      {
        if Matches(health[j], address) && !health[j].isHealthy {
          ok := false;
        }
        j := j + 1;
      }
      if ok {
        targets := targets + [address];
      }
      assert addresses[..i + 1][..i] == addresses[..i];
    }
    assert addresses[..|addresses|] == addresses;
  }
}
