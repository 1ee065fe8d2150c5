/**
 * The URLs under which a row is published: one per addressed ingress rule,
 * then one per port on the row's load balancer address.
 */
module PublishedUrls {
  import opened Sequences
  import opened ApplicationModels
  import Decimal

  /** `getPublishedUrls` returns the list when it is non-empty and the empty string otherwise. */
  datatype UrlList = NoUrls | Urls(list: seq<string>)

  /** JavaScript truthiness of an optional string. */
  predicate Truthy(s: Option<string>) {
    s.Some? && s.value != ""
  }

  /** The rule has a `Host` or an `IP`; the other rules are dropped. */
  predicate HasAddress(rule: IngressRule) {
    Truthy(rule.host) || Truthy(rule.ip)
  }

  /** The host when it is set, otherwise the IP. */
  function Address(rule: IngressRule): string
    requires HasAddress(rule)
  {
    if Truthy(rule.host) then rule.host.value else rule.ip.value
  }

  /** The entry lists hosts and the rule's host is one of them. */
  predicate CoversHost(entry: TlsEntry, host: Option<string>) {
    host.Some? && host.value in entry.hosts
  }

  /** The TLS entries whose hosts include the rule's host, in order. */
  function MatchingTls(tls: seq<TlsEntry>, host: Option<string>): (r: seq<TlsEntry>)
    ensures forall t :: t in r <==> t in tls && CoversHost(t, host)
  {
    if tls == [] then []
    else
      assert tls == [tls[0]] + tls[1..];
      (if CoversHost(tls[0], host) then [tls[0]] else []) + MatchingTls(tls[1..], host)
  }

  function Scheme(rule: IngressRule): string {
    if |MatchingTls(rule.tls, rule.host)| > 0 then "https" else "http"
  }

  /** The URL of one addressed ingress rule. */
  function IngressUrl(rule: IngressRule): string
    requires HasAddress(rule)
  {
    Scheme(rule) + "://" + Address(rule) + rule.path
  }

  /** The number of ingress rules over all the given ports. */
  function RuleCount(ports: seq<PublishedPort>): nat
  {
    if ports == [] then 0 else |ports[0].ingressRules| + RuleCount(ports[1..])
  }

  /** The ingress rules of every port, port after port, each port's rules in their own order. */
  function AllIngressRules(ports: seq<PublishedPort>): (r: seq<IngressRule>)
    ensures forall rule :: rule in r <==> exists p :: p in ports && rule in p.ingressRules
    ensures |r| == RuleCount(ports)
  {
    if ports == [] then []
    else
      assert ports == [ports[0]] + ports[1..];
      ports[0].ingressRules + AllIngressRules(ports[1..])
  }

  /** The rules with a host or an IP, in order. */
  function AddressedRules(rules: seq<IngressRule>): (r: seq<IngressRule>)
    ensures forall rule :: rule in r <==> rule in rules && HasAddress(rule)
    ensures forall rule :: multiset(r)[rule] == if HasAddress(rule) then multiset(rules)[rule] else 0
    ensures IsSubsequence(r, rules)
    ensures |r| <= |rules|
  {
    if rules == [] then []
    else
      assert rules == [rules[0]] + rules[1..];
      var rest := AddressedRules(rules[1..]);
      if HasAddress(rules[0]) then
        var r := [rules[0]] + rest;
        assert r[0] == rules[0] && r[1..] == rest;
        r
      else
        assert rest != [] ==> rest[0] in rest && rest[0] != rules[0];
        rest
  }

  /** Concatenating port lists concatenates their rules. */
  lemma {:induction false} AllIngressRulesAppend(a: seq<PublishedPort>, b: seq<PublishedPort>)
    ensures AllIngressRules(a + b) == AllIngressRules(a) + AllIngressRules(b)
    decreases |a|
  {
    if a != [] {
      assert (a + b)[0] == a[0] && (a + b)[1..] == a[1..] + b;
      assert AllIngressRules(a + b) == a[0].ingressRules + AllIngressRules(a[1..] + b);
      AllIngressRulesAppend(a[1..], b);
    } else {
      assert a + b == b;
    }
  }

  /**
   * Where each port's rules sit among all the rules: the rules of port `k`
   * follow the rules of the ports before it, unchanged and in their order.
   */
  lemma AllIngressRulesPositions(ports: seq<PublishedPort>)
    ensures forall k :: 0 <= k < |ports| ==>
      && RuleCount(ports[..k]) + |ports[k].ingressRules| <= |AllIngressRules(ports)|
      && AllIngressRules(ports)[RuleCount(ports[..k]) .. RuleCount(ports[..k]) + |ports[k].ingressRules|] == ports[k].ingressRules
  {
    forall k | 0 <= k < |ports|
      ensures RuleCount(ports[..k]) + |ports[k].ingressRules| <= |AllIngressRules(ports)|
      ensures AllIngressRules(ports)[RuleCount(ports[..k]) .. RuleCount(ports[..k]) + |ports[k].ingressRules|] == ports[k].ingressRules
    {
      var before, port, after := ports[..k], ports[k], ports[k + 1..];
      assert ports == before + [port] + after;
      assert AllIngressRules([port]) == port.ingressRules by {
        assert [port][1..] == [];
      }
      AllIngressRulesAppend(before, [port]);
      AllIngressRulesAppend(before + [port], after);
    }
  }

  /** One URL per addressed rule, position for position. */
  function IngressUrls(rules: seq<IngressRule>): (r: seq<string>)
    requires forall rule :: rule in rules ==> HasAddress(rule)
    ensures |r| == |rules|
    ensures forall k :: 0 <= k < |rules| ==> r[k] == IngressUrl(rules[k])
  {
    if rules == [] then []
    else [IngressUrl(rules[0])] + IngressUrls(rules[1..])
  }

  /** `http://<LoadBalancerIPAddress>:<Port>` for every published port, in order. */
  function LoadBalancerUrls(address: string, ports: seq<PublishedPort>): (r: seq<string>)
    ensures |r| == |ports|
    ensures forall k :: 0 <= k < |ports| ==> r[k] == "http://" + address + ":" + Decimal.FromNat(ports[k].port)
  {
    if ports == [] then []
    else ["http://" + address + ":" + Decimal.FromNat(ports[0].port)] + LoadBalancerUrls(address, ports[1..])
  }

  /** `getPublishedUrls(item)`. */
  function GetPublishedUrls(item: Application): (r: UrlList)
    ensures r.Urls? ==> |r.list| > 0
  {
    var ingress := IngressUrls(AddressedRules(AllIngressRules(item.publishedPorts)));
    var balanced := if item.loadBalancerIPAddress != "" then LoadBalancerUrls(item.loadBalancerIPAddress, item.publishedPorts) else [];
    var all := ingress + balanced;
    if |all| > 0 then Urls(all) else NoUrls
  }

  /** A rule's URL is served over https exactly when one of its TLS entries lists the rule's host. */
  lemma SchemeIsHttpsIffTlsCoversHost(rule: IngressRule)
    ensures Scheme(rule) == "https" <==> exists t :: t in rule.tls && CoversHost(t, rule.host)
    ensures Scheme(rule) == "http" <==> !exists t :: t in rule.tls && CoversHost(t, rule.host)
  {
    var m := MatchingTls(rule.tls, rule.host);
    if |m| > 0 {
      assert m[0] in m;
    }
  }

  /** Every ingress URL names its scheme, then the host (or, without a host, the IP), then the path. */
  lemma IngressUrlShape(rule: IngressRule)
    requires HasAddress(rule)
    ensures var u := IngressUrl(rule);
      if exists t :: t in rule.tls && CoversHost(t, rule.host)
      then u == "https://" + Address(rule) + rule.path
      else u == "http://" + Address(rule) + rule.path
    ensures Address(rule) != ""
    ensures Truthy(rule.host) ==> Address(rule) == rule.host.value
  {
    SchemeIsHttpsIffTlsCoversHost(rule);
  }

  /**
   * The layout of the published URLs: the URLs of the addressed ingress
   * rules in order, then one load-balancer URL per port when the row has a
   * load balancer address; the empty string when there are none.
   */
  lemma PublishedUrlsLayout(item: Application)
    ensures var rules := AddressedRules(AllIngressRules(item.publishedPorts));
      var ports := item.publishedPorts;
      var balancedCount := if item.loadBalancerIPAddress != "" then |ports| else 0;
      var r := GetPublishedUrls(item);
      && (r.NoUrls? <==> |rules| == 0 && balancedCount == 0)
      && (r.Urls? ==>
        && |r.list| == |rules| + balancedCount
        && (forall k :: 0 <= k < |rules| ==> r.list[k] == IngressUrl(rules[k]))
        && (forall k :: 0 <= k < balancedCount ==>
              r.list[|rules| + k] == "http://" + item.loadBalancerIPAddress + ":" + Decimal.FromNat(ports[k].port)))
  {
  }

  /** Some URL is published exactly when some port has an addressed rule, or the row has a load balancer and a port. */
  lemma HasPublishedUrlsIff(item: Application)
    ensures GetPublishedUrls(item).Urls? <==>
      (exists p, rule :: p in item.publishedPorts && rule in p.ingressRules && HasAddress(rule))
      || (item.loadBalancerIPAddress != "" && |item.publishedPorts| > 0)
  {
    var rules := AddressedRules(AllIngressRules(item.publishedPorts));
    PublishedUrlsLayout(item);
    if |rules| > 0 {
      assert rules[0] in rules;
    }
  }
}
