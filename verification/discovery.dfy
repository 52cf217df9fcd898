/** Camera discovery: the local /24 subnet, the port-scan probe list, and the
    de-duplication that merges WS-Discovery (ONVIF) answers with open ports.
    What the network answers is a parameter: which (ip, port) connections
    succeed, the host names WS-Discovery reports, and the local address. */
module Discovery {
  import opened Wrappers
  import opened Strings
  import opened Models

  // ---------------------------------------------------------------- subnet

  /** `get_local_subnet`: the first three dot-separated fields of the local
      address glued with '.'; nothing when no address could be read or it has
      fewer than three fields (the index error is caught). */
  function LocalSubnet(localIp: Option<string>): (r: Option<string>)
    ensures localIp.None? ==> r.None?
    ensures localIp.Some? ==> (r.Some? <==> |Split(localIp.value, '.')| >= 3)
    ensures r.Some? ==> Split(r.value, '.') == Split(localIp.value, '.')[..3]
  {
    match localIp
    case None => None
    case Some(ip) =>
      var parts := Split(ip, '.');
      if |parts| < 3 then None
      else
        SplitFieldsFree(ip, '.');
        SplitThree(parts[0], parts[1], parts[2], '.');
        assert parts[..3] == [parts[0], parts[1], parts[2]];
        Some(parts[0] + "." + parts[1] + "." + parts[2])
  }

  /** For a dotted quad, the subnet is the address without its last field,
      and that field is the host number. */
  lemma SubnetOfAddress(a: string, b: string, c: string, d: string)
    requires '.' !in a && '.' !in b && '.' !in c && '.' !in d
    ensures LocalSubnet(Some(a + "." + b + "." + c + "." + d)) == Some(a + "." + b + "." + c)
    ensures a + "." + b + "." + c + "." + d == LocalSubnet(Some(a + "." + b + "." + c + "." + d)).value + "." + d
  {
    var ip := a + "." + b + "." + c + "." + d;
    assert ip == a + ['.'] + b + ['.'] + c + ['.'] + d;
    SplitFour(a, b, c, d, '.');
  }

  // ---------------------------------------------------------------- probes

  /** One connection attempt of the scan: host number in the subnet and port. */
  datatype Probe = Probe(host: nat, port: int)

  const DefaultPorts: seq<int> := [554, 8899]

  function HostIp(subnet: string, host: nat): string {
    subnet + "." + NatToString(host)
  }

  /** Different host numbers give different addresses. */
  lemma HostIpInjective(subnet: string, h1: nat, h2: nat)
    requires HostIp(subnet, h1) == HostIp(subnet, h2)
    ensures h1 == h2
  {
    var n := |subnet| + 1;
    assert NatToString(h1) == HostIp(subnet, h1)[n..];
    assert NatToString(h2) == HostIp(subnet, h2)[n..];
    NatToStringInjective(h1, h2);
  }

  function PortProbes(host: nat, ports: seq<int>): (r: seq<Probe>)
    ensures |r| == |ports|
    ensures forall k :: 0 <= k < |r| ==> r[k] == Probe(host, ports[k])
  {
    if |ports| == 0 then [] else [Probe(host, ports[0])] + PortProbes(host, ports[1..])
  }

  /** The probes for hosts `from` to 254, each host with every port in turn. */
  function ProbesFrom(from: nat, ports: seq<int>): (r: seq<Probe>)
    requires 1 <= from <= 255
    ensures |r| == (255 - from) * |ports|
    ensures forall i, j :: 0 <= i < j < |r| ==> r[i].host <= r[j].host
    ensures forall p :: p in r <==> from <= p.host <= 254 && p.port in ports
    decreases 255 - from
  {
    if from == 255 then []
    else
      var here := PortProbes(from, ports);
      var rest := ProbesFrom(from + 1, ports);
      assert forall p :: p in here <==> p.host == from && p.port in ports by {
        forall p ensures p in here <==> p.host == from && p.port in ports {
          if p.host == from && p.port in ports {
            var k :| 0 <= k < |ports| && ports[k] == p.port;
            assert here[k] == p;
          }
        }
      }
      assert (255 - from) * |ports| == |ports| + (255 - (from + 1)) * |ports|;
      here + rest
  }

  /** `scan_subnet`'s task list: hosts 1 to 254, and for each the given
      ports (554 and 8899 when none are given). */
  function Probes(ports: Option<seq<int>>): (r: seq<Probe>)
    ensures |r| == 254 * |ports.GetOr(DefaultPorts)|
    ensures forall i, j :: 0 <= i < j < |r| ==> r[i].host <= r[j].host
    ensures forall p :: p in r <==> 1 <= p.host <= 254 && p.port in ports.GetOr(DefaultPorts)
  {
    ProbesFrom(1, ports.GetOr(DefaultPorts))
  }

  // ---------------------------------------------------------------- de-duplication

  predicate HasIp(cams: seq<DiscoveredCamera>, ip: string) {
    exists i :: 0 <= i < |cams| && cams[i].ip == ip
  }

  predicate DistinctIps(cams: seq<DiscoveredCamera>) {
    forall i, j :: 0 <= i < j < |cams| ==> cams[i].ip != cams[j].ip
  }

  /** Index of the first camera with the ip, or the length when there is none. */
  function FirstWithIp(cams: seq<DiscoveredCamera>, ip: string): (k: nat)
    ensures k <= |cams|
    ensures k < |cams| ==> cams[k].ip == ip
    ensures forall j :: 0 <= j < k ==> cams[j].ip != ip
    ensures k == |cams| <==> !HasIp(cams, ip)
    decreases |cams|
  {
    if |cams| == 0 then 0
    else if cams[0].ip == ip then 0
    else
      var k := FirstWithIp(cams[1..], ip);
      assert HasIp(cams[1..], ip) ==> HasIp(cams, ip) by {
        if HasIp(cams[1..], ip) {
          var i :| 0 <= i < |cams[1..]| && cams[1..][i].ip == ip;
          assert cams[i + 1].ip == ip;
        }
      }
      k + 1
  }

  /** Walk `rest`, appending to `found` each camera whose ip is not taken yet:
      the `seen` set of the source, kept here as the list built so far. */
  function Dedupe(found: seq<DiscoveredCamera>, rest: seq<DiscoveredCamera>): (r: seq<DiscoveredCamera>)
    ensures |found| <= |r| <= |found| + |rest|
    ensures r[..|found|] == found
    ensures forall j :: |found| <= j < |r| ==> !HasIp(found, r[j].ip)
    decreases |rest|
  {
    if |rest| == 0 then found
    else if HasIp(found, rest[0].ip) then Dedupe(found, rest[1..])
    else
      var r := Dedupe(found + [rest[0]], rest[1..]);
      assert r[..|found|] == (found + [rest[0]])[..|found|];
      assert forall j :: |found| <= j < |r| ==> !HasIp(found, r[j].ip) by {
        forall j | |found| <= j < |r| ensures !HasIp(found, r[j].ip) {
          if j == |found| {
            assert r[j] == (found + [rest[0]])[j];
          }
        }
      }
      r
  }

  /** Duplicate-free input stays duplicate-free. */
  lemma {:induction false} DedupeDistinct(found: seq<DiscoveredCamera>, rest: seq<DiscoveredCamera>)
    requires DistinctIps(found)
    ensures DistinctIps(Dedupe(found, rest))
    decreases |rest|
  {
    if |rest| > 0 {
      if HasIp(found, rest[0].ip) {
        DedupeDistinct(found, rest[1..]);
      } else {
        var next := found + [rest[0]];
        assert DistinctIps(next) by {
          forall i, j | 0 <= i < j < |next| ensures next[i].ip != next[j].ip {
            if j == |found| {
              assert next[i] == found[i];
            }
          }
        }
        DedupeDistinct(next, rest[1..]);
      }
    }
  }

  /** Every ip of either list is in the result, and no other. */
  lemma {:induction false} DedupeCovers(found: seq<DiscoveredCamera>, rest: seq<DiscoveredCamera>, ip: string)
    ensures HasIp(Dedupe(found, rest), ip) <==> HasIp(found, ip) || HasIp(rest, ip)
    decreases |rest|
  {
    if |rest| > 0 {
      var r := Dedupe(found, rest);
      assert HasIp(rest, ip) <==> rest[0].ip == ip || HasIp(rest[1..], ip) by {
        if HasIp(rest, ip) && rest[0].ip != ip {
          var i :| 0 <= i < |rest| && rest[i].ip == ip;
          assert rest[1..][i - 1].ip == ip;
        }
        if HasIp(rest[1..], ip) {
          var i :| 0 <= i < |rest[1..]| && rest[1..][i].ip == ip;
          assert rest[i + 1].ip == ip;
        }
      }
      if HasIp(found, rest[0].ip) {
        DedupeCovers(found, rest[1..], ip);
        if rest[0].ip == ip {
          var i :| 0 <= i < |found| && found[i].ip == ip;
          assert r[i] == found[i];
        }
      } else {
        var next := found + [rest[0]];
        DedupeCovers(next, rest[1..], ip);
        assert HasIp(next, ip) <==> HasIp(found, ip) || rest[0].ip == ip by {
          assert next[|found|] == rest[0];
          if HasIp(next, ip) && rest[0].ip != ip {
            var i :| 0 <= i < |next| && next[i].ip == ip;
            assert found[i] == next[i];
          }
          if HasIp(found, ip) {
            var i :| 0 <= i < |found| && found[i].ip == ip;
            assert next[i] == found[i];
          }
        }
      }
    }
  }

  /** Each camera the walk adds is the first camera of `rest` with its ip. */
  lemma {:induction false} DedupeKeepsFirst(found: seq<DiscoveredCamera>, rest: seq<DiscoveredCamera>, j: nat)
    requires |found| <= j < |Dedupe(found, rest)|
    ensures FirstWithIp(rest, Dedupe(found, rest)[j].ip) < |rest|
    ensures Dedupe(found, rest)[j] == rest[FirstWithIp(rest, Dedupe(found, rest)[j].ip)]
    decreases |rest|
  {
    var r := Dedupe(found, rest);
    if HasIp(found, rest[0].ip) {
      DedupeKeepsFirst(found, rest[1..], j);
      assert r[j].ip != rest[0].ip;
    } else {
      var next := found + [rest[0]];
      if j == |found| {
        assert r[..|next|] == next;
        assert r[j] == rest[0];
      } else {
        DedupeKeepsFirst(next, rest[1..], j);
        assert !HasIp(next, r[j].ip);
        assert next[|found|] == rest[0];
      }
    }
  }

  /** The walk over two lists is the walk over the second after the first:
      a `seen` set carried from one loop to the next. */
  lemma {:induction false} DedupeAppend(found: seq<DiscoveredCamera>, a: seq<DiscoveredCamera>, b: seq<DiscoveredCamera>)
    ensures Dedupe(found, a + b) == Dedupe(Dedupe(found, a), b)
    decreases |a|
  {
    if |a| == 0 {
      assert a + b == b;
    } else {
      assert (a + b)[0] == a[0];
      assert (a + b)[1..] == a[1..] + b;
      if HasIp(found, a[0].ip) {
        DedupeAppend(found, a[1..], b);
      } else {
        DedupeAppend(found + [a[0]], a[1..], b);
      }
    }
  }

  /** A list without repeated ips passes through unchanged. */
  lemma {:induction false} DedupeOfDistinct(found: seq<DiscoveredCamera>, rest: seq<DiscoveredCamera>)
    requires DistinctIps(found + rest)
    ensures Dedupe(found, rest) == found + rest
    decreases |rest|
  {
    if |rest| > 0 {
      var all := found + rest;
      forall i | 0 <= i < |found| ensures found[i].ip != rest[0].ip {
        assert all[i] == found[i] && all[|found|] == rest[0];
      }
      assert found + [rest[0]] + rest[1..] == all;
      DedupeOfDistinct(found + [rest[0]], rest[1..]);
    }
  }

  /** First occurrence of each ip, in order. */
  function Unique(cams: seq<DiscoveredCamera>): (r: seq<DiscoveredCamera>)
    ensures DistinctIps(r)
    ensures forall ip :: HasIp(r, ip) <==> HasIp(cams, ip)
    ensures forall j :: 0 <= j < |r| ==>
              FirstWithIp(cams, r[j].ip) < |cams| && r[j] == cams[FirstWithIp(cams, r[j].ip)]
  {
    DedupeDistinct([], cams);
    forall ip ensures HasIp(Dedupe([], cams), ip) <==> HasIp(cams, ip) {
      DedupeCovers([], cams, ip);
    }
    forall j | 0 <= j < |Dedupe([], cams)|
      ensures FirstWithIp(cams, Dedupe([], cams)[j].ip) < |cams|
      ensures Dedupe([], cams)[j] == cams[FirstWithIp(cams, Dedupe([], cams)[j].ip)]
    {
      DedupeKeepsFirst([], cams, j);
    }
    Dedupe([], cams)
  }

  /** De-duplicating twice is de-duplicating once. */
  lemma UniqueIdempotent(cams: seq<DiscoveredCamera>)
    ensures Unique(Unique(cams)) == Unique(cams)
  {
    var u := Unique(cams);
    assert [] + u == u;
    DedupeOfDistinct([], u);
  }

  // ---------------------------------------------------------------- port scan

  /** The name the scan gives: "Camera " and the last dot-separated field. */
  function ScanName(ip: string): string {
    "Camera " + LastField(ip, '.')
  }

  function ScanCamera(ip: string, port: int): DiscoveredCamera {
    DiscoveredCamera(ip, port, "scan", Some(ScanName(ip)), false)
  }

  /** The scan name of a subnet address is "Camera " and the host number. */
  lemma ScanNameOfHost(subnet: string, host: nat)
    ensures ScanName(HostIp(subnet, host)) == "Camera " + NatToString(host)
  {
    var digits := NatToString(host);
    assert '.' !in digits;
    assert HostIp(subnet, host) == subnet + ['.'] + digits;
    LastFieldOfSuffix(subnet, '.', digits);
  }

  /** One entry per probe whose connection succeeds, in probe order. A probe
      whose task raised counts as closed (only a result that is `True` counts). */
  function OpenCameras(subnet: string, probes: seq<Probe>, open: (string, int) -> bool): (r: seq<DiscoveredCamera>)
    ensures |r| <= |probes|
    ensures forall c :: c in r ==> c.source == "scan" && !c.alreadyAdded && c.name == Some(ScanName(c.ip))
    decreases |probes|
  {
    if |probes| == 0 then []
    else
      var ip := HostIp(subnet, probes[0].host);
      var rest := OpenCameras(subnet, probes[1..], open);
      if open(ip, probes[0].port) then [ScanCamera(ip, probes[0].port)] + rest else rest
  }

  /** The first probe of a host whose connection succeeds, if any. */
  function FirstOpen(subnet: string, probes: seq<Probe>, open: (string, int) -> bool, ip: string): (p: Option<Probe>)
    ensures p.Some? ==> p.value in probes && HostIp(subnet, p.value.host) == ip && open(ip, p.value.port)
    ensures p.None? <==> forall q :: q in probes && HostIp(subnet, q.host) == ip ==> !open(ip, q.port)
    decreases |probes|
  {
    if |probes| == 0 then None
    else if HostIp(subnet, probes[0].host) == ip && open(ip, probes[0].port) then Some(probes[0])
    else
      var p := FirstOpen(subnet, probes[1..], open, ip);
      assert forall q :: q in probes ==> q == probes[0] || q in probes[1..];
      p
  }

  /** The first open camera with an ip is the one built from that ip's first open probe. */
  lemma {:induction false} FirstOpenCamera(subnet: string, probes: seq<Probe>, open: (string, int) -> bool, ip: string)
    ensures var cs := OpenCameras(subnet, probes, open);
      && (FirstWithIp(cs, ip) < |cs| <==> FirstOpen(subnet, probes, open, ip).Some?)
      && (FirstWithIp(cs, ip) < |cs| ==>
            cs[FirstWithIp(cs, ip)] == ScanCamera(ip, FirstOpen(subnet, probes, open, ip).value.port))
    decreases |probes|
  {
    if |probes| > 0 {
      FirstOpenCamera(subnet, probes[1..], open, ip);
      var here, port := HostIp(subnet, probes[0].host), probes[0].port;
      var rest := OpenCameras(subnet, probes[1..], open);
      var cs := OpenCameras(subnet, probes, open);
      if open(here, port) {
        assert cs == [ScanCamera(here, port)] + rest;
        FirstWithIpCons(ScanCamera(here, port), rest, ip);
        if here == ip {
          assert FirstOpen(subnet, probes, open, ip) == Some(probes[0]);
        } else {
          assert FirstOpen(subnet, probes, open, ip) == FirstOpen(subnet, probes[1..], open, ip);
          var k := FirstWithIp(rest, ip);
          if k < |rest| {
            assert cs[k + 1] == rest[k];
          }
        }
      } else {
        assert cs == rest;
        assert FirstOpen(subnet, probes, open, ip) == FirstOpen(subnet, probes[1..], open, ip);
      }
    }
  }

  lemma FirstWithIpCons(c: DiscoveredCamera, rest: seq<DiscoveredCamera>, ip: string)
    ensures FirstWithIp([c] + rest, ip) == if c.ip == ip then 0 else FirstWithIp(rest, ip) + 1
  {
    assert ([c] + rest)[1..] == rest;
  }

  /** `scan_subnet`: one entry per host with an open port, for the first port
      in probe order that answered, named after the host number. */
  function ScanSubnet(subnet: string, ports: Option<seq<int>>, open: (string, int) -> bool): (r: seq<DiscoveredCamera>)
    ensures DistinctIps(r)
    ensures forall ip :: HasIp(r, ip) <==> FirstOpen(subnet, Probes(ports), open, ip).Some?
    ensures forall j :: 0 <= j < |r| ==>
              FirstOpen(subnet, Probes(ports), open, r[j].ip).Some?
              && r[j] == ScanCamera(r[j].ip, FirstOpen(subnet, Probes(ports), open, r[j].ip).value.port)
  {
    var cs := OpenCameras(subnet, Probes(ports), open);
    var r := Unique(cs);
    forall ip ensures HasIp(r, ip) <==> FirstOpen(subnet, Probes(ports), open, ip).Some? {
      FirstOpenCamera(subnet, Probes(ports), open, ip);
    }
    forall j | 0 <= j < |r|
      ensures FirstOpen(subnet, Probes(ports), open, r[j].ip).Some?
      ensures r[j] == ScanCamera(r[j].ip, FirstOpen(subnet, Probes(ports), open, r[j].ip).value.port)
    {
      FirstOpenCamera(subnet, Probes(ports), open, r[j].ip);
    }
    r
  }

  /** Every address the scan reports is a host 1 to 254 of the subnet, found
      on one of the probed ports. */
  lemma ScanFindsSubnetHosts(subnet: string, ports: Option<seq<int>>, open: (string, int) -> bool, c: DiscoveredCamera)
    ensures c in ScanSubnet(subnet, ports, open) ==>
      exists h :: 1 <= h <= 254 && c.ip == HostIp(subnet, h) && c.port in ports.GetOr(DefaultPorts)
                  && c.name == Some("Camera " + NatToString(h))
  {
    var r := ScanSubnet(subnet, ports, open);
    if c in r {
      var j :| 0 <= j < |r| && r[j] == c;
      var p := FirstOpen(subnet, Probes(ports), open, c.ip).value;
      ScanNameOfHost(subnet, p.host);
    }
  }


  // ---------------------------------------------------------------- ONVIF

  const OnvifPort := 554

  function OnvifCamera(ip: string): DiscoveredCamera {
    DiscoveredCamera(ip, OnvifPort, "onvif", Some("ONVIF " + ip), false)
  }

  lemma HasIpCons(c: DiscoveredCamera, rest: seq<DiscoveredCamera>)
    ensures forall ip :: HasIp([c] + rest, ip) <==> ip == c.ip || HasIp(rest, ip)
  {
    var r := [c] + rest;
    forall ip ensures HasIp(r, ip) <==> ip == c.ip || HasIp(rest, ip) {
      assert r[0].ip == c.ip;
      if HasIp(rest, ip) {
        var i :| 0 <= i < |rest| && rest[i].ip == ip;
        assert r[i + 1] == rest[i];
      }
      if HasIp(r, ip) && ip != c.ip {
        var i :| 0 <= i < |r| && r[i].ip == ip;
        assert rest[i - 1] == r[i];
      }
    }
  }

  /** One entry per advertised address whose host name parsed and is not empty. */
  function OnvifCameras(hosts: seq<Option<string>>): (r: seq<DiscoveredCamera>)
    ensures forall c :: c in r ==> c == OnvifCamera(c.ip) && c.ip != ""
    ensures forall ip :: HasIp(r, ip) <==> ip != "" && Some(ip) in hosts
    decreases |hosts|
  {
    if |hosts| == 0 then []
    else
      var rest := OnvifCameras(hosts[1..]);
      assert forall ip :: Some(ip) in hosts <==> hosts[0] == Some(ip) || Some(ip) in hosts[1..];
      if hosts[0].Some? && hosts[0].value != "" then
        var r := [OnvifCamera(hosts[0].value)] + rest;
        HasIpCons(OnvifCamera(hosts[0].value), rest);
        r
      else rest
  }

  /** `discover_onvif`: the advertised hosts, first occurrence of each; empty
      when WS-Discovery is missing or fails (`hosts` is then None). */
  function DiscoverOnvif(hosts: Option<seq<Option<string>>>): (r: seq<DiscoveredCamera>)
    ensures hosts.None? ==> r == []
    ensures DistinctIps(r)
    ensures forall c :: c in r ==> c == OnvifCamera(c.ip) && c.ip != ""
    ensures forall ip :: HasIp(r, ip) <==> hosts.Some? && ip != "" && Some(ip) in hosts.value
  {
    match hosts
    case None => []
    case Some(hs) =>
      var cs := OnvifCameras(hs);
      var r := Unique(cs);
      forall c | c in r ensures c == OnvifCamera(c.ip) && c.ip != "" {
        var j :| 0 <= j < |r| && r[j] == c;
        assert cs[FirstWithIp(cs, c.ip)] in cs;
      }
      r
  }

  // ---------------------------------------------------------------- merge

  /** What the network answers during one discovery run. */
  datatype Network = Network(
    onvifHosts: Option<seq<Option<string>>>,   // None: WS-Discovery unavailable or failed
    localIp: Option<string>,                   // None: no local address
    open: (string, int) -> bool,               // which connections succeed
    scanFails: bool)                           // the scan raised

  /** The scan's contribution: nothing without a subnet or when it raised. */
  function ScanPart(net: Network): seq<DiscoveredCamera> {
    var subnet := LocalSubnet(net.localIp);
    if subnet.Some? && !net.scanFails then ScanSubnet(subnet.value, None, net.open) else []
  }

  /** `discover`: ONVIF results first, then each scan result whose ip is new. */
  function Discover(net: Network): (r: seq<DiscoveredCamera>)
    ensures DistinctIps(r)
    ensures var onvif := DiscoverOnvif(net.onvifHosts);
      |onvif| <= |r| && r[..|onvif|] == onvif
    ensures var onvif := DiscoverOnvif(net.onvifHosts);
      forall j :: |onvif| <= j < |r| ==> r[j] in ScanPart(net) && !HasIp(onvif, r[j].ip)
    ensures forall ip :: HasIp(r, ip) <==> HasIp(DiscoverOnvif(net.onvifHosts), ip) || HasIp(ScanPart(net), ip)
  {
    var onvif := DiscoverOnvif(net.onvifHosts);
    var scan := ScanPart(net);
    var r := Dedupe(onvif, scan);
    DedupeDistinct(onvif, scan);
    forall ip ensures HasIp(r, ip) <==> HasIp(onvif, ip) || HasIp(scan, ip) {
      DedupeCovers(onvif, scan, ip);
    }
    forall j | |onvif| <= j < |r| ensures r[j] in scan {
      DedupeKeepsFirst(onvif, scan, j);
    }
    r
  }

  /** The merge is one de-duplication over both lists, ONVIF first. */
  lemma DiscoverIsUnique(net: Network)
    ensures Discover(net) == Unique(DiscoverOnvif(net.onvifHosts) + ScanPart(net))
  {
    var onvif := DiscoverOnvif(net.onvifHosts);
    DedupeAppend([], onvif, ScanPart(net));
    assert [] + onvif == onvif;
    DedupeOfDistinct([], onvif);
  }

  /** Without ONVIF the result is the scan's; a failing scan leaves the ONVIF
      results alone. */
  lemma SourcesIsolated(net: Network)
    ensures net.onvifHosts.None? ==> Discover(net) == ScanPart(net)
    ensures net.scanFails ==> Discover(net) == DiscoverOnvif(net.onvifHosts)
  {
    var scan := ScanPart(net);
    if net.onvifHosts.None? {
      assert [] + scan == scan;
      var subnet := LocalSubnet(net.localIp);
      if subnet.Some? && !net.scanFails {
        assert DistinctIps(scan);
      }
      DedupeOfDistinct([], scan);
    }
  }
}
