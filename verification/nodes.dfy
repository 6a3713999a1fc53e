/** NodeManager of distributed-app.js: the list of connected peer nodes and
    the scanNodes discovery pass. The asynchronous probes are modelled as a
    sequence of outcomes in the order their callbacks ran. */
module Nodes {
  import opened Wrappers
  import opened Text
  import opened Proxies
  import opened Objects

  /** No element occurs twice. */
  predicate NoDup<T(==)>(s: seq<T>) {
    forall i, j :: 0 <= i < j < |s| ==> s[i] != s[j]
  }

  /** `Array.prototype.indexOf`: the first position of `x`, or -1. */
  function IndexOf(s: seq<Url>, x: Url): (r: int)
    ensures -1 <= r < |s|
    ensures r == -1 <==> x !in s
    ensures 0 <= r ==> s[r] == x && x !in s[..r]
    decreases |s|
  {
    if |s| == 0 then -1
    else if s[0] == x then 0
    else
      var k := IndexOf(s[1..], x);
      if k == -1 then -1
      else
        TailPrefix(s, k);
        k + 1
  }

  /** The first `k` elements of the tail are elements 1 to `k` of `s`. */
  lemma TailPrefix(s: seq<Url>, k: nat)
    requires k < |s|
    ensures s[1..][..k] == s[1..k + 1]
  {
  }

  /** connect: appends `url` unless it is already listed. */
  function Connect(nodes: seq<Url>, url: Url): (r: seq<Url>)
    ensures forall x :: x in r <==> x in nodes || x == url
    ensures url in nodes ==> r == nodes
    ensures nodes <= r && |r| <= |nodes| + 1
    ensures NoDup(nodes) ==> NoDup(r)
  {
    if IndexOf(nodes, url) == -1 then nodes + [url] else nodes
  }

  /** A repeated connect changes nothing. */
  lemma ConnectIdempotent(nodes: seq<Url>, url: Url)
    ensures Connect(Connect(nodes, url), url) == Connect(nodes, url)
  {
  }

  /** The node list together with the object directory it cascades into. */
  datatype Peers = Peers(nodes: seq<Url>, dir: Directory)

  /** disconnect: removes a listed `url` and reverts every object running
      there to local; an unlisted `url` is ignored. */
  function Disconnect(nodes: seq<Url>, dir: Directory, url: Url): (r: Peers)
    ensures url !in nodes ==> r == Peers(nodes, dir)
    ensures |r.nodes| == if url in nodes then |nodes| - 1 else |nodes|
    ensures NoDup(nodes) ==> NoDup(r.nodes)
    ensures NoDup(nodes) ==> forall x :: x in r.nodes <==> x in nodes && x != url
    ensures r.dir.Keys == dir.Keys
    ensures url in nodes ==> forall n :: n in dir && dir[n].url == Some(url) ==> r.dir[n] == Running
    ensures forall n :: n in dir && dir[n].url != Some(url) ==> r.dir[n] == dir[n]
  {
    var index := IndexOf(nodes, url);
    if index != -1 then
      var rest := nodes[..index] + nodes[index + 1..];
      RemoveAt(nodes, index);
      Peers(rest, UnregisterAll(dir, Some(url)))
    else
      Peers(nodes, dir)
  }

  /** Removing one position keeps every other element; in a list without
      duplicates it removes exactly the element held there. */
  lemma RemoveAt(nodes: seq<Url>, index: nat)
    requires index < |nodes|
    ensures var rest := nodes[..index] + nodes[index + 1..];
      && (forall x :: x in rest ==> x in nodes)
      && (forall x :: x in nodes && x != nodes[index] ==> x in rest)
      && (NoDup(nodes) ==> NoDup(rest) && nodes[index] !in rest)
  {
    var rest := nodes[..index] + nodes[index + 1..];
    assert forall i :: 0 <= i < |rest| ==> rest[i] == if i < index then nodes[i] else nodes[i + 1];
    forall x | x in nodes && x != nodes[index]
      ensures x in rest
    {
      var i :| 0 <= i < |nodes| && nodes[i] == x;
      if i < index { assert rest[i] == x; } else { assert rest[i - 1] == x; }
    }
  }

  /** The scanned port range of the source. */
  const StartPort: nat := 3000
  const EndPort: nat := 3010

  /** `'http://localhost:' + port`. */
  function PortUrl(port: nat): (url: Url)
    ensures |url| > 17 && url[..17] == "http://localhost:"
    ensures AllDigits(url[17..]) && ParseNat(url[17..]) == port
  {
    var url := "http://localhost:" + NatToString(port);
    assert url[17..] == NatToString(port);
    ParseNatToString(port);
    url
  }

  /** Different ports give different urls. */
  lemma PortUrlInjective(a: nat, b: nat)
    ensures PortUrl(a) == PortUrl(b) ==> a == b
  {
    var prefix := "http://localhost:";
    if PortUrl(a) == PortUrl(b) {
      assert PortUrl(a)[|prefix|..] == NatToString(a);
      assert PortUrl(b)[|prefix|..] == NatToString(b);
      NatToStringInjective(a, b);
    }
  }

  /** The result of the port loop: the ports probed, and the `unchecked`
      counter after the loop's own decrements. */
  datatype Sweep = Sweep(ports: seq<nat>, unchecked: int)

  /** The `for` loop of scanNodes from `port` to EndPort: every port but
      `myPort` gets a probe, and `myPort` only decrements `unchecked`. */
  function SweepPorts(port: nat, myPort: Option<nat>, unchecked: int): (r: Sweep)
    requires port <= EndPort + 1
    ensures r.unchecked == unchecked - (EndPort + 1 - port) + |r.ports|
    ensures |r.ports| == EndPort + 1 - port - (if myPort.Some? && port <= myPort.value <= EndPort then 1 else 0)
    ensures forall i :: 0 <= i < |r.ports| ==> port <= r.ports[i] <= EndPort && Some(r.ports[i]) != myPort
    ensures forall p: nat :: port <= p <= EndPort && Some(p) != myPort ==> p in r.ports
    ensures forall i, j :: 0 <= i < j < |r.ports| ==> r.ports[i] < r.ports[j]
    decreases EndPort + 1 - port
  {
    if port > EndPort then Sweep([], unchecked)
    else if Some(port) != myPort then
      var rest := SweepPorts(port + 1, myPort, unchecked);
      Sweep([port] + rest.ports, rest.unchecked)
    else
      SweepPorts(port + 1, myPort, unchecked - 1)
  }

  /** The sweep of the whole range, starting from the range's size. */
  function FullSweep(myPort: Option<nat>): Sweep {
    SweepPorts(StartPort, myPort, EndPort - StartPort + 1)
  }

  /** How many ports scanNodes probes: the range, less `myPort` when it
      lies inside. */
  function CandidateCount(myPort: Option<nat>): nat {
    EndPort + 1 - StartPort - (if myPort.Some? && StartPort <= myPort.value <= EndPort then 1 else 0)
  }

  /** After the loop, `unchecked` equals the number of probes it issued. */
  lemma FullSweepCount(myPort: Option<nat>)
    ensures FullSweep(myPort).unchecked == |FullSweep(myPort).ports| == CandidateCount(myPort)
  {
  }

  /** The outcome of one identity probe: whether `url` answered as a
      distributed-app node. */
  datatype Probe = Probe(url: Url, isDapp: bool)

  /** The state scanNodes threads through its probe callbacks: the node list,
      the directory, the two reports, the `unchecked` counter and how often
      the completion callback has fired. */
  datatype ScanState = ScanState(
    nodes: seq<Url>,
    dir: Directory,
    connected: seq<Url>,
    disconnected: seq<Url>,
    unchecked: int,
    completions: nat)

  /** One probe callback of scanNodes: an answering url that is not listed
      is connected and reported; a silent url that is listed is
      disconnected, with its objects reverted to local, and reported;
      either way `unchecked` drops by one and the completion fires when it
      reaches zero. */
  function ProbeStep(s: ScanState, p: Probe): (r: ScanState)
    ensures r.unchecked == s.unchecked - 1
    ensures r.completions == s.completions + (if r.unchecked == 0 then 1 else 0)
    ensures p.isDapp ==> r.disconnected == s.disconnected && r.dir == s.dir
    ensures p.isDapp && p.url !in s.nodes ==> r.nodes == s.nodes + [p.url] && r.connected == s.connected + [p.url]
    ensures p.isDapp && p.url in s.nodes ==> r.nodes == s.nodes && r.connected == s.connected
    ensures !p.isDapp ==> r.connected == s.connected
    ensures !p.isDapp && p.url !in s.nodes ==>
      r.nodes == s.nodes && r.disconnected == s.disconnected && r.dir == s.dir
    ensures !p.isDapp && p.url in s.nodes ==>
      && r.disconnected == s.disconnected + [p.url]
      && |r.nodes| == |s.nodes| - 1
      && (NoDup(s.nodes) ==> forall u :: u in r.nodes <==> u in s.nodes && u != p.url)
      && r.dir.Keys == s.dir.Keys
      && forall n :: n in s.dir ==> r.dir[n] == if s.dir[n].url == Some(p.url) then Running else s.dir[n]
  {
    var s1 :=
      if p.isDapp then
        if IndexOf(s.nodes, p.url) == -1 then
          s.(nodes := Connect(s.nodes, p.url), connected := s.connected + [p.url])
        else s
      else
        if IndexOf(s.nodes, p.url) != -1 then
          var q := Disconnect(s.nodes, s.dir, p.url);
          s.(nodes := q.nodes, dir := q.dir, disconnected := s.disconnected + [p.url])
        else s;
    var left := s1.unchecked - 1;
    s1.(unchecked := left, completions := if left == 0 then s1.completions + 1 else s1.completions)
  }

  /** The probe callbacks, run in the order of `probes`: each one lowers the
      counter, the reports only grow, and no directory entry is added or
      deleted. */
  function ScanFold(s: ScanState, probes: seq<Probe>): (r: ScanState)
    ensures r.unchecked == s.unchecked - |probes|
    ensures s.connected <= r.connected && s.disconnected <= r.disconnected
    ensures s.completions <= r.completions
    ensures r.dir.Keys == s.dir.Keys
    decreases |probes|
  {
    if |probes| == 0 then s else ScanFold(ProbeStep(s, probes[0]), probes[1..])
  }

  /** No url is probed twice. */
  predicate DistinctUrls(probes: seq<Probe>) {
    forall i, j :: 0 <= i < j < |probes| ==> probes[i].url != probes[j].url
  }

  /** `ports` is an order in which the probe callbacks can run: every port
      of the range except `myPort` answers exactly once. */
  predicate IsArrivalOrder(ports: seq<nat>, myPort: Option<nat>) {
    && |ports| == CandidateCount(myPort)
    && (forall i :: 0 <= i < |ports| ==> StartPort <= ports[i] <= EndPort && Some(ports[i]) != myPort)
    && NoDup(ports)
  }

  /** A sequence without repetitions holds each port at most once. */
  lemma {:induction false} DistinctOnce(s: seq<nat>, p: nat)
    requires NoDup(s)
    ensures multiset(s)[p] <= 1
    decreases |s|
  {
    if |s| > 0 {
      var t := s[1..];
      assert NoDup(t);
      DistinctOnce(t, p);
      assert s == [s[0]] + t;
      if p == s[0] {
        assert p !in t by {
          forall k | 0 <= k < |t|
            ensures t[k] != p
          {
            assert t[k] == s[k + 1];
          }
        }
      }
    }
  }

  /** A sub-multiset as large as its super-multiset is all of it. */
  lemma SubMultisetSameSize(a: multiset<nat>, b: multiset<nat>)
    requires a <= b && |a| == |b|
    ensures a == b
  {
    assert b == a + (b - a);
  }

  /** Every arrival order is a permutation of the ports the loop probes. */
  lemma ArrivalOrderIsPermutation(ports: seq<nat>, myPort: Option<nat>)
    requires IsArrivalOrder(ports, myPort)
    ensures multiset(ports) == multiset(FullSweep(myPort).ports)
  {
    var swept := FullSweep(myPort).ports;
    FullSweepCount(myPort);
    forall p
      ensures multiset(ports)[p] <= multiset(swept)[p]
    {
      DistinctOnce(ports, p);
    }
    SubMultisetSameSize(multiset(ports), multiset(swept));
  }

  /** The probe outcomes: the i-th callback to run is for `ports[i]`, and
      `answers[i]` says whether a distributed-app node answered there. */
  function Probes(ports: seq<nat>, answers: seq<bool>): (probes: seq<Probe>)
    requires |answers| == |ports|
    ensures |probes| == |ports|
    ensures forall i :: 0 <= i < |ports| ==> probes[i] == Probe(PortUrl(ports[i]), answers[i])
  {
    seq(|ports|, i requires 0 <= i < |ports| => Probe(PortUrl(ports[i]), answers[i]))
  }

  /** Distinct ports are probed at distinct urls, none of them this node's. */
  lemma ProbesDistinct(ports: seq<nat>, answers: seq<bool>, myPort: Option<nat>)
    requires IsArrivalOrder(ports, myPort) && |answers| == |ports|
    ensures DistinctUrls(Probes(ports, answers))
    ensures myPort.Some? ==> forall b :: Probe(PortUrl(myPort.value), b) !in Probes(ports, answers)
  {
    var probes := Probes(ports, answers);
    forall i, j | 0 <= i < j < |probes|
      ensures probes[i].url != probes[j].url
    {
      PortUrlInjective(ports[i], ports[j]);
    }
    if myPort.Some? {
      forall b
        ensures Probe(PortUrl(myPort.value), b) !in probes
      {
        forall i | 0 <= i < |probes|
          ensures probes[i].url != PortUrl(myPort.value)
        {
          PortUrlInjective(ports[i], myPort.value);
        }
      }
    }
  }

  /** The counter drops by one per callback, and the completion fires once
      exactly when the counter passes through zero. */
  lemma {:induction false} CountDown(s: ScanState, probes: seq<Probe>)
    ensures ScanFold(s, probes).unchecked == s.unchecked - |probes|
    ensures ScanFold(s, probes).completions
         == s.completions + (if 1 <= s.unchecked <= |probes| then 1 else 0)
    decreases |probes|
  {
    if |probes| > 0 {
      CountDown(ProbeStep(s, probes[0]), probes[1..]);
    }
  }

  /** A url in a report was probed with the matching outcome. */
  lemma {:induction false} ReportsFromProbes(s: ScanState, probes: seq<Probe>)
    ensures forall u :: u in ScanFold(s, probes).connected ==> u in s.connected || Probe(u, true) in probes
    ensures forall u :: u in ScanFold(s, probes).disconnected ==> u in s.disconnected || Probe(u, false) in probes
    decreases |probes|
  {
    if |probes| > 0 {
      ReportsFromProbes(ProbeStep(s, probes[0]), probes[1..]);
      assert probes == [probes[0]] + probes[1..];
    }
  }

  /** With distinct urls, the first probe's url is never probed again. */
  lemma FirstProbeUnique(probes: seq<Probe>)
    requires |probes| > 0 && DistinctUrls(probes)
    ensures DistinctUrls(probes[1..])
    ensures forall b :: Probe(probes[0].url, b) !in probes[1..]
    ensures forall u, b :: Probe(u, b) in probes <==> probes[0] == Probe(u, b) || Probe(u, b) in probes[1..]
  {
    assert probes == [probes[0]] + probes[1..];
  }

  /** The node list after a pass: a positively probed url is listed, a
      negatively probed one is not, and an unprobed one keeps its status. */
  lemma {:induction false} ScanNodesList(s: ScanState, probes: seq<Probe>)
    requires NoDup(s.nodes) && DistinctUrls(probes)
    ensures NoDup(ScanFold(s, probes).nodes)
    ensures forall u :: (u in ScanFold(s, probes).nodes
      <==> (u in s.nodes && Probe(u, false) !in probes) || Probe(u, true) in probes)
    decreases |probes|
  {
    if |probes| > 0 {
      var s1 := ProbeStep(s, probes[0]);
      FirstProbeUnique(probes);
      ScanNodesList(s1, probes[1..]);
      assert forall u :: u != probes[0].url ==> (u in s1.nodes <==> u in s.nodes);
    }
  }

  /** The reports of a pass: a url is reported connected iff it answered and
      was not listed before, and disconnected iff it did not answer but was
      listed before. */
  lemma {:induction false} ScanNodesReports(s: ScanState, probes: seq<Probe>)
    requires NoDup(s.nodes) && DistinctUrls(probes)
    ensures forall u :: (u in ScanFold(s, probes).connected
      <==> u in s.connected || (Probe(u, true) in probes && u !in s.nodes))
    ensures forall u :: (u in ScanFold(s, probes).disconnected
      <==> u in s.disconnected || (Probe(u, false) in probes && u in s.nodes))
    decreases |probes|
  {
    if |probes| > 0 {
      var s1 := ProbeStep(s, probes[0]);
      FirstProbeUnique(probes);
      ScanNodesReports(s1, probes[1..]);
      assert forall u :: u != probes[0].url ==> (u in s1.nodes <==> u in s.nodes);
      assert forall u :: u in s1.connected <==> u in s.connected || (u == probes[0].url && probes[0].isDapp && u !in s.nodes);
      assert forall u :: u in s1.disconnected <==> u in s.disconnected || (u == probes[0].url && !probes[0].isDapp && u in s.nodes);
    }
  }

  /** An entry is reverted by a pass when its url was listed and then failed
      its probe. */
  predicate DroppedBy(url: Option<Url>, nodes: seq<Url>, probes: seq<Probe>) {
    url.Some? && url.value in nodes && Probe(url.value, false) in probes
  }

  /** The directory after a pass: exactly the entries located at a dropped
      node are reverted to local; nothing is added or deleted. */
  lemma {:induction false} ScanNodesDirectory(s: ScanState, probes: seq<Probe>)
    requires NoDup(s.nodes) && DistinctUrls(probes)
    ensures ScanFold(s, probes).dir.Keys == s.dir.Keys
    ensures forall n :: n in s.dir ==>
      ScanFold(s, probes).dir[n] == if DroppedBy(s.dir[n].url, s.nodes, probes) then Running else s.dir[n]
    decreases |probes|
  {
    if |probes| > 0 {
      var s1 := ProbeStep(s, probes[0]);
      FirstProbeUnique(probes);
      ScanNodesDirectory(s1, probes[1..]);
      assert forall u :: u != probes[0].url ==> (u in s1.nodes <==> u in s.nodes);
    }
  }

  /** The state before the first probe callback runs. */
  function ScanStart(nodes: seq<Url>, dir: Directory, myPort: Option<nat>): ScanState {
    ScanState(nodes, dir, [], [], FullSweep(myPort).unchecked, 0)
  }

  /** scanNodes: probes every port of the range except `myPort`, connects
      new nodes and disconnects lost ones. The completion fires exactly once,
      after the last callback; the two reports are disjoint, name only
      probed urls, and never name this node's own url. */
  function ScanNodes(nodes: seq<Url>, dir: Directory, myPort: Option<nat>, ports: seq<nat>, answers: seq<bool>): (r: ScanState)
    requires IsArrivalOrder(ports, myPort) && |answers| == |ports|
    ensures r.completions == 1 && r.unchecked == 0
    ensures forall k :: 0 <= k < |ports| ==>
      ScanFold(ScanStart(nodes, dir, myPort), Probes(ports, answers)[..k]).completions == 0
    ensures forall u :: u in r.connected ==> Probe(u, true) in Probes(ports, answers) && u !in r.disconnected
    ensures forall u :: u in r.disconnected ==> Probe(u, false) in Probes(ports, answers)
    ensures myPort.Some? ==> PortUrl(myPort.value) !in r.connected && PortUrl(myPort.value) !in r.disconnected
    ensures r.dir.Keys == dir.Keys
  {
    var probes := Probes(ports, answers);
    var start := ScanStart(nodes, dir, myPort);
    var r := ScanFold(start, probes);
    FullSweepCount(myPort);
    CountDown(start, probes);
    assert forall k :: 0 <= k < |probes| ==> ScanFold(start, probes[..k]).completions == 0 by {
      forall k | 0 <= k < |probes| {
        CountDown(start, probes[..k]);
      }
    }
    ReportsFromProbes(start, probes);
    ProbesDistinct(ports, answers, myPort);
    r
  }

  /** What a pass does to the node list and the directory, for a node list
      without duplicates (which connect maintains). */
  lemma ScanNodesEffect(nodes: seq<Url>, dir: Directory, myPort: Option<nat>, ports: seq<nat>, answers: seq<bool>)
    requires IsArrivalOrder(ports, myPort) && |answers| == |ports|
    requires NoDup(nodes)
    ensures var r := ScanNodes(nodes, dir, myPort, ports, answers);
      var probes := Probes(ports, answers);
      && NoDup(r.nodes)
      && (forall u :: u in r.nodes <==> (u in nodes && Probe(u, false) !in probes) || Probe(u, true) in probes)
      && (forall u :: u in r.connected <==> Probe(u, true) in probes && u !in nodes)
      && (forall u :: u in r.disconnected <==> Probe(u, false) in probes && u in nodes)
      && r.dir.Keys == dir.Keys
      && (forall n :: n in dir ==> r.dir[n] == if DroppedBy(dir[n].url, nodes, probes) then Running else dir[n])
  {
    var start := ScanStart(nodes, dir, myPort);
    var probes := Probes(ports, answers);
    ProbesDistinct(ports, answers, myPort);
    ScanNodesList(start, probes);
    ScanNodesReports(start, probes);
    ScanNodesDirectory(start, probes);
  }

  /** A node reported as disconnected is no longer in the node list. */
  lemma ScanNodesDropsReported(nodes: seq<Url>, dir: Directory, myPort: Option<nat>, ports: seq<nat>, answers: seq<bool>)
    requires IsArrivalOrder(ports, myPort) && |answers| == |ports|
    requires NoDup(nodes)
    ensures forall u :: u in ScanNodes(nodes, dir, myPort, ports, answers).disconnected ==>
      u !in ScanNodes(nodes, dir, myPort, ports, answers).nodes
  {
    var start := ScanStart(nodes, dir, myPort);
    ProbesDistinct(ports, answers, myPort);
    ScanNodesList(start, Probes(ports, answers));
    ScanNodesReports(start, Probes(ports, answers));
  }
}
