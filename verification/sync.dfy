/** The scanObjects pass of NodeManager in distributed-app.js: each connected
    peer's listing of its local objects is merged into the directory. The
    asynchronous replies are modelled as a sequence in arrival order. */
module Sync {
  import opened Wrappers
  import opened Proxies
  import opened Objects
  import opened Nodes

  /** One row of a peer's `/objects?remote=false` response. A peer lists
      its local objects, whose url is absent. */
  datatype Listed = Listed(name: string, url: Option<Url>)

  /** What the listing request to one peer yielded. */
  datatype Fetch = Failed | Fetched(objects: seq<Listed>)

  /** The names a listing mentions. */
  function Names(objs: seq<Listed>): set<string>
    decreases |objs|
  {
    if |objs| == 0 then {} else {objs[0].name} + Names(objs[1..])
  }

  lemma {:induction false} NamesMember(objs: seq<Listed>, i: nat)
    requires i < |objs|
    ensures objs[i].name in Names(objs)
    decreases i
  {
    if i > 0 {
      NamesMember(objs[1..], i - 1);
    }
  }

  predicate UniqueNames(objs: seq<Listed>) {
    forall i, j :: 0 <= i < j < |objs| ==> objs[i].name != objs[j].name
  }

  /** `remoteObject.url || url`: the listed url unless it is absent or empty. */
  function OrElse(url: Option<Url>, peer: Url): Url {
    if url.Some? && url.value != "" then url.value else peer
  }

  /** The first loop of the callback: every entry located at `peer` whose
      name the listing no longer mentions is reverted to local. */
  function RevertMissing(d: Directory, peer: Url, objs: seq<Listed>): (r: Directory)
    ensures r.Keys == d.Keys
    ensures forall n :: n in d ==>
      r[n] == if d[n].url == Some(peer) && n !in Names(objs) then Running else d[n]
    ensures ValidDirectory(d) ==> ValidDirectory(r)
  {
    map n | n in d :: if d[n].url == Some(peer) && n !in Names(objs) then SetUrl(d[n], None) else d[n]
  }

  /** The source's first loop unregisters, name by name, the entries that
      findAll reports at the peer and the listing omits; in any order that
      visits each of them, that is `RevertMissing`. */
  lemma RevertMissingIsSourceLoop(d: Directory, peer: Url, objs: seq<Listed>, names: seq<string>)
    requires forall i :: 0 <= i < |names| ==> names[i] in FindAll(d, Some(peer)) && names[i] !in Names(objs)
    requires forall n :: n in FindAll(d, Some(peer)) && n !in Names(objs) ==> n in names
    ensures UnregisterEach(d, names, Some(peer)) == Ok(RevertMissing(d, peer, objs))
  {
    UnregisterEachReverts(d, names, Some(peer));
    assert RevertAmong(d, names, Some(peer)) == RevertMissing(d, peer, objs);
  }

  /** The guard of the second loop: the listed object is unknown or known
      at another url, and it is not reported as running on this node. */
  function ShouldRegister(d: Directory, o: Listed, myUrl: Option<Url>): (b: bool)
    ensures b ==> o.url != myUrl
    ensures o.name !in d && o.url != myUrl ==> b
    ensures !b && o.url != myUrl ==> Register(d, o.name, o.url) == d
  {
    (o.name !in d || o.url != d[o.name].url) && o.url != myUrl
  }

  /** The entry the second loop leaves for `o` when nothing before it in the
      listing touched that name. */
  function Registered(d: Directory, o: Listed, peer: Url, myUrl: Option<Url>): (r: Option<ObjectProxy>)
    ensures ShouldRegister(d, o, myUrl) ==> r.Some? && r.value.url == Some(OrElse(o.url, peer))
    ensures !ShouldRegister(d, o, myUrl) ==> r == Find(d, o.name)
  {
    if ShouldRegister(d, o, myUrl) then Some(Register(d, o.name, Some(OrElse(o.url, peer)))[o.name])
    else Find(d, o.name)
  }

  /** The second loop of the callback, over the listing in order. */
  function RegisterListed(d: Directory, peer: Url, myUrl: Option<Url>, objs: seq<Listed>): (r: Directory)
    ensures d.Keys <= r.Keys
    ensures ValidDirectory(d) ==> ValidDirectory(r)
    decreases |objs|
  {
    if |objs| == 0 then d
    else
      var o := objs[0];
      var d1 := if ShouldRegister(d, o, myUrl) then Register(d, o.name, Some(OrElse(o.url, peer))) else d;
      RegisterListed(d1, peer, myUrl, objs[1..])
  }

  /** The entry `Registered` yields depends only on the entry of that name. */
  lemma RegisteredFrame(d: Directory, d': Directory, o: Listed, peer: Url, myUrl: Option<Url>)
    requires Find(d, o.name) == Find(d', o.name)
    ensures Registered(d, o, peer, myUrl) == Registered(d', o, peer, myUrl)
  {
  }

  /** Names the listing does not mention are untouched by the second loop. */
  lemma {:induction false} RegisterListedOthers(d: Directory, peer: Url, myUrl: Option<Url>, objs: seq<Listed>, n: string)
    requires n !in Names(objs)
    ensures Find(RegisterListed(d, peer, myUrl, objs), n) == Find(d, n)
    decreases |objs|
  {
    if |objs| > 0 {
      var o := objs[0];
      var d1 := if ShouldRegister(d, o, myUrl) then Register(d, o.name, Some(OrElse(o.url, peer))) else d;
      RegisterListedOthers(d1, peer, myUrl, objs[1..], n);
    }
  }

  /** For a listing without repeated names, each listed name ends up as
      `Registered` says. */
  lemma {:induction false} RegisterListedListed(d: Directory, peer: Url, myUrl: Option<Url>, objs: seq<Listed>, i: nat)
    requires UniqueNames(objs) && i < |objs|
    ensures Find(RegisterListed(d, peer, myUrl, objs), objs[i].name) == Registered(d, objs[i], peer, myUrl)
    decreases |objs|
  {
    var o := objs[0];
    var d1 := if ShouldRegister(d, o, myUrl) then Register(d, o.name, Some(OrElse(o.url, peer))) else d;
    var rest := objs[1..];
    assert UniqueNames(rest);
    if i == 0 {
      assert o.name !in Names(rest) by {
        if o.name in Names(rest) {
          var k := NameIndex(rest, o.name);
        }
      }
      RegisterListedOthers(d1, peer, myUrl, rest, o.name);
    } else {
      assert objs[i] == rest[i - 1];
      RegisterListedListed(d1, peer, myUrl, rest, i - 1);
      RegisteredFrame(d, d1, objs[i], peer, myUrl);
    }
  }

  /** A position at which a mentioned name is listed. */
  lemma {:induction false} NameIndex(objs: seq<Listed>, n: string) returns (k: nat)
    requires n in Names(objs)
    ensures k < |objs| && objs[k].name == n
    decreases |objs|
  {
    if objs[0].name == n {
      k := 0;
    } else {
      var k1 := NameIndex(objs[1..], n);
      k := k1 + 1;
    }
  }

  /** The body of the scanObjects callback for one peer. A failed request
      reverts every entry at the peer; a listing reverts the entries it no
      longer mentions and registers the ones it adds or moves. */
  function SyncPeer(d: Directory, peer: Url, myUrl: Option<Url>, fetch: Fetch): (r: Directory)
    ensures d.Keys <= r.Keys
    ensures fetch.Failed? ==> r.Keys == d.Keys
    ensures fetch.Failed? ==> forall n :: n in d ==>
      r[n] == if d[n].url == Some(peer) then Running else d[n]
    ensures ValidDirectory(d) ==> ValidDirectory(r)
  {
    match fetch
    case Failed => UnregisterAll(d, Some(peer))
    case Fetched(objs) => RegisterListed(RevertMissing(d, peer, objs), peer, myUrl, objs)
  }

  /** What a listing does to the directory, for a listing without repeated
      names: unlisted entries at the peer revert and other unlisted entries
      stay; a listed object that is new or has moved is registered at its
      listed url (the peer's url when that is absent or empty), unless it is
      reported at this node's own url, and otherwise its entry stays. */
  lemma SyncPeerListing(d: Directory, peer: Url, myUrl: Option<Url>, objs: seq<Listed>)
    requires UniqueNames(objs)
    ensures forall n :: n !in Names(objs) ==>
      Find(SyncPeer(d, peer, myUrl, Fetched(objs)), n)
        == (if n !in d then None else if d[n].url == Some(peer) then Some(Running) else Some(d[n]))
    ensures forall i :: 0 <= i < |objs| ==>
      Find(SyncPeer(d, peer, myUrl, Fetched(objs)), objs[i].name) == Registered(d, objs[i], peer, myUrl)
  {
    var d1 := RevertMissing(d, peer, objs);
    var r := SyncPeer(d, peer, myUrl, Fetched(objs));
    forall n | n !in Names(objs)
      ensures Find(r, n) == Find(d1, n)
    {
      RegisterListedOthers(d1, peer, myUrl, objs, n);
    }
    forall i | 0 <= i < |objs|
      ensures Find(r, objs[i].name) == Registered(d, objs[i], peer, myUrl)
    {
      NamesMember(objs, i);
      RegisterListedListed(d1, peer, myUrl, objs, i);
      RegisteredFrame(d, d1, objs[i], peer, myUrl);
    }
  }

  /** Peers list their objects with the url absent, so an object this node
      already runs locally is never taken over by a peer that runs an object
      of the same name. */
  lemma SyncKeepsLocalEntries(d: Directory, peer: Url, myUrl: Option<Url>, objs: seq<Listed>, name: string)
    requires UniqueNames(objs)
    requires forall i :: 0 <= i < |objs| ==> objs[i].url.None?
    requires name in d && d[name].url.None?
    ensures name in SyncPeer(d, peer, myUrl, Fetched(objs))
    ensures SyncPeer(d, peer, myUrl, Fetched(objs))[name] == d[name]
  {
    SyncPeerListing(d, peer, myUrl, objs);
    if name in Names(objs) {
      var i := NameIndex(objs, name);
      assert !ShouldRegister(d, objs[i], myUrl);
    }
  }

  /** The reply to one peer's listing request. */
  datatype PeerReply = PeerReply(peer: Url, fetch: Fetch)

  /** The directory, the `todo` counter, and how often the completion fired. */
  datatype SyncState = SyncState(dir: Directory, todo: int, completions: nat)

  /** One callback of scanObjects: the peer's reply is merged, `todo`
      drops by one, and the completion fires once it is at most zero. */
  function ReplyStep(s: SyncState, myUrl: Option<Url>, reply: PeerReply): (r: SyncState)
    ensures r.todo == s.todo - 1
    ensures r.completions == s.completions + (if r.todo <= 0 then 1 else 0)
    ensures s.dir.Keys <= r.dir.Keys
    ensures ValidDirectory(s.dir) ==> ValidDirectory(r.dir)
    ensures reply.fetch.Failed? ==> r.dir.Keys == s.dir.Keys && forall n :: n in s.dir ==>
      r.dir[n] == if s.dir[n].url == Some(reply.peer) then Running else s.dir[n]
  {
    var left := s.todo - 1;
    SyncState(SyncPeer(s.dir, reply.peer, myUrl, reply.fetch), left,
              if left <= 0 then s.completions + 1 else s.completions)
  }

  /** The scanObjects callbacks, run in the order of `replies`. */
  function SyncFold(s: SyncState, myUrl: Option<Url>, replies: seq<PeerReply>): (r: SyncState)
    ensures r.todo == s.todo - |replies|
    ensures s.completions <= r.completions
    ensures s.dir.Keys <= r.dir.Keys
    ensures ValidDirectory(s.dir) ==> ValidDirectory(r.dir)
    decreases |replies|
  {
    if |replies| == 0 then s else SyncFold(ReplyStep(s, myUrl, replies[0]), myUrl, replies[1..])
  }

  /** While at least as many replies are pending as remain, the completion
      fires once exactly when the counter equals the number of replies. */
  lemma {:induction false} SyncCountDown(s: SyncState, myUrl: Option<Url>, replies: seq<PeerReply>)
    requires s.todo >= |replies|
    ensures SyncFold(s, myUrl, replies).completions
         == s.completions + (if s.todo == |replies| && |replies| > 0 then 1 else 0)
    decreases |replies|
  {
    if |replies| > 0 {
      SyncCountDown(ReplyStep(s, myUrl, replies[0]), myUrl, replies[1..]);
    }
  }

  /** `replies` is an order in which every node of `nodes` answers once. */
  predicate IsReplyOrder(replies: seq<PeerReply>, nodes: seq<Url>) {
    && |replies| == |nodes|
    && (forall i, j :: 0 <= i < j < |replies| ==> replies[i].peer != replies[j].peer)
    && (forall i :: 0 <= i < |replies| ==> replies[i].peer in nodes)
  }

  /** scanObjects: merges every peer's reply; completes exactly once (at
      once when there are no peers), and never deletes an entry. */
  function ScanObjects(nodes: seq<Url>, dir: Directory, myUrl: Option<Url>, replies: seq<PeerReply>): (r: SyncState)
    requires IsReplyOrder(replies, nodes)
    ensures r.completions == 1
    ensures dir.Keys <= r.dir.Keys
    ensures ValidDirectory(dir) ==> ValidDirectory(r.dir)
  {
    if |nodes| == 0 then SyncState(dir, 0, 1)
    else
      var start := SyncState(dir, |nodes|, 0);
      SyncCountDown(start, myUrl, replies);
      SyncFold(start, myUrl, replies)
  }

  /** scan: a discovery pass to completion, then an object pass over the
      nodes that are connected afterwards. The two passes see the node's
      own location separately: `myPort` is read by the port loop when the
      scan starts, `myUrl` by the listing callbacks later, so a scan
      started before the port search finished runs its loop with no port
      and may still see the url set. */
  function Scan(nodes: seq<Url>, dir: Directory, myPort: Option<nat>, myUrl: Option<Url>,
                ports: seq<nat>, answers: seq<bool>, replies: seq<PeerReply>): (r: SyncState)
    requires IsArrivalOrder(ports, myPort) && |answers| == |ports|
    requires IsReplyOrder(replies, ScanNodes(nodes, dir, myPort, ports, answers).nodes)
    ensures r.completions == 1
    ensures dir.Keys <= r.dir.Keys
  {
    var found := ScanNodes(nodes, dir, myPort, ports, answers);
    ScanObjects(found.nodes, found.dir, myUrl, replies)
  }
  /** No node the discovery pass dropped is asked for its objects in the
      same scan. */
  lemma ScanSkipsDropped(nodes: seq<Url>, dir: Directory, myPort: Option<nat>, ports: seq<nat>, answers: seq<bool>,
                         replies: seq<PeerReply>)
    requires IsArrivalOrder(ports, myPort) && |answers| == |ports|
    requires NoDup(nodes)
    requires IsReplyOrder(replies, ScanNodes(nodes, dir, myPort, ports, answers).nodes)
    ensures forall i :: 0 <= i < |replies| ==>
      replies[i].peer !in ScanNodes(nodes, dir, myPort, ports, answers).disconnected
  {
    ScanNodesDropsReported(nodes, dir, myPort, ports, answers);
  }
}
