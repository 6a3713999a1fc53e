# distributed-app: directory and reconciliation core in Dafny

distributed-app lets Node.js processes ("nodes") on one machine share a
namespace of named objects. Each node keeps two registries. The
`ObjectMananger` is a directory from object name to an `ObjectProxy` that
records whether the object runs locally or on another node. The
`NodeManager` is the list of connected peer nodes. A periodic scan probes
the local ports 3000..3010 for other nodes (`scanNodes`), then asks every
connected node for its local objects and merges the listings into the
directory (`scanObjects`). A method call on an object either runs
in-process or is sent as a JSON-RPC request to the node that hosts it.
`jsonrpc` is the receiving side: it maps by-position or by-name `params`
onto the method's argument list and wraps the outcome in a response.

The model is functional: the directory is a `map`, the node list a `seq`,
and every operation is a pure function from the old state to the new one.
The asynchronous probe and listing callbacks become folds over a sequence
of outcomes in the order the callbacks ran.

- `Wrappers`: `Option` (JavaScript `null` and `undefined` are both `None`,
  as the source's loose `==` treats them) and `Result` for thrown errors.
- `Text`: decimal printing of port numbers, and the object-name to
  module-file mapping.
- `Proxies`: the `ObjectProxy` routing state as a url and three flags.
- `Objects`: the directory operations.
- `Nodes`: connect, disconnect and the `scanNodes` pass.
- `Sync`: the `scanObjects` callback, its fold, and `scan`.
- `Rpc`: `jsonrpc` argument mapping, the response, and the envelope the
  remote branch of `call` posts.

The object factory (`require` plus `new constructor()`), the method
signature reader (`getParamNames`), the HTTP requests and the code store
are not modelled. Their results are parameters instead: a probe outcome, a
peer listing or a transport error, and the parameter-name list of a method.

Two behaviours of the code worth stating plainly:
- `unregister` of an unknown name throws a TypeError, because it reads `url`
  of `undefined` (distributed-app.js:601-602). The model returns an error.
- A by-name request that omits a parameter passes `undefined` in that slot
  (distributed-app.js:233-235).

## Model

| member | source | states |
|---|---|---|
| `Proxies.UpdateRouting` | distributed-app.js:100-113 | once an instance exists, its methods forward exactly when the object is not local; without an instance nothing changes |
| `Proxies.GetInstance` | distributed-app.js:119-130 | afterwards an instance exists; a first construction also routes it (forwarding iff remote); an existing instance is left alone |
| `Proxies.SetUrl` | distributed-app.js:86-95 | the entry takes the new url and `isLocal` becomes "url absent"; going local always yields the running local state; the routing invariant is preserved; re-setting the current url of a valid entry changes nothing |
| `Proxies.NewProxy` | distributed-app.js:74-79 | a fresh entry satisfies the routing invariant; a local one is instantiated, a remote one has no instance and no stubs |
| `Proxies.LocalIsRunning` | distributed-app.js:86-95 | an entry satisfying the invariant is local iff it is exactly the running local state |
| `Proxies.SetUrlIdempotent` | distributed-app.js:86-95 | setting the same url twice equals setting it once |
| `Proxies.RemoteRoundTrip` | distributed-app.js:86-113 | moving a local entry to a url and back restores it exactly: the instance survives and the stubs are removed |
| `Objects.Find` | distributed-app.js:499-501 | an entry comes back iff the name is registered, and it is that name's entry |
| `Objects.FindAll` | distributed-app.js:510-522 | exactly the entries whose url equals the given url, unchanged |
| `Objects.Start` | distributed-app.js:529-545 | an existing entry is returned and the directory is unchanged; otherwise exactly one new running-local entry is added and all others stay |
| `Objects.Get` | distributed-app.js:668-681 | never yields a missing entry; an existing entry comes back unchanged; an unknown name gets one new local entry |
| `Objects.Stop` | distributed-app.js:551-562 | succeeds iff the entry exists and is local, then deletes only that entry; otherwise fails with the stop error |
| `Objects.Register` | distributed-app.js:569-593 | afterwards the entry exists at the given url and is local iff the url is absent; other names are unchanged; re-registering the current url is a no-op; a new remote entry has no instance; validity is preserved |
| `Objects.Unregister` | distributed-app.js:600-609 | fails iff the name is unknown; with a matching url the entry becomes running-local; with another url nothing changes; other names are untouched |
| `Objects.UnregisterEach` | distributed-app.js:615-622 | the name-by-name loop fails exactly when it meets an unknown name, reporting one of the names it was given, and never adds or deletes an entry |
| `Objects.UnregisterAll` | distributed-app.js:615-622 | every entry at the url becomes running-local, every other entry is unchanged, and no entry is added or deleted |
| `Objects.UnregisterEachReverts` | distributed-app.js:615-622 | calling unregister name by name reverts exactly the visited entries located at the url |
| `Objects.UnregisterAllSequential` | distributed-app.js:615-622 | unregistering each name in any order that visits every entry equals unregisterAll |
| `Objects.RegisterIdempotent` | distributed-app.js:569-593 | repeating a register leaves the directory unchanged |
| `Objects.RegisterUnregisterRoundTrip` | distributed-app.js:569-609 | register then unregister at the same url leaves the entry running locally, a later get adds nothing, and an entry that was local comes back exactly |
| `Objects.StopUndoesStart` | distributed-app.js:529-562 | stopping a freshly started object restores the directory |
| `Objects.List` | distributed-app.js:640-660 | a summary is listed iff its entry is local with `local` on or remote with `remote` on, both defaulting to true; every listed row matches its entry |
| `Objects.ListPartition` | distributed-app.js:640-660 | the local-only and remote-only listings are disjoint and together form the default listing; with both flags off the listing is empty |
| `Nodes.IndexOf` | distributed-app.js:276 | -1 iff absent; otherwise the first position holding the url |
| `Nodes.Connect` | distributed-app.js:274-282 | the url is listed afterwards; a listed url changes nothing; order is kept; the list stays duplicate-free |
| `Nodes.ConnectIdempotent` | distributed-app.js:274-282 | a repeated connect changes nothing |
| `Nodes.Disconnect` | distributed-app.js:288-298 | an unlisted url changes nothing; a listed one is removed (exactly that url, for a duplicate-free list) and every directory entry at it becomes local, while other entries stay and none is deleted |
| `Nodes.PortUrl` | distributed-app.js:324 | a probed url is `http://localhost:` followed by decimal digits from which the port reads back |
| `Nodes.PortUrlInjective` | distributed-app.js:324 | different ports give different node urls |
| `Nodes.SweepPorts` | distributed-app.js:317-357 | the port loop probes each port of the range except `myPort`, in increasing order, and leaves `unchecked` equal to the number of probes |
| `Nodes.ProbesDistinct` | distributed-app.js:322-324 | distinct ports are probed at distinct urls, none of them `'http://localhost:' + myPort` |
| `Nodes.ArrivalOrderIsPermutation` | distributed-app.js:322-353 | any order in which the probe callbacks can run is a permutation of the ports the loop probes |
| `Nodes.ProbeStep` | distributed-app.js:326-350 | one callback: an answering unlisted url is appended to the list and to `connected`; a silent listed url leaves the list, its objects revert to local and it joins `disconnected`; otherwise nothing changes; `unchecked` drops by one and the completion fires when it reaches zero |
| `Nodes.ScanFold` | distributed-app.js:322-353 | the callbacks together lower `unchecked` by their number, only extend the reports, and neither add nor delete a directory entry |
| `Nodes.CountDown` | distributed-app.js:342-350 | each callback lowers `unchecked` by one and the completion fires once exactly when it reaches zero |
| `Nodes.ReportsFromProbes` | distributed-app.js:326-340 | a reported connected url answered as a node; a reported disconnected url did not |
| `Nodes.ScanNodesList` | distributed-app.js:326-340 | after a pass a url is listed iff it answered, or it was listed and was not probed negatively; the list stays duplicate-free |
| `Nodes.ScanNodesReports` | distributed-app.js:326-340 | connected iff it answered and was not listed; disconnected iff it did not answer and was listed |
| `Nodes.ScanNodesDirectory` | distributed-app.js:335-338 | exactly the entries located at a dropped node revert to local; no entry is added or deleted |
| `Nodes.ScanNodes` | distributed-app.js:316-358 | the completion fires exactly once, after the last callback and not before; the reports are disjoint and name only probed urls; once `myPort` is known they never name this node's own url; no entry is added or deleted |
| `Nodes.ScanNodesEffect` | distributed-app.js:316-358 | the node list, both reports and the directory after a full pass, relative to the state before it |
| `Nodes.ScanNodesDropsReported` | distributed-app.js:335-338 | a url reported disconnected is no longer listed |
| `Sync.RevertMissing` | distributed-app.js:384-399 | the entries at the peer whose names the listing omits become local; all others stay |
| `Sync.RevertMissingIsSourceLoop` | distributed-app.js:384-399 | unregistering, in any order, each entry that findAll reports at the peer and the listing omits has exactly the effect of `RevertMissing` |
| `Sync.ShouldRegister` | distributed-app.js:404-406 | a listed object is registered only when it is not reported at this node's own url; an unknown one always is; a skipped one would not change the directory if registered at its listed url |
| `Sync.Registered` | distributed-app.js:402-409 | a listed object that is new or moved, and not reported at this node's url, gets the listed url (the peer's when absent or empty); otherwise its entry is what it was |
| `Sync.RegisterListed` | distributed-app.js:402-409 | the second loop never deletes an entry and preserves validity |
| `Sync.RegisterListedOthers` | distributed-app.js:402-409 | names the listing does not mention are untouched |
| `Sync.RegisterListedListed` | distributed-app.js:402-409 | with unique listed names, each listed name ends up as `Registered` describes |
| `Sync.SyncPeer` | distributed-app.js:381-414 | never deletes an entry and preserves validity; a failed request reverts exactly the peer's entries to local |
| `Sync.SyncPeerListing` | distributed-app.js:381-410 | with a listing: unlisted entries at the peer revert, other unlisted entries stay, and each listed name ends up as `Registered` describes |
| `Sync.SyncKeepsLocalEntries` | distributed-app.js:402-409 | since peers list their objects without a url, an object this node runs locally is never moved to a peer |
| `Sync.ReplyStep` | distributed-app.js:381-420 | one callback: `todo` drops by one and the completion fires when it is at most zero; no entry is deleted; validity is kept; a failed request reverts exactly the peer's entries |
| `Sync.SyncFold` | distributed-app.js:371-423 | the callbacks together lower `todo` by their number, never delete an entry and keep validity |
| `Sync.SyncCountDown` | distributed-app.js:416-420 | the completion fires once exactly when the counter equals the number of replies |
| `Sync.ScanObjects` | distributed-app.js:364-425 | the completion fires exactly once (at once when there are no peers); no entry is deleted; validity is preserved |
| `Sync.Scan` | distributed-app.js:304-309 | discovery then object sync completes exactly once and deletes no entry, with the port loop and the listing callbacks each seeing their own reading of the node's location |
| `Sync.ScanSkipsDropped` | distributed-app.js:304-309 | no node dropped by the discovery pass is asked for its objects in the same scan |
| `Rpc.Respond` | distributed-app.js:211-218 | the response echoes the id and error, and carries the result only when the error is falsy |
| `Rpc.PositionalArgs` | distributed-app.js:221-227 | the items in order followed by the callback |
| `Rpc.NamedArgs` | distributed-app.js:228-238 | slot i holds the value named by the i-th parameter (undefined when absent) and the last slot is the callback |
| `Rpc.Jsonrpc` | distributed-app.js:204-250 | array params become items plus callback; object params are mapped by parameter name; a missing method, a parameter-less method or missing params answer at once with the request id, a null result and an error |
| `Rpc.NamedMatchesPositional` | distributed-app.js:221-238 | a by-name request supplying every parameter dispatches the same call as the by-position request with the values in parameter order |
| `Rpc.Wire` | distributed-app.js:166-173 | a value travels unchanged, and undefined or a function becomes null |
| `Rpc.Call` | distributed-app.js:141-184 | the directory is as after get; a local object is invoked with the arguments as given; a remote one gets a POST to url + '/rpc/' + name carrying the method and all arguments but the last, with the last kept as the callback |
| `Rpc.RpcUrl` | distributed-app.js:165 | the endpoint starts with the object's url (the text `undefined` when it has none) and ends with `/rpc/` and the object name |
| `Rpc.RpcUrlInjective` | distributed-app.js:165 | calls to different objects at one node go to different endpoints |
| `Rpc.UnknownObjectsRunLocally` | distributed-app.js:146-153 | an unknown or local object is invoked in-process |
| `Rpc.RemoteCallRoundTrip` | distributed-app.js:159-169 | for values followed by a callback, the receiving node's jsonrpc rebuilds exactly the caller's argument list |
| `Rpc.Deliver` | distributed-app.js:175-183 | a transport error reaches the callback with a null result; a response hands over its error and result |
| `Rpc.ForwardingIsTransparent` | distributed-app.js:175-183 | a node that forwards a request answers with the owner's error and result under its own id |
| `Rpc.TransportErrorReported` | distributed-app.js:175-183 | a transport error reaches the forwarding node's caller as an error with a null result |
| `Text.NatToString` | distributed-app.js:324 | a port prints as a non-empty string of decimal digits |
| `Text.ParseNatToString` | distributed-app.js:324 | reading a printed port back gives the port |
| `Text.NatToStringInjective` | distributed-app.js:324 | different numbers print differently |
| `Text.FirstSegment` | distributed-app.js:483 | the prefix of the name before its first '/', holding no '/' |
| `Text.FirstSegmentUnique` | distributed-app.js:483 | any prefix without '/' that ends the name or is followed by '/' is that first segment |
| `Text.ObjectFilename` | distributed-app.js:482-484 | the file lies in `./objects/`, ends in `.js`, and its stem is the name up to its first '/' |
| `Text.CompositeNameSharesFile` | distributed-app.js:482-484 | every `kind/id` instance loads the same module file as `kind` |
| `Text.ObjectFilenameMatch` | distributed-app.js:482-484 | two names load the same file iff their first segments agree |

## Left out

- HTTP routing, the raw-body middleware and the port search at startup
  (distributed-app.js:756-896) are I/O. `myPort` and `myUrl` are parameters.
  They are separate because the first scan starts before the port search
  sets them (distributed-app.js:754-759).
- Network requests are not modelled: the identity probe, the listing
  request and the remote POST. A probe is a `(url, isDapp)` outcome, and a
  listing is a sequence of rows or a failure. The remote call is the
  envelope it would post, plus the reply or transport error. Parsing JSON
  bodies is not modelled, so neither is the exception a malformed body
  raises.
- The code store is not modelled: `retrieveCode` and the `/code` endpoints
  are disk and network I/O. `register` triggers a code retrieval for a
  remote url, and the model drops that effect.
- Module loading, construction and method patching are reflection
  (`applyProxy`, `removeProxy`, `require`, `new constructor()`). They appear
  only as the `hasInstance` and `isProxy` flags. The model assumes the
  object factory succeeds. A `require` that throws inside `getInstance` is
  not modelled.
- `getParamNames` parses function source text. The parameter-name list is
  an input instead, absent when the object module or the method is missing.
- `getMethods` and `NodeManager.list` are not modelled. The first depends on
  that source-text parsing; the second only returns the node list.
- Running an object's method locally is not modelled, because it executes
  foreign object code. `Rpc.Call` stops at the decision to invoke it. The
  `catch` of `call` and the question of whether a callback fires exactly
  once are out of the model. A method that throws after calling back would
  complete twice.
- The monitoring timer, `console.log` and the scan report's elapsed `time`
  field are not modelled. Scans running concurrently with each other are
  not modelled either.
- The enumeration order of the object map is not modelled. `findAll`
  returns a map and `list` returns a set. `unregisterAll` visits entries in
  an unspecified order, which `Objects.UnregisterAllSequential` shows does
  not matter.
- JSON numbers are integers in the model and floating point is not
  modelled. Scalar `params` (a number or a string) are not modelled. A
  thrown `Error` is a `Thrown` value; its JSON serialisation (an empty
  object) is not modelled.
- Sync.SyncPeerListing: assumes no other handler runs between the pass's
  callbacks (see the line on interleaving). The per-object statement also
  assumes the listing repeats no name. A peer's listing is built from its object map, so names
  are unique in practice. For a repeated name, the last registration wins.
- Nodes.ScanNodesEffect: assumes no other handler runs between the pass's
  callbacks (see the line on interleaving). The exact account of the node
  list also assumes it has no duplicates. `connect` maintains that, and `disconnect` removes only the
  first occurrence.
- The demo objects in `objects/` (calculator, statistics, clock) are
  payloads that use floating point, `eval`, timers and the clock.
- Objects.Find: the directory is a plain JavaScript object, so a name such
  as `constructor` or `toString` finds an inherited `Object.prototype`
  member. The model treats every name as a plain key, and such a name is
  unknown until it is registered.
- Objects.Start: for an inherited name the source returns the inherited
  member and adds nothing. `__proto__` is no exception: it reads
  `Object.prototype`, so nothing is assigned. The model adds a running
  local entry.
- Objects.Get: inherits the same gap as `Objects.Start` for inherited names.
- Objects.Register: for an inherited name and a present url the source
  throws a TypeError, because the inherited member has no `setUrl`; without
  a url it does nothing. The model registers the name.
- Objects.Unregister: for an inherited name the source does nothing when a
  url is given and throws a TypeError (no `setUrl`) when it is absent. The
  model reports an unknown name.
- Sync.ShouldRegister: for an inherited name `find` yields a truthy member
  whose `url` is undefined, so the guard differs from the model's.
- Nodes.ScanNodes: the completion claim assumes every probe callback runs
  and counts down. In the source a callback can die first: a response
  without a content-type header, a malformed JSON body, a request that never
  answers (there is no timeout), or a failing object factory reached through
  `disconnect`. Then `unchecked` never reaches zero, the completion never
  fires, and the monitoring loop is never rescheduled.
- Sync.ScanObjects: the completion claim assumes every listing callback
  runs and counts down. A malformed JSON body, a request that never
  answers, or a failing object factory reached through `unregister` (which
  reverts an entry to local and instantiates it) leaves `todo` above zero,
  so the completion never fires and the monitoring loop stops.
- Sync.Scan: relies on both assumptions above.
- Rpc.Call: for an inherited name such as `constructor`, `get` yields the
  inherited member, whose `isLocal` is undefined. The source then takes the
  remote branch and posts to `undefined/rpc/<name>`, so the caller receives
  a transport error with a null result. The model adds a running local
  entry and invokes it in-process.
- Rpc.UnknownObjectsRunLocally: holds only for names that are not inherited
  `Object.prototype` members; an inherited name is posted to
  `undefined/rpc/<name>`, as the `Rpc.Call` line describes.
- Work that runs between two callbacks of one pass is not modelled. Other
  event-loop handlers can run there: `/nodes/connect` and
  `/nodes/disconnect`, `/objects/:name/start` and `/stop`, and an `/rpc`
  request whose `call` creates an entry through `get`. The folds
  (`Nodes.ScanFold`, `Sync.SyncFold`) and every statement built on them
  (`Nodes.ScanNodesEffect`, `Sync.SyncPeerListing`, "no entry is added or
  deleted") describe a pass without such interleaving.
