/** ObjectProxy of distributed-app.js: the routing state of one directory
    entry. The constructed instance and the swapping of its methods for
    remote-forwarding stubs are runtime reflection; the model keeps only the
    flags that record them. */
module Proxies {
  import opened Wrappers

  type Url = string

  /** `url` is where the object runs (None when it runs here), `isLocal`
      caches `url == undefined`, `hasInstance` records that a local instance
      has been constructed, and `isProxy` that its methods currently forward
      to the remote node. */
  datatype ObjectProxy = ObjectProxy(url: Option<Url>, isLocal: bool, hasInstance: bool, isProxy: bool)

  /** The state every proxy is in between construction and its first
      `setUrl`: no url, no instance, no stubs. */
  const Blank := ObjectProxy(None, false, false, false)

  /** An object running here: no url, instantiated, methods not forwarded. */
  const Running := ObjectProxy(None, true, true, false)

  /** The routing invariant: `isLocal` agrees with the url, a local object has
      an instance, and once an instance exists its methods forward exactly
      when the object is remote. */
  predicate Valid(p: ObjectProxy) {
    && p.isLocal == p.url.None?
    && (p.isLocal ==> p.hasInstance)
    && (p.hasInstance ==> p.isProxy == !p.isLocal)
    && (!p.hasInstance ==> !p.isProxy)
  }

  /** updateRouting: installs or removes the forwarding stubs so that they
      match the current location; does nothing while there is no instance. */
  function UpdateRouting(p: ObjectProxy): (q: ObjectProxy)
    ensures q.url == p.url && q.isLocal == p.isLocal && q.hasInstance == p.hasInstance
    ensures p.hasInstance ==> q.isProxy == !p.isLocal
    ensures !p.hasInstance ==> q == p
  {
    if p.hasInstance then
      if !p.isLocal && !p.isProxy then p.(isProxy := true)
      else if p.isLocal && p.isProxy then p.(isProxy := false)
      else p
    else p
  }

  /** getInstance: constructs the instance on first use and routes it. The
      object factory is assumed to succeed. */
  function GetInstance(p: ObjectProxy): (q: ObjectProxy)
    ensures q.hasInstance
    ensures q.url == p.url && q.isLocal == p.isLocal
    ensures p.hasInstance ==> q == p
    ensures !p.hasInstance ==> q.isProxy == !q.isLocal
  {
    if !p.hasInstance then UpdateRouting(p.(hasInstance := true)) else p
  }

  /** setUrl: moves the object to `url` (None: run it here). */
  function SetUrl(p: ObjectProxy, url: Option<Url>): (q: ObjectProxy)
    ensures q.url == url && q.isLocal == url.None?
    ensures q.hasInstance <==> p.hasInstance || url.None?
    ensures q.hasInstance ==> q.isProxy == !q.isLocal
    ensures !q.hasInstance ==> q.isProxy == p.isProxy
    ensures Valid(p) ==> Valid(q)
    ensures Valid(p) && url == p.url ==> q == p
    ensures url.None? ==> q == Running
  {
    var moved := p.(url := url, isLocal := url.None?);
    var loaded := if moved.isLocal then GetInstance(moved) else moved;
    UpdateRouting(loaded)
  }

  /** `new ObjectProxy(name, url)`: a fresh entry. A local one is
      instantiated at once; a remote one has no instance and no stubs. */
  function NewProxy(url: Option<Url>): (p: ObjectProxy)
    ensures Valid(p)
    ensures p.url == url
    ensures p.hasInstance <==> url.None?
    ensures !p.isProxy
    ensures url.None? ==> p == Running
  {
    SetUrl(Blank, url)
  }

  /** A valid local entry is always exactly `Running`. */
  lemma LocalIsRunning(p: ObjectProxy)
    ensures Valid(p) && p.isLocal <==> p == Running
  {
  }

  /** Setting the same url twice is the same as setting it once. */
  lemma SetUrlIdempotent(p: ObjectProxy, url: Option<Url>)
    ensures SetUrl(SetUrl(p, url), url) == SetUrl(p, url)
  {
  }

  /** Sending a local object away and taking it back restores it exactly:
      the instance survives the round trip and its stubs are removed. */
  lemma RemoteRoundTrip(p: ObjectProxy, url: Url)
    requires Valid(p) && p.isLocal
    ensures SetUrl(SetUrl(p, Some(url)), None) == p
  {
  }
}
