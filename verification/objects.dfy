/** ObjectMananger of distributed-app.js: the directory from object name
    (possibly a composite `kind/id`) to its ObjectProxy. */
module Objects {
  import opened Wrappers
  import opened Proxies

  type Directory = map<string, ObjectProxy>

  predicate ValidDirectory(d: Directory) {
    forall n :: n in d ==> Valid(d[n])
  }

  /** The exceptions the directory operations throw. */
  datatype ObjectError =
    | CannotStop(name: string)     // stop: not found or not running locally
    | UnknownObject(name: string)  // unregister: reading `url` of undefined

  /** A directory together with the entry an operation handed back. */
  datatype Lookup = Lookup(dir: Directory, entry: ObjectProxy)

  /** find: the entry registered under `name`, if any. */
  function Find(d: Directory, name: string): (r: Option<ObjectProxy>)
    ensures r.Some? <==> name in d
    ensures r.Some? ==> r.value == d[name]
  {
    if name in d then Some(d[name]) else None
  }

  /** findAll: every entry located at `url`, and only those. */
  function FindAll(d: Directory, url: Option<Url>): (r: Directory)
    ensures forall n :: n in r <==> n in d && d[n].url == url
    ensures forall n :: n in r ==> r[n] == d[n]
  {
    map n | n in d && d[n].url == url :: d[n]
  }

  /** start: an existing entry is returned untouched; otherwise a new local
      entry is created and added. */
  function Start(d: Directory, name: string): (r: Lookup)
    ensures name in r.dir && r.dir[name] == r.entry
    ensures name in d ==> r.dir == d
    ensures name !in d ==> r.entry == Running
    ensures r.dir.Keys == d.Keys + {name}
    ensures forall n :: n in d ==> r.dir[n] == d[n]
  {
    match Find(d, name)
    case Some(o) => Lookup(d, o)
    case None =>
      var o := NewProxy(None);
      Lookup(d[name := o], o)
  }

  /** get: like start; never yields a missing entry. */
  function Get(d: Directory, name: string): (r: Lookup)
    ensures name in r.dir && r.dir[name] == r.entry
    ensures name in d ==> r.dir == d
    ensures name !in d ==> r.entry == Running
    ensures r.dir.Keys == d.Keys + {name}
    ensures forall n :: n in d ==> r.dir[n] == d[n]
  {
    match Find(d, name)
    case Some(o) => Lookup(d, o)
    case None => Start(d, name)
  }

  /** stop: deletes a locally running entry; anything else throws and leaves
      the directory as it was. */
  function Stop(d: Directory, name: string): (r: Result<Directory, ObjectError>)
    ensures r.Ok? <==> name in d && d[name].isLocal
    ensures r.Ok? ==> r.value.Keys == d.Keys - {name}
    ensures r.Ok? ==> forall n :: n in r.value ==> r.value[n] == d[n]
    ensures r.Err? ==> r.error == CannotStop(name)
  {
    if name in d && d[name].isLocal then Ok(d - {name}) else Err(CannotStop(name))
  }

  /** register: records that `name` runs at `url` (None: here), creating the
      entry if needed. The code transfer it triggers is not modelled. */
  function Register(d: Directory, name: string, url: Option<Url>): (r: Directory)
    ensures name in r && r[name].url == url
    ensures name !in d || Valid(d[name]) ==> r[name].isLocal == url.None?
    ensures r.Keys == d.Keys + {name}
    ensures forall n :: n in d && n != name ==> r[n] == d[n]
    ensures name in d && Valid(d[name]) && d[name].url == url ==> r == d
    ensures name !in d && url.Some? ==> !r[name].hasInstance
    ensures ValidDirectory(d) ==> ValidDirectory(r)
  {
    var entry := if name in d then d[name] else NewProxy(url);
    var moved := if entry.url != url then SetUrl(entry, url) else entry;
    d[name := moved]
  }

  /** unregister: reverts `name` to local only when it is currently located
      at `url`; throws when `name` is unknown. */
  function Unregister(d: Directory, name: string, url: Option<Url>): (r: Result<Directory, ObjectError>)
    ensures r.Err? <==> name !in d
    ensures r.Err? ==> r.error == UnknownObject(name)
    ensures r.Ok? ==> r.value.Keys == d.Keys
    ensures r.Ok? ==> forall n :: n in d && n != name ==> r.value[n] == d[n]
    ensures r.Ok? && d[name].url == url ==> r.value[name] == Running
    ensures r.Ok? && d[name].url != url ==> r.value == d
  {
    if name !in d then Err(UnknownObject(name))
    else if d[name].url == url then Ok(d[name := SetUrl(d[name], None)])
    else Ok(d)
  }

  /** unregisterAll: reverts every entry located at `url` to local; never
      deletes an entry and leaves all other entries as they were. */
  function UnregisterAll(d: Directory, url: Option<Url>): (r: Directory)
    ensures r.Keys == d.Keys
    ensures forall n :: n in d && d[n].url == url ==> r[n] == Running
    ensures forall n :: n in d && d[n].url != url ==> r[n] == d[n]
    ensures ValidDirectory(d) ==> ValidDirectory(r)
  {
    map n | n in d :: if d[n].url == url then SetUrl(d[n], None) else d[n]
  }

  /** The source's loop: `unregister(name, url)` for each name in turn. It
      fails at the first unknown name and never adds or deletes an entry. */
  function UnregisterEach(d: Directory, names: seq<string>, url: Option<Url>): (r: Result<Directory, ObjectError>)
    ensures r.Err? <==> exists i :: 0 <= i < |names| && names[i] !in d
    ensures r.Err? ==> r.error.UnknownObject? && r.error.name in names && r.error.name !in d
    ensures r.Ok? ==> r.value.Keys == d.Keys
    decreases |names|
  {
    if |names| == 0 then Ok(d)
    else match Unregister(d, names[0], url)
      case Err(e) => Err(e)
      case Ok(d1) => UnregisterEach(d1, names[1..], url)
  }

  /** The entries among `names` that are located at `url`, reverted to local. */
  function RevertAmong(d: Directory, names: seq<string>, url: Option<Url>): Directory {
    map n | n in d :: if n in names && d[n].url == url then Running else d[n]
  }

  lemma {:induction false} UnregisterEachReverts(d: Directory, names: seq<string>, url: Option<Url>)
    requires forall i :: 0 <= i < |names| ==> names[i] in d
    ensures UnregisterEach(d, names, url) == Ok(RevertAmong(d, names, url))
    decreases |names|
  {
    if |names| == 0 {
      assert RevertAmong(d, names, url) == d;
    } else {
      var d1 := Unregister(d, names[0], url).value;
      UnregisterEachReverts(d1, names[1..], url);
      var m1 := RevertAmong(d1, names[1..], url);
      var m := RevertAmong(d, names, url);
      forall n | n in m
        ensures n in m1 && m1[n] == m[n]
      {
        assert n in names <==> n == names[0] || n in names[1..] by {
          assert names == [names[0]] + names[1..];
        }
      }
      assert m1 == m;
    }
  }

  /** Unregistering entry by entry, in any order that visits every name,
      has exactly the effect of unregisterAll. */
  lemma UnregisterAllSequential(d: Directory, names: seq<string>, url: Option<Url>)
    requires forall i :: 0 <= i < |names| ==> names[i] in d
    requires forall n :: n in d ==> n in names
    ensures UnregisterEach(d, names, url) == Ok(UnregisterAll(d, url))
  {
    UnregisterEachReverts(d, names, url);
    assert RevertAmong(d, names, url) == UnregisterAll(d, url);
  }

  /** Registering the same location twice is the same as registering once. */
  lemma RegisterIdempotent(d: Directory, name: string, url: Option<Url>)
    ensures Register(Register(d, name, url), name, url) == Register(d, name, url)
  {
  }

  /** A registration at `url` followed by an unregistration at the same url
      leaves the entry running locally; a later `get` then finds it and adds
      nothing. An entry that was local before comes back exactly as it was. */
  lemma RegisterUnregisterRoundTrip(d: Directory, name: string, url: Url)
    requires ValidDirectory(d)
    ensures Unregister(Register(d, name, Some(url)), name, Some(url)).Ok?
    ensures var d2 := Unregister(Register(d, name, Some(url)), name, Some(url)).value;
      && d2[name] == Running
      && Get(d2, name).dir == d2
      && (name in d && d[name].isLocal ==> d2 == d)
  {
    var d1 := Register(d, name, Some(url));
    var d2 := Unregister(d1, name, Some(url)).value;
    if name in d && d[name].isLocal {
      LocalIsRunning(d[name]);
      assert d2 == d;
    }
  }

  /** A stop of a freshly started object undoes the start. */
  lemma StopUndoesStart(d: Directory, name: string)
    requires name !in d
    ensures Stop(Start(d, name).dir, name) == Ok(d)
  {
    assert Start(d, name).dir - {name} == d;
  }

  /** One row of the `list` response. */
  datatype Summary = Summary(name: string, url: Option<Url>, isLocal: bool)

  predicate Included(p: ObjectProxy, includeLocal: bool, includeRemote: bool) {
    (p.isLocal && includeLocal) || (!p.isLocal && includeRemote)
  }

  /** list: the entries selected by the `local` and `remote` options, each
      defaulting to true when absent. The response's order is not modelled. */
  function List(d: Directory, local: Option<bool>, remote: Option<bool>): (r: set<Summary>)
    ensures forall s :: s in r ==> s.name in d && s.url == d[s.name].url && s.isLocal == d[s.name].isLocal
    ensures forall n :: n in d ==>
      (Summary(n, d[n].url, d[n].isLocal) in r <==>
        (d[n].isLocal && local.GetOr(true)) || (!d[n].isLocal && remote.GetOr(true)))
  {
    var includeLocal := local.GetOr(true);
    var includeRemote := remote.GetOr(true);
    set n | n in d && Included(d[n], includeLocal, includeRemote) :: Summary(n, d[n].url, d[n].isLocal)
  }

  /** The local-only and remote-only listings split the full listing. */
  lemma ListPartition(d: Directory)
    ensures List(d, Some(true), Some(false)) + List(d, Some(false), Some(true)) == List(d, None, None)
    ensures List(d, Some(true), Some(false)) !! List(d, Some(false), Some(true))
    ensures List(d, Some(false), Some(false)) == {}
  {
  }
}
