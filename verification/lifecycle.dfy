/** The lifecycle of the passive HTTP adapter: construction, `open`,
    `close` and `reload`, as transitions of an immutable state value. */
module Lifecycle {
  import opened Values

  /** The part of `HttpServerConfig` the adapter reads. */
  datatype Config = Config(enable: bool, port: int, token: Option<string>)

  /** `isEnable` and `config` are the adapter's fields; `listening` is the
      port its `http.Server` accepts connections on, if any. */
  datatype Adapter = Adapter(name: string, isEnable: bool, config: Config, listening: Option<int>)

  /** The value `reload` resolves to (`OB11NetworkReloadType`). */
  datatype ReloadType = NetWorkOpen | NetWorkClose | NetWorkReload | Normal

  datatype Reloaded = Reloaded(adapter: Adapter, kind: ReloadType)

  /** The adapter is enabled exactly when a listener exists, and that
      listener is bound to the configured port. */
  predicate Consistent(a: Adapter)
  {
    && (a.isEnable <==> a.listening.Some?)
    && (a.listening.Some? ==> a.listening.value == a.config.port)
  }

  /** The constructor: a copy of the configuration, not yet enabled. */
  function New(name: string, config: Config): (a: Adapter)
    ensures !a.isEnable && a.config == config && a.name == name
    ensures Consistent(a)
  {
    Adapter(name, false, config, None)
  }

  /** `open()`. `boot` says whether `initializeServer` returns normally;
      when it throws, the error is logged and the adapter stays disabled. */
  function Open(a: Adapter, boot: bool): (b: Adapter)
    ensures b.name == a.name && b.config == a.config
    ensures a.isEnable ==> b == a
    ensures !a.isEnable ==> (b.isEnable <==> boot)
    ensures !a.isEnable && !boot ==> b == a
    ensures Consistent(a) ==> Consistent(b)
  {
    if a.isEnable then a
    else if boot then a.(isEnable := true, listening := Some(a.config.port))
    else a
  }

  /** `close()`: disabled at once and the listener shut. */
  function Close(a: Adapter): (b: Adapter)
    ensures !b.isEnable && b.listening.None?
    ensures b.name == a.name && b.config == a.config
    ensures Consistent(b)
  {
    a.(isEnable := false, listening := None)
  }

  /** `reload(newConfig)`: the configuration is replaced first, then the
      branch is chosen from the old `isEnable` and the old port. `boot`
      is the outcome of the `open()` the branch may call. */
  function Reload(a: Adapter, newConfig: Config, boot: bool): (r: Reloaded)
    ensures r.adapter.config == newConfig && r.adapter.name == a.name
    // the outcome, from the old state and the new configuration; the port
    // branch also fires for an adapter that was disabled and stays disabled
    ensures r.kind == NetWorkOpen <==> newConfig.enable && !a.isEnable
    ensures r.kind == NetWorkClose <==> !newConfig.enable && a.isEnable
    ensures r.kind == NetWorkReload <==> newConfig.enable == a.isEnable && newConfig.port != a.config.port
    ensures r.kind == Normal <==> newConfig.enable == a.isEnable && newConfig.port == a.config.port
    // enabled exactly as configured when the server boots, never against it
    ensures r.adapter.isEnable ==> newConfig.enable
    ensures boot ==> r.adapter.isEnable == newConfig.enable
    // a failed boot leaves every restarting branch disabled
    ensures !boot && r.kind != Normal ==> !r.adapter.isEnable
    // the listener stays bound to the configured port
    ensures Consistent(a) ==> Consistent(r.adapter)
    // a Normal reload restarts nothing: only the configuration changes
    ensures r.kind == Normal ==> r.adapter == a.(config := newConfig)
  {
    var wasEnabled := a.isEnable;
    var oldPort := a.config.port;
    var a1 := a.(config := newConfig);
    if newConfig.enable && !wasEnabled then Reloaded(Open(a1, boot), NetWorkOpen)
    else if !newConfig.enable && wasEnabled then Reloaded(Close(a1), NetWorkClose)
    else if oldPort != newConfig.port then
      var closed := Close(a1);
      Reloaded(if newConfig.enable then Open(closed, boot) else closed, NetWorkReload)
    else Reloaded(a1, Normal)
  }

  /** Opening an enabled adapter changes nothing, so a second `open()`
      leaves the one listener the first created. */
  lemma OpenIdempotent(a: Adapter, boot1: bool, boot2: bool)
    ensures Open(a, boot1).isEnable ==> Open(Open(a, boot1), boot2) == Open(a, boot1)
  {
  }

  lemma CloseIdempotent(a: Adapter)
    ensures Close(Close(a)) == Close(a)
  {
  }
}
