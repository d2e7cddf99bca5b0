/** What a configuration push leaves behind, stated on the push, the earlier tables and the answers of
the parts outside the model. */
module ConfigSyncTheorems {
  import opened Collections
  import opened GoStrings
  import opened Registry
  import opened ConfigSync

  // ----- The configuration a proxy is given -----

  /** newProxyByType sets this key. */
  ghost predicate Added(d: Pushed, k: string) {
    || (k == "datasource_type" && d.entry.proxyType == "http-proxy")
    || (k == "allowed_hosts" && d.entry.proxyType == "ssh-proxy" && d.allowedHosts != [])
    || (k == "allowed_cidrs" && d.entry.proxyType == "discovery-proxy" && d.allowedHosts != [] && k !in d.config)
  }

  /** cfg holds the pushed values, coerced, and the values the push carries beside them. */
  ghost predicate GivenTo(d: Pushed, atoi: string -> Option<int>, cfg: Config) {
    && (forall k :: k in cfg <==> k in d.config || Added(d, k))
    && (forall k :: k in cfg && !Added(d, k) ==> Coerces(d.config[k], atoi, cfg[k]))
    && (forall k :: k in cfg && Added(d, k) ==>
          cfg[k] == if k == "datasource_type" then Text(d.entry.kind) else Texts(d.allowedHosts))
  }

  lemma CoercesOne(v: Value, atoi: string -> Option<int>, w: Value)
    ensures Coerces(v, atoi, w) <==> w == Normalized(v, atoi)
  {
  }

  /** That is exactly the configuration Configure is called with. */
  lemma ConfigurationGiven(d: Pushed, atoi: string -> Option<int>, cfg: Config)
    ensures GivenTo(d, atoi, cfg) <==> cfg == Effective(d, atoi)
  {
    var effective := Effective(d, atoi);
    forall k | k in d.config && k in cfg ensures Coerces(d.config[k], atoi, cfg[k]) <==> cfg[k] == Normalized(d.config[k], atoi) {
      CoercesOne(d.config[k], atoi, cfg[k]);
    }
    KeysGiven(d, atoi);
    if GivenTo(d, atoi, cfg) {
      assert cfg.Keys == effective.Keys;
      forall k | k in cfg ensures cfg[k] == effective[k] {}
    }
  }

  lemma KeysGiven(d: Pushed, atoi: string -> Option<int>)
    ensures forall k :: k in Effective(d, atoi) <==> k in d.config || Added(d, k)
    ensures forall k :: k in Effective(d, atoi) && !Added(d, k) ==> Effective(d, atoi)[k] == Normalized(d.config[k], atoi)
    ensures forall k :: k in Effective(d, atoi) && Added(d, k) ==>
              Effective(d, atoi)[k] == if k == "datasource_type" then Text(d.entry.kind) else Texts(d.allowedHosts)
  {
  }

  // ----- Which datasources get registered -----

  /** Credentials are at hand: pushed ones were stored, and those of a secret provider resolved. */
  ghost predicate HasCredentials(d: Pushed) {
    && (d.entry.credentialSource == "cloud_push" && d.hasCreds ==> d.storeOk)
    && (d.entry.credentialSource != "cloud_push" && d.entry.credentialSource != "local" ==> d.resolveOk)
  }

  ghost predicate Served(proxyType: string) {
    || proxyType == "http-proxy" || proxyType == "db-proxy" || proxyType == "mcp-proxy" || proxyType == "ssh-proxy"
    || proxyType == "mongo-proxy" || proxyType == "redis-proxy" || proxyType == "kafka-proxy" || proxyType == "discovery-proxy"
  }

  /** The datasource's own proxy is built and configured. */
  ghost predicate Builds(d: Pushed, atoi: string -> Option<int>) {
    HasCredentials(d) && Served(d.entry.proxyType) && exists cfg :: GivenTo(d, atoi, cfg) && d.configures(cfg)
  }

  /** The value lists a non-empty string. */
  ghost predicate HasScope(v: Value) {
    exists x :: x != "" && ((v.Texts? && x in v.texts) || (v.List? && Text(x) in v.items))
  }

  /** SSH access is asked for, requests are signed, host keys are pinned and the scope is explicit. */
  ghost predicate Gates(cfg: Config, signing: bool) {
    && signing
    && "ssh_access" in cfg && cfg["ssh_access"] == Flag(true)
    && "known_hosts_file" in cfg && cfg["known_hosts_file"].Text? && cfg["known_hosts_file"] != Text("")
    && "allowed_cidrs" in cfg && HasScope(cfg["allowed_cidrs"])
  }

  /** The sibling is confined to the scope and pinned to the known_hosts file. */
  ghost predicate SiblingConfig(cfg: Config, out: Config)
    requires "known_hosts_file" in cfg && "allowed_cidrs" in cfg
  {
    && (forall k :: k in out <==>
          k == "host" || k == "allowed_hosts" || k == "known_hosts" || ((k == "port" || k == "max_output_bytes") && k in cfg))
    && (forall k :: k in out && k in cfg && (k == "port" || k == "max_output_bytes") ==> out[k] == cfg[k])
    && out["host"] == Text("") && out["known_hosts"] == cfg["known_hosts_file"]
    && out["allowed_hosts"] == Texts(Strings(cfg["allowed_cidrs"]))
  }

  lemma SiblingConfigured(cfg: Config, out: Config)
    requires "known_hosts_file" in cfg && "allowed_cidrs" in cfg
    ensures SiblingConfig(cfg, out) <==> out == SSHConfig(cfg)
  {
    var ssh := SSHConfig(cfg);
    assert SiblingConfig(cfg, ssh);
    if SiblingConfig(cfg, out) {
      assert out.Keys == ssh.Keys;
      forall k | k in out ensures out[k] == ssh[k] {}
    }
  }

  /** The datasource opens its SSH access sibling. */
  ghost predicate OpensSibling(d: Pushed, signing: bool, atoi: string -> Option<int>) {
    && Builds(d, atoi) && d.entry.proxyType == "discovery-proxy"
    && exists cfg, out :: GivenTo(d, atoi, cfg) && Gates(cfg, signing) && SiblingConfig(cfg, out) && d.siblingConfigures(out)
  }

  lemma ScopeListed(v: Value)
    ensures Strings(v) != [] <==> HasScope(v)
  {
    if Strings(v) != [] {
      assert Strings(v)[0] in Strings(v);
      StringsListed(v, Strings(v)[0]);
    }
    if x :| x != "" && ((v.Texts? && x in v.texts) || (v.List? && Text(x) in v.items)) {
      StringsListed(v, x);
    }
  }

  lemma GatesMeaning(cfg: Config, signing: bool)
    ensures Gates(cfg, signing) <==> SSHAccessEnabled(cfg) && Gated(cfg, signing)
  {
    ScopeListed(Field(cfg, "allowed_cidrs"));
  }

  lemma BuildsMeaning(d: Pushed, atoi: string -> Option<int>)
    ensures Configured(d, atoi) <==> Builds(d, atoi)
  {
    var cfg := Effective(d, atoi);
    ConfigurationGiven(d, atoi, cfg);
    if c :| GivenTo(d, atoi, c) && d.configures(c) {
      ConfigurationGiven(d, atoi, c);
    }
  }

  /** A datasource and its sibling get registered exactly when the push and the answers say so. */
  lemma RegisteredExactly(d: Pushed, signing: bool, atoi: string -> Option<int>)
    ensures Configured(d, atoi) <==> Builds(d, atoi)
    ensures Opens(d, signing, atoi) <==> OpensSibling(d, signing, atoi)
  {
    var cfg := Effective(d, atoi);
    BuildsMeaning(d, atoi);
    ConfigurationGiven(d, atoi, cfg);
    GatesMeaning(cfg, signing);
    if Opens(d, signing, atoi) {
      SiblingConfigured(cfg, SSHConfig(cfg));
    }
    if OpensSibling(d, signing, atoi) {
      var c, out :| GivenTo(d, atoi, c) && Gates(c, signing) && SiblingConfig(c, out) && d.siblingConfigures(out);
      ConfigurationGiven(d, atoi, c);
      SiblingConfigured(c, out);
    }
  }

  // ----- The tables after a sync -----

  /** The i-th datasource of the push registers the id, as its own or as its sibling's. */
  ghost predicate RegistersAt(push: seq<Pushed>, i: nat, signing: bool, atoi: string -> Option<int>, id: string)
    requires i < |push|
  {
    || (push[i].entry.id == id && Builds(push[i], atoi))
    || (push[i].entry.id + ":ssh" == id && OpensSibling(push[i], signing, atoi))
  }

  ghost predicate LastRegistrar(push: seq<Pushed>, i: nat, signing: bool, atoi: string -> Option<int>, id: string)
    requires i < |push|
  {
    RegistersAt(push, i, signing, atoi, id) && forall j :: i < j < |push| ==> !RegistersAt(push, j, signing, atoi, id)
  }

  ghost predicate NoRegistrar(push: seq<Pushed>, signing: bool, atoi: string -> Option<int>, id: string) {
    forall i :: 0 <= i < |push| ==> !RegistersAt(push, i, signing, atoi, id)
  }

  ghost predicate Named(push: seq<Pushed>, id: string) {
    exists i :: 0 <= i < |push| && push[i].entry.id == id
  }

  /** Some datasource of the push opened this id as its SSH access sibling. */
  ghost predicate Opened(push: seq<Pushed>, signing: bool, atoi: string -> Option<int>, id: string) {
    exists i :: 0 <= i < |push| && OpensSibling(push[i], signing, atoi) && push[i].entry.id + ":ssh" == id
  }

  ghost predicate IsLocal(id: string) {
    |id| >= 6 && id[..6] == "local:"
  }

  /** The id is registered as datasource d has it: its own proxy and entry, or its sibling's; what was
      known of an earlier proxy is gone. */
  ghost predicate RegisteredAs(u: Tables, id: string, d: Pushed) {
    && id in u.proxies && u.proxies[id] == (if d.entry.id == id then d.proxy else d.sibling)
    && id in u.configs
    && (d.entry.id == id ==> u.configs[id] == d.entry)
    && (d.entry.id != id ==>
          u.configs[id] == Entry(id, "ssh", "ssh-proxy", d.entry.name + "-ssh", d.entry.credentialSource, d.entry.credentialRef))
    && id !in u.lastSuccess && id !in u.reqErrors
  }

  ghost predicate SameAt<T(!new)>(m: map<string, T>, m': map<string, T>, id: string) {
    (id in m <==> id in m') && (id in m ==> m[id] == m'[id])
  }

  ghost predicate Untouched(t: Tables, u: Tables, id: string) {
    && SameAt(t.proxies, u.proxies, id) && SameAt(t.configs, u.configs, id)
    && SameAt(t.lastSuccess, u.lastSuccess, id) && SameAt(t.reqErrors, u.reqErrors, id)
  }

  ghost predicate Absent(u: Tables, id: string) {
    id !in u.proxies && id !in u.configs && id !in u.lastSuccess && id !in u.reqErrors
  }

  lemma Registering(t: Tables, id: string, entry: Entry, p: ProxyId, x: string)
    ensures var u := RegisterIn(t, id, entry, p);
            && (x != id ==> Untouched(t, u, x))
            && (x == id ==> x in u.proxies && u.proxies[x] == p && x in u.configs && u.configs[x] == entry
                            && x !in u.lastSuccess && x !in u.reqErrors)
  {
  }

  /** The tables after a datasource is registered, and after its sibling is, too. */
  lemma RegisteredPair(t: Tables, d: Pushed, id: string)
    ensures var u := RegisterIn(t, d.entry.id, d.entry, d.proxy);
            var v := RegisterIn(u, d.entry.id + ":ssh", SiblingEntry(d.entry), d.sibling);
            && (id == d.entry.id ==> RegisteredAs(u, id, d) && RegisteredAs(v, id, d))
            && (id == d.entry.id + ":ssh" ==> Untouched(t, u, id) && RegisteredAs(v, id, d))
            && (id != d.entry.id && id != d.entry.id + ":ssh" ==> Untouched(t, u, id) && Untouched(t, v, id))
  {
    assert |d.entry.id + ":ssh"| != |d.entry.id|;
    Registering(t, d.entry.id, d.entry, d.proxy, id);
    Registering(RegisterIn(t, d.entry.id, d.entry, d.proxy), d.entry.id + ":ssh", SiblingEntry(d.entry), d.sibling, id);
  }

  lemma OneApplied(t: Tables, d: Pushed, signing: bool, atoi: string -> Option<int>, id: string)
    ensures var u := ApplyOne(t, d, signing, atoi);
            if RegistersAt([d], 0, signing, atoi, id) then RegisteredAs(u, id, d) else Untouched(t, u, id)
  {
    RegisteredExactly(d, signing, atoi);
    RegisteredPair(t, d, id);
    assert id == d.entry.id ==> id != d.entry.id + ":ssh" by { assert |d.entry.id + ":ssh"| != |d.entry.id|; }
  }

  lemma RegistrarBefore(init: seq<Pushed>, last: Pushed, i: nat, signing: bool, atoi: string -> Option<int>, id: string)
    requires i < |init|
    ensures RegistersAt(init + [last], i, signing, atoi, id) <==> RegistersAt(init, i, signing, atoi, id)
  {
    assert (init + [last])[i] == init[i];
  }

  /** After the first loop an id is as its last registrar has it, or as it was. */
  lemma {:induction false} Applied(t: Tables, push: seq<Pushed>, signing: bool, atoi: string -> Option<int>, id: string)
    ensures var u := ApplyPush(t, push, signing, atoi);
            && (forall i :: 0 <= i < |push| && LastRegistrar(push, i, signing, atoi, id) ==> RegisteredAs(u, id, push[i]))
            && (NoRegistrar(push, signing, atoi, id) ==> Untouched(t, u, id))
  {
    if push != [] {
      var init, last := push[..|push| - 1], push[|push| - 1];
      var before := ApplyPush(t, init, signing, atoi);
      assert push == init + [last] && push[|init|] == last;
      Applied(t, init, signing, atoi, id);
      OneApplied(before, last, signing, atoi, id);
      forall i | 0 <= i < |init| ensures RegistersAt(push, i, signing, atoi, id) <==> RegistersAt(init, i, signing, atoi, id) {
        RegistrarBefore(init, last, i, signing, atoi, id);
      }
      assert RegistersAt(push, |init|, signing, atoi, id) <==> RegistersAt([last], 0, signing, atoi, id);
      forall i | 0 <= i < |init| && LastRegistrar(push, i, signing, atoi, id) ensures RegisteredAs(before, id, init[i]) {
        assert !RegistersAt(push, |init|, signing, atoi, id);
        assert LastRegistrar(init, i, signing, atoi, id);
      }
    }
  }

  lemma {:induction false} HasLastRegistrar(push: seq<Pushed>, signing: bool, atoi: string -> Option<int>, id: string)
    ensures NoRegistrar(push, signing, atoi, id) || exists i :: 0 <= i < |push| && LastRegistrar(push, i, signing, atoi, id)
  {
    if push != [] {
      var init, last := push[..|push| - 1], push[|push| - 1];
      assert push == init + [last];
      HasLastRegistrar(init, signing, atoi, id);
      forall i | 0 <= i < |init| ensures RegistersAt(push, i, signing, atoi, id) <==> RegistersAt(init, i, signing, atoi, id) {
        RegistrarBefore(init, last, i, signing, atoi, id);
      }
      if RegistersAt(push, |init|, signing, atoi, id) {
        assert LastRegistrar(push, |init|, signing, atoi, id);
      } else if i :| 0 <= i < |init| && LastRegistrar(init, i, signing, atoi, id) {
        assert LastRegistrar(push, i, signing, atoi, id);
      }
    }
  }

  lemma {:induction false} KeptMeaning(push: seq<Pushed>, signing: bool, atoi: string -> Option<int>, id: string)
    ensures id in KeptIds(push, signing, atoi) <==> Named(push, id) || Opened(push, signing, atoi, id)
  {
    if push != [] {
      var init, last := push[..|push| - 1], push[|push| - 1];
      assert push == init + [last];
      KeptMeaning(init, signing, atoi, id);
      RegisteredExactly(last, signing, atoi);
      NamedMore(init, last, id);
      OpenedMore(init, last, signing, atoi, id);
    }
  }

  lemma NamedMore(init: seq<Pushed>, last: Pushed, id: string)
    ensures Named(init + [last], id) <==> Named(init, id) || last.entry.id == id
  {
    var push := init + [last];
    assert push[|init|] == last;
    if i :| 0 <= i < |init| && init[i].entry.id == id {
      assert push[i] == init[i];
    }
  }

  lemma OpenedMore(init: seq<Pushed>, last: Pushed, signing: bool, atoi: string -> Option<int>, id: string)
    ensures Opened(init + [last], signing, atoi, id) <==>
            Opened(init, signing, atoi, id) || (OpensSibling(last, signing, atoi) && last.entry.id + ":ssh" == id)
  {
    var push := init + [last];
    assert push[|init|] == last;
    if i :| 0 <= i < |init| && OpensSibling(init[i], signing, atoi) && init[i].entry.id + ":ssh" == id {
      assert push[i] == init[i];
    }
    if i :| 0 <= i < |push| && OpensSibling(push[i], signing, atoi) && push[i].entry.id + ":ssh" == id {
      assert i < |init| ==> init[i] == push[i];
    }
  }

  /** The push keeps the id: it names it, opened it, or the id is local; or its proxy did not close. */
  ghost predicate Stays(push: seq<Pushed>, signing: bool, atoi: string -> Option<int>, closeOk: string -> bool, id: string) {
    Named(push, id) || Opened(push, signing, atoi, id) || IsLocal(id) || !closeOk(id)
  }

  lemma RegistrarStays(push: seq<Pushed>, i: nat, signing: bool, atoi: string -> Option<int>, id: string)
    requires i < |push| && RegistersAt(push, i, signing, atoi, id)
    ensures Named(push, id) || Opened(push, signing, atoi, id)
  {
  }

  /** What the second loop does to an id. */
  lemma RemovedAt(u: Tables, push: seq<Pushed>, signing: bool, atoi: string -> Option<int>, closeOk: string -> bool, id: string)
    ensures var v := RemoveAllIn(u, Gone(u, KeptIds(push, signing, atoi), closeOk));
            if id in u.proxies && !Stays(push, signing, atoi, closeOk, id) then Absent(v, id) else Untouched(u, v, id)
  {
    KeptMeaning(push, signing, atoi, id);
  }

  /** The tables after a sync, id by id. An id that stays has the proxy and entry of the last pushed
      datasource that registers it, with its last success and request error cleared; without one,
      everything about it is as before. An id that does not stay and was registered is in no table. */
  lemma SyncedTables(t: Tables, push: seq<Pushed>, signing: bool, atoi: string -> Option<int>, closeOk: string -> bool, id: string)
    ensures var u := Synced(t, push, signing, atoi, closeOk);
            && (forall i :: 0 <= i < |push| && LastRegistrar(push, i, signing, atoi, id) ==> RegisteredAs(u, id, push[i]))
            && (NoRegistrar(push, signing, atoi, id) && (Stays(push, signing, atoi, closeOk, id) || id !in t.proxies) ==> Untouched(t, u, id))
            && (NoRegistrar(push, signing, atoi, id) && !Stays(push, signing, atoi, closeOk, id) && id in t.proxies ==> Absent(u, id))
  {
    var u := ApplyPush(t, push, signing, atoi);
    Applied(t, push, signing, atoi, id);
    RemovedAt(u, push, signing, atoi, closeOk, id);
    forall i | 0 <= i < |push| && RegistersAt(push, i, signing, atoi, id) ensures Stays(push, signing, atoi, closeOk, id) {
      RegistrarStays(push, i, signing, atoi, id);
    }
  }

  /** Exactly which ids are registered after a sync. */
  lemma SyncedIds(t: Tables, push: seq<Pushed>, signing: bool, atoi: string -> Option<int>, closeOk: string -> bool, id: string)
    ensures id in Synced(t, push, signing, atoi, closeOk).proxies <==>
            !NoRegistrar(push, signing, atoi, id) || (id in t.proxies && Stays(push, signing, atoi, closeOk, id))
  {
    SyncedTables(t, push, signing, atoi, closeOk, id);
    HasLastRegistrar(push, signing, atoi, id);
  }

  /** When every Close succeeds, a registered id is local, named by the push, or a sibling it opened. */
  lemma OnlyPushedIdsRemain(t: Tables, push: seq<Pushed>, signing: bool, atoi: string -> Option<int>, closeOk: string -> bool, id: string)
    requires (forall x :: closeOk(x)) && id in Synced(t, push, signing, atoi, closeOk).proxies
    ensures IsLocal(id) || Named(push, id) || Opened(push, signing, atoi, id)
  {
    SyncedIds(t, push, signing, atoi, closeOk, id);
    if i :| 0 <= i < |push| && RegistersAt(push, i, signing, atoi, id) {
      assert Named(push, id) || Opened(push, signing, atoi, id);
    }
  }

  /** Locally configured datasources are never removed. */
  lemma LocalIdsRemain(t: Tables, push: seq<Pushed>, signing: bool, atoi: string -> Option<int>, closeOk: string -> bool, id: string)
    requires IsLocal(id) && id in t.proxies
    ensures id in Synced(t, push, signing, atoi, closeOk).proxies
  {
    SyncedIds(t, push, signing, atoi, closeOk, id);
  }

  /** A pushed datasource that fails to configure keeps its earlier proxy and entry, its last success
      and its request error. */
  lemma FailedPushKeepsProxy(t: Tables, push: seq<Pushed>, signing: bool, atoi: string -> Option<int>, closeOk: string -> bool, id: string)
    requires id in t.proxies && Named(push, id) && NoRegistrar(push, signing, atoi, id)
    ensures Untouched(t, Synced(t, push, signing, atoi, closeOk), id)
  {
    SyncedTables(t, push, signing, atoi, closeOk, id);
  }

  /** No cloud-managed SSH access sibling survives a sync unless this very sync found SSH access
      enabled, requests signed, host keys pinned and the scope explicit for its datasource. */
  lemma SshSiblingsAreGated(t: Tables, push: seq<Pushed>, signing: bool, atoi: string -> Option<int>, closeOk: string -> bool, x: string)
    requires (forall id :: closeOk(id)) && x + ":ssh" in Synced(t, push, signing, atoi, closeOk).proxies && !IsLocal(x + ":ssh")
    requires forall i :: 0 <= i < |push| ==> !HasSuffix(push[i].entry.id, ":ssh")
    ensures exists i, cfg :: 0 <= i < |push| && push[i].entry.id == x && GivenTo(push[i], atoi, cfg) && Gates(cfg, signing)
  {
    var id := x + ":ssh";
    OnlyPushedIdsRemain(t, push, signing, atoi, closeOk, id);
    assert HasSuffix(id, ":ssh");
    var i :| 0 <= i < |push| && OpensSibling(push[i], signing, atoi) && push[i].entry.id + ":ssh" == id;
    SuffixUnique(push[i].entry.id, x, ":ssh");
    var cfg, out :| GivenTo(push[i], atoi, cfg) && Gates(cfg, signing) && SiblingConfig(cfg, out) && push[i].siblingConfigures(out);
  }

  lemma SuffixUnique(a: string, b: string, suffix: string)
    requires a + suffix == b + suffix
    ensures a == b
  {
    assert a == (a + suffix)[..|a|];
    assert b == (b + suffix)[..|b|];
  }

  /** A sync keeps the registry's maps aligned. */
  lemma SyncKeepsKeys(t: Tables, push: seq<Pushed>, signing: bool, atoi: string -> Option<int>, closeOk: string -> bool)
    requires t.proxies.Keys == t.configs.Keys && t.reqErrors.Keys <= t.proxies.Keys
    ensures var u := Synced(t, push, signing, atoi, closeOk);
            u.proxies.Keys == u.configs.Keys && u.reqErrors.Keys <= u.proxies.Keys
  {
    var u := Synced(t, push, signing, atoi, closeOk);
    forall id ensures (id in u.proxies <==> id in u.configs) && (id in u.reqErrors ==> id in u.proxies) {
      SyncedTables(t, push, signing, atoi, closeOk, id);
      HasLastRegistrar(push, signing, atoi, id);
    }
  }
}
