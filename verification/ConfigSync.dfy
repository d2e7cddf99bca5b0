/** Applying a datasource configuration push to the registry, and the gates of SSH access.

Credential storage, secret providers and proxy construction are outside the model: a pushed
datasource carries what they will answer. */
module ConfigSync {
  import opened Collections
  import opened GoStrings
  import opened Registry

  /** A decoded configuration value. */
  datatype Value =
    | Text(text: string)
    | Flag(on: bool)
    | Number(n: int)
    | Texts(texts: seq<string>)    // a list of strings from local configuration
    | List(items: seq<Value>)      // a decoded JSON list
    | Other

  type Config = map<string, Value>

  const LOCAL_PREFIX := "local:"
  const SSH_SUFFIX := ":ssh"

  // ----- Normalisation -----

  function Normalized(v: Value, atoi: string -> Option<int>): (r: Value) {
    if !v.Text? then v
    else if v.text == "true" then Flag(true)
    else if v.text == "false" then Flag(false)
    else match atoi(v.text)
         case Some(n) => Number(n)
         case None => v
  }

  /** w is v, or what v spells when it is a text that spells a boolean or an integer. */
  ghost predicate Coerces(v: Value, atoi: string -> Option<int>, w: Value) {
    && (v == Text("true") ==> w == Flag(true)) && (v == Text("false") ==> w == Flag(false))
    && (v.Text? && v.text != "true" && v.text != "false" && atoi(v.text).Some? ==> w == Number(atoi(v.text).value))
    && (v.Text? && v.text != "true" && v.text != "false" && atoi(v.text).None? ==> w == v)
    && (!v.Text? ==> w == v)
  }

  method NormalizeConfigValues(config: Config, atoi: string -> Option<int>) returns (r: Config)
    ensures r.Keys == config.Keys && forall k :: k in r ==> Coerces(config[k], atoi, r[k])
    ensures r == map k | k in config :: Normalized(config[k], atoi)
  {
    r := config;
    var todo := config.Keys;
    while todo != {}
      invariant todo <= config.Keys
      invariant r == map k | k in config :: if k in todo then config[k] else Normalized(config[k], atoi)
    {
      var k :| k in todo;
      todo := todo - {k};
      if r[k].Text? {
        if r[k].text == "true" {
          r := r[k := Flag(true)];
        } else if r[k].text == "false" {
          r := r[k := Flag(false)];
        } else {
          var n := atoi(r[k].text);
          if n.Some? {
            r := r[k := Number(n.value)];
          }
        }
      }
    }
  }

  // ----- SSH access -----

  predicate SSHAccessEnabled(cfg: Config) {
    "ssh_access" in cfg && cfg["ssh_access"] == Flag(true)
  }

  /** The non-empty strings of a list value, in order. */
  function Strings(v: Value): (r: seq<string>)
    ensures "" !in r
  {
    match v
    case Texts(texts) => NonEmpty(texts)
    case List(items) => TextItems(items)
    case _ => []
  }

  function NonEmpty(s: seq<string>): (r: seq<string>)
    ensures "" !in r && forall x :: x in s && x != "" ==> x in r
  {
    if s == [] then [] else NonEmpty(s[..|s| - 1]) + if s[|s| - 1] != "" then [s[|s| - 1]] else []
  }

  function TextItems(s: seq<Value>): (r: seq<string>)
    ensures "" !in r && forall x :: Text(x) in s && x != "" ==> x in r
  {
    if s == [] then []
    else
      var last := s[|s| - 1];
      TextItems(s[..|s| - 1]) + if last.Text? && last.text != "" then [last.text] else []
  }

  lemma {:induction false} NonEmptyListed(s: seq<string>, x: string)
    ensures x in NonEmpty(s) <==> x in s && x != ""
  {
    if s != [] {
      NonEmptyListed(s[..|s| - 1], x);
      assert s == s[..|s| - 1] + [s[|s| - 1]];
    }
  }

  lemma {:induction false} TextItemsListed(s: seq<Value>, x: string)
    ensures x in TextItems(s) <==> Text(x) in s && x != ""
  {
    if s != [] {
      TextItemsListed(s[..|s| - 1], x);
      assert s == s[..|s| - 1] + [s[|s| - 1]];
    }
  }

  lemma NonEmptyMore(a: seq<string>, x: string)
    ensures NonEmpty(a + [x]) == NonEmpty(a) + if x == "" then [] else [x]
  {
    assert (a + [x])[..|a|] == a;
  }

  lemma TextItemsMore(a: seq<Value>, v: Value)
    ensures TextItems(a + [v]) == TextItems(a) + if v.Text? && v.text != "" then [v.text] else []
  {
    assert (a + [v])[..|a|] == a;
  }

  /** The strings are taken in order: one more entry adds itself at the end, or nothing when empty. */
  lemma TextsInOrder(a: seq<string>, x: string)
    ensures Strings(Texts([])) == []
    ensures Strings(Texts(a + [x])) == Strings(Texts(a)) + if x == "" then [] else [x]
  {
    NonEmptyMore(a, x);
  }

  /** The same for a decoded list, where entries that are no strings add nothing. */
  lemma ItemsInOrder(items: seq<Value>, v: Value)
    ensures Strings(List([])) == []
    ensures Strings(List(items + [v])) == Strings(List(items)) + if v.Text? && v.text != "" then [v.text] else []
  {
    TextItemsMore(items, v);
  }

  /** Exactly the non-empty strings the value lists, in either form. */
  lemma StringsListed(v: Value, x: string)
    ensures x in Strings(v) <==> x != "" && ((v.Texts? && x in v.texts) || (v.List? && Text(x) in v.items))
  {
    match v
    case Texts(texts) => NonEmptyListed(texts, x);
    case List(items) => TextItemsListed(items, x);
    case _ =>
  }

  method StringSlice(v: Value) returns (out: seq<string>)
    ensures out == Strings(v)
  {
    out := [];
    if v.Texts? {
      for n := 0 to |v.texts|
        invariant out == NonEmpty(v.texts[..n])
      {
        assert v.texts[..n + 1][..n] == v.texts[..n];
        if v.texts[n] != "" {
          out := out + [v.texts[n]];
        }
      }
      assert v.texts[..|v.texts|] == v.texts;
    } else if v.List? {
      for n := 0 to |v.items|
        invariant out == TextItems(v.items[..n])
      {
        assert v.items[..n + 1][..n] == v.items[..n];
        if v.items[n].Text? && v.items[n].text != "" {
          out := out + [v.items[n].text];
        }
      }
      assert v.items[..|v.items|] == v.items;
    }
  }

  function Field(cfg: Config, key: string): (v: Value) {
    if key in cfg then cfg[key] else Other
  }

  /** Signed requests, verified host keys and an explicit scope. */
  predicate Gated(cfg: Config, signing: bool) {
    && signing
    && Field(cfg, "known_hosts_file").Text? && Field(cfg, "known_hosts_file").text != ""
    && Strings(Field(cfg, "allowed_cidrs")) != []
  }

  /** The configuration of the ssh proxy of a gated datasource. */
  function SSHConfig(cfg: Config): (r: Config)
    requires "allowed_cidrs" in cfg && "known_hosts_file" in cfg
  {
    var out := map["host" := Text(""), "allowed_hosts" := Texts(Strings(cfg["allowed_cidrs"])), "known_hosts" := cfg["known_hosts_file"]];
    var ported := if "port" in cfg then out["port" := cfg["port"]] else out;
    if "max_output_bytes" in cfg then ported["max_output_bytes" := cfg["max_output_bytes"]] else ported
  }

  /** The ssh proxy's configuration is derived exactly when all three gates pass. */
  method SSHAccessConfig(cfg: Config, signing: bool) returns (r: Option<Config>)
    ensures r.Some? <==> Gated(cfg, signing)
    ensures r.Some? ==> r.value == SSHConfig(cfg)
  {
    if !signing {
      return None;
    }
    var knownHosts := Field(cfg, "known_hosts_file");
    if !knownHosts.Text? || knownHosts.text == "" {
      return None;
    }
    var cidrs := StringSlice(Field(cfg, "allowed_cidrs"));
    if |cidrs| == 0 {
      return None;
    }
    var out := map["host" := Text(""), "allowed_hosts" := Texts(cidrs), "known_hosts" := knownHosts];
    if "port" in cfg {
      out := out["port" := cfg["port"]];
    }
    if "max_output_bytes" in cfg {
      out := out["max_output_bytes" := cfg["max_output_bytes"]];
    }
    return Some(out);
  }

  // ----- The push -----

  /** One pushed datasource, with the answers of the parts outside the model. */
  datatype Pushed = Pushed(
    entry: Entry, config: Config, allowedHosts: seq<string>, hasCreds: bool,
    storeOk: bool, resolveOk: bool,
    configures: Config -> bool, siblingConfigures: Config -> bool,   // what Configure answers
    proxy: ProxyId, sibling: ProxyId)

  predicate CredentialsOk(d: Pushed) {
    if d.entry.credentialSource == "cloud_push" then d.hasCreds ==> d.storeOk
    else d.entry.credentialSource == "local" || d.resolveOk
  }

  predicate KnownProxyType(proxyType: string) {
    proxyType in ["http-proxy", "db-proxy", "mcp-proxy", "ssh-proxy", "mongo-proxy", "redis-proxy", "kafka-proxy", "discovery-proxy"]
  }

  /** The configuration after newProxyByType has added what the push carries beside it. */
  function Injected(d: Pushed, cfg: Config): (r: Config) {
    if d.entry.proxyType == "http-proxy" then cfg["datasource_type" := Text(d.entry.kind)]
    else if d.entry.proxyType == "ssh-proxy" && d.allowedHosts != [] then cfg["allowed_hosts" := Texts(d.allowedHosts)]
    else if d.entry.proxyType == "discovery-proxy" && d.allowedHosts != [] && "allowed_cidrs" !in cfg
    then cfg["allowed_cidrs" := Texts(d.allowedHosts)]
    else cfg
  }

  function Effective(d: Pushed, atoi: string -> Option<int>): (r: Config) {
    Injected(d, map k | k in d.config :: Normalized(d.config[k], atoi))
  }

  /** The datasource itself gets registered. */
  predicate Configured(d: Pushed, atoi: string -> Option<int>) {
    CredentialsOk(d) && KnownProxyType(d.entry.proxyType) && d.configures(Effective(d, atoi))
  }

  /** Its SSH access sibling gets registered, too. */
  predicate Opens(d: Pushed, signing: bool, atoi: string -> Option<int>) {
    var cfg := Effective(d, atoi);
    && Configured(d, atoi) && d.entry.proxyType == "discovery-proxy"
    && SSHAccessEnabled(cfg) && Gated(cfg, signing) && d.siblingConfigures(SSHConfig(cfg))
  }

  function SiblingEntry(e: Entry): (r: Entry) {
    Entry(e.id + SSH_SUFFIX, "ssh", "ssh-proxy", e.name + "-ssh", e.credentialSource, e.credentialRef)
  }

  function ApplyOne(t: Tables, d: Pushed, signing: bool, atoi: string -> Option<int>): (r: Tables) {
    if !Configured(d, atoi) then t
    else
      var u := RegisterIn(t, d.entry.id, d.entry, d.proxy);
      if Opens(d, signing, atoi) then RegisterIn(u, d.entry.id + SSH_SUFFIX, SiblingEntry(d.entry), d.sibling) else u
  }

  function ApplyPush(t: Tables, push: seq<Pushed>, signing: bool, atoi: string -> Option<int>): (r: Tables) {
    if push == [] then t
    else ApplyOne(ApplyPush(t, push[..|push| - 1], signing, atoi), push[|push| - 1], signing, atoi)
  }

  /** The ids a push keeps: those it names and the siblings it opens. */
  function KeptIds(push: seq<Pushed>, signing: bool, atoi: string -> Option<int>): (r: set<string>) {
    if push == [] then {}
    else
      var last := push[|push| - 1];
      KeptIds(push[..|push| - 1], signing, atoi) + {last.entry.id}
      + if Opens(last, signing, atoi) then {last.entry.id + SSH_SUFFIX} else {}
  }

  function RemoveAllIn(t: Tables, gone: set<string>): (r: Tables) {
    Tables(t.proxies - gone, t.configs - gone, t.lastSuccess - gone, t.reqErrors - gone)
  }

  /** What the second loop removes: not kept, not local, and its Close succeeds. */
  function Gone(t: Tables, kept: set<string>, closeOk: string -> bool): (r: set<string>) {
    set id | id in t.proxies && id !in kept && !HasPrefix(id, LOCAL_PREFIX) && closeOk(id)
  }

  function Synced(t: Tables, push: seq<Pushed>, signing: bool, atoi: string -> Option<int>, closeOk: string -> bool): (r: Tables) {
    var u := ApplyPush(t, push, signing, atoi);
    RemoveAllIn(u, Gone(u, KeptIds(push, signing, atoi), closeOk))
  }

  /** handleConfigSync. closeOk is what Close of a removed proxy returns. */
  method HandleConfigSync(registry: Registry, push: seq<Pushed>, signing: bool, atoi: string -> Option<int>, closeOk: string -> bool)
    modifies registry
    ensures registry.State() == Synced(old(registry.State()), push, signing, atoi, closeOk)
  {
    var newIDs: set<string> := {};
    for n := 0 to |push|
      invariant newIDs == KeptIds(push[..n], signing, atoi)
      invariant registry.State() == ApplyPush(old(registry.State()), push[..n], signing, atoi)
    {
      assert push[..n + 1][..n] == push[..n];
      var sibling := SyncDatasource(registry, push[n], signing, atoi);
      newIDs := newIDs + {push[n].entry.id} + if sibling then {push[n].entry.id + SSH_SUFFIX} else {};
    }
    assert push[..|push|] == push;
    RemoveUnlisted(registry, newIDs, closeOk);
  }

  method SyncDatasource(registry: Registry, d: Pushed, signing: bool, atoi: string -> Option<int>) returns (sibling: bool)
    modifies registry
    ensures registry.State() == ApplyOne(old(registry.State()), d, signing, atoi)
    ensures sibling <==> Opens(d, signing, atoi)
  {
    if d.entry.credentialSource == "cloud_push" && d.hasCreds {
      if !d.storeOk {
        return false;
      }
    } else if d.entry.credentialSource == "cloud_push" {
    } else if d.entry.credentialSource != "local" {
      if !d.resolveOk {
        return false;
      }
    }
    var cfg := NormalizeConfigValues(d.config, atoi);
    if !KnownProxyType(d.entry.proxyType) {
      return false;
    }
    cfg := Injected(d, cfg);
    if !d.configures(cfg) {
      return false;
    }
    var _ := registry.Register(d.entry.id, d.entry, d.proxy);
    sibling := false;
    if d.entry.proxyType == "discovery-proxy" && SSHAccessEnabled(cfg) {
      var ssh := SSHAccessConfig(cfg, signing);
      if ssh.None? || !d.siblingConfigures(ssh.value) {
        return false;
      }
      sibling := true;
      var _ := registry.Register(d.entry.id + SSH_SUFFIX, SiblingEntry(d.entry), d.sibling);
    }
  }

  lemma RemoveOneMore(t: Tables, gone: set<string>, id: string)
    requires id in t.proxies && id !in gone
    ensures RemoveIn(RemoveAllIn(t, gone), id, true) == RemoveAllIn(t, gone + {id})
  {
    assert t.configs - gone - {id} == t.configs - (gone + {id});
    assert t.proxies - gone - {id} == t.proxies - (gone + {id});
    assert t.lastSuccess - gone - {id} == t.lastSuccess - (gone + {id});
    assert t.reqErrors - gone - {id} == t.reqErrors - (gone + {id});
  }

  method RemoveUnlisted(registry: Registry, kept: set<string>, closeOk: string -> bool)
    modifies registry
    ensures registry.State() == RemoveAllIn(old(registry.State()), Gone(old(registry.State()), kept, closeOk))
  {
    ghost var t := registry.State();
    ghost var gone := Gone(t, kept, closeOk);
    ghost var done: set<string> := {};
    var todo := registry.proxies.Keys;
    while todo != {}
      invariant todo <= t.proxies.Keys && done == gone - todo
      invariant registry.State() == RemoveAllIn(t, done)
    {
      var id :| id in todo;
      todo := todo - {id};
      if id !in kept && !HasPrefix(id, LOCAL_PREFIX) {
        if closeOk(id) {
          RemoveOneMore(t, done, id);
          done := done + {id};
        }
        var _, _ := registry.Remove(id, closeOk(id));
      }
    }
    assert done == gone;
  }
}
