/** The module base class (src/Core/Module.php): the naming scheme of its
    configuration entries, the install and uninstall sequences, table
    creation and deletion, and the small admin-page helpers. */
module CoreModule {
  import opened Php
  import opened Framework
  import opened CoreDb
  import opened CoreSchema

  // ---------------------------------------------------------------------
  // Configuration names

  /** The prefix of every configuration entry the module owns. */
  const NameConfiguration := "PW_NAME_MODULE"

  /** `Tools::strtoupper` on one character (ASCII letters only). */
  function UpperChar(c: char): char
  {
    if 'a' <= c <= 'z' then (c as int - 32) as char else c
  }

  function ToUpper(s: string): string
  {
    seq(|s|, i requires 0 <= i < |s| => UpperChar(s[i]))
  }

  /** The configuration name behind a key. */
  function ConfigKey(key: string): string
  {
    NameConfiguration + ToUpper(key)
  }

  /** A name is the prefix, then the key's characters upper-cased one for
      one; no lower-case letter is left in it. */
  lemma ConfigKeyLayout(key: string)
    ensures |ConfigKey(key)| == |NameConfiguration| + |key|
    ensures ConfigKey(key)[..|NameConfiguration|] == NameConfiguration
    ensures forall i :: 0 <= i < |key| ==> ConfigKey(key)[|NameConfiguration| + i] == UpperChar(key[i])
    ensures forall c :: c in ConfigKey(key) ==> !('a' <= c <= 'z')
  {
  }

  /** Two keys address the same entry exactly when they agree up to case. */
  lemma ConfigKeyCaseInsensitive(a: string, b: string)
    ensures ConfigKey(a) == ConfigKey(b) <==> ToUpper(a) == ToUpper(b)
  {
    if ConfigKey(a) == ConfigKey(b) {
      assert ToUpper(a) == ConfigKey(a)[|NameConfiguration|..];
      assert ToUpper(b) == ConfigKey(b)[|NameConfiguration|..];
    }
  }

  // ---------------------------------------------------------------------
  // The configuration store

  /** PHP's `serialize` and the framework's `Tools::unSerialize`. */
  datatype Codec = Codec(serialize: Value -> Value, unserialize: Value -> Value)

  /** What is written: serialised only when asked for. */
  function Encoded(v: Value, serialize: bool, codec: Codec): Value
  {
    if serialize then codec.serialize(v) else v
  }

  /** What is returned: unserialised only when asked for. */
  function Decoded(v: Value, unserialize: bool, codec: Codec): Value
  {
    if unserialize then codec.unserialize(v) else v
  }

  /** `Configuration::get`: the stored value, `false` for a missing name. */
  function Stored(config: map<string, Value>, name: string): Value
  {
    if name in config then config[name] else Bool(false)
  }

  /** Reading back a key written with the same flag, under any spelling
      that agrees up to case, gives the value written, provided the codec
      undoes its own serialisation. */
  lemma ConfigRoundTrip(config: map<string, Value>, key: string, other: string, v: Value, flag: bool, codec: Codec)
    requires ToUpper(key) == ToUpper(other)
    requires flag ==> codec.unserialize(codec.serialize(v)) == v
    ensures Decoded(Stored(config[ConfigKey(key) := Encoded(v, flag, codec)], ConfigKey(other)), flag, codec) == v
  {
    ConfigKeyCaseInsensitive(key, other);
  }

  /** Writing a key leaves every key that differs from it up to case alone. */
  lemma ConfigWriteIndependent(config: map<string, Value>, key: string, other: string, v: Value)
    requires ToUpper(key) != ToUpper(other)
    ensures Stored(config[ConfigKey(key) := v], ConfigKey(other)) == Stored(config, ConfigKey(other))
  {
    ConfigKeyCaseInsensitive(key, other);
  }

  /** After a delete, every spelling of the key reads `false`. */
  lemma ConfigDeleteErases(config: map<string, Value>, key: string, other: string)
    requires ToUpper(key) == ToUpper(other)
    ensures Stored(config - {ConfigKey(key)}, ConfigKey(other)) == Bool(false)
  {
    ConfigKeyCaseInsensitive(key, other);
  }

  // ---------------------------------------------------------------------
  // Tables, hooks and the lifecycle sequences

  /** One entry of the module's table list: its name, its column map and
      its optional primary key. */
  datatype TableDef = TableDef(name: string, columns: seq<Column>, primary: Option<seq<string>>)

  /** The error messages the module appends to its own `_errors`. */
  datatype ModuleError =
    | HookNotRegistered(hook: string)
    | TableNotCreated(table: string)
    | TableNotDeleted(table: string)

  /** How many outcomes a loop that stops at the first failure consumes. */
  function Attempted(outcomes: seq<bool>): (n: nat)
    ensures n <= |outcomes|
    ensures outcomes != [] ==> 0 < n
    decreases |outcomes|
  {
    if outcomes == [] then 0
    else if !outcomes[0] then 1
    else 1 + Attempted(outcomes[1..])
  }

  /** All outcomes when none fails; otherwise up to and including the first
      failure, and no further. */
  lemma {:induction false} AttemptedSpec(outcomes: seq<bool>)
    ensures false !in outcomes ==> Attempted(outcomes) == |outcomes|
    ensures false in outcomes ==>
      && 0 < Attempted(outcomes)
      && !outcomes[Attempted(outcomes) - 1]
      && false !in outcomes[..Attempted(outcomes) - 1]
    decreases |outcomes|
  {
    if outcomes != [] && outcomes[0] {
      AttemptedSpec(outcomes[1..]);
      assert outcomes == [outcomes[0]] + outcomes[1..];
      var n := Attempted(outcomes[1..]);
      if false in outcomes {
        assert outcomes[..n] == [outcomes[0]] + outcomes[1..][..n - 1];
      }
    }
  }

  /** A failure after only successes is the last outcome consumed. */
  lemma {:induction false} AttemptedAt(outcomes: seq<bool>, i: nat)
    requires i < |outcomes| && !outcomes[i] && false !in outcomes[..i]
    ensures Attempted(outcomes) == i + 1
    decreases i
  {
    if i > 0 {
      assert outcomes[0] in outcomes[..i];
      assert outcomes[1..][..i - 1] == outcomes[1..i];
      assert outcomes[..i] == [outcomes[0]] + outcomes[1..i];
      AttemptedAt(outcomes[1..], i - 1);
    }
  }

  /** The table's key columns, or none when it declares no key. */
  function PrimaryOf(t: TableDef): seq<string>
  {
    if t.primary.Some? then t.primary.value else []
  }

  /** The statements `createTables` sends, one per table. */
  function CreateEvents(instance: Handle, env: Env, tables: seq<TableDef>): seq<Event>
  {
    seq(|tables|, i requires 0 <= i < |tables| =>
      Execute(instance, CreateStatement(env, tables[i].name, tables[i].columns, PrimaryOf(tables[i]))))
  }

  /** The statements `deleteTables` sends, one per table. */
  function DropEvents(instance: Handle, env: Env, tables: seq<TableDef>): seq<Event>
  {
    seq(|tables|, i requires 0 <= i < |tables| => Execute(instance, DropStatement(env, tables[i].name)))
  }

  function HookEvents(hooks: seq<string>): seq<Event>
  {
    seq(|hooks|, i requires 0 <= i < |hooks| => RegisterHook(hooks[i]))
  }

  /** The default writes `install` makes, in the defaults' order. */
  function DefaultWrites(configuration: seq<(string, Value)>): seq<Event>
  {
    seq(|configuration|, i requires 0 <= i < |configuration| =>
      ConfigUpdate(ConfigKey(configuration[i].0), configuration[i].1, false))
  }

  /** The deletes a successful `uninstall` makes, in the defaults' order. */
  function ConfigDeletes(configuration: seq<(string, Value)>): seq<Event>
  {
    seq(|configuration|, i requires 0 <= i < |configuration| => ConfigDelete(ConfigKey(configuration[i].0)))
  }

  lemma CreateEventsStep(instance: Handle, env: Env, tables: seq<TableDef>, i: nat)
    requires i < |tables|
    ensures CreateEvents(instance, env, tables[..i + 1]) == CreateEvents(instance, env, tables[..i])
      + [Execute(instance, CreateStatement(env, tables[i].name, tables[i].columns, PrimaryOf(tables[i])))]
  {
  }

  lemma DropEventsStep(instance: Handle, env: Env, tables: seq<TableDef>, i: nat)
    requires i < |tables|
    ensures DropEvents(instance, env, tables[..i + 1]) ==
      DropEvents(instance, env, tables[..i]) + [Execute(instance, DropStatement(env, tables[i].name))]
  {
  }

  /** The errors of the hook loop: one per refused hook, in order. */
  function HookErrors(hooks: seq<string>, registered: seq<bool>): seq<ModuleError>
    requires |registered| == |hooks|
    decreases |hooks|
  {
    if hooks == [] then []
    else
      var n := |hooks| - 1;
      HookErrors(hooks[..n], registered[..n]) + (if registered[n] then [] else [HookNotRegistered(hooks[n])])
  }

  /** Exactly one error per refused hook, so none exactly when every hook
      was registered. */
  lemma {:induction false} HookErrorsCount(hooks: seq<string>, registered: seq<bool>)
    requires |registered| == |hooks|
    ensures |HookErrors(hooks, registered)| == multiset(registered)[false]
    ensures HookErrors(hooks, registered) == [] <==> false !in registered
    decreases |hooks|
  {
    if hooks != [] {
      var n := |hooks| - 1;
      HookErrorsCount(hooks[..n], registered[..n]);
      assert registered == registered[..n] + [registered[n]];
      assert multiset(registered) == multiset(registered[..n]) + multiset{registered[n]};
    }
  }

  /** Every refused hook has its error. */
  lemma {:induction false} HookErrorsComplete(hooks: seq<string>, registered: seq<bool>, i: nat)
    requires |registered| == |hooks| && i < |hooks| && !registered[i]
    ensures HookNotRegistered(hooks[i]) in HookErrors(hooks, registered)
    decreases |hooks|
  {
    var n := |hooks| - 1;
    if i < n {
      HookErrorsComplete(hooks[..n], registered[..n], i);
    }
  }

  /** Every error names a refused hook. */
  lemma {:induction false} HookErrorsSound(hooks: seq<string>, registered: seq<bool>, e: ModuleError)
    requires |registered| == |hooks| && e in HookErrors(hooks, registered)
    ensures exists i :: 0 <= i < |hooks| && !registered[i] && e == HookNotRegistered(hooks[i])
    decreases |hooks|
  {
    var n := |hooks| - 1;
    if e in HookErrors(hooks[..n], registered[..n]) {
      HookErrorsSound(hooks[..n], registered[..n], e);
      var i :| 0 <= i < n && !registered[..n][i] && e == HookNotRegistered(hooks[..n][i]);
      assert registered[i] == registered[..n][i] && hooks[i] == hooks[..n][i];
    } else {
      assert !registered[n] && e == HookNotRegistered(hooks[n]);
    }
  }

  /** The store after the default writes, each applied when the framework
      accepted it. */
  function WithDefaults(config: map<string, Value>, configuration: seq<(string, Value)>, written: seq<bool>): map<string, Value>
    requires |written| == |configuration|
    decreases |configuration|
  {
    if configuration == [] then config
    else
      var n := |configuration| - 1;
      var before := WithDefaults(config, configuration[..n], written[..n]);
      if written[n] then before[ConfigKey(configuration[n].0) := configuration[n].1] else before
  }

  /** The store after the deletes, each applied when the framework accepted
      it. */
  function WithoutDefaults(config: map<string, Value>, configuration: seq<(string, Value)>, deleted: seq<bool>): map<string, Value>
    requires |deleted| == |configuration|
    decreases |configuration|
  {
    if configuration == [] then config
    else
      var n := |configuration| - 1;
      var before := WithoutDefaults(config, configuration[..n], deleted[..n]);
      if deleted[n] then before - {ConfigKey(configuration[n].0)} else before
  }

  /** An accepted default that no later default overrides (up to case) is
      what the store holds for its key. */
  lemma {:induction false} WithDefaultsStored(config: map<string, Value>, configuration: seq<(string, Value)>, written: seq<bool>, i: nat)
    requires |written| == |configuration| && i < |configuration| && written[i]
    requires forall j :: i < j < |configuration| ==> ToUpper(configuration[j].0) != ToUpper(configuration[i].0)
    ensures Stored(WithDefaults(config, configuration, written), ConfigKey(configuration[i].0)) == configuration[i].1
    decreases |configuration|
  {
    var n := |configuration| - 1;
    if i < n {
      WithDefaultsStored(config, configuration[..n], written[..n], i);
      ConfigKeyCaseInsensitive(configuration[n].0, configuration[i].0);
    }
  }

  /** Names the defaults do not address keep their old values. */
  lemma {:induction false} WithDefaultsUntouched(config: map<string, Value>, configuration: seq<(string, Value)>, written: seq<bool>, name: string)
    requires |written| == |configuration|
    requires forall i :: 0 <= i < |configuration| ==> ConfigKey(configuration[i].0) != name
    ensures Stored(WithDefaults(config, configuration, written), name) == Stored(config, name)
    decreases |configuration|
  {
    if configuration != [] {
      var n := |configuration| - 1;
      WithDefaultsUntouched(config, configuration[..n], written[..n], name);
    }
  }

  /** An accepted delete leaves the key absent, whatever else is deleted. */
  lemma {:induction false} WithoutDefaultsErased(config: map<string, Value>, configuration: seq<(string, Value)>, deleted: seq<bool>, i: nat)
    requires |deleted| == |configuration| && i < |configuration| && deleted[i]
    ensures ConfigKey(configuration[i].0) !in WithoutDefaults(config, configuration, deleted)
    decreases |configuration|
  {
    var n := |configuration| - 1;
    if i < n {
      WithoutDefaultsErased(config, configuration[..n], deleted[..n], i);
    }
  }

  /** Names the defaults do not address survive an uninstall. */
  lemma {:induction false} WithoutDefaultsUntouched(config: map<string, Value>, configuration: seq<(string, Value)>, deleted: seq<bool>, name: string)
    requires |deleted| == |configuration|
    requires forall i :: 0 <= i < |configuration| ==> ConfigKey(configuration[i].0) != name
    ensures Stored(WithoutDefaults(config, configuration, deleted), name) == Stored(config, name)
    decreases |configuration|
  {
    if configuration != [] {
      var n := |configuration| - 1;
      WithoutDefaultsUntouched(config, configuration[..n], deleted[..n], name);
    }
  }

  /** Everything `install` asks of the framework, in order. */
  function InstallTrace(instance: Handle, env: Env, configuration: seq<(string, Value)>, tables: seq<TableDef>,
                        hooks: seq<string>, baseOk: bool, created: seq<bool>): seq<Event>
    requires |created| == |tables|
  {
    DefaultWrites(configuration) + [BaseInstall]
      + (if baseOk then CreateEvents(instance, env, tables[..Attempted(created)]) else [])
      + (if baseOk && false !in created then HookEvents(hooks) else [])
  }

  /** The errors `install` appends to the module's `_errors`. */
  function InstallErrors(tables: seq<TableDef>, hooks: seq<string>, baseOk: bool, created: seq<bool>, registered: seq<bool>): seq<ModuleError>
    requires |created| == |tables| && |registered| == |hooks|
  {
    if !baseOk then []
    else if false in created then
      AttemptedSpec(created);
      [TableNotCreated(tables[Attempted(created) - 1].name)]
    else HookErrors(hooks, registered)
  }

  /** Everything `uninstall` asks of the framework, in order. */
  function UninstallTrace(instance: Handle, env: Env, configuration: seq<(string, Value)>, tables: seq<TableDef>,
                          baseOk: bool, dropped: seq<bool>): seq<Event>
    requires |dropped| == |tables|
  {
    [BaseUninstall]
      + (if baseOk then DropEvents(instance, env, tables[..Attempted(dropped)]) else [])
      + (if baseOk && false !in dropped then ConfigDeletes(configuration) else [])
  }

  /** `install` writes every default first, whatever happens later, then
      asks for the base install exactly there; no other configuration write
      follows. */
  lemma InstallOrder(instance: Handle, env: Env, configuration: seq<(string, Value)>, tables: seq<TableDef>,
                     hooks: seq<string>, baseOk: bool, created: seq<bool>)
    requires |created| == |tables|
    ensures var t := InstallTrace(instance, env, configuration, tables, hooks, baseOk, created);
      && |configuration| < |t|
      && t[|configuration|] == BaseInstall
      && (forall i :: 0 <= i < |t| ==> (t[i].ConfigUpdate? <==> i < |configuration|))
      && (forall i :: 0 <= i < |configuration| ==> t[i] == ConfigUpdate(ConfigKey(configuration[i].0), configuration[i].1, false))
  {
    AttemptedSpec(created);
    var t := InstallTrace(instance, env, configuration, tables, hooks, baseOk, created);
    var w := DefaultWrites(configuration);
    var c := if baseOk then CreateEvents(instance, env, tables[..Attempted(created)]) else [];
    var h := if baseOk && false !in created then HookEvents(hooks) else [];
    assert t == w + [BaseInstall] + c + h;
    forall i | 0 <= i < |t| ensures t[i].ConfigUpdate? <==> i < |configuration| {
      if i >= |w| + 1 + |c| {
        assert t[i] == h[i - |w| - 1 - |c|];
      } else if i >= |w| + 1 {
        assert t[i] == c[i - |w| - 1];
      }
    }
  }

  /** Tables are created only after a successful base install, hooks are
      registered only after the tables too were created, and then every
      hook is tried, whatever the earlier ones answered. */
  lemma InstallGates(instance: Handle, env: Env, configuration: seq<(string, Value)>, tables: seq<TableDef>,
                     hooks: seq<string>, baseOk: bool, created: seq<bool>)
    requires |created| == |tables|
    ensures var t := InstallTrace(instance, env, configuration, tables, hooks, baseOk, created);
      && (!baseOk ==> |t| == |configuration| + 1)
      && ((exists i :: 0 <= i < |t| && t[i].RegisterHook?) ==> baseOk && false !in created)
      && (baseOk && false !in created ==> forall h :: h in hooks ==> RegisterHook(h) in t)
      && (baseOk ==> |t| >= |configuration| + 1 + Attempted(created))
  {
    AttemptedSpec(created);
    var t := InstallTrace(instance, env, configuration, tables, hooks, baseOk, created);
    var w := DefaultWrites(configuration);
    var c := if baseOk then CreateEvents(instance, env, tables[..Attempted(created)]) else [];
    var h := if baseOk && false !in created then HookEvents(hooks) else [];
    assert t == w + [BaseInstall] + c + h;
    if baseOk && false !in created {
      forall x | x in hooks ensures RegisterHook(x) in t {
        var j :| 0 <= j < |hooks| && hooks[j] == x;
        assert t[|w| + 1 + |c| + j] == h[j];
      }
    }
  }

  /** When the base install succeeds, `install` succeeds exactly when it
      appended no error; a failing table stops everything with one error,
      and otherwise every refused hook adds exactly one. */
  lemma InstallErrorsSpec(tables: seq<TableDef>, hooks: seq<string>, baseOk: bool, created: seq<bool>, registered: seq<bool>)
    requires |created| == |tables| && |registered| == |hooks|
    ensures var errs := InstallErrors(tables, hooks, baseOk, created, registered);
      && (baseOk ==> ((false !in created && false !in registered) <==> errs == []))
      && (baseOk && false in created ==> |errs| == 1)
      && (baseOk && false !in created ==> |errs| == multiset(registered)[false])
      && (!baseOk ==> errs == [])
  {
    HookErrorsCount(hooks, registered);
  }

  /** `deleteTables` is not even tried when the base uninstall fails, and
      the configuration is deleted only after both succeeded. */
  lemma UninstallGates(instance: Handle, env: Env, configuration: seq<(string, Value)>, tables: seq<TableDef>,
                       baseOk: bool, dropped: seq<bool>)
    requires |dropped| == |tables|
    ensures var t := UninstallTrace(instance, env, configuration, tables, baseOk, dropped);
      && t[0] == BaseUninstall
      && (!baseOk ==> t == [BaseUninstall])
      && ((exists i :: 0 <= i < |t| && t[i].ConfigDelete?) ==> baseOk && false !in dropped)
      && (baseOk && false !in dropped ==> forall i :: 0 <= i < |configuration| ==>
            ConfigDelete(ConfigKey(configuration[i].0)) in t)
  {
    AttemptedSpec(dropped);
    var t := UninstallTrace(instance, env, configuration, tables, baseOk, dropped);
    var d := if baseOk then DropEvents(instance, env, tables[..Attempted(dropped)]) else [];
    var e := if baseOk && false !in dropped then ConfigDeletes(configuration) else [];
    assert t == [BaseUninstall] + d + e;
    if baseOk && false !in dropped {
      forall i | 0 <= i < |configuration| ensures ConfigDelete(ConfigKey(configuration[i].0)) in t {
        assert t[1 + |d| + i] == e[i];
      }
    }
  }

  // ---------------------------------------------------------------------
  // The page content

  /** What `write` hands over: one string or a list of them. */
  datatype Content = Text(s: string) | Pieces(parts: seq<string>)

  /** `$content` after the pieces were appended one by one; it stays `null`
      when nothing at all was appended to a `null`. */
  function Appended(content: Option<string>, parts: seq<string>): Option<string>
  {
    if parts == [] then content
    else Some(TextOf(content) + Join(parts, ""))
  }

  /** `null` reads as the empty string when concatenated. */
  function TextOf(content: Option<string>): string
  {
    if content.Some? then content.value else ""
  }

  /** Appending one more piece. */
  lemma AppendedStep(content: Option<string>, parts: seq<string>, i: nat)
    requires i < |parts|
    ensures Appended(content, parts[..i + 1]) == Some(TextOf(Appended(content, parts[..i])) + parts[i])
  {
    assert parts[..i + 1] == parts[..i] + [parts[i]];
    JoinNoSeparator(parts[..i], parts[i]);
    if i == 0 {
      assert parts[..i + 1] == [parts[0]];
    } else {
      var t := TextOf(content);
      var j := Join(parts[..i], "");
      assert Appended(content, parts[..i]) == Some(t + j);
      assert t + (j + parts[i]) == (t + j) + parts[i];
    }
  }

  lemma JoinNoSeparator(parts: seq<string>, x: string)
    ensures Join(parts + [x], "") == Join(parts, "") + x
  {
    if parts != [] {
      JoinAppend(parts, x, "");
    }
  }

  /** Writing a list is writing its halves one after the other. */
  lemma AppendedConcat(content: Option<string>, a: seq<string>, b: seq<string>)
    ensures Appended(Appended(content, a), b) == Appended(content, a + b)
  {
    if a == [] {
      assert a + b == b;
    } else if b == [] {
      assert a + b == a;
    } else {
      JoinConcatNoSeparator(a, b);
      var text := TextOf(content);
      assert Appended(Appended(content, a), b) == Some((text + Join(a, "")) + Join(b, ""));
      assert text + Join(a + b, "") == (text + Join(a, "")) + Join(b, "");
    }
  }

  /** With no separator, joining two lists is joining each. */
  lemma {:induction false} JoinConcatNoSeparator(a: seq<string>, b: seq<string>)
    ensures Join(a + b, "") == Join(a, "") + Join(b, "")
    decreases |b|
  {
    if b == [] {
      assert a + b == a;
    } else {
      var n := |b| - 1;
      assert a + b == (a + b[..n]) + [b[n]];
      assert b == b[..n] + [b[n]];
      JoinConcatNoSeparator(a, b[..n]);
      JoinNoSeparator(a + b[..n], b[n]);
      JoinNoSeparator(b[..n], b[n]);
    }
  }

  // ---------------------------------------------------------------------
  // Admin links

  /** The arguments `url` hands to `Link::getAdminLink`. */
  datatype LinkRequest = LinkRequest(controller: Value, token: bool, routeParams: Entries, queryParams: Entries)

  // ---------------------------------------------------------------------
  // The module

  /** Laying three pieces of a trace after an earlier one. */
  lemma Regroup(earlier: seq<Event>, a: seq<Event>, b: seq<Event>, c: seq<Event>)
    ensures earlier + a + b + c == earlier + (a + b + c)
  {
  }

  class Module {
    /** `$this->name`. */
    const name: string
    const host: Host
    const db: Db
    const env: Env
    const codec: Codec
    /** `static::$configuration`: the defaults, by key. */
    const configuration: seq<(string, Value)>
    /** `static::$hooks`. */
    const hooks: seq<string>
    /** What `getTables` reads from the module's schema file. */
    const tables: seq<TableDef>
    /** `$this->_errors`. */
    var errors: seq<ModuleError>
    /** `$this->content`, `null` until something is written. */
    var content: Option<string>

    ghost predicate Valid()
      reads this, db
    {
      db.host == host && db.Valid()
    }

    constructor (name: string, host: Host, db: Db, env: Env, codec: Codec,
                 configuration: seq<(string, Value)>, hooks: seq<string>, tables: seq<TableDef>)
      requires db.host == host && db.Valid()
      ensures Valid() && errors == [] && content == None
      ensures this.name == name && this.host == host && this.db == db && this.env == env && this.codec == codec
      ensures this.configuration == configuration && this.hooks == hooks && this.tables == tables
    {
      this.name := name;
      this.host := host;
      this.db := db;
      this.env := env;
      this.codec := codec;
      this.configuration := configuration;
      this.hooks := hooks;
      this.tables := tables;
      errors := [];
      content := None;
    }

    /** `getConfig`: the entry under the prefixed, upper-cased key, or
        `false`; unserialised only when asked for. */
    static method GetConfig(host: Host, key: string, unserialize: bool, codec: Codec) returns (r: Value)
      ensures r == Decoded(Stored(host.config, ConfigKey(key)), unserialize, codec)
    {
      var name := NameConfiguration + ToUpper(key);
      var data := if name in host.config then host.config[name] else Bool(false);
      r := if unserialize then codec.unserialize(data) else data;
    }

    /** `setConfig`: one write under the prefixed, upper-cased key, of the
        value serialised only when asked for; the framework's answer is
        returned and the store changes only when it accepted the write. */
    static method SetConfig(host: Host, key: string, values: Value, html: bool, serialize: bool, codec: Codec, outcome: bool)
      returns (ok: bool)
      modifies host`config, host`trace
      ensures ok == outcome
      ensures host.trace == old(host.trace) + [ConfigUpdate(ConfigKey(key), Encoded(values, serialize, codec), html)]
      ensures host.config == if ok then old(host.config)[ConfigKey(key) := Encoded(values, serialize, codec)] else old(host.config)
    {
      var name := NameConfiguration + ToUpper(key);
      var stored := if serialize then codec.serialize(values) else values;
      host.trace := host.trace + [ConfigUpdate(name, stored, html)];
      if outcome {
        host.config := host.config[name := stored];
      }
      ok := outcome;
    }

    /** `deleteConfig`: one delete under the prefixed, upper-cased key. */
    static method DeleteConfig(host: Host, key: string, outcome: bool) returns (ok: bool)
      modifies host`config, host`trace
      ensures ok == outcome
      ensures host.trace == old(host.trace) + [ConfigDelete(ConfigKey(key))]
      ensures host.config == if ok then old(host.config) - {ConfigKey(key)} else old(host.config)
    {
      var name := NameConfiguration + ToUpper(key);
      host.trace := host.trace + [ConfigDelete(name)];
      if outcome {
        host.config := host.config - {name};
      }
      ok := outcome;
    }

    /** `createTables`: creates the tables in order and stops at the first
        one the database refuses, with one error naming it. */
    method CreateTables(created: seq<bool>) returns (ok: bool)
      requires Valid() && |created| == |tables|
      modifies host`trace, db`db, db`lookups, this`errors
      ensures Valid()
      ensures ok == (false !in created)
      ensures host.trace == old(host.trace) + CreateEvents(db.instance, env, tables[..Attempted(created)])
      ensures errors == old(errors) + (if ok then [] else [TableNotCreated(tables[Attempted(created) - 1].name)])
    {
      for i := 0 to |tables|
        invariant Valid()
        invariant false !in created[..i]
        invariant host.trace == old(host.trace) + CreateEvents(db.instance, env, tables[..i])
        invariant errors == old(errors)
      {
        var table := tables[i];
        ok := Create(db, env, table.name, table.columns, PrimaryOf(table), created[i]);
        CreateEventsStep(db.instance, env, tables, i);
        if !ok {
          AttemptedAt(created, i);
          errors := errors + [TableNotCreated(table.name)];
          return;
        }
        assert created[..i + 1] == created[..i] + [created[i]];
      }
      assert created[..|tables|] == created;
      assert tables[..|tables|] == tables;
      AttemptedSpec(created);
      ok := true;
    }

    /** `deleteTables`: drops the tables in order and stops at the first one
        the database refuses, with one error naming it. */
    method DeleteTables(dropped: seq<bool>) returns (ok: bool)
      requires Valid() && |dropped| == |tables|
      modifies host`trace, db`db, db`lookups, this`errors
      ensures Valid()
      ensures ok == (false !in dropped)
      ensures host.trace == old(host.trace) + DropEvents(db.instance, env, tables[..Attempted(dropped)])
      ensures errors == old(errors) + (if ok then [] else [TableNotDeleted(tables[Attempted(dropped) - 1].name)])
    {
      for i := 0 to |tables|
        invariant Valid()
        invariant false !in dropped[..i]
        invariant host.trace == old(host.trace) + DropEvents(db.instance, env, tables[..i])
        invariant errors == old(errors)
      {
        var table := tables[i];
        ok := Drop(db, env, table.name, dropped[i]);
        DropEventsStep(db.instance, env, tables, i);
        if !ok {
          AttemptedAt(dropped, i);
          errors := errors + [TableNotDeleted(table.name)];
          return;
        }
        assert dropped[..i + 1] == dropped[..i] + [dropped[i]];
      }
      assert dropped[..|tables|] == dropped;
      assert tables[..|tables|] == tables;
      AttemptedSpec(dropped);
      ok := true;
    }

    /** The first loop of `install`: every default, in order, through
        `setConfig`, whose answers are ignored. */
    method WriteDefaults(written: seq<bool>)
      requires Valid() && |written| == |configuration|
      modifies host`config, host`trace
      ensures host.trace == old(host.trace) + DefaultWrites(configuration)
      ensures host.config == WithDefaults(old(host.config), configuration, written)
    {
      for i := 0 to |configuration|
        invariant host.trace == old(host.trace) + DefaultWrites(configuration[..i])
        invariant host.config == WithDefaults(old(host.config), configuration[..i], written[..i])
      {
        var (key, value) := configuration[i];
        var stored := SetConfig(host, key, value, false, false, codec, written[i]);
        assert configuration[..i + 1][..i] == configuration[..i];
        assert written[..i + 1][..i] == written[..i];
        assert DefaultWrites(configuration[..i + 1]) ==
          DefaultWrites(configuration[..i]) + [ConfigUpdate(ConfigKey(key), value, false)];
      }
      assert configuration[..|configuration|] == configuration;
      assert written[..|configuration|] == written;
    }

    /** The hook loop of `install`: every hook is tried, each refusal adds
        one error and makes the result false. */
    method RegisterHooks(registered: seq<bool>) returns (result: bool)
      requires Valid() && |registered| == |hooks|
      modifies host`trace, this`errors
      ensures result == (false !in registered)
      ensures host.trace == old(host.trace) + HookEvents(hooks)
      ensures errors == old(errors) + HookErrors(hooks, registered)
    {
      result := true;
      for i := 0 to |hooks|
        invariant host.trace == old(host.trace) + HookEvents(hooks[..i])
        invariant errors == old(errors) + HookErrors(hooks[..i], registered[..i])
        invariant result == (false !in registered[..i])
      {
        host.trace := host.trace + [RegisterHook(hooks[i])];
        assert hooks[..i + 1][..i] == hooks[..i];
        assert registered[..i + 1][..i] == registered[..i];
        assert registered[..i + 1] == registered[..i] + [registered[i]];
        assert HookEvents(hooks[..i + 1]) == HookEvents(hooks[..i]) + [RegisterHook(hooks[i])];
        if !registered[i] {
          errors := errors + [HookNotRegistered(hooks[i])];
          result := false;
        }
      }
      assert hooks[..|hooks|] == hooks;
      assert registered[..|hooks|] == registered;
    }

    /** `install`: the defaults are written first, then the base install,
        then (only on success) the tables, then (only if those succeeded)
        every hook, each refusal adding an error and failing the result. The
        controller's notice lists are not touched. */
    method Install(written: seq<bool>, baseOk: bool, created: seq<bool>, registered: seq<bool>) returns (result: bool)
      requires Valid()
      requires |written| == |configuration| && |created| == |tables| && |registered| == |hooks|
      modifies host`config, host`trace, db`db, db`lookups, this`errors
      ensures Valid()
      ensures result == (baseOk && false !in created && false !in registered)
      ensures host.trace == old(host.trace) + InstallTrace(db.instance, env, configuration, tables, hooks, baseOk, created)
      ensures host.config == WithDefaults(old(host.config), configuration, written)
      ensures errors == old(errors) + InstallErrors(tables, hooks, baseOk, created, registered)
      ensures host.notices == old(host.notices)
    {
      WriteDefaults(written);
      host.trace := host.trace + [BaseInstall];
      ghost var afterBase := host.trace;
      result := baseOk;
      if result {
        result := CreateTables(created);
      }
      ghost var afterTables := host.trace;
      ghost var tableErrors := errors;
      if result {
        result := RegisterHooks(registered);
      }
      AttemptedSpec(created);
      ghost var tablesPart := if baseOk then CreateEvents(db.instance, env, tables[..Attempted(created)]) else [];
      ghost var hooksPart := if baseOk && false !in created then HookEvents(hooks) else [];
      assert afterBase == old(host.trace) + (DefaultWrites(configuration) + [BaseInstall]);
      assert afterTables == afterBase + tablesPart;
      assert host.trace == afterTables + hooksPart;
      Regroup(old(host.trace), DefaultWrites(configuration) + [BaseInstall], tablesPart, hooksPart);
    }

    /** `uninstall`: the base uninstall, then (only on success) the tables;
        only when both succeeded are the defaults' entries deleted, and only
        then is the answer true. */
    method Uninstall(baseOk: bool, dropped: seq<bool>, deleted: seq<bool>) returns (ok: bool)
      requires Valid()
      requires |dropped| == |tables| && |deleted| == |configuration|
      modifies host`config, host`trace, db`db, db`lookups, this`errors
      ensures Valid()
      ensures ok == (baseOk && false !in dropped)
      ensures host.trace == old(host.trace) + UninstallTrace(db.instance, env, configuration, tables, baseOk, dropped)
      ensures host.config == if ok then WithoutDefaults(old(host.config), configuration, deleted) else old(host.config)
      ensures errors == old(errors) + (if baseOk && !ok then [TableNotDeleted(tables[Attempted(dropped) - 1].name)] else [])
      ensures host.notices == old(host.notices)
    {
      AttemptedSpec(dropped);
      host.trace := host.trace + [BaseUninstall];
      ok := baseOk;
      if ok {
        ok := DeleteTables(dropped);
      }
      if ok {
        ghost var afterTables := host.trace;
        for i := 0 to |configuration|
          invariant Valid()
          invariant host.trace == afterTables + ConfigDeletes(configuration[..i])
          invariant errors == old(errors)
          invariant host.config == WithoutDefaults(old(host.config), configuration[..i], deleted[..i])
        {
          var key := configuration[i].0;
          var gone := DeleteConfig(host, key, deleted[i]);
          assert configuration[..i + 1][..i] == configuration[..i];
          assert deleted[..i + 1][..i] == deleted[..i];
          assert ConfigDeletes(configuration[..i + 1]) == ConfigDeletes(configuration[..i]) + [ConfigDelete(ConfigKey(key))];
        }
        assert configuration[..|configuration|] == configuration;
        assert deleted[..|configuration|] == deleted;
      }
    }

    /** `confirm`: the message goes last on the controller's confirmations. */
    method Confirm(message: Value)
      modifies host`notices
      ensures host.notices == old(host.notices).(confirmations := old(host.notices).confirmations + [message])
      ensures HasErrors() == old(HasErrors())
      ensures forall t: string, submitted: string -> bool ::
        ShouldDisplayForm(t, submitted) == old(ShouldDisplayForm(t, submitted))
    {
      host.notices := host.notices.(confirmations := host.notices.confirmations + [message]);
    }

    /** `error`: the message goes last on the controller's errors, so there
        are errors from then on, and a submitted form is shown again. */
    method Error(message: Value)
      modifies host`notices
      ensures host.notices == old(host.notices).(errors := old(host.notices).errors + [message])
      ensures HasErrors()
      ensures forall t: string, submitted: string -> bool ::
        submitted("submit_" + t) ==> ShouldDisplayForm(t, submitted)
    {
      host.notices := host.notices.(errors := host.notices.errors + [message]);
    }

    /** `hasErrors`: whether the controller's error list is non-empty. */
    predicate HasErrors(): (r: bool)
      reads host
      ensures r <==> |host.notices.errors| > 0
    {
      host.notices.errors != []
    }

    /** `shouldDisplayForm`: after a submission, the form is shown again
        exactly when there are errors; otherwise exactly when an add or an
        update was requested. `isSubmit` is the request's `Tools::isSubmit`. */
    function ShouldDisplayForm(table: string, isSubmit: string -> bool): (r: bool)
      reads host
      ensures isSubmit("submit_" + table) ==> (r <==> |host.notices.errors| > 0)
      ensures !isSubmit("submit_" + table) ==> (r <==> isSubmit("add" + table) || isSubmit("update" + table))
    {
      if isSubmit("submit_" + table) then HasErrors()
      else isSubmit("add" + table) || isSubmit("update" + table)
    }

    /** `url`: a falsy controller becomes the module configuration page,
        with `configure` set to the module's name and every other parameter
        kept; the parameters go in exactly one of the two slots. */
    function Url(params: Entries, controller: Value, token: bool, symfony: bool): (r: LinkRequest)
      ensures r.token == token
      ensures r.controller == if Truthy(controller) then controller else Str("AdminModules")
      ensures symfony ==> r.queryParams == []
      ensures !symfony ==> r.routeParams == []
      ensures var slot := if symfony then r.routeParams else r.queryParams;
        && (Truthy(controller) ==> slot == params)
        && (forall k :: Lookup(slot, k) ==
              if !Truthy(controller) && k == StrKey("configure") then Some(Str(name)) else Lookup(params, k))
        && |Keys(params)| <= |Keys(slot)| && Keys(slot)[..|Keys(params)|] == Keys(params)
    {
      var target := if Truthy(controller) then controller else Str("AdminModules");
      var query := if Truthy(controller) then params else Assign(params, StrKey("configure"), Str(name));
      AssignSpec(params, StrKey("configure"), Str(name));
      LinkRequest(target, token, if symfony then query else [], if !symfony then query else [])
    }

    /** `write`: appends the string, or each string of the list in order,
        to the page content and returns the new content. */
    method Write(c: Content) returns (r: Option<string>)
      modifies this`content
      ensures content == Appended(old(content), if c.Text? then [c.s] else c.parts)
      ensures r == content
    {
      if c.Pieces? {
        for i := 0 to |c.parts|
          invariant content == Appended(old(content), c.parts[..i])
        {
          AppendedStep(old(content), c.parts, i);
          content := Some((if content.Some? then content.value else "") + c.parts[i]);
        }
        assert c.parts[..|c.parts|] == c.parts;
      } else {
        content := Some((if content.Some? then content.value else "") + c.s);
      }
      r := content;
    }
  }
}
