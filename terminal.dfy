/**
 * The terminal registry: a registered gateway node, its service account, its protocol set,
 * its merged runtime configuration, its status label, and the undeleted/active/alive views.
 */
module TerminalRegistry {
  import opened Common
  import opened ProtocolCatalog
  import Liveness
  import Storage

  /** The service account a terminal logs in with; only its existence and `is_active` matter here. */
  class User {
    var isActive: bool

    constructor (isActive: bool)
      ensures this.isActive == isActive
    {
      this.isActive := isActive;
    }
  }

  /** The user table: a user exists while it is a member. */
  class UserTable {
    var members: set<User>

    constructor (members: set<User>)
      ensures this.members == members
    {
      this.members := members;
    }

    /** `user.delete()`: the row is gone. */
    method Delete(u: User)
      modifies this
      ensures members == old(members) - {u}
    {
      members := members - {u};
    }
  }

  /** The settings the registry reads: the whole namespace, plus the named scalars it uses. */
  datatype Settings<V> = Settings(
    attrs: map<string, V>,       // every setting, by name
    defaultCommandStorage: V,    // DEFAULT_TERMINAL_COMMAND_STORAGE
    defaultReplayStorage: V,     // DEFAULT_TERMINAL_REPLAY_STORAGE
    securityMaxIdleTime: V,      // SECURITY_MAX_IDLE_TIME
    securitySessionShare: V)     // SECURITY_SESSION_SHARE

  /** The command-storage and replay-storage tables. */
  datatype Backends<V> = Backends(
    commandStorages: seq<Storage.StorageRecord<V>>,
    replayStorages: seq<Storage.StorageRecord<V>>)

  const CommandStorageKey := "TERMINAL_COMMAND_STORAGE"
  const ReplayStorageKey := "TERMINAL_REPLAY_STORAGE"
  const HeaderTitleKey := "TERMINAL_HEADER_TITLE"
  const MaxIdleTimeKey := "SECURITY_MAX_IDLE_TIME"
  const SessionShareKey := "SECURITY_SESSION_SHARE"

  /** `k.startswith('TERMINAL')`. */
  predicate IsTerminalKey(k: string) {
    |k| >= 8 && k[..8] == "TERMINAL"
  }

  /** The names of the settings copied by the prefix scan. */
  function TerminalKeys<V>(attrs: map<string, V>): set<string> {
    set k | k in attrs && IsTerminalKey(k)
  }

  /** `{"TERMINAL_HEADER_TITLE": get_login_title()}`; the login title comes from outside. */
  function LoginTitleSetting<V>(title: V): map<string, V> {
    map[HeaderTitleKey := title]
  }

  /** The status labels of `__str__`. */
  datatype Label = NotAccept | Deleted | Disable | Offline | Active

  function LabelText(l: Label): string {
    match l
    case NotAccept => "NotAccept"
    case Deleted => "Deleted"
    case Disable => "Disable"
    case Offline => "Offline"
    case Active => "Active"
  }

  /** What the status label depends on. */
  datatype StatusFacts = StatusFacts(accepted: bool, deleted: bool, active: bool, alive: bool)

  /** The label `__str__` chooses: not accepted, then deleted, then disabled, then offline. */
  function StatusOf(f: StatusFacts): Label {
    if !f.accepted then NotAccept
    else if f.deleted then Deleted
    else if !f.active then Disable
    else if !f.alive then Offline
    else Active
  }

  /** The status rules, highest priority first: each label with the condition that selects it. */
  const StatusRules: seq<(Label, StatusFacts -> bool)> := [
    (NotAccept, (f: StatusFacts) => !f.accepted),
    (Deleted, (f: StatusFacts) => f.deleted),
    (Disable, (f: StatusFacts) => !f.active),
    (Offline, (f: StatusFacts) => !f.alive)
  ]

  /** The label of the first rule whose condition holds, or `fallback` when none does. */
  function FirstMatch(rules: seq<(Label, StatusFacts -> bool)>, f: StatusFacts, fallback: Label): Label {
    if rules == [] then fallback
    else if rules[0].1(f) then rules[0].0
    else FirstMatch(rules[1..], f, fallback)
  }

  /** The label is the first matching rule in priority order, and Active when no rule matches. */
  lemma StatusIsFirstMatchingRule(f: StatusFacts)
    ensures StatusOf(f) == FirstMatch(StatusRules, f, Active)
  {
    var r0: seq<(Label, StatusFacts -> bool)> := StatusRules;
    var r1, r2, r3 := r0[1..], r0[2..], r0[3..];
    assert r1[1..] == r2 && r2[1..] == r3 && r3[1..] == [];
    assert FirstMatch(r3, f, Active) == if !f.alive then Offline else Active;
    assert FirstMatch(r2, f, Active) == if !f.active then Disable else FirstMatch(r3, f, Active);
    assert FirstMatch(r1, f, Active) == if f.deleted then Deleted else FirstMatch(r2, f, Active);
  }

  /** Each label, characterised by the facts alone: exactly one applies, by strict priority. */
  lemma StatusPriority(f: StatusFacts)
    ensures StatusOf(f) == NotAccept <==> !f.accepted
    ensures StatusOf(f) == Deleted <==> f.accepted && f.deleted
    ensures StatusOf(f) == Disable <==> f.accepted && !f.deleted && !f.active
    ensures StatusOf(f) == Offline <==> f.accepted && !f.deleted && f.active && !f.alive
    ensures StatusOf(f) == Active <==> f.accepted && !f.deleted && f.active && f.alive
  {
  }

  /** The `for k in dir(settings)` loop: copies every setting whose name starts with TERMINAL. */
  method ScanTerminalSettings<V>(attrs: map<string, V>) returns (configs: map<string, V>)
    ensures configs.Keys == TerminalKeys(attrs)
    ensures forall k :: k in configs ==> configs[k] == attrs[k]
  {
    configs := map[];
    var todo := attrs.Keys;
    while todo != {}
      invariant todo <= attrs.Keys
      invariant configs.Keys == TerminalKeys(attrs) - todo
      invariant forall k :: k in configs ==> configs[k] == attrs[k]
      decreases todo
    {
      var k :| k in todo;
      if IsTerminalKey(k) {
        configs := configs[k := attrs[k]];
      }
      todo := todo - {k};
    }
  }

  /** The five keys `config` sets are distinct, and the two security keys escape the TERMINAL scan. */
  lemma ConfigKeysFacts()
    ensures !IsTerminalKey(MaxIdleTimeKey) && !IsTerminalKey(SessionShareKey)
    ensures CommandStorageKey != ReplayStorageKey && CommandStorageKey != HeaderTitleKey
    ensures ReplayStorageKey != HeaderTitleKey && MaxIdleTimeKey != SessionShareKey
  {
    assert MaxIdleTimeKey[..8][0] != "TERMINAL"[0];
    assert SessionShareKey[..8][0] != "TERMINAL"[0];
    assert |CommandStorageKey| == 24 && |ReplayStorageKey| == 23 && |HeaderTitleKey| == 21;
    assert MaxIdleTimeKey[9] != SessionShareKey[9];
  }

  /** `dict.update` with a one-entry dictionary is a single assignment. */
  lemma UpdateOne<V>(m: map<string, V>, k: string, v: V)
    ensures m + map[k := v] == m[k := v]
  {
  }

  /** `dict.update` with a two-entry dictionary is two assignments. */
  lemma UpdateTwo<V>(m: map<string, V>, k1: string, v1: V, k2: string, v2: V)
    ensures m + map[k1 := v1, k2 := v2] == m[k1 := v1][k2 := v2]
  {
  }

  /** What the scan followed by the five updates of `config` leaves in the dictionary. */
  lemma MergedConfigFacts<V>(attrs: map<string, V>, scan: map<string, V>, cmd: V, rep: V, title: V, idle: V, share: V)
    requires scan.Keys == TerminalKeys(attrs) && forall k :: k in scan ==> scan[k] == attrs[k]
    ensures var m := scan[CommandStorageKey := cmd][ReplayStorageKey := rep][HeaderTitleKey := title]
                         [MaxIdleTimeKey := idle][SessionShareKey := share];
      && m.Keys == TerminalKeys(attrs) + {CommandStorageKey, ReplayStorageKey, HeaderTitleKey, MaxIdleTimeKey, SessionShareKey}
      && m[CommandStorageKey] == cmd && m[ReplayStorageKey] == rep && m[HeaderTitleKey] == title
      && m[MaxIdleTimeKey] == idle && m[SessionShareKey] == share
      && forall k :: (k in attrs && IsTerminalKey(k) && k !in {CommandStorageKey, ReplayStorageKey, HeaderTitleKey}) ==>
           m[k] == attrs[k]
  {
    ConfigKeysFacts();
  }

  /** A registered gateway node. */
  class Terminal {
    const id: string
    var name: string
    var ttype: string
    var remoteAddr: string
    var sshPort: int
    var httpPort: int
    var commandStorage: string
    var replayStorage: string
    var user: User?
    var protocols: set<Protocol>
    var isAccepted: bool
    var isDeleted: bool
    var comment: string

    /** A new record with the model's field defaults; its protocol set starts empty. */
    constructor (id: string, name: string, user: User?, ttype: string := "koko")
      ensures this.id == id && this.name == name && this.ttype == ttype && this.user == user
      ensures remoteAddr == "" && sshPort == 2222 && httpPort == 5000 && comment == ""
      ensures commandStorage == "default" && replayStorage == "default"
      ensures protocols == {} && !isAccepted && !isDeleted
    {
      this.id := id;
      this.name := name;
      this.ttype := ttype;
      this.user := user;
      remoteAddr, sshPort, httpPort, comment := "", 2222, 5000, "";
      commandStorage, replayStorage := "default", "default";
      protocols, isAccepted, isDeleted := {}, false, false;
    }

    /** The `is_active` property: a user is linked and that user is active. */
    function IsActive(): bool
      reads this, user
    {
      user != null && user.isActive
    }

    /** The `is_active` setter: changes the linked user's flag, and nothing when none is linked. */
    method SetActive(active: bool)
      modifies user
      ensures user == old(user)
      ensures user != null ==> user.isActive == active
      ensures IsActive() <==> user != null && active
    {
      if user != null {
        user.isActive := active;
      }
    }

    /**
     * delete: the linked user is deleted, the link cleared and the record marked deleted; the
     * record itself stays, with every other field as it was.
     */
    method Delete(users: UserTable)
      modifies this, users
      ensures old(user) != null ==> users.members == old(users.members) - {old(user)}
      ensures old(user) == null ==> users.members == old(users.members)
      ensures user == null && isDeleted
      ensures name == old(name) && ttype == old(ttype) && remoteAddr == old(remoteAddr)
      ensures sshPort == old(sshPort) && httpPort == old(httpPort) && comment == old(comment)
      ensures commandStorage == old(commandStorage) && replayStorage == old(replayStorage)
      ensures protocols == old(protocols) && isAccepted == old(isAccepted)
    {
      if user != null {
        users.Delete(user);
      }
      user := null;
      isDeleted := true;
    }

    /** The `is_alive` property: the terminal's liveness key is present and unexpired. */
    function IsAlive(cache: Liveness.Cache, now: int): bool
      reads cache
    {
      cache.Get(Liveness.AliveKey(id), now)
    }

    /** set_alive: the liveness flag holds until `now + ttl`; no other terminal's flag changes. */
    method SetAlive(cache: Liveness.Cache, now: int, ttl: int := Liveness.DefaultTtl)
      modifies cache
      ensures cache.expiry == Liveness.CacheSet(old(cache.expiry), Liveness.AliveKey(id), now, ttl)
      ensures forall t :: IsAlive(cache, t) <==> t < now + ttl
      ensures forall other: string, t :: other != id ==>
        cache.Get(Liveness.AliveKey(other), t) == old(cache.Get(Liveness.AliveKey(other), t))
    {
      cache.Set(Liveness.AliveKey(id), now, ttl);
      forall other: string | other != id ensures Liveness.AliveKey(other) != Liveness.AliveKey(id) {
        Liveness.AliveKeyInjective(other, id);
      }
    }

    /** The facts the status label is chosen from. */
    function Facts(cache: Liveness.Cache, now: int): StatusFacts
      reads this, user, cache
    {
      StatusFacts(isAccepted, isDeleted, IsActive(), IsAlive(cache, now))
    }

    /** The status part of `__str__`. */
    function StatusLabel(cache: Liveness.Cache, now: int): Label
      reads this, user, cache
    {
      StatusOf(Facts(cache, now))
    }

    /** `__str__`: the name, a colon, and the status label. */
    function Str(cache: Liveness.Cache, now: int): (s: string)
      reads this, user, cache
      ensures |s| == |name| + 2 + |LabelText(StatusLabel(cache, now))|
      ensures s[..|name|] == name && s[|name|..|name| + 2] == ": "
      ensures s[|name| + 2..] == LabelText(StatusLabel(cache, now))
    {
      name + ": " + LabelText(StatusLabel(cache, now))
    }

    /** get_command_storage_config: the named command storage's config, or the default. */
    function CommandStorageConfig<V>(settings: Settings<V>, backends: Backends<V>): (c: V)
      reads this
      ensures (forall i :: 0 <= i < |backends.commandStorages| ==>
        backends.commandStorages[i].name != commandStorage) ==> c == settings.defaultCommandStorage
      ensures forall i ::
        (0 <= i < |backends.commandStorages| && backends.commandStorages[i].name == commandStorage &&
         forall j :: 0 <= j < i ==> backends.commandStorages[j].name != commandStorage) ==>
          c == backends.commandStorages[i].config
    {
      Storage.ResolveConfig(backends.commandStorages, commandStorage, settings.defaultCommandStorage)
    }

    /** get_replay_storage_config: the named replay storage's config, or the default. */
    function ReplayStorageConfig<V>(settings: Settings<V>, backends: Backends<V>): (c: V)
      reads this
      ensures (forall i :: 0 <= i < |backends.replayStorages| ==>
        backends.replayStorages[i].name != replayStorage) ==> c == settings.defaultReplayStorage
      ensures forall i ::
        (0 <= i < |backends.replayStorages| && backends.replayStorages[i].name == replayStorage &&
         forall j :: 0 <= j < i ==> backends.replayStorages[j].name != replayStorage) ==>
          c == backends.replayStorages[i].config
    {
      Storage.ResolveConfig(backends.replayStorages, replayStorage, settings.defaultReplayStorage)
    }

    function CommandStorageSetting<V>(settings: Settings<V>, backends: Backends<V>): map<string, V>
      reads this
    {
      map[CommandStorageKey := CommandStorageConfig(settings, backends)]
    }

    function ReplayStorageSetting<V>(settings: Settings<V>, backends: Backends<V>): map<string, V>
      reads this
    {
      map[ReplayStorageKey := ReplayStorageConfig(settings, backends)]
    }

    /**
     * config: every TERMINAL* setting, then the command storage, the replay storage, the login
     * title and the two security settings, each later update overriding the earlier ones.
     */
    method Config<V>(settings: Settings<V>, backends: Backends<V>, loginTitle: V) returns (configs: map<string, V>)
      ensures configs.Keys ==
        TerminalKeys(settings.attrs) + {CommandStorageKey, ReplayStorageKey, HeaderTitleKey, MaxIdleTimeKey, SessionShareKey}
      ensures configs[CommandStorageKey] == CommandStorageConfig(settings, backends)
      ensures configs[ReplayStorageKey] == ReplayStorageConfig(settings, backends)
      ensures configs[HeaderTitleKey] == loginTitle
      ensures configs[MaxIdleTimeKey] == settings.securityMaxIdleTime
      ensures configs[SessionShareKey] == settings.securitySessionShare
      ensures forall k ::
        (k in settings.attrs && IsTerminalKey(k) && k !in {CommandStorageKey, ReplayStorageKey, HeaderTitleKey}) ==>
          configs[k] == settings.attrs[k]
    {
      var scan := ScanTerminalSettings(settings.attrs);
      var cmd, rep := CommandStorageConfig(settings, backends), ReplayStorageConfig(settings, backends);
      configs := scan;
      UpdateOne(configs, CommandStorageKey, cmd);
      configs := configs + CommandStorageSetting(settings, backends);
      UpdateOne(configs, ReplayStorageKey, rep);
      configs := configs + ReplayStorageSetting(settings, backends);
      UpdateOne(configs, HeaderTitleKey, loginTitle);
      configs := configs + LoginTitleSetting(loginTitle);
      UpdateTwo(configs, MaxIdleTimeKey, settings.securityMaxIdleTime, SessionShareKey, settings.securitySessionShare);
      configs := configs + map[MaxIdleTimeKey := settings.securityMaxIdleTime, SessionShareKey := settings.securitySessionShare];
      MergedConfigFacts(settings.attrs, scan, cmd, rep, loginTitle, settings.securityMaxIdleTime, settings.securitySessionShare);
    }

    /**
     * reset_protocols_to_default: the protocol set becomes exactly the type's default protocols
     * (seeded into the catalog first); it is replaced, not merged. A failure changes no field.
     */
    method ResetProtocolsToDefault(table: ProtocolTable, mapper: map<string, seq<ProtocolKind>>)
      returns (r: Outcome<CatalogError>)
      requires table.Valid()
      modifies this, table
      ensures table.Valid()
      ensures ttype !in mapper ==>
        r == Fail(UnsupportedType(ttype)) && table.rows == old(table.rows) && protocols == old(protocols)
      ensures ttype in mapper ==>
        var run := Seed(old(table.rows), EntriesFor(mapper[ttype]));
        && table.rows == run.rows
        && (run.result.Ok? ==> r == Pass && protocols == DefaultSet(mapper[ttype]) && protocols <= table.rows)
        && (run.result.Err? ==> r == Fail(run.result.error) && protocols == old(protocols))
      ensures name == old(name) && ttype == old(ttype) && user == old(user)
      ensures isAccepted == old(isAccepted) && isDeleted == old(isDeleted)
      ensures commandStorage == old(commandStorage) && replayStorage == old(replayStorage)
      ensures remoteAddr == old(remoteAddr) && sshPort == old(sshPort) && httpPort == old(httpPort)
      ensures comment == old(comment)
    {
      ghost var rows0 := table.rows;
      var defaults := table.GetDefaultProtocols(mapper, ttype);
      if defaults.Err? {
        r := Fail(defaults.error);
        return;
      }
      SeedKindsReturnsDefaultSet(rows0, mapper[ttype]);
      forall p | p in defaults.value ensures p in table.rows {
        SeedReturnedArePresent(rows0, EntriesFor(mapper[ttype]), p);
      }
      protocols := set p | p in defaults.value;
      r := Pass;
    }
  }

  /** The users linked to a collection of terminals. */
  function UsersOf(ts: set<Terminal>): set<User>
    reads ts
  {
    set t | t in ts && t.user != null :: t.user
  }

  /** The `undeleted` view: `is_deleted` is false. */
  function Undeleted(ts: set<Terminal>): set<Terminal>
    reads ts
  {
    set t | t in ts && !t.isDeleted
  }

  /** The `active` view: undeleted, and the linked user is active. */
  function ActiveView(ts: set<Terminal>): set<Terminal>
    reads ts, UsersOf(ts)
  {
    set t | t in Undeleted(ts) && t.user != null && t.user.isActive
  }

  /** The `alive` view: the terminals whose id is that of an active terminal that is alive. */
  function AliveView(ts: set<Terminal>, cache: Liveness.Cache, now: int): set<Terminal>
    reads ts, UsersOf(ts), cache
  {
    var ids := set t | t in ActiveView(ts) && t.IsAlive(cache, now) :: t.id;
    set t | t in ts && t.id in ids
  }

  /** The primary key: no two terminal records share an id. */
  ghost predicate UniqueIds(ts: set<Terminal>) {
    forall a, b :: a in ts && b in ts && a.id == b.id ==> a == b
  }

  /** The views nest: alive within active within undeleted. */
  lemma ViewsNest(ts: set<Terminal>, cache: Liveness.Cache, now: int)
    requires UniqueIds(ts)
    ensures AliveView(ts, cache, now) <= ActiveView(ts) <= Undeleted(ts) <= ts
  {
    var ids := set t | t in ActiveView(ts) && t.IsAlive(cache, now) :: t.id;
    forall t | t in AliveView(ts, cache, now) ensures t in ActiveView(ts) {
      var a :| a in ActiveView(ts) && a.IsAlive(cache, now) && a.id == t.id;
    }
  }

  /** Membership of each view, in terms of one terminal's own state. */
  lemma ViewsMean(ts: set<Terminal>, cache: Liveness.Cache, now: int, t: Terminal)
    requires UniqueIds(ts)
    ensures t in Undeleted(ts) <==> t in ts && !t.isDeleted
    ensures t in ActiveView(ts) <==> t in ts && !t.isDeleted && t.IsActive()
    ensures t in AliveView(ts, cache, now) <==> t in ts && !t.isDeleted && t.IsActive() && t.IsAlive(cache, now)
  {
    ViewsNest(ts, cache, now);
    if t in ts && !t.isDeleted && t.IsActive() && t.IsAlive(cache, now) {
      assert t in ActiveView(ts);
      var ids := set u | u in ActiveView(ts) && u.IsAlive(cache, now) :: u.id;
      assert t.id in ids;
    }
    if t in AliveView(ts, cache, now) {
      var a :| a in ActiveView(ts) && a.IsAlive(cache, now) && a.id == t.id;
      assert a == t;
    }
  }
}
