/**
 * Data migration 0121 of the assets app: every linux platform whose ssh protocol has sftp
 * enabled gains an sftp protocol entry, and then every asset of a platform with sftp that
 * lacks one gains an sftp protocol copied from its ssh protocol. Tables are sequences of rows
 * in table order; each query is a filter over them.
 */
module SftpBackfill {
  import opened Common

  /** The JSON values a protocol `setting` holds. */
  datatype Json = JNull | JBool(b: bool) | JInt(i: int) | JStr(s: string)

  datatype Platform = Platform(id: int, name: string, ptype: string)

  /** One row of the platform-protocol table. */
  datatype PlatformProtocol = PlatformProtocol(
    name: string, port: int,
    primary: bool, required: bool, isDefault: bool, public: bool,
    setting: Option<map<string, Json>>,
    platform: int)

  datatype Asset = Asset(id: int, platform: int)

  /** One row of the asset-protocol table. */
  datatype AssetProtocol = AssetProtocol(name: string, port: int, asset: int)

  /** The size of the slices the asset loop processes. */
  const BatchSize: nat := 1000

  const DefaultSftpHome := "/tmp"

  // ---------------------------------------------------------------------------------------
  // Dictionary dedup (`{key(p): p for p in xs}.values()`) and bulk insert with ignore_conflicts
  // ---------------------------------------------------------------------------------------

  /**
   * The values of a dictionary built from `xs` by key: one value per key, in the order each
   * key first appears, holding the last element with that key.
   */
  function LastPerKey<T, K(==)>(xs: seq<T>, key: T -> K): seq<T>
    decreases |xs|
  {
    if xs == [] then []
    else
      var prev := LastPerKey(xs[..|xs| - 1], key);
      var x := xs[|xs| - 1];
      match FirstIndexWhere(prev, (y: T) => key(y) == key(x))
      case Some(j) => prev[j := x]
      case None => prev + [x]
  }

  /** No element after position `j` shares its key. */
  ghost predicate LastOfKey<T, K>(xs: seq<T>, key: T -> K, j: int)
    requires 0 <= j < |xs|
  {
    forall m :: j < m < |xs| ==> key(xs[m]) != key(xs[j])
  }

  /** Some element of `r` has key `k`. */
  ghost predicate HasKey<T, K>(r: seq<T>, key: T -> K, k: K) {
    exists i :: 0 <= i < |r| && key(r[i]) == k
  }

  /** `v` is the last element of `xs` with its key. */
  ghost predicate IsLastOfKey<T, K>(xs: seq<T>, key: T -> K, v: T) {
    exists j :: 0 <= j < |xs| && xs[j] == v && LastOfKey(xs, key, j)
  }

  ghost predicate KeysDistinct<T, K>(r: seq<T>, key: T -> K) {
    forall i, j :: 0 <= i < j < |r| ==> key(r[i]) != key(r[j])
  }

  /** One step of the dictionary: overwrite the value of a present key, or append a new key. */
  lemma LastPerKeyStep<T, K>(xs: seq<T>, key: T -> K)
    requires xs != []
    ensures var prev, x := LastPerKey(xs[..|xs| - 1], key), xs[|xs| - 1];
      || (exists j :: 0 <= j < |prev| && key(prev[j]) == key(x) && LastPerKey(xs, key) == prev[j := x])
      || (!HasKey(prev, key, key(x)) && LastPerKey(xs, key) == prev + [x])
  {
    var prev, x := LastPerKey(xs[..|xs| - 1], key), xs[|xs| - 1];
    var p := (y: T) => key(y) == key(x);
    match FirstIndexWhere(prev, p)
    case Some(j) =>
      assert p(prev[j]);
    case None =>
  }

  /** The dictionary holds each key once. */
  lemma {:induction false} LastPerKeyDistinct<T, K>(xs: seq<T>, key: T -> K)
    ensures KeysDistinct(LastPerKey(xs, key), key)
    decreases |xs|
  {
    if xs != [] {
      var prev, x := LastPerKey(xs[..|xs| - 1], key), xs[|xs| - 1];
      LastPerKeyDistinct(xs[..|xs| - 1], key);
      LastPerKeyStep(xs, key);
      var r := LastPerKey(xs, key);
      if r != prev + [x] {
        ghost var j :| 0 <= j < |prev| && key(prev[j]) == key(x) && r == prev[j := x];
        assert forall i :: 0 <= i < |r| ==> key(r[i]) == key(prev[i]);
      } else {
        assert forall i :: 0 <= i < |prev| ==> key(r[i]) != key(x);
      }
    }
  }

  /** Every key of the input is a key of the dictionary. */
  lemma {:induction false} LastPerKeyCovers<T, K>(xs: seq<T>, key: T -> K)
    ensures forall j :: 0 <= j < |xs| ==> HasKey(LastPerKey(xs, key), key, key(xs[j]))
    decreases |xs|
  {
    if xs != [] {
      var n := |xs| - 1;
      var prev, x := LastPerKey(xs[..n], key), xs[n];
      LastPerKeyCovers(xs[..n], key);
      LastPerKeyStep(xs, key);
      var r := LastPerKey(xs, key);
      forall jj | 0 <= jj < |xs| ensures HasKey(r, key, key(xs[jj])) {
        if r != prev + [x] {
          ghost var j :| 0 <= j < |prev| && key(prev[j]) == key(x) && r == prev[j := x];
          if jj < n {
            assert xs[jj] == xs[..n][jj];
            var i :| 0 <= i < |prev| && key(prev[i]) == key(xs[jj]);
            assert key(r[i]) == key(xs[jj]);
          } else {
            assert key(r[j]) == key(xs[jj]);
          }
        } else {
          if jj < n {
            assert xs[jj] == xs[..n][jj];
            var i :| 0 <= i < |prev| && key(prev[i]) == key(xs[jj]);
            assert r[i] == prev[i];
          } else {
            assert key(r[|prev|]) == key(xs[jj]);
          }
        }
      }
    }
  }

  /** A value `v` that is last with its key stays last when a later element has another key. */
  lemma LastOfKeyExtend<T, K>(xs: seq<T>, key: T -> K, v: T)
    requires xs != [] && IsLastOfKey(xs[..|xs| - 1], key, v) && key(v) != key(xs[|xs| - 1])
    ensures IsLastOfKey(xs, key, v)
  {
    var w :| 0 <= w < |xs| - 1 && xs[..|xs| - 1][w] == v && LastOfKey(xs[..|xs| - 1], key, w);
    assert xs[w] == v;
    forall m | w < m < |xs| ensures key(xs[m]) != key(xs[w]) {
      if m < |xs| - 1 {
        assert xs[m] == xs[..|xs| - 1][m];
      }
    }
  }

  /** Each value of the dictionary is the last element of the input with its key. */
  lemma {:induction false} LastPerKeyLastWins<T, K>(xs: seq<T>, key: T -> K)
    ensures forall i :: 0 <= i < |LastPerKey(xs, key)| ==> IsLastOfKey(xs, key, LastPerKey(xs, key)[i])
    decreases |xs|
  {
    if xs != [] {
      var n := |xs| - 1;
      var prev, x := LastPerKey(xs[..n], key), xs[n];
      LastPerKeyLastWins(xs[..n], key);
      LastPerKeyDistinct(xs[..n], key);
      LastPerKeyStep(xs, key);
      var r := LastPerKey(xs, key);
      assert LastOfKey(xs, key, n);
      forall i | 0 <= i < |r| ensures IsLastOfKey(xs, key, r[i]) {
        if r[i] == x {
          assert xs[n] == r[i];
        } else {
          assert i < |prev| && r[i] == prev[i];
          if r != prev + [x] {
            ghost var j :| 0 <= j < |prev| && key(prev[j]) == key(x) && r == prev[j := x];
            assert i != j;
          }
          assert key(prev[i]) != key(x);
          LastOfKeyExtend(xs, key, r[i]);
        }
      }
    }
  }

  /** The dictionary is never longer than its input. */
  lemma {:induction false} LastPerKeyLength<T, K>(xs: seq<T>, key: T -> K)
    ensures |LastPerKey(xs, key)| <= |xs|
    decreases |xs|
  {
    if xs != [] {
      LastPerKeyLength(xs[..|xs| - 1], key);
      LastPerKeyStep(xs, key);
    }
  }

  /**
   * The dictionary keeps one value per key, every key of the input, and for each key the LAST
   * element with that key.
   */
  lemma LastPerKeyProps<T, K>(xs: seq<T>, key: T -> K)
    ensures |LastPerKey(xs, key)| <= |xs|
    ensures KeysDistinct(LastPerKey(xs, key), key)
    ensures forall j :: 0 <= j < |xs| ==> HasKey(LastPerKey(xs, key), key, key(xs[j]))
    ensures forall i :: 0 <= i < |LastPerKey(xs, key)| ==> IsLastOfKey(xs, key, LastPerKey(xs, key)[i])
  {
    LastPerKeyLength(xs, key);
    LastPerKeyDistinct(xs, key);
    LastPerKeyCovers(xs, key);
    LastPerKeyLastWins(xs, key);
  }

  /** `order` lists the dictionary's keys in insertion order and `latest` maps each to the value of `d`. */
  ghost predicate Represents<T, K>(order: seq<K>, latest: map<K, T>, d: seq<T>, key: T -> K) {
    && |order| == |d|
    && (forall j :: 0 <= j < |order| ==> order[j] in latest && latest[order[j]] == d[j] && key(d[j]) == order[j])
    && (forall k :: k in latest ==> k in order)
  }

  /** A new key is appended to the insertion order with its value. */
  lemma RepresentsAppend<T, K>(order: seq<K>, latest: map<K, T>, d: seq<T>, key: T -> K, x: T)
    requires Represents(order, latest, d, key) && key(x) !in latest
    ensures Represents(order + [key(x)], latest[key(x) := x], d + [x], key)
  {
  }

  /** A present key keeps its place in the insertion order and takes the new value. */
  lemma RepresentsOverwrite<T, K>(order: seq<K>, latest: map<K, T>, d: seq<T>, key: T -> K, x: T, j: nat)
    requires Represents(order, latest, d, key) && KeysDistinct(d, key)
    requires j < |d| && key(d[j]) == key(x)
    ensures Represents(order, latest[key(x) := x], d[j := x], key)
  {
    assert forall j' :: 0 <= j' < |order| && j' != j ==> order[j'] != key(x);
  }

  /** One assignment `latest[key(x)] = x` keeps the dictionary in step with `LastPerKey`. */
  lemma RepresentsStep<T, K>(xs: seq<T>, key: T -> K, i: nat, order: seq<K>, latest: map<K, T>)
    requires i < |xs| && Represents(order, latest, LastPerKey(xs[..i], key), key)
    ensures Represents(if key(xs[i]) in latest then order else order + [key(xs[i])],
                       latest[key(xs[i]) := xs[i]], LastPerKey(xs[..i + 1], key), key)
  {
    var prev := LastPerKey(xs[..i], key);
    LastPerKeyDistinct(xs[..i], key);
    LastPerKeyStep(xs[..i + 1], key);
    assert xs[..i + 1][..i] == xs[..i] && xs[..i + 1][i] == xs[i];
    if key(xs[i]) !in latest {
      RepresentsAppend(order, latest, prev, key, xs[i]);
    } else {
      var j :| 0 <= j < |prev| && key(prev[j]) == key(xs[i]) && LastPerKey(xs[..i + 1], key) == prev[j := xs[i]];
      RepresentsOverwrite(order, latest, prev, key, xs[i], j);
    }
  }

  /** Builds the dictionary in one pass, as the comprehension does, and returns its values. */
  method DedupLastWins<T, K(==)>(xs: seq<T>, key: T -> K) returns (ys: seq<T>)
    ensures ys == LastPerKey(xs, key)
  {
    var order: seq<K> := [];
    var latest: map<K, T> := map[];
    for i := 0 to |xs|
      invariant Represents(order, latest, LastPerKey(xs[..i], key), key)
    {
      RepresentsStep(xs, key, i, order, latest);
      var k := key(xs[i]);
      if k !in latest {
        order := order + [k];
      }
      latest := latest[k := xs[i]];
    }
    assert xs[..|xs|] == xs;
    ys := seq(|order|, j requires 0 <= j < |order| && order[j] in latest => latest[order[j]]);
  }

  /** `b` begins with `a`: the rows of `a` are kept, unchanged and in place. */
  ghost predicate IsPrefix<R>(a: seq<R>, b: seq<R>) {
    |a| <= |b| && b[..|a|] == a
  }

  /** Some row of `rows` clashes with `x` under the unique constraints `conflict`. */
  predicate ConflictsWith<R>(rows: seq<R>, x: R, conflict: (R, R) -> bool) {
    exists i :: 0 <= i < |rows| && conflict(rows[i], x)
  }

  /**
   * `bulk_create(rows, ignore_conflicts=True)`: each row is inserted unless it conflicts (under the
   * table's unique constraints, given as `conflict`) with a row already there or inserted earlier.
   */
  function BulkCreate<R>(table: seq<R>, rows: seq<R>, conflict: (R, R) -> bool): (r: seq<R>)
    ensures IsPrefix(table, r)
    decreases |rows|
  {
    if rows == [] then table
    else
      var prev := BulkCreate(table, rows[..|rows| - 1], conflict);
      var x := rows[|rows| - 1];
      if ConflictsWith(prev, x, conflict) then prev else prev + [x]
  }

  /** A row that conflicts with a table still conflicts with any extension of it. */
  lemma PrefixKeepsConflict<R>(a: seq<R>, b: seq<R>, x: R, conflict: (R, R) -> bool)
    requires IsPrefix(a, b) && ConflictsWith(a, x, conflict)
    ensures ConflictsWith(b, x, conflict)
  {
    var i :| 0 <= i < |a| && conflict(a[i], x);
    assert b[i] == a[i];
  }

  /** Every row past the old table is one of the new rows. */
  ghost predicate InsertedFrom<R>(table: seq<R>, rows: seq<R>, r: seq<R>) {
    forall i :: |table| <= i < |r| ==> r[i] in rows
  }

  /** No row past the old table conflicts with a row before it. */
  ghost predicate InsertedFresh<R>(table: seq<R>, r: seq<R>, conflict: (R, R) -> bool) {
    forall i :: |table| <= i < |r| ==> !ConflictsWith(r[..i], r[i], conflict)
  }

  /** Each new row was inserted or conflicts with a row of the result. */
  ghost predicate AllHandled<R>(table: seq<R>, rows: seq<R>, r: seq<R>, conflict: (R, R) -> bool) {
    && |table| <= |r|
    && forall j :: 0 <= j < |rows| ==> rows[j] in r[|table|..] || ConflictsWith(r, rows[j], conflict)
  }

  /** Every inserted row is one of the new rows and conflicts with no row before it. */
  lemma {:induction false} BulkCreateInsertsFresh<R>(table: seq<R>, rows: seq<R>, conflict: (R, R) -> bool)
    ensures InsertedFrom(table, rows, BulkCreate(table, rows, conflict))
    ensures InsertedFresh(table, BulkCreate(table, rows, conflict), conflict)
    decreases |rows|
  {
    if rows != [] {
      var n := |rows| - 1;
      BulkCreateInsertsFresh(table, rows[..n], conflict);
      var prev := BulkCreate(table, rows[..n], conflict);
      var r := BulkCreate(table, rows, conflict);
      assert r == if ConflictsWith(prev, rows[n], conflict) then prev else prev + [rows[n]];
      forall i | |table| <= i < |r| ensures r[i] in rows && !ConflictsWith(r[..i], r[i], conflict) {
        if i < |prev| {
          assert r[..i] == prev[..i] && r[i] == prev[i];
          assert prev[i] in rows[..n];
          assert rows == rows[..n] + [rows[n]];
        } else {
          assert r[..i] == prev && r[i] == rows[n];
        }
      }
    }
  }

  /** Every new row is inserted or conflicts with a row of the result. */
  lemma {:induction false} BulkCreateHandlesAll<R>(table: seq<R>, rows: seq<R>, conflict: (R, R) -> bool)
    ensures AllHandled(table, rows, BulkCreate(table, rows, conflict), conflict)
    decreases |rows|
  {
    if rows != [] {
      var n := |rows| - 1;
      BulkCreateHandlesAll(table, rows[..n], conflict);
      var prev := BulkCreate(table, rows[..n], conflict);
      var r := BulkCreate(table, rows, conflict);
      assert r == if ConflictsWith(prev, rows[n], conflict) then prev else prev + [rows[n]];
      forall j | 0 <= j < |rows| ensures rows[j] in r[|table|..] || ConflictsWith(r, rows[j], conflict) {
        if j < n {
          assert rows[j] == rows[..n][j];
          if rows[j] in prev[|table|..] {
            var k :| 0 <= k < |prev[|table|..]| && prev[|table|..][k] == rows[j];
            assert r[|table|..][k] == rows[j];
          } else {
            PrefixKeepsConflict(prev, r, rows[j], conflict);
          }
        } else if r == prev + [rows[n]] {
          assert r[|table|..][|r| - 1 - |table|] == rows[j];
        }
      }
    }
  }

  /**
   * The bulk insert never changes an existing row; every inserted row is a new one that conflicts
   * with no row before it; every new row that is not inserted conflicts with a row of the result.
   */
  lemma BulkCreateOutcome<R>(table: seq<R>, rows: seq<R>, conflict: (R, R) -> bool)
    ensures IsPrefix(table, BulkCreate(table, rows, conflict))
    ensures InsertedFrom(table, rows, BulkCreate(table, rows, conflict))
    ensures InsertedFresh(table, BulkCreate(table, rows, conflict), conflict)
    ensures AllHandled(table, rows, BulkCreate(table, rows, conflict), conflict)
  {
    BulkCreateInsertsFresh(table, rows, conflict);
    BulkCreateHandlesAll(table, rows, conflict);
  }

  /** Without conflicts every new row is appended, in order. */
  lemma {:induction false} BulkCreateNoConflicts<R>(table: seq<R>, rows: seq<R>, conflict: (R, R) -> bool)
    requires forall a, b :: !conflict(a, b)
    ensures BulkCreate(table, rows, conflict) == table + rows
    decreases |rows|
  {
    if rows != [] {
      BulkCreateNoConflicts(table, rows[..|rows| - 1], conflict);
      assert rows == rows[..|rows| - 1] + [rows[|rows| - 1]];
    }
  }

  // ---------------------------------------------------------------------------------------
  // migrate_platforms_sftp_protocol
  // ---------------------------------------------------------------------------------------

  /** The JSON lookup `setting__sftp_enabled=True`. */
  predicate SftpEnabled(setting: Option<map<string, Json>>) {
    setting.Some? && "sftp_enabled" in setting.value && setting.value["sftp_enabled"] == JBool(true)
  }

  /** The join `platform__type='linux'`. */
  predicate OnLinuxPlatform(platforms: seq<Platform>, pp: PlatformProtocol) {
    exists i :: 0 <= i < |platforms| && platforms[i].id == pp.platform && platforms[i].ptype == "linux"
  }

  /**
   * The `ssh_protocols` query: named ssh, sftp enabled, name not Gateway or RemoteAppHost, on a
   * linux platform.
   */
  predicate IsSshCandidate(platforms: seq<Platform>, pp: PlatformProtocol) {
    && pp.name == "ssh"
    && SftpEnabled(pp.setting)
    && pp.name !in {"Gateway", "RemoteAppHost"}
    && OnLinuxPlatform(platforms, pp)
  }

  /** `exclude(name__in=('Gateway', 'RemoteAppHost'))` tests the protocol name, already 'ssh': it removes nothing. */
  lemma ExcludeRemovesNothing(platforms: seq<Platform>, pp: PlatformProtocol)
    ensures IsSshCandidate(platforms, pp) <==>
      pp.name == "ssh" && SftpEnabled(pp.setting) && OnLinuxPlatform(platforms, pp)
  {
  }

  /** `protocol.platform in platforms_has_sftp`: the platform has a protocol named sftp. */
  predicate PlatformHasSftp(pps: seq<PlatformProtocol>, platform: int) {
    exists i :: 0 <= i < |pps| && pps[i].name == "sftp" && pps[i].platform == platform
  }

  /** `(protocol.setting or {}).get('sftp_home', '/tmp')`. */
  function SftpHome(setting: Option<map<string, Json>>): (h: Json)
    ensures setting.Some? && "sftp_home" in setting.value ==> h == setting.value["sftp_home"]
    ensures setting.None? || "sftp_home" !in setting.value ==> h == JStr(DefaultSftpHome)
  {
    var s := if setting.Some? then setting.value else map[];
    if "sftp_home" in s then s["sftp_home"] else JStr(DefaultSftpHome)
  }

  /** The sftp entry built from an ssh protocol row. */
  function SftpEntryFor(ssh: PlatformProtocol): (n: PlatformProtocol)
    ensures IsSftpEntryOf(n, ssh)
  {
    PlatformProtocol("sftp", ssh.port, false, false, true, true,
      Some(map["sftp_home" := SftpHome(ssh.setting)]), ssh.platform)
  }

  /** The shape every new platform entry has, whatever its source. */
  ghost predicate IsSftpEntryOf(n: PlatformProtocol, ssh: PlatformProtocol) {
    && n.name == "sftp" && n.port == ssh.port && n.platform == ssh.platform
    && !n.primary && !n.required && n.isDefault && n.public
    && n.setting == Some(map["sftp_home" := SftpHome(ssh.setting)])
  }

  /** The entries the loop appends for the ssh rows `xs`: one per row whose platform has no sftp. */
  function NewEntries(xs: seq<PlatformProtocol>, pps: seq<PlatformProtocol>): (r: seq<PlatformProtocol>)
    ensures |r| <= |xs|
    ensures forall i :: 0 <= i < |r| ==> r[i].name == "sftp"
    ensures forall i :: 0 <= i < |r| ==> !PlatformHasSftp(pps, r[i].platform)
    ensures forall i :: 0 <= i < |r| ==>
      exists j :: 0 <= j < |xs| && r[i] == SftpEntryFor(xs[j]) && IsSftpEntryOf(r[i], xs[j])
    ensures forall j :: 0 <= j < |xs| && !PlatformHasSftp(pps, xs[j].platform) ==> SftpEntryFor(xs[j]) in r
    decreases |xs|
  {
    if xs == [] then []
    else
      var init, x := xs[..|xs| - 1], xs[|xs| - 1];
      assert forall j :: 0 <= j < |init| ==> init[j] == xs[j];
      NewEntries(init, pps) + if PlatformHasSftp(pps, x.platform) then [] else [SftpEntryFor(x)]
  }

  /** The dictionary key `(protocol.name, protocol.platform)`. */
  function PlatformKey(p: PlatformProtocol): (string, int) {
    (p.name, p.platform)
  }

  /** The ssh rows the platform query returns, in table order. */
  function SshCandidates(platforms: seq<Platform>, pps: seq<PlatformProtocol>): (r: seq<PlatformProtocol>)
    ensures forall i :: 0 <= i < |r| ==> r[i] in pps && IsSshCandidate(platforms, r[i])
    ensures forall i :: 0 <= i < |pps| && IsSshCandidate(platforms, pps[i]) ==> pps[i] in r
  {
    Filter(pps, (p: PlatformProtocol) => IsSshCandidate(platforms, p))
  }

  /** The whole platform step: collect, dedup by key, bulk insert. */
  function PlatformBackfill(platforms: seq<Platform>, pps: seq<PlatformProtocol>,
                            conflict: (PlatformProtocol, PlatformProtocol) -> bool): seq<PlatformProtocol>
  {
    BulkCreate(pps, LastPerKey(NewEntries(SshCandidates(platforms, pps), pps), PlatformKey), conflict)
  }

  /** The loop over `ssh_protocols`, skipping platforms that already have sftp. */
  method CollectSftpEntries(ssh: seq<PlatformProtocol>, pps: seq<PlatformProtocol>)
    returns (newProtocols: seq<PlatformProtocol>)
    ensures newProtocols == NewEntries(ssh, pps)
  {
    newProtocols := [];
    for i := 0 to |ssh|
      invariant newProtocols == NewEntries(ssh[..i], pps)
    {
      assert ssh[..i + 1][..i] == ssh[..i] && ssh[..i + 1][i] == ssh[i];
      var protocol := ssh[i];
      if PlatformHasSftp(pps, protocol.platform) {
        continue;
      }
      newProtocols := newProtocols + [SftpEntryFor(protocol)];
    }
    assert ssh[..|ssh|] == ssh;
  }

  /** A unique constraint that only relates rows with the same name on the same platform. */
  ghost predicate PlatformConflictsBySameKey(conflict: (PlatformProtocol, PlatformProtocol) -> bool) {
    forall a, b :: conflict(a, b) ==> a.name == b.name && a.platform == b.platform
  }

  /** `n` is the sftp entry shape for some ssh candidate row of the table. */
  ghost predicate FromCandidate(platforms: seq<Platform>, pps: seq<PlatformProtocol>, n: PlatformProtocol) {
    exists c :: c in pps && IsSshCandidate(platforms, c) && IsSftpEntryOf(n, c)
  }

  /** Every row past the old table is an sftp entry for a candidate platform that had none. */
  ghost predicate NewRowsForCandidates(platforms: seq<Platform>, pps: seq<PlatformProtocol>, r: seq<PlatformProtocol>) {
    forall i :: |pps| <= i < |r| ==> !PlatformHasSftp(pps, r[i].platform) && FromCandidate(platforms, pps, r[i])
  }

  ghost predicate OnePerPlatform(d: seq<PlatformProtocol>) {
    forall i, j :: 0 <= i < j < |d| ==> d[i].platform != d[j].platform
  }

  /** Every value of the dictionary is one of its input elements. */
  lemma LastPerKeyFromInput<T, K>(xs: seq<T>, key: T -> K, i: nat)
    requires i < |LastPerKey(xs, key)|
    ensures exists w :: 0 <= w < |xs| && xs[w] == LastPerKey(xs, key)[i]
  {
    LastPerKeyProps(xs, key);
    assert IsLastOfKey(xs, key, LastPerKey(xs, key)[i]);
  }

  /**
   * The platform step keeps every existing row, and adds only sftp entries for candidate
   * platforms that had none.
   */
  lemma PlatformBackfillShape(platforms: seq<Platform>, pps: seq<PlatformProtocol>,
                              conflict: (PlatformProtocol, PlatformProtocol) -> bool)
    ensures IsPrefix(pps, PlatformBackfill(platforms, pps, conflict))
    ensures NewRowsForCandidates(platforms, pps, PlatformBackfill(platforms, pps, conflict))
  {
    var ssh := SshCandidates(platforms, pps);
    var news := NewEntries(ssh, pps);
    var d := LastPerKey(news, PlatformKey);
    BulkCreateOutcome(pps, d, conflict);
    var r := PlatformBackfill(platforms, pps, conflict);
    forall i | |pps| <= i < |r|
      ensures !PlatformHasSftp(pps, r[i].platform) && FromCandidate(platforms, pps, r[i])
    {
      assert r[i] in d;
      var k :| 0 <= k < |d| && d[k] == r[i];
      LastPerKeyFromInput(news, PlatformKey, k);
      var w :| 0 <= w < |news| && news[w] == d[k];
      var j :| 0 <= j < |ssh| && news[w] == SftpEntryFor(ssh[j]) && IsSftpEntryOf(news[w], ssh[j]);
      assert ssh[j] in pps && IsSshCandidate(platforms, ssh[j]);
    }
  }

  /** The dedup leaves at most one new entry per platform for the insert. */
  lemma PlatformDedupOnePerPlatform(platforms: seq<Platform>, pps: seq<PlatformProtocol>)
    ensures OnePerPlatform(LastPerKey(NewEntries(SshCandidates(platforms, pps), pps), PlatformKey))
  {
    var news := NewEntries(SshCandidates(platforms, pps), pps);
    var d := LastPerKey(news, PlatformKey);
    LastPerKeyProps(news, PlatformKey);
    forall i, j | 0 <= i < j < |d| ensures d[i].platform != d[j].platform {
      LastPerKeyFromInput(news, PlatformKey, i);
      LastPerKeyFromInput(news, PlatformKey, j);
      assert d[i].name == "sftp" && d[j].name == "sftp";
      assert PlatformKey(d[i]) != PlatformKey(d[j]);
    }
  }

  /** The loop collects an entry for a candidate platform without sftp. */
  lemma CandidateEntryCollected(platforms: seq<Platform>, pps: seq<PlatformProtocol>, c: PlatformProtocol)
    requires c in pps && IsSshCandidate(platforms, c) && !PlatformHasSftp(pps, c.platform)
    ensures SftpEntryFor(c) in NewEntries(SshCandidates(platforms, pps), pps)
  {
    var ssh := SshCandidates(platforms, pps);
    var i :| 0 <= i < |pps| && pps[i] == c;
    assert c in ssh;
    var j :| 0 <= j < |ssh| && ssh[j] == c;
    assert SftpEntryFor(ssh[j]) in NewEntries(ssh, pps);
  }

  /** The key of any input element is a key of the dictionary. */
  lemma LastPerKeyHasKeyOf<T, K>(xs: seq<T>, key: T -> K, x: T)
    requires x in xs
    ensures HasKey(LastPerKey(xs, key), key, key(x))
  {
    LastPerKeyCovers(xs, key);
    var w :| 0 <= w < |xs| && xs[w] == x;
  }

  /** A candidate platform without sftp has an sftp entry among the deduplicated new entries. */
  lemma CandidateOffered(platforms: seq<Platform>, pps: seq<PlatformProtocol>, c: PlatformProtocol)
    requires c in pps && IsSshCandidate(platforms, c) && !PlatformHasSftp(pps, c.platform)
    ensures PlatformHasSftp(LastPerKey(NewEntries(SshCandidates(platforms, pps), pps), PlatformKey), c.platform)
  {
    var news := NewEntries(SshCandidates(platforms, pps), pps);
    CandidateEntryCollected(platforms, pps, c);
    LastPerKeyHasKeyOf(news, PlatformKey, SftpEntryFor(c));
    assert PlatformKey(SftpEntryFor(c)) == ("sftp", c.platform);
    SftpKeyMeansSftp(LastPerKey(news, PlatformKey), c.platform);
  }

  lemma SftpKeyMeansSftp(d: seq<PlatformProtocol>, platform: int)
    requires HasKey(d, PlatformKey, ("sftp", platform))
    ensures PlatformHasSftp(d, platform)
  {
    var k :| 0 <= k < |d| && PlatformKey(d[k]) == ("sftp", platform);
    assert d[k].name == "sftp" && d[k].platform == platform;
  }

  /** An offered sftp entry ends in the table, itself or through a conflicting sftp row of its platform. */
  lemma OfferedEntryLands(pps: seq<PlatformProtocol>, d: seq<PlatformProtocol>,
                          conflict: (PlatformProtocol, PlatformProtocol) -> bool, platform: int)
    requires PlatformConflictsBySameKey(conflict) && PlatformHasSftp(d, platform)
    ensures PlatformHasSftp(BulkCreate(pps, d, conflict), platform)
  {
    var r := BulkCreate(pps, d, conflict);
    BulkCreateHandlesAll(pps, d, conflict);
    var k :| 0 <= k < |d| && d[k].name == "sftp" && d[k].platform == platform;
    if d[k] in r[|pps|..] {
      var m :| 0 <= m < |r[|pps|..]| && r[|pps|..][m] == d[k];
      assert r[|pps| + m] == d[k];
    } else {
      var m :| 0 <= m < |r| && conflict(r[m], d[k]);
      assert r[m].name == "sftp" && r[m].platform == platform;
    }
  }

  /**
   * After the platform step every candidate platform has an sftp protocol, whether it had one
   * before, received the new entry, or the insert met a conflicting sftp row of that platform.
   */
  lemma PlatformBackfillReachesTarget(platforms: seq<Platform>, pps: seq<PlatformProtocol>,
                                      conflict: (PlatformProtocol, PlatformProtocol) -> bool, c: PlatformProtocol)
    requires PlatformConflictsBySameKey(conflict)
    requires c in pps && IsSshCandidate(platforms, c)
    ensures PlatformHasSftp(PlatformBackfill(platforms, pps, conflict), c.platform)
  {
    var r := PlatformBackfill(platforms, pps, conflict);
    if PlatformHasSftp(pps, c.platform) {
      var i :| 0 <= i < |pps| && pps[i].name == "sftp" && pps[i].platform == c.platform;
      assert r[i] == pps[i];
    } else {
      CandidateOffered(platforms, pps, c);
      OfferedEntryLands(pps, LastPerKey(NewEntries(SshCandidates(platforms, pps), pps), PlatformKey), conflict, c.platform);
    }
  }

  // ---------------------------------------------------------------------------------------
  // migrate_assets_sftp_protocol
  // ---------------------------------------------------------------------------------------

  /** The ids of the platforms that have a protocol named sftp (`sftp_platforms`). */
  function SftpPlatformIds(platforms: seq<Platform>, pps: seq<PlatformProtocol>): (r: set<int>)
    ensures forall id :: id in r <==>
      (exists i :: 0 <= i < |platforms| && platforms[i].id == id) && PlatformHasSftp(pps, id)
  {
    set i | 0 <= i < |platforms| && PlatformHasSftp(pps, platforms[i].id) :: platforms[i].id
  }

  predicate AssetHasSftp(aps: seq<AssetProtocol>, asset: int) {
    exists i :: 0 <= i < |aps| && aps[i].name == "sftp" && aps[i].asset == asset
  }

  predicate HasSsh(aps: seq<AssetProtocol>, asset: int) {
    exists i :: 0 <= i < |aps| && aps[i].name == "ssh" && aps[i].asset == asset
  }

  /** The asset is on an sftp platform and has no sftp protocol. */
  predicate Pending(aps: seq<AssetProtocol>, sftpPlatforms: set<int>, a: Asset) {
    a.platform in sftpPlatforms && !AssetHasSftp(aps, a.id)
  }

  /** `id` is the id of some asset in `assets` that is pending. */
  ghost predicate IsPendingAsset(assets: seq<Asset>, aps: seq<AssetProtocol>, sftpPlatforms: set<int>, id: int) {
    exists j :: 0 <= j < |assets| && assets[j].id == id && Pending(aps, sftpPlatforms, assets[j])
  }

  /** A pending asset of the tail is a pending asset of the whole list. */
  lemma IsPendingAssetTail(assets: seq<Asset>, aps: seq<AssetProtocol>, sftpPlatforms: set<int>, id: int)
    requires assets != [] && IsPendingAsset(assets[1..], aps, sftpPlatforms, id)
    ensures IsPendingAsset(assets, aps, sftpPlatforms, id)
  {
    var j :| 0 <= j < |assets[1..]| && assets[1..][j].id == id && Pending(aps, sftpPlatforms, assets[1..][j]);
    assert assets[j + 1] == assets[1..][j];
  }

  /** The `asset_ids` query evaluated against the current protocol table, in table order. */
  function PendingIds(assets: seq<Asset>, aps: seq<AssetProtocol>, sftpPlatforms: set<int>): (r: seq<int>)
    ensures |r| <= |assets|
    ensures forall i :: 0 <= i < |r| ==> !AssetHasSftp(aps, r[i])
    ensures forall i :: 0 <= i < |assets| && Pending(aps, sftpPlatforms, assets[i]) ==> assets[i].id in r
    ensures forall i :: 0 <= i < |r| ==> IsPendingAsset(assets, aps, sftpPlatforms, r[i])
  {
    if assets == [] then []
    else
      var rest := PendingIds(assets[1..], aps, sftpPlatforms);
      assert forall i :: 1 <= i < |assets| ==> assets[i] == assets[1..][i - 1];
      var head := if Pending(aps, sftpPlatforms, assets[0]) then [assets[0].id] else [];
      var ids := head + rest;
      assert forall i :: |head| <= i < |ids| ==> ids[i] == rest[i - |head|];
      assert forall i :: 0 <= i < |ids| ==> IsPendingAsset(assets, aps, sftpPlatforms, ids[i]) by {
        forall i | 0 <= i < |ids| ensures IsPendingAsset(assets, aps, sftpPlatforms, ids[i]) {
          if i < |head| {
            assert ids[i] == assets[0].id;
          } else {
            IsPendingAssetTail(assets, aps, sftpPlatforms, rest[i - |head|]);
          }
        }
      }
      ids
  }

  /** The ssh protocols of the assets of one slice (`filter(name='ssh', asset_id__in=...)`). */
  function SshOf(aps: seq<AssetProtocol>, batch: seq<int>): (r: seq<AssetProtocol>)
    ensures forall i :: 0 <= i < |r| ==> r[i] in aps && r[i].name == "ssh" && r[i].asset in batch
    ensures forall i :: 0 <= i < |aps| && aps[i].name == "ssh" && aps[i].asset in batch ==> aps[i] in r
  {
    Filter(aps, (p: AssetProtocol) => p.name == "ssh" && p.asset in batch)
  }

  function SftpFor(ssh: AssetProtocol): AssetProtocol {
    AssetProtocol("sftp", ssh.port, ssh.asset)
  }

  function AssetKey(p: AssetProtocol): int {
    p.asset
  }

  /** The new rows for one slice: one sftp row per entry of the `asset_id -> ssh protocol` dictionary. */
  function BatchRows(aps: seq<AssetProtocol>, batch: seq<int>): seq<AssetProtocol> {
    var m := LastPerKey(SshOf(aps, batch), AssetKey);
    seq(|m|, i requires 0 <= i < |m| => SftpFor(m[i]))
  }

  /** `n` carries the asset and the port of an ssh protocol of `aps`. */
  ghost predicate CopiedFromSsh(aps: seq<AssetProtocol>, n: AssetProtocol) {
    exists m :: 0 <= m < |aps| && aps[m].name == "ssh" && aps[m].asset == n.asset && aps[m].port == n.port
  }

  /** Every row of `rows` is an sftp row of an asset of `ids`, copied from an ssh protocol of it. */
  ghost predicate SftpCopiesFor(aps: seq<AssetProtocol>, ids: seq<int>, rows: seq<AssetProtocol>) {
    forall i :: 0 <= i < |rows| ==> rows[i].name == "sftp" && rows[i].asset in ids && CopiedFromSsh(aps, rows[i])
  }

  ghost predicate OnePerAsset(rows: seq<AssetProtocol>) {
    forall i, j :: 0 <= i < j < |rows| ==> rows[i].asset != rows[j].asset
  }

  /**
   * Each new row of a slice is an sftp row of an asset of the slice with the port of one of its
   * ssh protocols (so an asset without ssh gets none).
   */
  lemma BatchRowsCopied(aps: seq<AssetProtocol>, batch: seq<int>)
    ensures SftpCopiesFor(aps, batch, BatchRows(aps, batch))
  {
    var ssh := SshOf(aps, batch);
    var m := LastPerKey(ssh, AssetKey);
    var rows := BatchRows(aps, batch);
    forall i | 0 <= i < |rows| ensures rows[i].name == "sftp" && rows[i].asset in batch && CopiedFromSsh(aps, rows[i]) {
      LastPerKeyFromInput(ssh, AssetKey, i);
      var w :| 0 <= w < |ssh| && ssh[w] == m[i];
      assert ssh[w] in aps;
      var q :| 0 <= q < |aps| && aps[q] == ssh[w];
    }
  }

  /** No asset gets two new rows from one slice. */
  lemma BatchRowsOnePerAsset(aps: seq<AssetProtocol>, batch: seq<int>)
    ensures OnePerAsset(BatchRows(aps, batch))
  {
    LastPerKeyDistinct(SshOf(aps, batch), AssetKey);
  }

  /** Every asset of the slice that has an ssh protocol gets a new sftp row. */
  lemma BatchRowsCover(aps: seq<AssetProtocol>, batch: seq<int>, id: int)
    requires id in batch && HasSsh(aps, id)
    ensures AssetHasSftp(BatchRows(aps, batch), id)
  {
    var ssh := SshOf(aps, batch);
    var m := LastPerKey(ssh, AssetKey);
    var rows := BatchRows(aps, batch);
    var k :| 0 <= k < |aps| && aps[k].name == "ssh" && aps[k].asset == id;
    assert aps[k] in ssh;
    LastPerKeyHasKeyOf(ssh, AssetKey, aps[k]);
    var i :| 0 <= i < |m| && AssetKey(m[i]) == id;
    assert rows[i].name == "sftp" && rows[i].asset == id;
  }

  /** Rows of an asset survive when the table only grows. */
  lemma PrefixKeepsRows(a: seq<AssetProtocol>, b: seq<AssetProtocol>, asset: int)
    requires IsPrefix(a, b)
    ensures HasSsh(a, asset) ==> HasSsh(b, asset)
    ensures AssetHasSftp(a, asset) ==> AssetHasSftp(b, asset)
  {
    if HasSsh(a, asset) {
      var i :| 0 <= i < |a| && a[i].name == "ssh" && a[i].asset == asset;
      assert b[i] == a[i];
    }
    if AssetHasSftp(a, asset) {
      var i :| 0 <= i < |a| && a[i].name == "sftp" && a[i].asset == asset;
      assert b[i] == a[i];
    }
  }

  lemma PrefixTrans<R>(a: seq<R>, b: seq<R>, c: seq<R>)
    requires IsPrefix(a, b) && IsPrefix(b, c)
    ensures IsPrefix(a, c)
  {
    assert c[..|a|] == c[..|b|][..|a|];
  }

  /** A slice element is an element of the list. */
  lemma SliceMember<T>(s: seq<T>, lo: nat, hi: nat, x: T)
    requires lo <= hi && x in Slice(s, lo, hi)
    ensures x in s
  {
    var q :| 0 <= q < |Slice(s, lo, hi)| && Slice(s, lo, hi)[q] == x;
    assert s[lo + q] == x;
  }

  /** An offered sftp row of an asset ends in the table, itself or through a conflicting sftp row of that asset. */
  lemma OfferedAssetRowLands(aps: seq<AssetProtocol>, rows: seq<AssetProtocol>,
                             conflict: (AssetProtocol, AssetProtocol) -> bool, asset: int)
    requires AssetConflictsBySameKey(conflict) && AssetHasSftp(rows, asset)
    ensures AssetHasSftp(BulkCreate(aps, rows, conflict), asset)
  {
    var r := BulkCreate(aps, rows, conflict);
    BulkCreateHandlesAll(aps, rows, conflict);
    var k :| 0 <= k < |rows| && rows[k].name == "sftp" && rows[k].asset == asset;
    if rows[k] in r[|aps|..] {
      var m :| 0 <= m < |r[|aps|..]| && r[|aps|..][m] == rows[k];
      assert r[|aps| + m] == rows[k];
    } else {
      var m :| 0 <= m < |r| && conflict(r[m], rows[k]);
      assert r[m].name == "sftp" && r[m].asset == asset;
    }
  }

  /** The slices the loop visits when `ids` is evaluated once, starting at offset `count`. */
  function Batches(ids: seq<int>, count: nat): seq<seq<int>>
    decreases |ids| - count
  {
    var slice := Slice(ids, count, count + BatchSize);
    if slice == [] then [] else [slice] + Batches(ids, count + BatchSize)
  }

  function Flatten(bs: seq<seq<int>>): seq<int> {
    if bs == [] then [] else bs[0] + Flatten(bs[1..])
  }

  /**
   * Over a fixed list, the slices at offsets 0, 1000, 2000, ... cover every id exactly once, in
   * order, each slice holds 1 to 1000 ids, and the loop ends at the first empty slice.
   */
  lemma {:induction false} BatchesCover(ids: seq<int>, count: nat)
    requires count <= |ids|
    ensures Flatten(Batches(ids, count)) == ids[count..]
    ensures forall k :: 0 <= k < |Batches(ids, count)| ==> 0 < |Batches(ids, count)[k]| <= BatchSize
    decreases |ids| - count
  {
    var slice := Slice(ids, count, count + BatchSize);
    if slice != [] {
      if count + BatchSize <= |ids| {
        BatchesCover(ids, count + BatchSize);
        assert slice == ids[count..count + BatchSize];
        assert ids[count..] == slice + ids[count + BatchSize..];
      } else {
        assert Slice(ids, count + BatchSize, count + 2 * BatchSize) == [];
        assert slice == ids[count..];
      }
    }
  }

  /**
   * The asset loop over a list evaluated once, from offset `count`: each slice gets its new rows
   * and they are bulk inserted before the next slice is read.
   */
  function BackfillFrom(aps: seq<AssetProtocol>, ids: seq<int>, count: nat,
                        conflict: (AssetProtocol, AssetProtocol) -> bool): seq<AssetProtocol>
    decreases |ids| - count
  {
    var slice := Slice(ids, count, count + BatchSize);
    if slice == [] then aps
    else BackfillFrom(BulkCreate(aps, BatchRows(aps, slice), conflict), ids, count + BatchSize, conflict)
  }

  /** A unique constraint that only relates rows with the same name on the same asset. */
  ghost predicate AssetConflictsBySameKey(conflict: (AssetProtocol, AssetProtocol) -> bool) {
    forall a, b :: conflict(a, b) ==> a.name == b.name && a.asset == b.asset
  }

  /** Every row past the old table is an sftp row of a listed asset copied from its ssh protocol. */
  ghost predicate NewRowsCopied(aps: seq<AssetProtocol>, ids: seq<int>, r: seq<AssetProtocol>) {
    forall i :: |aps| <= i < |r| ==> r[i].name == "sftp" && r[i].asset in ids && CopiedFromSsh(aps, r[i])
  }

  /** The loop keeps every existing row and adds only sftp rows copied from an ssh protocol of a listed asset. */
  lemma {:induction false} BackfillKeepsRows(aps: seq<AssetProtocol>, ids: seq<int>, count: nat,
                                             conflict: (AssetProtocol, AssetProtocol) -> bool)
    ensures IsPrefix(aps, BackfillFrom(aps, ids, count, conflict))
    ensures NewRowsCopied(aps, ids, BackfillFrom(aps, ids, count, conflict))
    decreases |ids| - count
  {
    var slice := Slice(ids, count, count + BatchSize);
    if slice != [] {
      var rows := BatchRows(aps, slice);
      var aps' := BulkCreate(aps, rows, conflict);
      BatchRowsCopied(aps, slice);
      BulkCreateInsertsFresh(aps, rows, conflict);
      BackfillKeepsRows(aps', ids, count + BatchSize, conflict);
      var r := BackfillFrom(aps', ids, count + BatchSize, conflict);
      PrefixTrans(aps, aps', r);
      forall i | |aps| <= i < |r| ensures r[i].name == "sftp" && r[i].asset in ids && CopiedFromSsh(aps, r[i]) {
        if i < |aps'| {
          assert r[i] == aps'[i];
          var q :| 0 <= q < |rows| && rows[q] == aps'[i];
          SliceMember(ids, count, count + BatchSize, r[i].asset);
        } else {
          var m :| 0 <= m < |aps'| && aps'[m].name == "ssh" && aps'[m].asset == r[i].asset && aps'[m].port == r[i].port;
          assert m < |aps|;
          assert aps[m] == aps'[m];
        }
      }
    }
  }

  /**
   * The target of the asset loop over a list evaluated once: every listed asset that has an ssh
   * protocol ends with an sftp protocol.
   */
  lemma {:induction false} BackfillReachesTarget(aps: seq<AssetProtocol>, ids: seq<int>, count: nat,
                                                 conflict: (AssetProtocol, AssetProtocol) -> bool, k: nat)
    requires AssetConflictsBySameKey(conflict)
    requires count <= k < |ids| && HasSsh(aps, ids[k])
    ensures AssetHasSftp(BackfillFrom(aps, ids, count, conflict), ids[k])
    decreases |ids| - count
  {
    var slice := Slice(ids, count, count + BatchSize);
    assert slice != [];
    var rows := BatchRows(aps, slice);
    var aps' := BulkCreate(aps, rows, conflict);
    PrefixKeepsRows(aps, aps', ids[k]);
    if k < count + BatchSize {
      assert slice[k - count] == ids[k];
      BatchRowsCover(aps, slice, ids[k]);
      OfferedAssetRowLands(aps, rows, conflict, ids[k]);
      BackfillKeepsRows(aps', ids, count + BatchSize, conflict);
      PrefixKeepsRows(aps', BackfillFrom(aps', ids, count + BatchSize, conflict), ids[k]);
    } else {
      BackfillReachesTarget(aps', ids, count + BatchSize, conflict, k);
    }
  }

  /**
   * The asset loop AS WRITTEN: `asset_ids` is a lazy query, so every slice re-runs it against the
   * protocol table as the earlier slices left it (assets that gained sftp drop out of it), and
   * then skips `count` of its rows.
   */
  function AsWrittenFrom(assets: seq<Asset>, aps: seq<AssetProtocol>, sftpPlatforms: set<int>, count: nat,
                         conflict: (AssetProtocol, AssetProtocol) -> bool): seq<AssetProtocol>
    decreases |assets| - count
  {
    var slice := Slice(PendingIds(assets, aps, sftpPlatforms), count, count + BatchSize);
    if slice == [] then aps
    else AsWrittenFrom(assets, BulkCreate(aps, BatchRows(aps, slice), conflict), sftpPlatforms, count + BatchSize, conflict)
  }

  /** The test `id not in batch`, shared by the lemmas below so that they speak of one predicate. */
  function NotIn(batch: seq<int>): int -> bool {
    (id: int) => id !in batch
  }

  /** When pendingness changes only by dropping the ids of `batch`, the query drops exactly those ids. */
  lemma {:induction false} PendingIdsAfterBatch(assets: seq<Asset>, aps: seq<AssetProtocol>, aps': seq<AssetProtocol>,
                                                sp: set<int>, batch: seq<int>)
    requires forall i :: 0 <= i < |assets| ==>
      (Pending(aps', sp, assets[i]) <==> Pending(aps, sp, assets[i]) && assets[i].id !in batch)
    ensures PendingIds(assets, aps', sp) == Filter(PendingIds(assets, aps, sp), NotIn(batch))
  {
    if assets != [] {
      assert forall i :: 1 <= i < |assets| ==> assets[i] == assets[1..][i - 1];
      PendingIdsAfterBatch(assets[1..], aps, aps', sp, batch);
      var head := if Pending(aps, sp, assets[0]) then [assets[0].id] else [];
      FilterConcat(head, PendingIds(assets[1..], aps, sp), NotIn(batch));
    }
  }

  /** Removing the ids of a prefix from a list without repeats leaves the rest of it. */
  lemma DropPrefixIds(ids: seq<int>, k: nat)
    requires k <= |ids| && Distinct(ids)
    ensures Filter(ids, NotIn(ids[..k])) == ids[k..]
  {
    var p := NotIn(ids[..k]);
    assert ids == ids[..k] + ids[k..];
    FilterConcat(ids[..k], ids[k..], p);
    FilterNone(ids[..k], p);
    forall i | 0 <= i < |ids[k..]| ensures p(ids[k..][i]) {
      assert ids[k..][i] == ids[k + i];
    }
    FilterAll(ids[k..], p);
  }

  /** Appending rows adds exactly their sftp protocols. */
  lemma AppendHasSftp(a: seq<AssetProtocol>, b: seq<AssetProtocol>, asset: int)
    ensures AssetHasSftp(a + b, asset) <==> AssetHasSftp(a, asset) || AssetHasSftp(b, asset)
  {
    if AssetHasSftp(a + b, asset) {
      var i :| 0 <= i < |a + b| && (a + b)[i].name == "sftp" && (a + b)[i].asset == asset;
      if i >= |a| {
        assert b[i - |a|] == (a + b)[i];
      }
    }
    if AssetHasSftp(b, asset) {
      var i :| 0 <= i < |b| && b[i].name == "sftp" && b[i].asset == asset;
      assert (a + b)[|a| + i] == b[i];
    }
    if AssetHasSftp(a, asset) {
      var i :| 0 <= i < |a| && a[i].name == "sftp" && a[i].asset == asset;
      assert (a + b)[i] == a[i];
    }
  }

  /** After the first slice, with no conflicts, an asset is pending iff it was and is not in the slice. */
  lemma FirstSliceLeavesQuery(assets: seq<Asset>, aps: seq<AssetProtocol>, sp: set<int>,
                              conflict: (AssetProtocol, AssetProtocol) -> bool, first: seq<int>)
    requires forall a, b :: !conflict(a, b)
    requires forall id :: id in first ==> HasSsh(aps, id)
    ensures var aps1 := BulkCreate(aps, BatchRows(aps, first), conflict);
      forall a :: a in assets ==> (Pending(aps1, sp, a) <==> Pending(aps, sp, a) && a.id !in first)
  {
    var rows := BatchRows(aps, first);
    BulkCreateNoConflicts(aps, rows, conflict);
    BatchRowsCopied(aps, first);
    forall a | a in assets ensures Pending(aps + rows, sp, a) <==> Pending(aps, sp, a) && a.id !in first {
      AppendHasSftp(aps, rows, a.id);
      if a.id in first {
        BatchRowsCover(aps, first, a.id);
      }
    }
  }

  /**
   * The as-written loop skips assets: with 2000 pending assets, all with an ssh protocol and no
   * conflicting rows, the first slice handles assets 0-999, which then leave the query; the second
   * slice reads offset 1000 of the 1000 that remain, finds nothing and ends the loop. Asset 1000
   * (and every one after it) is left without sftp, where the list-evaluated-once loop gives it one.
   */
  lemma AsWrittenSkipsAssets(assets: seq<Asset>, aps: seq<AssetProtocol>, sp: set<int>,
                             conflict: (AssetProtocol, AssetProtocol) -> bool)
    requires forall a, b :: !conflict(a, b)
    requires |PendingIds(assets, aps, sp)| == 2 * BatchSize
    requires Distinct(PendingIds(assets, aps, sp))
    requires forall k :: 0 <= k < 2 * BatchSize ==> HasSsh(aps, PendingIds(assets, aps, sp)[k])
    ensures !AssetHasSftp(AsWrittenFrom(assets, aps, sp, 0, conflict), PendingIds(assets, aps, sp)[BatchSize])
    ensures AssetHasSftp(BackfillFrom(aps, PendingIds(assets, aps, sp), 0, conflict), PendingIds(assets, aps, sp)[BatchSize])
  {
    var ids := PendingIds(assets, aps, sp);
    var first := Slice(ids, 0, BatchSize);
    assert first == ids[..BatchSize];
    var rows := BatchRows(aps, first);
    var aps1 := BulkCreate(aps, rows, conflict);
    BulkCreateNoConflicts(aps, rows, conflict);
    forall id | id in first ensures HasSsh(aps, id) {
      var q :| 0 <= q < |first| && first[q] == id;
      assert ids[q] == id;
    }
    FirstSliceLeavesQuery(assets, aps, sp, conflict, first);
    assert forall i :: 0 <= i < |assets| ==> assets[i] in assets;
    PendingIdsAfterBatch(assets, aps, aps1, sp, first);
    DropPrefixIds(ids, BatchSize);
    var ids1 := PendingIds(assets, aps1, sp);
    assert ids1 == ids[BatchSize..];
    assert Slice(ids1, BatchSize, 2 * BatchSize) == [];
    assert AsWrittenFrom(assets, aps, sp, 0, conflict) == aps1;
    var skipped := ids[BatchSize];
    assert skipped !in first;
    BatchRowsCopied(aps, first);
    AppendHasSftp(aps, rows, skipped);
    BackfillReachesTarget(aps, ids, 0, conflict, BatchSize);
  }

  // ---------------------------------------------------------------------------------------
  // The tables the migration runs over
  // ---------------------------------------------------------------------------------------

  class AssetDb {
    var platforms: seq<Platform>
    var platformProtocols: seq<PlatformProtocol>
    var assets: seq<Asset>
    var assetProtocols: seq<AssetProtocol>
    /** The unique constraints of the two protocol tables, as a conflict relation between rows. */
    const platformConflict: (PlatformProtocol, PlatformProtocol) -> bool
    const assetConflict: (AssetProtocol, AssetProtocol) -> bool

    constructor (platforms: seq<Platform>, platformProtocols: seq<PlatformProtocol>,
                 assets: seq<Asset>, assetProtocols: seq<AssetProtocol>,
                 platformConflict: (PlatformProtocol, PlatformProtocol) -> bool,
                 assetConflict: (AssetProtocol, AssetProtocol) -> bool)
      ensures this.platforms == platforms && this.platformProtocols == platformProtocols
      ensures this.assets == assets && this.assetProtocols == assetProtocols
      ensures this.platformConflict == platformConflict && this.assetConflict == assetConflict
    {
      this.platforms := platforms;
      this.platformProtocols := platformProtocols;
      this.assets := assets;
      this.assetProtocols := assetProtocols;
      this.platformConflict := platformConflict;
      this.assetConflict := assetConflict;
    }

    /** migrate_platforms_sftp_protocol. */
    method MigratePlatformsSftpProtocol()
      modifies this
      ensures platformProtocols == PlatformBackfill(old(platforms), old(platformProtocols), platformConflict)
      ensures platforms == old(platforms) && assets == old(assets) && assetProtocols == old(assetProtocols)
    {
      var pl := platforms;
      var sshProtocols := SshCandidates(pl, platformProtocols);
      var newProtocols := CollectSftpEntries(sshProtocols, platformProtocols);
      newProtocols := DedupLastWins(newProtocols, PlatformKey);
      platformProtocols := BulkCreate(platformProtocols, newProtocols, platformConflict);
    }

    /** The new rows of one slice: the ssh query, the `asset_id` dictionary, one sftp row per entry. */
    method SliceRows(batch: seq<int>) returns (newProtocols: seq<AssetProtocol>)
      ensures newProtocols == BatchRows(assetProtocols, batch)
    {
      var sshProtocols := SshOf(assetProtocols, batch);
      var sshMap := DedupLastWins(sshProtocols, AssetKey);
      newProtocols := [];
      for i := 0 to |sshMap|
        invariant |newProtocols| == i
        invariant forall j :: 0 <= j < i ==> newProtocols[j] == SftpFor(sshMap[j])
      {
        newProtocols := newProtocols + [SftpFor(sshMap[i])];
      }
    }

    /** migrate_assets_sftp_protocol as written: each slice re-runs the `asset_ids` query. */
    method MigrateAssetsSftpProtocolAsWritten()
      modifies this
      ensures assetProtocols ==
        AsWrittenFrom(old(assets), old(assetProtocols), SftpPlatformIds(old(platforms), old(platformProtocols)), 0, assetConflict)
      ensures platforms == old(platforms) && platformProtocols == old(platformProtocols) && assets == old(assets)
    {
      var sftpPlatforms := SftpPlatformIds(platforms, platformProtocols);
      var count: nat := 0;
      while true
        invariant platforms == old(platforms) && platformProtocols == old(platformProtocols) && assets == old(assets)
        invariant AsWrittenFrom(assets, assetProtocols, sftpPlatforms, count, assetConflict) ==
          AsWrittenFrom(old(assets), old(assetProtocols), sftpPlatforms, 0, assetConflict)
        decreases |assets| - count
      {
        var assetIds := Slice(PendingIds(assets, assetProtocols, sftpPlatforms), count, count + BatchSize);
        if assetIds == [] {
          break;
        }
        var newProtocols := SliceRows(assetIds);
        assert AsWrittenFrom(assets, assetProtocols, sftpPlatforms, count, assetConflict) ==
          AsWrittenFrom(assets, BulkCreate(assetProtocols, newProtocols, assetConflict), sftpPlatforms, count + BatchSize, assetConflict);
        count := count + BatchSize;
        assetProtocols := BulkCreate(assetProtocols, newProtocols, assetConflict);
      }
    }

    /**
     * migrate_assets_sftp_protocol with `asset_ids` evaluated once: the slices partition it, and
     * every listed asset with an ssh protocol ends with an sftp one.
     */
    method MigrateAssetsSftpProtocol() returns (ghost batches: seq<seq<int>>)
      modifies this
      ensures var ids := PendingIds(old(assets), old(assetProtocols), SftpPlatformIds(old(platforms), old(platformProtocols)));
        && batches == Batches(ids, 0)
        && assetProtocols == BackfillFrom(old(assetProtocols), ids, 0, assetConflict)
      ensures platforms == old(platforms) && platformProtocols == old(platformProtocols) && assets == old(assets)
    {
      var sftpPlatforms := SftpPlatformIds(platforms, platformProtocols);
      var assetIds := PendingIds(assets, assetProtocols, sftpPlatforms);
      var count: nat := 0;
      batches := [];
      while true
        invariant platforms == old(platforms) && platformProtocols == old(platformProtocols) && assets == old(assets)
        invariant BackfillFrom(assetProtocols, assetIds, count, assetConflict) ==
          BackfillFrom(old(assetProtocols), assetIds, 0, assetConflict)
        invariant batches + Batches(assetIds, count) == Batches(assetIds, 0)
        decreases |assetIds| - count
      {
        var slice := Slice(assetIds, count, count + BatchSize);
        if slice == [] {
          break;
        }
        assert Batches(assetIds, count) == [slice] + Batches(assetIds, count + BatchSize);
        assert batches + Batches(assetIds, count) == (batches + [slice]) + Batches(assetIds, count + BatchSize);
        batches := batches + [slice];
        var newProtocols := SliceRows(slice);
        assert BackfillFrom(assetProtocols, assetIds, count, assetConflict) ==
          BackfillFrom(BulkCreate(assetProtocols, newProtocols, assetConflict), assetIds, count + BatchSize, assetConflict);
        count := count + BatchSize;
        assetProtocols := BulkCreate(assetProtocols, newProtocols, assetConflict);
      }
    }

    /** The migration as written: the platform step, then the asset loop that re-runs its query per slice. */
    method MigrateAsWritten()
      modifies this
      ensures platformProtocols == PlatformBackfill(old(platforms), old(platformProtocols), platformConflict)
      ensures assetProtocols == AsWrittenFrom(old(assets), old(assetProtocols),
        SftpPlatformIds(old(platforms), platformProtocols), 0, assetConflict)
      ensures platforms == old(platforms) && assets == old(assets)
    {
      MigratePlatformsSftpProtocol();
      MigrateAssetsSftpProtocolAsWritten();
    }

    /** The migration corrected: the platform step, then the asset step with the list evaluated once. */
    method MigrateCorrected()
      modifies this
      ensures platformProtocols == PlatformBackfill(old(platforms), old(platformProtocols), platformConflict)
      ensures assetProtocols == BackfillFrom(old(assetProtocols),
        PendingIds(old(assets), old(assetProtocols), SftpPlatformIds(old(platforms), platformProtocols)), 0, assetConflict)
      ensures platforms == old(platforms) && assets == old(assets)
    {
      MigratePlatformsSftpProtocol();
      ghost var _ := MigrateAssetsSftpProtocol();
    }
  }
}
