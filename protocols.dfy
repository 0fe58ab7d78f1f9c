/**
 * The protocol catalog of the terminal registry: builtin `(name, port)` rows, the
 * default protocol list of each terminal type, and idempotent get-or-create seeding.
 */
module ProtocolCatalog {
  import opened Common

  /** One row of the protocol table. The table is unique on `(name, port)`. */
  datatype Protocol = Protocol(name: string, port: int, builtin: bool)

  /** A member of the protocol-name enumeration: its name and its canonical default port. */
  datatype ProtocolKind = ProtocolKind(name: string, defaultPort: int)

  /** One seeding entry, a dictionary whose `name` and `port` keys may be missing. */
  datatype Entry = Entry(name: Option<string>, port: Option<int>, builtin: bool)

  datatype CatalogError =
    | UnsupportedType(ttype: string)          // the assertion in get_default_protocols_data
    | IntegrityError(name: string, port: int) // creation hits the (name, port) constraint

  /** Both `name` and `port` are present and truthy: a non-empty name and a non-zero port. */
  predicate Usable(e: Entry) {
    e.name.Some? && e.name.value != "" && e.port.Some? && e.port.value != 0
  }

  /** The builtin row that get-or-create looks up (or creates) for a usable entry. */
  function Wanted(e: Entry): Protocol
    requires Usable(e)
  {
    Protocol(e.name.value, e.port.value, true)
  }

  /** The uniqueness constraint of the table: `(name, port)` identifies a row. */
  ghost predicate Unique(rows: set<Protocol>) {
    forall p, q :: p in rows && q in rows && p.name == q.name && p.port == q.port ==> p == q
  }

  /** Some row holds the same `(name, port)` as `p`. */
  predicate KeyTaken(rows: set<Protocol>, p: Protocol) {
    exists q :: q in rows && q.name == p.name && q.port == p.port
  }

  /** Some NON-builtin row holds the same `(name, port)` as `p`. */
  predicate NonBuiltinClash(rows: set<Protocol>, p: Protocol) {
    exists q :: q in rows && q.name == p.name && q.port == p.port && !q.builtin
  }

  /** The entries seeding one protocol kind each, with `builtin` set (one comprehension). */
  function EntriesFor(kinds: seq<ProtocolKind>): (r: seq<Entry>)
    ensures |r| == |kinds|
    ensures forall i :: 0 <= i < |kinds| ==>
      r[i] == Entry(Some(kinds[i].name), Some(kinds[i].defaultPort), true)
  {
    seq(|kinds|, i requires 0 <= i < |kinds| => Entry(Some(kinds[i].name), Some(kinds[i].defaultPort), true))
  }

  /** get_default_protocols_data: the entries of the type's protocols, or the failed assertion. */
  function DefaultProtocolsData(mapper: map<string, seq<ProtocolKind>>, ttype: string): (r: Result<seq<Entry>, CatalogError>)
    ensures r.Err? <==> ttype !in mapper
    ensures r.Err? ==> r.error == UnsupportedType(ttype)
    ensures r.Ok? ==> |r.value| == |mapper[ttype]|
    ensures r.Ok? ==> forall i :: 0 <= i < |r.value| ==>
      r.value[i] == Entry(Some(mapper[ttype][i].name), Some(mapper[ttype][i].defaultPort), true)
  {
    if ttype in mapper then Ok(EntriesFor(mapper[ttype])) else Err(UnsupportedType(ttype))
  }

  /** get_initial_data: one builtin entry per member of the protocol-name enumeration. */
  function InitialData(kinds: seq<ProtocolKind>): (r: seq<Entry>)
    ensures |r| == |kinds|
    ensures forall i :: 0 <= i < |kinds| ==>
      (Usable(r[i]) <==> kinds[i].name != "" && kinds[i].defaultPort != 0)
    ensures forall i :: 0 <= i < |kinds| ==> r[i].builtin
  {
    EntriesFor(kinds)
  }

  /** The protocols a seeding run returns on success: one builtin row per usable entry, in order. */
  function Requested(data: seq<Entry>): (r: seq<Protocol>)
    ensures forall p :: p in r ==> p.builtin
  {
    if data == [] then []
    else
      var e := data[|data| - 1];
      Requested(data[..|data| - 1]) + if Usable(e) then [Wanted(e)] else []
  }

  /** The state of the table and the outcome after one get_or_create call. */
  datatype Step = Step(rows: set<Protocol>, result: Result<Protocol, CatalogError>)

  /**
   * `objects.get_or_create(name=..., port=..., builtin=True)`: return the builtin row when it
   * exists; otherwise create it, which fails when another row already holds `(name, port)`.
   */
  function GetOrCreateStep(rows: set<Protocol>, p: Protocol): (s: Step)
    requires p.builtin
    ensures s.result.Ok? ==> s.result.value == p && p in s.rows
    ensures s.rows == rows || s.rows == rows + {p}
    ensures s.result.Err? <==> p !in rows && KeyTaken(rows, p)
    ensures s.result.Err? ==> s.rows == rows && s.result.error == IntegrityError(p.name, p.port)
  {
    if p in rows then Step(rows, Ok(p))
    else if KeyTaken(rows, p) then Step(rows, Err(IntegrityError(p.name, p.port)))
    else Step(rows + {p}, Ok(p))
  }

  /** The state of the table and the outcome after get_or_create_protocols. */
  datatype Run = Run(rows: set<Protocol>, result: Result<seq<Protocol>, CatalogError>)

  /**
   * get_or_create_protocols over the entries in order: unusable entries are skipped, the
   * first failing creation ends the run (rows created before it stay in the table).
   */
  function Seed(rows: set<Protocol>, data: seq<Entry>): Run
    decreases |data|
  {
    if data == [] then Run(rows, Ok([]))
    else
      var prev := Seed(rows, data[..|data| - 1]);
      var e := data[|data| - 1];
      if prev.result.Err? || !Usable(e) then prev
      else
        var s := GetOrCreateStep(prev.rows, Wanted(e));
        match s.result
        case Ok(p) => Run(s.rows, Ok(prev.result.value + [p]))
        case Err(err) => Run(s.rows, Err(err))
  }

  /** `data[..i+1]` extends `data[..i]` by one entry: Seed takes one more step. */
  lemma SeedPrefixStep(data: seq<Entry>, i: nat)
    requires i < |data|
    ensures data[..i + 1][..i] == data[..i] && data[..i + 1][i] == data[i]
  {
  }

  /** The usable entries, in input order. */
  function UsableEntries(data: seq<Entry>): seq<Entry> {
    Filter(data, Usable)
  }

  /** Requested builds exactly one builtin protocol per usable entry, in input order. */
  lemma {:induction false} RequestedMatchesEntries(data: seq<Entry>)
    ensures |Requested(data)| == |UsableEntries(data)|
    ensures forall i :: 0 <= i < |Requested(data)| ==>
      Usable(UsableEntries(data)[i]) && Requested(data)[i] == Wanted(UsableEntries(data)[i])
  {
    if data != [] {
      var init, e := data[..|data| - 1], data[|data| - 1];
      assert data == init + [e];
      RequestedMatchesEntries(init);
      FilterConcat(init, [e], Usable);
      assert Filter([e], Usable) == if Usable(e) then [e] else [];
    }
  }

  /** A successful run returns the requested protocols; a run only adds requested rows. */
  lemma {:induction false} SeedShape(rows: set<Protocol>, data: seq<Entry>)
    ensures var run := Seed(rows, data);
      && (run.result.Ok? ==> run.result.value == Requested(data))
      && rows <= run.rows
      && (forall p :: p in run.rows - rows ==> p in Requested(data))
  {
    if data != [] {
      SeedShape(rows, data[..|data| - 1]);
    }
  }

  /**
   * get_or_create_protocols skips unusable entries and returns one builtin protocol per usable
   * entry, in input order, with that entry's name and port.
   */
  lemma SeedReturnsOnePerUsableEntry(rows: set<Protocol>, data: seq<Entry>)
    ensures var run := Seed(rows, data);
      run.result.Ok? ==>
        && |run.result.value| == |UsableEntries(data)|
        && forall i :: 0 <= i < |run.result.value| ==>
             var e := UsableEntries(data)[i];
             && e.name.Some? && e.port.Some?
             && run.result.value[i] == Protocol(e.name.value, e.port.value, true)
  {
    SeedShape(rows, data);
    RequestedMatchesEntries(data);
  }

  /** Seeding keeps the table unique on `(name, port)`. */
  lemma {:induction false} SeedKeepsUnique(rows: set<Protocol>, data: seq<Entry>)
    requires Unique(rows)
    ensures Unique(Seed(rows, data).rows)
  {
    if data != [] {
      SeedKeepsUnique(rows, data[..|data| - 1]);
    }
  }

  /** Seeding fails exactly when some usable entry meets a non-builtin row with its `(name, port)`. */
  lemma {:induction false} SeedFailsIffClash(rows: set<Protocol>, data: seq<Entry>)
    requires Unique(rows)
    ensures Seed(rows, data).result.Err? <==>
      exists e :: e in data && Usable(e) && NonBuiltinClash(rows, Wanted(e))
  {
    if data != [] {
      var init, e := data[..|data| - 1], data[|data| - 1];
      assert data == init + [e];
      SeedFailsIffClash(rows, init);
      SeedShape(rows, init);
      SeedKeepsUnique(rows, init);
      var prev := Seed(rows, init);
      if prev.result.Ok? && Usable(e) {
        var p := Wanted(e);
        if NonBuiltinClash(rows, p) {
          var q :| q in rows && q.name == p.name && q.port == p.port && !q.builtin;
          assert q in prev.rows && q != p;
          assert p !in prev.rows;
        } else {
          forall q | q in prev.rows && q.name == p.name && q.port == p.port ensures q == p {
            if q !in rows {
              assert q in Requested(init);
            }
          }
        }
      }
    }
  }

  /** When every requested row is already present, seeding changes nothing and succeeds. */
  lemma {:induction false} SeedWhenPresent(rows: set<Protocol>, data: seq<Entry>)
    requires forall p :: p in Requested(data) ==> p in rows
    ensures Seed(rows, data) == Run(rows, Ok(Requested(data)))
  {
    if data != [] {
      var init := data[..|data| - 1];
      var e := data[|data| - 1];
      assert Requested(data) == Requested(init) + if Usable(e) then [Wanted(e)] else [];
      SeedWhenPresent(rows, init);
      if Usable(e) {
        assert Wanted(e) in rows;
        assert GetOrCreateStep(rows, Wanted(e)) == Step(rows, Ok(Wanted(e)));
      } else {
        assert Requested(data) == Requested(init);
        assert Seed(rows, data) == Seed(rows, init);
      }
    }
  }

  /** A successful run leaves exactly the old rows plus the requested ones. */
  lemma SeedAddsRequested(rows: set<Protocol>, data: seq<Entry>)
    requires Seed(rows, data).result.Ok?
    ensures Seed(rows, data).rows == rows + set p | p in Requested(data)
  {
    SeedShape(rows, data);
    var run := Seed(rows, data);
    forall p | p in Requested(data) ensures p in run.rows {
      assert p in run.result.value;
      SeedReturnedArePresent(rows, data, p);
    }
  }

  /** Once a run has failed on a prefix of the entries, the remaining entries change nothing. */
  lemma {:induction false} SeedErrSticks(rows: set<Protocol>, data: seq<Entry>, i: nat)
    requires i <= |data| && Seed(rows, data[..i]).result.Err?
    ensures Seed(rows, data) == Seed(rows, data[..i])
    decreases |data| - i
  {
    if i < |data| {
      SeedPrefixStep(data, i);
      SeedErrSticks(rows, data, i + 1);
    } else {
      assert data[..i] == data;
    }
  }

  /** Every protocol a successful run returns is a row of the table afterwards. */
  lemma {:induction false} SeedReturnedArePresent(rows: set<Protocol>, data: seq<Entry>, p: Protocol)
    requires Seed(rows, data).result.Ok? && p in Seed(rows, data).result.value
    ensures p in Seed(rows, data).rows
  {
    if data != [] {
      var init := data[..|data| - 1];
      var prev := Seed(rows, init);
      if p in prev.result.value {
        SeedReturnedArePresent(rows, init, p);
      }
    }
  }

  /** A second run on the table a successful run left returns the same protocols and adds nothing. */
  lemma SeedIdempotentWhenOk(rows: set<Protocol>, data: seq<Entry>)
    requires Seed(rows, data).result.Ok?
    ensures var once := Seed(rows, data); Seed(once.rows, data) == once
  {
    SeedAddsRequested(rows, data);
    SeedShape(rows, data);
    SeedWhenPresent(Seed(rows, data).rows, data);
  }

  /**
   * Seeding is idempotent: a second run on the first run's table gives the same outcome and the
   * same table, whether the first run succeeded or failed.
   */
  lemma {:induction false} SeedIdempotent(rows: set<Protocol>, data: seq<Entry>)
    ensures var once := Seed(rows, data); Seed(once.rows, data) == once
  {
    if data != [] {
      var init, e := data[..|data| - 1], data[|data| - 1];
      var prev := Seed(rows, init);
      SeedIdempotent(rows, init);
      if prev.result.Ok? && Usable(e) {
        var s := GetOrCreateStep(prev.rows, Wanted(e));
        if s.result.Ok? {
          SeedIdempotentWhenOk(rows, data);
        }
      }
    }
  }

  /** The table behind the Protocol model: its rows change only through get-or-create. */
  class ProtocolTable {
    var rows: set<Protocol>

    ghost predicate Valid()
      reads this
    {
      Unique(rows)
    }

    constructor (rows: set<Protocol>)
      requires Unique(rows)
      ensures Valid() && this.rows == rows
    {
      this.rows := rows;
    }

    /** `objects.get_or_create(name=name, port=port, builtin=True)`. */
    method GetOrCreate(name: string, port: int) returns (r: Result<Protocol, CatalogError>)
      requires Valid()
      modifies this
      ensures Valid()
      ensures var s := GetOrCreateStep(old(rows), Protocol(name, port, true));
        rows == s.rows && r == s.result
    {
      var p := Protocol(name, port, true);
      if p in rows {
        r := Ok(p);
      } else if KeyTaken(rows, p) {
        r := Err(IntegrityError(name, port));
      } else {
        rows := rows + {p};
        r := Ok(p);
      }
    }

    /** get_or_create_protocols: one get-or-create per usable entry, collected in order. */
    method GetOrCreateProtocols(data: seq<Entry>) returns (r: Result<seq<Protocol>, CatalogError>)
      requires Valid()
      modifies this
      ensures Valid()
      ensures Seed(old(rows), data) == Run(rows, r)
    {
      ghost var rows0 := rows;
      var protocols: seq<Protocol> := [];
      for i := 0 to |data|
        invariant Valid()
        invariant Seed(rows0, data[..i]) == Run(rows, Ok(protocols))
      {
        SeedPrefixStep(data, i);
        SeedKeepsUnique(rows0, data[..i]);
        var d := data[i];
        if !Usable(d) {
          continue;
        }
        var protocol := GetOrCreate(d.name.value, d.port.value);
        if protocol.Err? {
          SeedErrSticks(rows0, data, i + 1);
          r := Err(protocol.error);
          return;
        }
        protocols := protocols + [protocol.value];
      }
      assert data[..|data|] == data;
      r := Ok(protocols);
    }

    /** get_default_protocols: the type's default entries, then get-or-create on them. */
    method GetDefaultProtocols(mapper: map<string, seq<ProtocolKind>>, ttype: string)
      returns (r: Result<seq<Protocol>, CatalogError>)
      requires Valid()
      modifies this
      ensures Valid()
      ensures ttype !in mapper ==> r == Err(UnsupportedType(ttype)) && rows == old(rows)
      ensures ttype in mapper ==> Seed(old(rows), EntriesFor(mapper[ttype])) == Run(rows, r)
    {
      var data := DefaultProtocolsData(mapper, ttype);
      if data.Err? {
        r := Err(data.error);
        return;
      }
      r := GetOrCreateProtocols(data.value);
    }

    /** initial_to_db: seed the catalog with one builtin row per protocol-name member. */
    method InitialToDb(kinds: seq<ProtocolKind>) returns (r: Result<seq<Protocol>, CatalogError>)
      requires Valid()
      modifies this
      ensures Valid()
      ensures Seed(old(rows), InitialData(kinds)) == Run(rows, r)
    {
      r := GetOrCreateProtocols(InitialData(kinds));
    }
  }

  /** The builtin protocols of a list of kinds, skipping kinds with an empty name or port 0. */
  function DefaultSet(kinds: seq<ProtocolKind>): set<Protocol> {
    set i | 0 <= i < |kinds| && kinds[i].name != "" && kinds[i].defaultPort != 0 ::
      Protocol(kinds[i].name, kinds[i].defaultPort, true)
  }

  /** A successful seeding from kinds returns exactly the builtin rows of those kinds. */
  lemma SeedKindsReturnsDefaultSet(rows: set<Protocol>, kinds: seq<ProtocolKind>)
    requires Seed(rows, EntriesFor(kinds)).result.Ok?
    ensures (set p | p in Seed(rows, EntriesFor(kinds)).result.value) == DefaultSet(kinds)
  {
    var data := EntriesFor(kinds);
    SeedReturnsOnePerUsableEntry(rows, data);
    SeedShape(rows, data);
    RequestedMatchesEntries(data);
    var ps := Seed(rows, data).result.value;
    forall p | p in ps ensures p in DefaultSet(kinds) {
      var i :| 0 <= i < |ps| && ps[i] == p;
      var e := UsableEntries(data)[i];
      assert e in data;
      var j :| 0 <= j < |data| && data[j] == e;
      assert p == Protocol(kinds[j].name, kinds[j].defaultPort, true);
    }
    forall p | p in DefaultSet(kinds) ensures p in ps {
      var j :| 0 <= j < |kinds| && kinds[j].name != "" && kinds[j].defaultPort != 0 &&
        p == Protocol(kinds[j].name, kinds[j].defaultPort, true);
      assert data[j] in UsableEntries(data);
      var i :| 0 <= i < |UsableEntries(data)| && UsableEntries(data)[i] == data[j];
      assert ps[i] == p;
    }
  }
}
