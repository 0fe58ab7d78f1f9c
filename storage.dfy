/**
 * Resolution of a terminal's command-log and session-replay storage names to a backend
 * configuration, with the process-wide default when no backend has that name.
 */
module Storage {
  import opened Common

  /** One row of the command-storage or replay-storage table. */
  datatype StorageRecord<V> = StorageRecord(name: string, config: V)

  /**
   * `objects.filter(name=name).first()`: the first backend with that name, if any. `storages` is
   * the table in primary-key order, the order `.first()` uses on an unordered query.
   */
  function FirstNamed<V>(storages: seq<StorageRecord<V>>, name: string): (r: Option<StorageRecord<V>>)
    ensures r.None? <==> forall i :: 0 <= i < |storages| ==> storages[i].name != name
    ensures r.Some? ==> r.value.name == name
    ensures r.Some? ==> exists i :: 0 <= i < |storages| && storages[i] == r.value &&
                                    forall j :: 0 <= j < i ==> storages[j].name != name
  {
    match FirstIndexWhere(storages, (s: StorageRecord<V>) => s.name == name)
    case None => None
    case Some(i) => Some(storages[i])
  }

  /**
   * get_command_storage_config / get_replay_storage_config: the named backend's config when one
   * exists, otherwise the default; an unknown name is not an error.
   */
  function ResolveConfig<V>(storages: seq<StorageRecord<V>>, name: string, default: V): (c: V)
    ensures (forall i :: 0 <= i < |storages| ==> storages[i].name != name) ==> c == default
    ensures forall i ::
      (0 <= i < |storages| && storages[i].name == name &&
       forall j :: 0 <= j < i ==> storages[j].name != name) ==> c == storages[i].config
  {
    match FirstNamed(storages, name)
    case Some(s) => s.config
    case None => default
  }
}
