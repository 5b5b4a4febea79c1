/** The criteria store: the map from torrent id to stop criteria, and the two ways
    the backend changes it (`set_torrent` and the torrent-removed handler). */
module CriteriaStore {
  import opened SeedTimeTypes

  type Store = map<string, Criteria>

  /** Both thresholds switched off: `set_torrent` then deletes instead of storing. */
  predicate Disabled(stopTime: real, minRatio: real)
  {
    stopTime <= 0.0 && minRatio <= 0.0
  }

  /** Every stored entry has at least one active threshold. */
  ghost predicate AllActive(store: Store)
  {
    forall id :: id in store ==> !Disabled(store[id].time, store[id].ratio)
  }

  /** The effect of `set_torrent` on the store. Disabling deletes the entry with an
      unconditional `del`, which raises when the id has no entry; otherwise the entry
      is inserted or overwritten. */
  function SetCriteria(store: Store, id: string, stopTime: real, minRatio: real,
                       removeTorrent: bool, removeData: bool): (r: Result<Store>)
    ensures r.Err? <==> Disabled(stopTime, minRatio) && id !in store
    ensures r.Err? ==> r.error == MissingEntry(id)
    ensures r.Ok? && Disabled(stopTime, minRatio) ==> r.value.Keys == store.Keys - {id}
    ensures r.Ok? && !Disabled(stopTime, minRatio) ==>
      r.value.Keys == store.Keys + {id} &&
      r.value[id] == Criteria(stopTime, minRatio, removeTorrent, removeData)
    ensures r.Ok? ==> forall k :: k in store && k != id ==> k in r.value && r.value[k] == store[k]
  {
    if Disabled(stopTime, minRatio) then
      if id in store then Ok(store - {id}) else Err(MissingEntry(id))
    else
      Ok(store[id := Criteria(stopTime, minRatio, removeTorrent, removeData)])
  }

  /** The effect of the torrent-removed handler: delete the entry when there is one. */
  function Forget(store: Store, id: string): (r: Store)
    ensures r.Keys == store.Keys - {id}
    ensures forall k :: k in r ==> r[k] == store[k]
    ensures id !in store ==> r == store
  {
    if id in store then store - {id} else store
  }

  /** Writing through `set_torrent` never stores an entry with both thresholds off. */
  lemma SetCriteriaKeepsActive(store: Store, id: string, stopTime: real, minRatio: real,
                               removeTorrent: bool, removeData: bool)
    requires AllActive(store)
    requires SetCriteria(store, id, stopTime, minRatio, removeTorrent, removeData).Ok?
    ensures AllActive(SetCriteria(store, id, stopTime, minRatio, removeTorrent, removeData).value)
  {
  }

  /** `set_torrent` with both thresholds off leaves no entry for the id, whether it
      raised or not; otherwise the id's entry is exactly the one given. */
  lemma SetCriteriaThenLookup(store: Store, id: string, stopTime: real, minRatio: real,
                              removeTorrent: bool, removeData: bool)
    ensures var r := SetCriteria(store, id, stopTime, minRatio, removeTorrent, removeData);
      var after := if r.Ok? then r.value else store;
      (Disabled(stopTime, minRatio) ==> id !in after) &&
      (!Disabled(stopTime, minRatio) ==>
        id in after && after[id] == Criteria(stopTime, minRatio, removeTorrent, removeData))
  {
  }

  /** Removal clears state: after any `set_torrent` for an id and then its removal
      notification, the id has no entry and every other entry is as `set_torrent` left it. */
  lemma SetThenForget(store: Store, id: string, stopTime: real, minRatio: real,
                      removeTorrent: bool, removeData: bool)
    requires SetCriteria(store, id, stopTime, minRatio, removeTorrent, removeData).Ok?
    ensures var after := Forget(SetCriteria(store, id, stopTime, minRatio, removeTorrent, removeData).value, id);
      id !in after && after == Forget(store, id)
  {
  }

  /** Forgetting twice is forgetting once. */
  lemma ForgetIdempotent(store: Store, id: string)
    ensures Forget(Forget(store, id), id) == Forget(store, id)
  {
  }
}
