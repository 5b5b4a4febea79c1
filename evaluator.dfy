/** The periodic threshold check (`update_checker`): which torrents the plugin pauses
    or removes on one tick, given the criteria store and the host's torrent list. */
module Evaluator {
  import opened SeedTimeTypes
  import opened CriteriaStore

  /** What the host reports of one torrent on a tick. */
  datatype TorrentStatus = TorrentStatus(id: string, state: string, seedingTime: real, ratio: real)

  /** What the check asks the host to do with a torrent. */
  datatype Action = Pause(id: string) | Remove(id: string, removeData: bool)
  {
    function Id(): string { match this case Pause(id) => id case Remove(id, _) => id }
  }

  const Seeding := "Seeding"

  /** The time threshold is on and the torrent has seeded longer than it (days to seconds). */
  predicate SeedTimeMet(c: Criteria, seedingTime: real)
  {
    c.time > 0.0 && seedingTime > c.time * SecondsPerDay
  }

  /** The ratio threshold is on and the torrent's ratio is above it. */
  predicate RatioMet(c: Criteria, ratio: real)
  {
    c.ratio > 0.0 && ratio > c.ratio
  }

  /** The torrent takes part in the check at all. */
  predicate Tracked(store: Store, t: TorrentStatus)
  {
    t.state == Seeding && t.id in store
  }

  /** The torrent is tracked and one of its thresholds is exceeded. */
  predicate Fires(store: Store, t: TorrentStatus)
  {
    Tracked(store, t) && (SeedTimeMet(store[t.id], t.seedingTime) || RatioMet(store[t.id], t.ratio))
  }

  /** The action one torrent draws on a tick, if any. */
  function Decide(store: Store, t: TorrentStatus): (r: Option<Action>)
  {
    if !Fires(store, t) then None
    else if store[t.id].removeTorrent then Some(Remove(t.id, store[t.id].removeData))
    else Some(Pause(t.id))
  }

  function OptionToSeq(o: Option<Action>): (r: seq<Action>)
  {
    if o.Some? then [o.value] else []
  }

  /** The actions of one tick, in the order of the host's torrent list. */
  function Evaluate(store: Store, torrents: seq<TorrentStatus>): (r: seq<Action>)
  {
    if torrents == [] then []
    else Evaluate(store, torrents[..|torrents| - 1]) + OptionToSeq(Decide(store, torrents[|torrents| - 1]))
  }

  /** A torrent draws an action exactly when it is seeding, has criteria, and one of
      the two thresholds is exceeded; the action removes (keeping or deleting data as
      stored) when the entry says so and pauses otherwise. */
  lemma DecideSpec(store: Store, t: TorrentStatus)
    ensures Decide(store, t).Some? <==>
      t.state == "Seeding" && t.id in store &&
      ((store[t.id].time > 0.0 && t.seedingTime > store[t.id].time * 86400.0) ||
       (store[t.id].ratio > 0.0 && t.ratio > store[t.id].ratio))
    ensures Decide(store, t).Some? ==>
      Decide(store, t).value.Id() == t.id &&
      (Decide(store, t).value == Remove(t.id, store[t.id].removeData) <==> store[t.id].removeTorrent) &&
      (Decide(store, t).value == Pause(t.id) <==> !store[t.id].removeTorrent)
  {
  }

  /** Threshold independence: with the ratio threshold off, only the seeding time
      decides, whatever the ratio; with the time threshold off, only the ratio decides. */
  lemma ThresholdIndependence(store: Store, t: TorrentStatus)
    requires Tracked(store, t)
    ensures store[t.id].ratio <= 0.0 ==> (Decide(store, t).Some? <==> SeedTimeMet(store[t.id], t.seedingTime))
    ensures store[t.id].time <= 0.0 ==> (Decide(store, t).Some? <==> RatioMet(store[t.id], t.ratio))
  {
  }

  /** An action appears in the tick's output exactly when some listed torrent draws it. */
  lemma {:induction false} EvaluateExactly(store: Store, torrents: seq<TorrentStatus>, a: Action)
    ensures a in Evaluate(store, torrents) <==>
      exists i :: 0 <= i < |torrents| && Decide(store, torrents[i]) == Some(a)
  {
    if torrents != [] {
      var n := |torrents| - 1;
      var init := torrents[..n];
      EvaluateExactly(store, init, a);
      assert forall i :: 0 <= i < n ==> init[i] == torrents[i];
      if a in Evaluate(store, torrents) && a !in Evaluate(store, init) {
        assert Decide(store, torrents[n]) == Some(a);
      }
      if exists i :: 0 <= i < |torrents| && Decide(store, torrents[i]) == Some(a) {
        var i :| 0 <= i < |torrents| && Decide(store, torrents[i]) == Some(a);
        if i < n {
          assert Decide(store, init[i]) == Some(a);
        }
      }
    }
  }

  /** Every action of a tick concerns a torrent that is seeding, has criteria and
      exceeds a threshold; there is at most one action per listed torrent. */
  lemma {:induction false} EvaluateSound(store: Store, torrents: seq<TorrentStatus>)
    ensures |Evaluate(store, torrents)| <= |torrents|
    ensures forall a :: a in Evaluate(store, torrents) ==>
      exists i :: 0 <= i < |torrents| && torrents[i].id == a.Id() && Fires(store, torrents[i])
  {
    if torrents != [] {
      EvaluateSound(store, torrents[..|torrents| - 1]);
    }
    forall a | a in Evaluate(store, torrents)
      ensures exists i :: 0 <= i < |torrents| && torrents[i].id == a.Id() && Fires(store, torrents[i])
    {
      EvaluateExactly(store, torrents, a);
      var i :| 0 <= i < |torrents| && Decide(store, torrents[i]) == Some(a);
      assert torrents[i].id == a.Id();
    }
  }

  /** Each torrent is checked on its own: a tick over two lists one after the other
      gives the two ticks' actions one after the other. */
  lemma {:induction false} EvaluateConcat(store: Store, first: seq<TorrentStatus>, second: seq<TorrentStatus>)
    ensures Evaluate(store, first + second) == Evaluate(store, first) + Evaluate(store, second)
  {
    if second == [] {
      assert first + second == first;
    } else {
      var n := |second| - 1;
      assert (first + second)[..|first + second| - 1] == first + second[..n];
      assert (first + second)[|first + second| - 1] == second[n];
      EvaluateConcat(store, first, second[..n]);
    }
  }

  /** No two listed torrents share an id, as in the host's dictionary of torrents. */
  predicate DistinctIds(torrents: seq<TorrentStatus>)
  {
    forall i, j :: 0 <= i < j < |torrents| ==> torrents[i].id != torrents[j].id
  }

  /** At most one action per torrent: with distinct ids, no two actions of a tick
      name the same torrent. */
  lemma {:induction false} EvaluateOnePerTorrent(store: Store, torrents: seq<TorrentStatus>)
    requires DistinctIds(torrents)
    ensures forall i, j :: 0 <= i < j < |Evaluate(store, torrents)| ==>
      Evaluate(store, torrents)[i].Id() != Evaluate(store, torrents)[j].Id()
  {
    if torrents != [] {
      var n := |torrents| - 1;
      var init := torrents[..n];
      EvaluateOnePerTorrent(store, init);
      EvaluateSound(store, init);
      var out := Evaluate(store, init);
      forall a | a in out ensures a.Id() != torrents[n].id {
        var k :| 0 <= k < |init| && init[k].id == a.Id() && Fires(store, init[k]);
        assert init[k] == torrents[k];
      }
      var last := OptionToSeq(Decide(store, torrents[n]));
      assert Evaluate(store, torrents) == out + last;
      forall i, j | 0 <= i < j < |out + last| ensures (out + last)[i].Id() != (out + last)[j].Id() {
        if j >= |out| {
          assert (out + last)[j] == Decide(store, torrents[n]).value;
          assert (out + last)[i] == out[i];
          assert out[i] in out;
        }
      }
    }
  }

  /** Dropping the entry of some other torrent does not change a torrent's decision. */
  lemma ForgetOtherKeepsDecision(store: Store, id: string, t: TorrentStatus)
    requires t.id != id
    ensures Decide(Forget(store, id), t) == Decide(store, t)
  {
  }

  /** A tick over torrents none of which is `id` is the same with or without `id`'s entry. */
  lemma {:induction false} EvaluateIgnoresForgotten(store: Store, id: string, torrents: seq<TorrentStatus>)
    requires forall i :: 0 <= i < |torrents| ==> torrents[i].id != id
    ensures Evaluate(Forget(store, id), torrents) == Evaluate(store, torrents)
  {
    if torrents != [] {
      var n := |torrents| - 1;
      EvaluateIgnoresForgotten(store, id, torrents[..n]);
      ForgetOtherKeepsDecision(store, id, torrents[n]);
    }
  }

  /** One tick when the removed-torrent handler runs as soon as a torrent is removed,
      before the next torrent of the list is looked at: every `Remove` drops that
      torrent's entry from the store the rest of the tick consults. */
  function InterleavedTick(store: Store, torrents: seq<TorrentStatus>): (r: seq<Action>)
    decreases |torrents|
  {
    if torrents == [] then []
    else
      var d := Decide(store, torrents[0]);
      var next := if d.Some? && d.value.Remove? then Forget(store, torrents[0].id) else store;
      OptionToSeq(d) + InterleavedTick(next, torrents[1..])
  }

  /** With distinct ids the removals during a tick change none of its decisions, so
      gathering the actions first and applying them afterwards gives the same tick. */
  lemma {:induction false} InterleavedTickAgrees(store: Store, torrents: seq<TorrentStatus>)
    requires DistinctIds(torrents)
    ensures InterleavedTick(store, torrents) == Evaluate(store, torrents)
    decreases |torrents|
  {
    if torrents != [] {
      var first, rest := torrents[0], torrents[1..];
      var d := Decide(store, first);
      var next := if d.Some? && d.value.Remove? then Forget(store, first.id) else store;
      assert DistinctIds(rest) by {
        forall i, j | 0 <= i < j < |rest| ensures rest[i].id != rest[j].id {
          assert rest[i] == torrents[i + 1] && rest[j] == torrents[j + 1];
        }
      }
      InterleavedTickAgrees(next, rest);
      assert forall i :: 0 <= i < |rest| ==> rest[i].id != first.id by {
        forall i | 0 <= i < |rest| ensures rest[i].id != first.id {
          assert rest[i] == torrents[i + 1];
        }
      }
      EvaluateIgnoresForgotten(store, first.id, rest);
      assert Evaluate(next, rest) == Evaluate(store, rest);
      EvaluateConcat(store, [first], rest);
      assert [first] + rest == torrents;
      assert [first][..0] == [];
      assert Evaluate(store, [first]) == OptionToSeq(d);
    }
  }
}
