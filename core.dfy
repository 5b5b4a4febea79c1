/** The plugin's backend object: the configuration, the criteria store it shares with
    the configuration, and the operations the host and the clients call. */
module SeedTimeCore {
  import opened SeedTimeTypes
  import opened CriteriaStore
  import opened Evaluator
  import opened FilterClassifier

  class Core {
    /** The configuration dictionary, read and written by key. */
    var config: map<string, Value>
    /** The criteria store, from torrent id to its stop criteria. */
    var criteria: map<string, Criteria>
    /** The store is the very object held under "torrent_stop_criteria" in the
        configuration; a client that writes that key through `set_config` replaces the
        configuration's value and the two part ways. While they are linked, the value
        stored under the key in `config` is not consulted. */
    var linked: bool

    /** Enabling the plugin: the saved configuration over the defaults, and the store
        taken from it. */
    constructor Enable(saved: map<string, Value>)
      requires StopCriteriaKey in saved ==> saved[StopCriteriaKey].Table?
      ensures config == ConfigDefault + saved
      ensures criteria == (ConfigDefault + saved)[StopCriteriaKey].table
      ensures linked
    {
      config := ConfigDefault + saved;
      criteria := (ConfigDefault + saved)[StopCriteriaKey].table;
      linked := true;
    }

    /** The configuration as a client reads it. */
    function GetConfig(): (r: map<string, Value>)
      reads this
      ensures r.Keys == config.Keys + (if linked then {StopCriteriaKey} else {})
      ensures linked ==> r[StopCriteriaKey] == Table(criteria)
      ensures forall k :: k in config && (k != StopCriteriaKey || !linked) ==> r[k] == config[k]
    {
      if linked then config[StopCriteriaKey := Table(criteria)] else config
    }

    /** `set_config`: copies every given key into the configuration, one at a time. */
    method SetConfig(update: map<string, Value>)
      modifies this`config, this`linked
      ensures config == old(config) + update
      ensures linked == (old(linked) && StopCriteriaKey !in update)
      ensures forall k :: k !in update && k in old(config) ==> k in config && config[k] == old(config)[k]
    {
      var pending := update.Keys;
      while pending != {}
        invariant pending <= update.Keys
        invariant config == old(config) + (map k | k in update.Keys - pending :: update[k])
        invariant linked == (old(linked) && StopCriteriaKey !in update.Keys - pending)
        decreases pending
      {
        var key :| key in pending;
        config := config[key := update[key]];
        if key == StopCriteriaKey {
          linked := false;
        }
        pending := pending - {key};
      }
      assert (map k | k in update.Keys :: update[k]) == update;
    }

    /** `set_torrent`: store the criteria for one torrent, or delete its entry when both
        thresholds are off; the delete raises when there is no entry. Omitted arguments
        are 0, 0, false and false, as in the source's signature. */
    method SetTorrent(id: string, stopTime: real := 0.0, minRatio: real := 0.0,
                      removeTorrent: bool := false, removeData: bool := false)
      returns (err: Option<Error>)
      modifies this`criteria
      ensures var r := SetCriteria(old(criteria), id, stopTime, minRatio, removeTorrent, removeData);
        (r.Ok? ==> criteria == r.value && err.None?) &&
        (r.Err? ==> criteria == old(criteria) && err == Some(r.error))
    {
      if stopTime <= 0.0 && minRatio <= 0.0 {
        if id !in criteria {
          return Some(MissingEntry(id));
        }
        criteria := criteria - {id};
      } else {
        criteria := criteria[id := Criteria(stopTime, minRatio, removeTorrent, removeData)];
      }
      err := None;
    }

    /** The torrent-removed handler: drop the torrent's entry if it has one. */
    method PostTorrentRemove(id: string)
      modifies this`criteria
      ensures criteria == Forget(old(criteria), id)
    {
      if id in criteria {
        criteria := criteria - {id};
      }
    }

    /** `update_checker`: one tick over the host's torrents, in the host's order,
        gathering the pause and remove requests. Nothing of the plugin changes. */
    method UpdateChecker(torrents: seq<TorrentStatus>) returns (actions: seq<Action>)
      ensures actions == Evaluate(criteria, torrents)
    {
      actions := [];
      var i := 0;
      while i < |torrents|
        invariant 0 <= i <= |torrents|
        invariant actions == Evaluate(criteria, torrents[..i])
      {
        var t := torrents[i];
        assert torrents[..i + 1][..i] == torrents[..i];
        i := i + 1;
        if !(t.state == "Seeding" && t.id in criteria) {
          continue;
        }
        var c := criteria[t.id];
        var seedTimeMet := c.time > 0.0 && t.seedingTime > c.time * 3600.0 * 24.0;
        var ratioMet := c.ratio > 0.0 && t.ratio > c.ratio;
        if seedTimeMet || ratioMet {
          if c.removeTorrent {
            actions := actions + [Remove(t.id, c.removeData)];
          } else {
            actions := actions + [Pause(t.id)];
          }
        }
      }
      assert torrents[..i] == torrents;
    }

    /** `apply_filter`: walk the filter list in order; the first rule with a candidate
        string its pattern matches sets the torrent's criteria, and the scan stops; when
        no rule matches, the defaults are set. */
    method ApplyFilter(t: NewTorrent, matches: Matcher) returns (err: Option<Error>)
      modifies this`criteria
      ensures var r := Classify(config, old(criteria), t, matches);
        (r.Ok? ==> criteria == r.value && err.None?) &&
        (r.Err? ==> criteria == old(criteria) && err == Some(r.error))
    {
      if FilterListKey !in config || !config[FilterListKey].Rules? {
        return Some(BadConfig(FilterListKey));
      }
      var rules := config[FilterListKey].rules;
      var matchFound := false;
      err := None;
      var i := 0;
      while i < |rules|
        invariant 0 <= i <= |rules|
        invariant !matchFound && criteria == old(criteria)
        invariant forall j :: 0 <= j < i ==> !RuleMatches(rules[j], t, matches)
      {
        var rule := rules[i];
        var searchStrs := Candidates(rule, t);
        if searchStrs.Some? {
          var strs := searchStrs.value;
          var j := 0;
          while j < |strs|
            invariant 0 <= j <= |strs|
            invariant !matchFound && criteria == old(criteria)
            invariant forall k :: 0 <= k < j ==> !matches(rule.filter, strs[k])
          {
            if matches(rule.filter, strs[j]) {
              matchFound := true;
              err := SetTorrent(t.id, rule.stopTime, rule.stopRatio, rule.removeTorrent, rule.removeData);
              break;
            }
            j := j + 1;
          }
          if matchFound {
            assert RuleMatches(rule, t, matches) by {
              assert strs[j] in strs;
            }
            FirstMatchWins(config, old(criteria), t, matches, i);
            break;
          }
        }
        i := i + 1;
      }
      if !matchFound {
        assert FirstMatchingRule(rules, t, matches).None?;
        if DefaultStopTimeKey !in config || !config[DefaultStopTimeKey].Number? {
          return Some(BadConfig(DefaultStopTimeKey));
        }
        if DefaultMinRatioKey !in config || !config[DefaultMinRatioKey].Number? {
          return Some(BadConfig(DefaultMinRatioKey));
        }
        err := SetTorrent(t.id, config[DefaultStopTimeKey].n, config[DefaultMinRatioKey].n);
      }
    }

    /** The `seed_stop_time` status field: the stop time in seconds, 0 without an entry.
        It is the bound the periodic check compares the seeding time with. */
    function SeedStopTime(id: string): (r: real)
      reads this
      ensures id !in criteria ==> r == 0.0
      ensures id in criteria ==> r == criteria[id].time * 86400.0
      ensures id in criteria ==>
        forall s :: SeedTimeMet(criteria[id], s) <==> criteria[id].time > 0.0 && s > r
    {
      var stopTime := if id in criteria then criteria[id].time else 0.0;
      stopTime * 3600.0 * 24.0
    }

    /** The `seed_time_remaining` status field: stop time minus seeding time, never
        below 0. It is 0 once the time threshold has been exceeded. */
    function RemainingSeedTime(id: string, seedingTime: real): (r: real)
      reads this
      ensures r >= 0.0 && r >= SeedStopTime(id) - seedingTime
      ensures r == 0.0 || r == SeedStopTime(id) - seedingTime
      ensures id in criteria && SeedTimeMet(criteria[id], seedingTime) ==> r == 0.0
      ensures r > 0.0 && seedingTime >= 0.0 ==>
        id in criteria && criteria[id].time > 0.0 && !SeedTimeMet(criteria[id], seedingTime)
    {
      var stopTime := SeedStopTime(id);
      if 0.0 >= stopTime - seedingTime then 0.0 else stopTime - seedingTime
    }

    /** The `seed_min_ratio` status field: the stored ratio, 0 without an entry. The
        periodic check fires on ratio exactly when this is positive and exceeded. */
    function SeedStopRatio(id: string): (r: real)
      reads this
      ensures id !in criteria ==> r == 0.0
      ensures id in criteria ==> r == criteria[id].ratio
      ensures id in criteria ==> forall x :: RatioMet(criteria[id], x) <==> r > 0.0 && x > r
    {
      if id in criteria then criteria[id].ratio else 0.0
    }
  }
}
