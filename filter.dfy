/** The filter classifier (`apply_filter`): the criteria a newly added torrent gets
    from the first filter rule that matches it, or from the configured defaults. */
module FilterClassifier {
  import opened SeedTimeTypes
  import opened CriteriaStore

  /** What the Label plugin tells about a torrent's label. */
  datatype LabelInfo =
    | LabelPluginDisabled        // "Label" is not among the enabled plugins
    | LabelLookupFails           // the plugin's label lookup raised
    | LabelIs(text: string)

  /** What the classifier can see of the torrent it classifies. */
  datatype NewTorrent = NewTorrent(id: string, trackers: seq<string>, labelInfo: LabelInfo)

  /** The candidate strings a rule tests, or None when the rule is skipped: a label
      rule without a non-empty label, or a rule whose field is unknown. */
  function Candidates(rule: FilterRule, t: NewTorrent): (r: Option<seq<string>>)
  {
    if rule.field == "label" then
      if t.labelInfo.LabelIs? && |t.labelInfo.text| > 0 then Some([t.labelInfo.text]) else None
    else if rule.field == "tracker" then Some(t.trackers)
    else if rule.field == "default" then Some([""])
    else None
  }

  /** Some candidate of the rule contains a match of its pattern. */
  predicate RuleMatches(rule: FilterRule, t: NewTorrent, matches: Matcher)
  {
    var cands := Candidates(rule, t);
    cands.Some? && exists s :: s in cands.value && matches(rule.filter, s)
  }

  /** The position of the first rule that matches, if any. */
  function FirstMatchingRule(rules: seq<FilterRule>, t: NewTorrent, matches: Matcher): (r: Option<nat>)
    ensures r.Some? ==> r.value < |rules| && RuleMatches(rules[r.value], t, matches)
    ensures r.Some? ==> forall j :: 0 <= j < r.value ==> !RuleMatches(rules[j], t, matches)
    ensures r.None? ==> forall j :: 0 <= j < |rules| ==> !RuleMatches(rules[j], t, matches)
  {
    if rules == [] then None
    else if RuleMatches(rules[0], t, matches) then Some(0)
    else
      match FirstMatchingRule(rules[1..], t, matches)
      case None => None
      case Some(k) => Some(k + 1)
  }

  /** The store after classifying `t` under configuration `config`: the first matching
      rule's four values go through `set_torrent`; when no rule matches, the default
      stop time and ratio do, with both removal flags off. A missing or mistyped
      configuration value raises before anything is stored. */
  function Classify(config: map<string, Value>, store: Store, t: NewTorrent, matches: Matcher): (r: Result<Store>)
  {
    if FilterListKey !in config || !config[FilterListKey].Rules? then Err(BadConfig(FilterListKey))
    else
      var rules := config[FilterListKey].rules;
      match FirstMatchingRule(rules, t, matches)
      case Some(i) =>
        SetCriteria(store, t.id, rules[i].stopTime, rules[i].stopRatio, rules[i].removeTorrent, rules[i].removeData)
      case None =>
        if DefaultStopTimeKey !in config || !config[DefaultStopTimeKey].Number? then Err(BadConfig(DefaultStopTimeKey))
        else if DefaultMinRatioKey !in config || !config[DefaultMinRatioKey].Number? then Err(BadConfig(DefaultMinRatioKey))
        else SetCriteria(store, t.id, config[DefaultStopTimeKey].n, config[DefaultMinRatioKey].n, false, false)
  }

  /** The store as the classifier leaves it: an error leaves it untouched. */
  function StoreAfter(config: map<string, Value>, store: Store, t: NewTorrent, matches: Matcher): (r: Store)
  {
    var r := Classify(config, store, t, matches);
    if r.Ok? then r.value else store
  }

  /** How each kind of rule chooses its candidates: a default rule tests exactly the
      empty string, a tracker rule its tracker URLs, a label rule the torrent's label
      when that is known and non-empty; all other rules never match. */
  lemma RuleMatchesByField(rule: FilterRule, t: NewTorrent, matches: Matcher)
    ensures rule.field == "default" ==> (RuleMatches(rule, t, matches) <==> matches(rule.filter, ""))
    ensures rule.field == "tracker" ==>
      (RuleMatches(rule, t, matches) <==> exists i :: 0 <= i < |t.trackers| && matches(rule.filter, t.trackers[i]))
    ensures rule.field == "label" ==>
      (RuleMatches(rule, t, matches) <==>
        t.labelInfo.LabelIs? && t.labelInfo.text != "" && matches(rule.filter, t.labelInfo.text))
    ensures rule.field !in {"default", "tracker", "label"} ==> !RuleMatches(rule, t, matches)
    ensures rule.field == "tracker" && t.trackers == [] ==> !RuleMatches(rule, t, matches)
  {
  }

  /** First match wins: when rule `i` matches and no earlier rule does, the store gets
      exactly rule `i`'s values through `set_torrent`. */
  lemma FirstMatchWins(config: map<string, Value>, store: Store, t: NewTorrent, matches: Matcher, i: nat)
    requires FilterListKey in config && config[FilterListKey].Rules?
    requires i < |config[FilterListKey].rules|
    requires RuleMatches(config[FilterListKey].rules[i], t, matches)
    requires forall j :: 0 <= j < i ==> !RuleMatches(config[FilterListKey].rules[j], t, matches)
    ensures var rule := config[FilterListKey].rules[i];
      Classify(config, store, t, matches) ==
        SetCriteria(store, t.id, rule.stopTime, rule.stopRatio, rule.removeTorrent, rule.removeData)
  {
  }

  /** Rules after the first matching one are not consulted: replacing them changes nothing. */
  lemma LaterRulesIgnored(rules: seq<FilterRule>, rules': seq<FilterRule>, i: nat,
                          t: NewTorrent, matches: Matcher)
    requires i < |rules| && i < |rules'| && rules[..i + 1] == rules'[..i + 1]
    requires RuleMatches(rules[i], t, matches)
    ensures FirstMatchingRule(rules, t, matches) == FirstMatchingRule(rules', t, matches)
  {
    forall j | 0 <= j <= i ensures rules[j] == rules'[j] {
      assert rules[j] == rules[..i + 1][j] && rules'[j] == rules'[..i + 1][j];
    }
    var a, b := FirstMatchingRule(rules, t, matches), FirstMatchingRule(rules', t, matches);
    assert a.Some? && a.value <= i;
    assert b.Some? && b.value <= i;
  }

  /** A rule that does not match (skipped, no candidates, or no candidate matching)
      may be taken out of the list without changing which rule is chosen. */
  lemma {:induction false} NonMatchingRuleFallsThrough(rules: seq<FilterRule>, i: nat, t: NewTorrent, matches: Matcher)
    requires i < |rules|
    requires !RuleMatches(rules[i], t, matches)
    ensures var without := rules[..i] + rules[i + 1..];
      var a := FirstMatchingRule(rules, t, matches);
      var b := FirstMatchingRule(without, t, matches);
      a.Some? == b.Some? && (a.Some? ==> rules[a.value] == without[b.value])
  {
    var without := rules[..i] + rules[i + 1..];
    if i == 0 {
      assert without == rules[1..];
    } else {
      assert without[0] == rules[0];
      if !RuleMatches(rules[0], t, matches) {
        assert without[1..] == rules[1..][..i - 1] + rules[1..][i..];
        NonMatchingRuleFallsThrough(rules[1..], i - 1, t, matches);
      }
    }
  }

  /** Fallback: when no rule matches, the torrent gets the configured default stop time
      and ratio with both removal flags off. */
  lemma FallbackToDefaults(config: map<string, Value>, store: Store, t: NewTorrent, matches: Matcher)
    requires FilterListKey in config && config[FilterListKey].Rules?
    requires forall j :: 0 <= j < |config[FilterListKey].rules| ==> !RuleMatches(config[FilterListKey].rules[j], t, matches)
    requires DefaultStopTimeKey in config && config[DefaultStopTimeKey].Number?
    requires DefaultMinRatioKey in config && config[DefaultMinRatioKey].Number?
    ensures Classify(config, store, t, matches) ==
      SetCriteria(store, t.id, config[DefaultStopTimeKey].n, config[DefaultMinRatioKey].n, false, false)
  {
  }

  /** Idempotent re-application: classifying the same torrent again under the same
      configuration leaves the store as the first run left it. When the chosen values
      switch both thresholds off, the second run raises (its `del` finds no entry),
      which also leaves the store unchanged. */
  lemma ClassifyIdempotent(config: map<string, Value>, store: Store, t: NewTorrent, matches: Matcher)
    ensures StoreAfter(config, StoreAfter(config, store, t, matches), t, matches) == StoreAfter(config, store, t, matches)
  {
  }

  /** With the configuration the plugin ships with (no rules, 7 days, ratio 1.0), every
      new torrent gets 7 days and ratio 1.0 and is paused, not removed, when they are met. */
  lemma DefaultConfigScenario(store: Store, t: NewTorrent, matches: Matcher)
    ensures Classify(ConfigDefault, store, t, matches) == Ok(store[t.id := Criteria(7.0, 1.0, false, false)])
  {
  }

  /** The example of a tracker rule ahead of a catch-all default rule: a torrent whose
      tracker URL matches the tracker rule gets that rule's stop time, not the default's. */
  lemma TrackerBeforeDefaultScenario(store: Store, t: NewTorrent, matches: Matcher)
    requires |t.trackers| > 0 && matches("example\\.com", t.trackers[0])
    ensures var config := ConfigDefault[FilterListKey := Rules([
        FilterRule("tracker", "example\\.com", 5.0, 0.0, false, false),
        FilterRule("default", ".*", 1.0, 0.0, false, false)])];
      Classify(config, store, t, matches) == Ok(store[t.id := Criteria(5.0, 0.0, false, false)])
  {
  }
}
