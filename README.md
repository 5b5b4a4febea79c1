# Seed-time plugin backend, modelled in Dafny

The plugin sits in a torrent client and stops torrents that have seeded long enough.
Each tracked torrent has stop criteria: a stop time in days, a minimum ratio, and
whether to remove the torrent (with or without its data) instead of pausing it. This
project models the backend's decision logic in `seedtime/core.py`:

- **Criteria store** (`store.dfy`, module `CriteriaStore`). This is the map from torrent
  id to criteria. `SetCriteria` gives the effect of `set_torrent` and `Forget` the
  effect of the torrent-removed handler.
- **Periodic check** (`evaluator.dfy`, module `Evaluator`). `Decide` and `Evaluate` say
  which pause and remove requests one tick of `update_checker` produces for the host's
  torrent list.
- **Filter classifier** (`filter.dfy`, module `FilterClassifier`). `Candidates`,
  `FirstMatchingRule` and `Classify` say which criteria `apply_filter` stores for a
  new torrent. The first matching rule wins; otherwise the defaults apply.
- **The backend object** (`core.dfy`, class `SeedTimeCore.Core`). It holds the
  configuration dictionary and the criteria store as fields. Its methods update them
  the way the Python methods do: loops, `break`, and the `for … else` fallback. Each
  method is proved against the pure functions above. The three status-field getters
  are functions of the store.
- `types.dfy` (module `SeedTimeTypes`) holds the records, the configuration values and
  `CONFIG_DEFAULT`.

Inputs the model is handed instead of fetching them from the host:

- the torrent list, as a sequence of `TorrentStatus` records (id, state, seeding time,
  ratio);
- the torrent being classified, as a `NewTorrent` (its tracker URLs, and what the
  Label plugin reports: disabled, lookup raised, or a label);
- regular-expression search, as a function parameter `matches(pattern, s)`;
- the seeding time that the remaining-time field subtracts.

The host's pause and remove calls become `Pause(id)` and `Remove(id, removeData)` values
that `UpdateChecker` returns. Times and ratios are `real`.

Where the code and its comments or design disagree, the model follows the code:

- Stored `time` is in days. The comment on `CONFIG_DEFAULT` (core.py:54) says hours,
  but both uses multiply by 3600 × 24 (core.py:97, core.py:198).
- `set_torrent` with both thresholds non-positive deletes the entry with an
  unconditional `del` (core.py:185). For a torrent with no entry this raises
  `KeyError`. The model returns `Err(MissingEntry(id))` and leaves the
  store unchanged. One consequence: with non-positive defaults, re-classifying a
  torrent that matches no rule raises on the second run. The store still ends up the
  same (`ClassifyIdempotent`).
- The criteria store and the configuration's `torrent_stop_criteria` value are one
  object (core.py:61). `set_config` with that key rebinds the configuration's value and
  leaves the store as it was. `Core.linked` records whether the two are still the same
  object; `GetConfig` shows the store under that key while they are.

## Model

| member | source | states |
|---|---|---|
| CriteriaStore.SetCriteria | seedtime/core.py:183-190 | Both thresholds <= 0 deletes the entry, and that raises exactly when the id has none. Otherwise the id maps to exactly the given four values. Every other id keeps its entry. |
| CriteriaStore.Forget | seedtime/core.py:163-166 | The key set loses the id and nothing else. Other entries are unchanged. An absent id leaves the store as it was. |
| CriteriaStore.SetCriteriaKeepsActive | seedtime/core.py:184-190 | If no entry has both thresholds off, a successful `set_torrent` does not create one. |
| CriteriaStore.SetCriteriaThenLookup | seedtime/core.py:184-190 | After `set_torrent` with both thresholds off the id has no entry, whether it raised or not. Otherwise its entry is exactly the one given. |
| CriteriaStore.SetThenForget | seedtime/core.py:163-166 | `set_torrent` followed by the removal handler leaves no entry for the id. The store equals the removal applied to the original store. |
| CriteriaStore.ForgetIdempotent | seedtime/core.py:163-166 | Handling a removal twice has the effect of handling it once. |
| Evaluator.DecideSpec | seedtime/core.py:93-103 | A torrent draws an action iff it is "Seeding", has an entry, and `time > 0 && seeding_time > time*86400` or `ratio > 0 && ratio_now > ratio`. The action is `Remove(id, remove_data)` iff `remove_torrent` holds, else `Pause(id)`. |
| Evaluator.ThresholdIndependence | seedtime/core.py:97-99 | With the ratio threshold off only the seeding time decides, and with the time threshold off only the ratio decides. |
| Evaluator.EvaluateExactly | seedtime/core.py:90-103 | An action is in a tick's output iff some listed torrent draws exactly that action. |
| Evaluator.EvaluateSound | seedtime/core.py:92-99 | A tick emits no more actions than there are listed torrents. Each action names a listed torrent that is seeding, has criteria and exceeds a threshold. |
| Evaluator.EvaluateOnePerTorrent | seedtime/core.py:92-103 | When the listed torrents have distinct ids, as the host's torrent dictionary does, no two actions of a tick name the same torrent. |
| Evaluator.ForgetOtherKeepsDecision | seedtime/core.py:163-166 | Dropping another torrent's entry, as the removed-torrent handler does, leaves a torrent's decision unchanged. |
| Evaluator.EvaluateIgnoresForgotten | seedtime/core.py:163-166 | A tick over torrents that do not include `id` gives the same actions with or without `id`'s entry. |
| Evaluator.InterleavedTickAgrees | seedtime/core.py:92-103 | Suppose the removed-torrent handler runs as soon as the loop removes a torrent (core.py:101), before the next torrent is checked. With distinct ids, that tick still produces exactly `Evaluate`'s actions. |
| Evaluator.EvaluateConcat | seedtime/core.py:92-103 | Torrents are checked one at a time: a tick over two lists, one after the other, gives the two ticks' actions in the same order. |
| FilterClassifier.FirstMatchingRule | seedtime/core.py:117-154 | It returns the position of a rule that matches, and no earlier rule matches. It returns None only when no rule matches. |
| FilterClassifier.RuleMatchesByField | seedtime/core.py:118-141 | A `default` rule tests only `''`. A `tracker` rule tests the tracker URLs, so no trackers means no match. A `label` rule matches only with a non-empty label from an enabled plugin whose lookup did not raise. An unknown field never matches. |
| FilterClassifier.FirstMatchWins | seedtime/core.py:138-154 | When rule i matches and no earlier one does, the result is `set_torrent` with rule i's stop time, ratio and removal flags. |
| FilterClassifier.LaterRulesIgnored | seedtime/core.py:150-154 | Rules after the first matching one do not affect which rule is chosen. |
| FilterClassifier.NonMatchingRuleFallsThrough | seedtime/core.py:118-140 | A rule that does not match (skipped or without a matching candidate) can be removed from the list without changing the chosen rule. |
| FilterClassifier.FallbackToDefaults | seedtime/core.py:155-160 | When no rule matches, the result is `set_torrent` with `default_stop_time`, `default_minimum_stop_ratio` and both removal flags false. |
| FilterClassifier.ClassifyIdempotent | seedtime/core.py:116-160 | Classifying the same torrent twice with the same configuration leaves the store as one classification does. |
| FilterClassifier.DefaultConfigScenario | seedtime/core.py:49-55 | Under `CONFIG_DEFAULT` (no rules, 7.0 days, ratio 1.0) every new torrent gets `{7.0, 1.0, False, False}`. |
| FilterClassifier.TrackerBeforeDefaultScenario | seedtime/core.py:129-154 | Take a tracker rule with stop time 5 ahead of a `default` rule `.*` with stop time 1. A torrent whose tracker URL matches the first rule gets stop time 5. |
| SeedTimeCore.Core.Enable | seedtime/core.py:59-61 | The configuration is the saved one over `CONFIG_DEFAULT`. The store is its `torrent_stop_criteria` table, linked to the configuration. |
| SeedTimeCore.Core.GetConfig | seedtime/core.py:177-180 | Returns the configuration. While the store is linked to it, the `torrent_stop_criteria` key shows the current store. |
| SeedTimeCore.Core.SetConfig | seedtime/core.py:168-175 | The new configuration is the old one overwritten by exactly the given keys; other keys are unchanged. Writing `torrent_stop_criteria` unlinks the store. |
| SeedTimeCore.Core.SetTorrent | seedtime/core.py:182-191 | Omitted arguments default to 0, 0, False, False, as in the source. The new store is `SetCriteria` of the old one. On the `KeyError` path the store is unchanged and the error is returned. |
| SeedTimeCore.Core.PostTorrentRemove | seedtime/core.py:163-166 | The new store is the old one without the id's entry. It is a no-op when there is none. |
| SeedTimeCore.Core.UpdateChecker | seedtime/core.py:90-103 | The emitted actions are `Evaluate` of the store and the torrent list, in list order. Nothing is modified. |
| SeedTimeCore.Core.ApplyFilter | seedtime/core.py:116-160 | The new store is `Classify` of the configuration, the old store and the torrent. On an error (missing configuration key, `KeyError` in `set_torrent`) the store is unchanged and the error is returned. |
| SeedTimeCore.Core.SeedStopTime | seedtime/core.py:193-198 | Gives `time * 86400`, or 0 without an entry. It is the bound the periodic check uses: the time threshold is met iff `time > 0` and the seeding time exceeds it. |
| SeedTimeCore.Core.RemainingSeedTime | seedtime/core.py:200-205 | Gives `max(0, stop seconds - seeding time)`, so never negative. It is 0 once the time threshold is exceeded. When positive (with a non-negative seeding time), the entry has an active time threshold that is not yet met. |
| SeedTimeCore.Core.SeedStopRatio | seedtime/core.py:207-212 | Gives the stored ratio, or 0 without an entry. The ratio threshold is met iff this is positive and the current ratio exceeds it. |

## Left out

- Scheduling: the looping call every 10 seconds, the 5-second start delay, and the
  `delay_time` wait before classification (core.py:73-78, core.py:114). These are host
  timing primitives; each tick and each classification is modelled as one atomic call.
- `post_torrent_add` (core.py:106-114) only checks `session_started` and schedules
  `apply_filter` after the delay. Nothing is modelled beyond `ApplyFilter` itself.
- `disable` and `update` (core.py:80-88), which deregister status fields and stop the
  loop.
- Host plumbing: the component registry, event and status-field registration, logging,
  and `@export` RPC exposure.
- Persistence: `config.save()` after `set_config` and `set_torrent`, and loading the
  saved file. `Enable` takes the saved configuration as a parameter.
- The pause and remove calls themselves. They are returned as actions, and
  `UpdateChecker` gathers all of a tick's actions before the host acts on them. In the
  source, `torrent_manager.remove` runs inside the loop (core.py:101), and the
  removed-torrent handler (core.py:71, core.py:163-166) may drop that torrent's entry
  before the next torrent is checked. This does not change the result, because the
  handler drops only the removed torrent's own entry and ids are distinct.
  `InterleavedTick` models that order and `InterleavedTickAgrees` proves it gives
  `Evaluate`'s actions.
- The regular-expression engine, including a pattern that fails to compile (`re.error`
  would abort `apply_filter`). `matches` is a parameter.
- A torrent missing from the torrent manager when a tracker rule or the remaining-time
  field looks it up (a `KeyError` in the source). The torrent's data is an input.
- Floating point: times and ratios are `real`, and seeding time (an integer count of
  seconds in the host) is a `real` too.
- Filter-list entries are typed records, so a rule dictionary with a missing key is not
  modelled. A configuration value of the wrong kind for `filter_list`,
  `default_stop_time` or `default_minimum_stop_ratio` is reported as a configuration
  error, whereas Python might compare some such values without raising.
- `Enable` requires the saved `torrent_stop_criteria` value to be a table. `SetConfig`
  accepts a value of any kind under that key, so a configuration saved after such a
  call and then loaded is outside what `Enable` models. No client in the repository
  sends that key (gtkui.py:225-231, seedtime.js:259-262).
- The Label plugin's enabled state is one input per classification. The source asks
  for it again for each label rule.
