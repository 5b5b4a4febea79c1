/** Values shared by every part of the seed-time plugin's backend. */
module SeedTimeTypes {

  datatype Option<+T> = None | Some(value: T)

  /** Why an operation of the backend raised instead of completing. */
  datatype Error =
    | MissingEntry(id: string)   // `del` of a torrent id that has no criteria (a KeyError)
    | BadConfig(key: string)     // a configuration key that is absent or holds a value of the wrong kind

  datatype Result<+T> = Ok(value: T) | Err(error: Error)

  /** The stop criteria of one torrent. `time` is in days, `ratio` is a share ratio;
      a value <= 0 switches that threshold off. */
  datatype Criteria = Criteria(time: real, ratio: real, removeTorrent: bool, removeData: bool)

  /** One row of the ordered filter list. `field` is "label", "tracker", "default" or
      anything else (then the rule is ignored); `filter` is a regular expression. */
  datatype FilterRule = FilterRule(
    field: string,
    filter: string,
    stopTime: real,
    stopRatio: real,
    removeTorrent: bool,
    removeData: bool)

  /** A value of the configuration dictionary, which the backend reads by key. */
  datatype Value =
    | Number(n: real)
    | Rules(rules: seq<FilterRule>)
    | Table(table: map<string, Criteria>)
    | Other   // any value of another kind, as a client of set_config may send

  /** Regular-expression search: `matches(pattern, s)` holds when the pattern occurs
      somewhere in `s`. The engine itself is not modelled; callers pass it in. */
  type Matcher = (string, string) -> bool

  const SecondsPerDay: real := 3600.0 * 24.0

  const DefaultStopTimeKey := "default_stop_time"
  const DefaultMinRatioKey := "default_minimum_stop_ratio"
  const DelayTimeKey := "delay_time"
  const FilterListKey := "filter_list"
  const StopCriteriaKey := "torrent_stop_criteria"

  /** The configuration the plugin starts from when nothing was saved. */
  const ConfigDefault: map<string, Value> := map[
    DefaultStopTimeKey := Number(7.0),
    DefaultMinRatioKey := Number(1.0),
    DelayTimeKey := Number(1.0),
    FilterListKey := Rules([]),
    StopCriteriaKey := Table(map[])
  ]
}
