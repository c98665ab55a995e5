/** The fixed horizon-to-interval lookup (polybridge/client.py:20-25). */
module Horizons {
  import opened Types

  /** HORIZON_INTERVAL_MAP: each horizon label to the sampling interval its
      markets are requested at. */
  const HorizonIntervalMap: map<string, string> :=
    map["daily" := "5m", "weekly" := "30m", "monthly" := "1h", "yearly" := "4h"]

  /** `HORIZON_INTERVAL_MAP.get(horizon)`: the interval of a horizon, None
      for a label outside the map. */
  function IntervalOf(horizon: string): (r: Option<string>)
    ensures r.Some? <==> horizon in {"daily", "weekly", "monthly", "yearly"}
    ensures r.Some? ==> r.value in {"5m", "30m", "1h", "4h"}
  {
    if horizon in HorizonIntervalMap then Some(HorizonIntervalMap[horizon]) else None
  }

  /** Distinct horizons never share an interval, so grouping by interval is
      grouping by horizon. */
  lemma IntervalOfInjective(h1: string, h2: string)
    requires IntervalOf(h1).Some? && IntervalOf(h1) == IntervalOf(h2)
    ensures h1 == h2
  {
  }

  /** No mapped interval is "1d", the only interval for which the fetch asks
      for options metrics. */
  lemma NoMappedIntervalIsDaily(h: string)
    requires IntervalOf(h).Some?
    ensures IntervalOf(h).value != "1d"
  {
  }

  /** No mapped interval contains an underscore; the table-name rule relies on
      this to keep `block_interval` names apart. */
  lemma MappedIntervalHasNoUnderscore(h: string)
    requires IntervalOf(h).Some?
    ensures '_' !in IntervalOf(h).value
  {
  }
}
