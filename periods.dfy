/** The period labels shown in the interface and the codes the data provider takes. */
module Periods {

  /** `period_mapping` of `get_etf_data`. */
  const PeriodMapping: map<string, string> := map[
    "1 año" := "1y",
    "3 años" := "3y",
    "5 años" := "5y",
    "10 años" := "10y",
    "Desde inicio de año" := "ytd"
  ]

  /** The codes the provider understands for a relative period. */
  const ProviderCodes: set<string> := {"1y", "3y", "5y", "10y", "ytd"}

  /** A label is translated when it is one of the five; anything else passes through. */
  function MapPeriod(period: string): (code: string)
    ensures period == "1 año" ==> code == "1y"
    ensures period == "3 años" ==> code == "3y"
    ensures period == "5 años" ==> code == "5y"
    ensures period == "10 años" ==> code == "10y"
    ensures period == "Desde inicio de año" ==> code == "ytd"
    ensures period !in PeriodMapping ==> code == period
    ensures code in ProviderCodes || code == period
  {
    if period in PeriodMapping then PeriodMapping[period] else period
  }

  /** Translating an already translated period changes nothing. */
  lemma MapPeriodIdempotent(period: string)
    ensures MapPeriod(MapPeriod(period)) == MapPeriod(period)
  {
  }

  /** Every interface label lands on a provider code, and the codes are left alone. */
  lemma MapPeriodOntoCodes(period: string)
    ensures period in PeriodMapping ==> MapPeriod(period) in ProviderCodes
    ensures period in ProviderCodes ==> MapPeriod(period) == period
  {
  }
}
