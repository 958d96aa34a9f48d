/** The search box of the rate list: `filteredRates` keeps the rates whose
    geocode, state, county or city contains the search term, ignoring ASCII
    letter case. */
module RateList {
  import opened Optional
  import opened Strings
  import opened Sequences

  /** The location part of the front end's `RateDto`; a field the back end
      left out is `None`. */
  datatype RateView = RateView(
    geocode: Option<string>,
    state: Option<string>,
    county: Option<string>,
    city: Option<string>)

  /** `(field || '')`. */
  function OrEmpty(field: Option<string>): string {
    if field.Some? then field.value else ""
  }

  /** `(field || '').toLowerCase().includes(searchTerm.toLowerCase())`. */
  predicate FieldMatches(field: Option<string>, searchTerm: string) {
    Includes(Lower(OrEmpty(field)), Lower(searchTerm))
  }

  /** The test `filteredRates` applies to one rate. */
  predicate MatchesSearch(rate: RateView, searchTerm: string) {
    FieldMatches(rate.geocode, searchTerm) || FieldMatches(rate.state, searchTerm) ||
    FieldMatches(rate.county, searchTerm) || FieldMatches(rate.city, searchTerm)
  }

  /** `filteredRates`: the matching rates, in list order. */
  function FilteredRates(rates: seq<RateView>, searchTerm: string): (shown: seq<RateView>)
    ensures IsSubsequence(shown, rates)
  {
    Filter(rates, (rate: RateView) => MatchesSearch(rate, searchTerm))
  }

  /** A rate is listed exactly when it is one of the rates and one of its
      four location fields contains the term. */
  lemma FilteredRatesMembers(rates: seq<RateView>, searchTerm: string, rate: RateView)
    ensures rate in FilteredRates(rates, searchTerm) <==> rate in rates && MatchesSearch(rate, searchTerm)
  {
    FilterMember(rates, (rate: RateView) => MatchesSearch(rate, searchTerm), rate);
  }

  /** An empty search box lists every rate. */
  lemma EmptySearchKeepsAll(rates: seq<RateView>)
    ensures FilteredRates(rates, "") == rates
  {
    forall i | 0 <= i < |rates|
      ensures MatchesSearch(rates[i], "")
    {
      IncludesEmpty(Lower(OrEmpty(rates[i].geocode)));
    }
    FilterKeepsAll(rates, (rate: RateView) => MatchesSearch(rate, ""));
  }

  lemma LowerAppend(t: string, u: string)
    ensures Lower(t + u) == Lower(t) + Lower(u)
  {
  }

  /** Typing more of the search term can only shorten the list, and what
      remains keeps its order. */
  lemma LongerSearchNarrows(rates: seq<RateView>, t: string, u: string)
    ensures IsSubsequence(FilteredRates(rates, t + u), FilteredRates(rates, t))
  {
    LowerAppend(t, u);
    forall rate: RateView | MatchesSearch(rate, t + u)
      ensures MatchesSearch(rate, t)
    {
      var fields := [rate.geocode, rate.state, rate.county, rate.city];
      forall f | f in fields && FieldMatches(f, t + u)
        ensures FieldMatches(f, t)
      {
        IncludesPrefix(Lower(OrEmpty(f)), Lower(t), Lower(u));
      }
    }
    FilterMonotone(rates, (rate: RateView) => MatchesSearch(rate, t + u), (rate: RateView) => MatchesSearch(rate, t));
  }

  /** Letter case in the search term does not matter. */
  lemma SearchIgnoresCase(rates: seq<RateView>, searchTerm: string)
    ensures FilteredRates(rates, Upper(searchTerm)) == FilteredRates(rates, searchTerm)
  {
    assert Lower(Upper(searchTerm)) == Lower(searchTerm);
    FilterCongruent(rates, (rate: RateView) => MatchesSearch(rate, Upper(searchTerm)),
                    (rate: RateView) => MatchesSearch(rate, searchTerm));
  }

}
