/**
 * backend/Services/LocationDataService.cs: the read-only country, state and
 * city lists behind the address forms. The lists are loaded from JSON files
 * when the service is built; here they are the service's fields.
 */
module LocationDataService {
  import opened Entities
  import opened Linq

  datatype LocationDataService = LocationDataService(countries: seq<Country>, states: seq<State>, cities: seq<City>)
  {
    /** `GetCountries`: the loaded list itself, every country in load order. */
    function GetCountries(): (r: seq<Country>)
      ensures |r| == |countries| && forall i :: 0 <= i < |r| ==> r[i] == countries[i]
    {
      countries
    }

    /** `GetStatesByCountry`: exactly the states of that country, each as often as loaded; none for an unknown id. */
    function GetStatesByCountry(countryId: int): (r: seq<State>)
      ensures forall i :: 0 <= i < |r| ==> r[i].countryId == countryId
      ensures forall x :: multiset(r)[x] == if x.countryId == countryId then multiset(states)[x] else 0
      ensures (forall i :: 0 <= i < |states| ==> states[i].countryId != countryId) ==> r == []
    {
      WhereCounts(states, StateCountryId, countryId);
      Where(states, StateCountryId, countryId)
    }

    /** `GetCitiesByState`: exactly the cities of that state, each as often as loaded; none for an unknown id. */
    function GetCitiesByState(stateId: int): (r: seq<City>)
      ensures forall i :: 0 <= i < |r| ==> r[i].stateId == stateId
      ensures forall x :: multiset(r)[x] == if x.stateId == stateId then multiset(cities)[x] else 0
      ensures (forall i :: 0 <= i < |cities| ==> cities[i].stateId != stateId) ==> r == []
    {
      WhereCounts(cities, CityStateId, stateId);
      Where(cities, CityStateId, stateId)
    }
  }

  /**
   * The filters keep load order: the states of a list made of two parts
   * are the first part's states followed by the second part's.
   */
  lemma StatesInLoadOrder(first: seq<State>, second: seq<State>, cities: seq<City>, countryId: int)
    ensures LocationDataService([], first + second, cities).GetStatesByCountry(countryId)
            == LocationDataService([], first, cities).GetStatesByCountry(countryId)
               + LocationDataService([], second, cities).GetStatesByCountry(countryId)
  {
    WhereAppend(first, second, StateCountryId, countryId);
  }

  /** The same for cities. */
  lemma CitiesInLoadOrder(states: seq<State>, first: seq<City>, second: seq<City>, stateId: int)
    ensures LocationDataService([], states, first + second).GetCitiesByState(stateId)
            == LocationDataService([], states, first).GetCitiesByState(stateId)
               + LocationDataService([], states, second).GetCitiesByState(stateId)
  {
    WhereAppend(first, second, CityStateId, stateId);
  }
}
