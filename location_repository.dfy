/**
 * backend/Repositories/LocationRepository.cs: the Locations table, its
 * filters by site and by company, and the name-within-site test.
 */
module LocationRepository {
  import opened Wrappers
  import opened Entities
  import opened Linq

  /** The constraint the database keeps on Locations: the primary key. */
  ghost predicate LocationsValid(locations: seq<Location>)
  {
    KeysUnique(locations, LocationId)
  }

  class LocationRepository {
    var locations: seq<Location>

    ghost predicate Valid()
      reads this
    {
      LocationsValid(locations)
    }

    constructor ()
      ensures Valid() && locations == []
    {
      locations := [];
    }

    /** `GetLocationByIdAsync`: the location with that id, or null. */
    function GetLocationById(id: Guid): (r: Option<Location>)
      reads this
      ensures r.Some? ==> r.value in locations && r.value.id == id
      ensures r.None? <==> forall i :: 0 <= i < |locations| ==> locations[i].id != id
    {
      FirstOrDefault(locations, LocationId, id)
    }

    /**
     * `GetLocationsBySiteIdAsync`: exactly the rows of that site, each as
     * often as stored, in store order (see Linq.WhereAppend).
     */
    function GetLocationsBySiteId(siteId: Guid): (r: seq<Location>)
      reads this
      ensures forall i :: 0 <= i < |r| ==> r[i].siteId == siteId
      ensures forall x :: multiset(r)[x] == if x.siteId == siteId then multiset(locations)[x] else 0
    {
      WhereCounts(locations, LocationSiteId, siteId);
      Where(locations, LocationSiteId, siteId)
    }

    /** `GetLocationsByCompanyIdAsync`: exactly the rows of that company, each as often as stored, in store order. */
    function GetLocationsByCompanyId(companyId: Guid): (r: seq<Location>)
      reads this
      ensures forall i :: 0 <= i < |r| ==> r[i].companyId == companyId
      ensures forall x :: multiset(r)[x] == if x.companyId == companyId then multiset(locations)[x] else 0
    {
      WhereCounts(locations, LocationCompanyId, companyId);
      Where(locations, LocationCompanyId, companyId)
    }

    /** `LocationExistsAsync`: some stored location has exactly this name on exactly this site. */
    predicate LocationExists(name: string, siteId: Guid)
      reads this
      ensures LocationExists(name, siteId) <==>
                exists i :: 0 <= i < |locations| && locations[i].name == name && locations[i].siteId == siteId
    {
      Any(locations, LocationNameAndSite, (name, siteId))
    }

    /** `CreateLocationAsync`: insert the given row and return it; a reused id makes SaveChanges throw. */
    method CreateLocation(location: Location) returns (r: Result<Location, DbError>)
      requires Valid()
      modifies this
      ensures Valid()
      ensures old(GetLocationById(location.id)).Some? ==> r == Failure(DuplicateKey) && locations == old(locations)
      ensures old(GetLocationById(location.id)).None? ==> r == Success(location) && locations == old(locations) + [location]
    {
      if Any(locations, LocationId, location.id) {
        r := Failure(DuplicateKey);
      } else {
        KeysUniqueAppend(locations, LocationId, location);
        locations := locations + [location];
        r := Success(location);
      }
    }

    /** `UpdateLocationAsync`: overwrite the row with the location's id; an id no longer stored makes SaveChanges throw. */
    method UpdateLocation(location: Location) returns (r: Result<bool, DbError>)
      requires Valid()
      modifies this
      ensures Valid()
      ensures old(GetLocationById(location.id)).None? ==> r == Failure(ConcurrencyConflict) && locations == old(locations)
      ensures old(GetLocationById(location.id)).Some? ==>
                r == Success(true) && locations == old(locations)[IndexOf(old(locations), LocationId, location.id).value := location]
    {
      var found := IndexOf(locations, LocationId, location.id);
      if found.None? {
        r := Failure(ConcurrencyConflict);
      } else {
        KeysUniqueReplace(locations, LocationId, found.value, location);
        locations := locations[found.value := location];
        r := Success(true);
      }
    }

    /** `DeleteLocationAsync`: false and no change for an unknown id; otherwise exactly that row is removed. */
    method DeleteLocation(id: Guid) returns (deleted: bool)
      requires Valid()
      modifies this
      ensures Valid()
      ensures deleted <==> old(GetLocationById(id)).Some?
      ensures !deleted ==> locations == old(locations)
      ensures deleted ==> var i := IndexOf(old(locations), LocationId, id).value;
                          locations == old(locations)[..i] + old(locations)[i + 1..]
      ensures GetLocationById(id).None?
    {
      var found := IndexOf(locations, LocationId, id);
      if found.None? {
        deleted := false;
      } else {
        var i := found.value;
        KeysUniqueRemove(locations, LocationId, i);
        locations := locations[..i] + locations[i + 1..];
        deleted := true;
      }
    }
  }
}
