/**
 * backend/Services/LocationService.cs: locations inside a company's sites.
 * Creation runs an ordered chain of guards; a location's name is unique
 * within its site, which the service keeps as an invariant (the database
 * has no index for it).
 */
module LocationService {
  import opened Wrappers
  import opened Entities
  import opened Linq
  import opened SiteRepository
  import opened CompanyRepository
  import opened LocationRepository

  /** The service's `(Success, Message, Location)` tuple; the location is the stored row. */
  datatype LocationResult = LocationResult(success: bool, message: string, location: Option<Location>)

  /** The service's `(Success, Message)` tuple. */
  datatype Outcome = Outcome(success: bool, message: string)

  /** No two locations of one site share a name. */
  ghost predicate NamesUniquePerSite(locations: seq<Location>)
  {
    KeysUnique(locations, LocationNameAndSite)
  }

  /** `_mapper.Map(request, location)`: name, site and company come from the form; the id is kept. */
  function MapOnto(request: CreateLocationRequest, l: Location): (m: Location)
    ensures m.id == l.id
    ensures (m.name, m.siteId, m.companyId) == (request.name, request.siteId, request.companyId)
  {
    l.(name := request.name, siteId := request.siteId, companyId := request.companyId)
  }

  class LocationService {
    const locationRepository: LocationRepository
    const siteRepository: SiteRepository
    const companyRepository: CompanyRepository

    ghost predicate Valid()
      reads this, locationRepository, siteRepository, companyRepository
    {
      && locationRepository.Valid()
      && siteRepository.Valid()
      && companyRepository.Valid()
      && NamesUniquePerSite(locationRepository.locations)
    }

    constructor (locationRepository: LocationRepository, siteRepository: SiteRepository, companyRepository: CompanyRepository)
      ensures this.locationRepository == locationRepository
      ensures this.siteRepository == siteRepository
      ensures this.companyRepository == companyRepository
    {
      this.locationRepository := locationRepository;
      this.siteRepository := siteRepository;
      this.companyRepository := companyRepository;
    }

    /** `GetLocationByIdAsync`. */
    method GetLocationById(id: Guid) returns (r: LocationResult)
      ensures locationRepository.GetLocationById(id).None? <==> r == LocationResult(false, "Location not found", None)
      ensures locationRepository.GetLocationById(id).Some? ==>
                r == LocationResult(true, "Location retrieved successfully", locationRepository.GetLocationById(id))
      ensures r.success ==> r.message == "Location retrieved successfully"
                            && r.location.Some? && r.location.value.id == id
                            && r.location.value in locationRepository.locations
    {
      var location := locationRepository.GetLocationById(id);
      if location.None? {
        return LocationResult(false, "Location not found", None);
      }
      r := LocationResult(true, "Location retrieved successfully", location);
    }

    /** `GetAllLocationsAsync`: always successful, every stored location. */
    method GetAllLocations() returns (success: bool, message: string, locations: seq<Location>)
      ensures success && message == "Locations retrieved successfully"
      ensures multiset(locations) == multiset(locationRepository.locations)
    {
      return true, "Locations retrieved successfully", locationRepository.locations;
    }

    /** `GetLocationsBySiteIdAsync`: always successful, the site's locations (none for an unknown site). */
    method GetLocationsBySiteId(siteId: Guid) returns (success: bool, message: string, locations: seq<Location>)
      ensures success && message == "Locations retrieved successfully"
      ensures forall x :: multiset(locations)[x] == if x.siteId == siteId then multiset(locationRepository.locations)[x] else 0
    {
      return true, "Locations retrieved successfully", locationRepository.GetLocationsBySiteId(siteId);
    }

    /** `GetLocationsByCompanyIdAsync`: always successful, the company's locations (none for an unknown company). */
    method GetLocationsByCompanyId(companyId: Guid) returns (success: bool, message: string, locations: seq<Location>)
      ensures success && message == "Locations retrieved successfully"
      ensures forall x :: multiset(locations)[x] == if x.companyId == companyId then multiset(locationRepository.locations)[x] else 0
    {
      return true, "Locations retrieved successfully", locationRepository.GetLocationsByCompanyId(companyId);
    }

    /**
     * `CreateLocationAsync`: the guards run in the order site exists, company
     * exists, site belongs to that company, name free on that site; the first
     * that fails decides the message and nothing is written. Otherwise one
     * location carrying the form is added. `newId` is the key EF Core
     * generates for the new row.
     */
    method CreateLocation(request: CreateLocationRequest, newId: Guid) returns (r: LocationResult)
      requires Valid()
      requires locationRepository.GetLocationById(newId).None?  // the generated Guid does not collide
      modifies locationRepository
      ensures Valid()
      ensures siteRepository.GetSiteById(request.siteId).None? ==>
                r == LocationResult(false, "Site not found", None)
      ensures siteRepository.GetSiteById(request.siteId).Some?
              && companyRepository.GetCompanyById(request.companyId).None? ==>
                r == LocationResult(false, "Company not found", None)
      ensures siteRepository.GetSiteById(request.siteId).Some?
              && companyRepository.GetCompanyById(request.companyId).Some?
              && siteRepository.GetSiteById(request.siteId).value.companyId != request.companyId ==>
                r == LocationResult(false, "Site does not belong to the specified company", None)
      ensures siteRepository.GetSiteById(request.siteId).Some?
              && companyRepository.GetCompanyById(request.companyId).Some?
              && siteRepository.GetSiteById(request.siteId).value.companyId == request.companyId
              && old(locationRepository.LocationExists(request.name, request.siteId)) ==>
                r == LocationResult(false, "Location with this name already exists for the specified site", None)
      ensures !r.success ==> locationRepository.locations == old(locationRepository.locations)
      ensures r.success <==>
                && siteRepository.GetSiteById(request.siteId).Some?
                && companyRepository.GetCompanyById(request.companyId).Some?
                && siteRepository.GetSiteById(request.siteId).value.companyId == request.companyId
                && !old(locationRepository.LocationExists(request.name, request.siteId))
      ensures r.success ==>
                var created := Location(newId, request.name, request.siteId, request.companyId);
                && r == LocationResult(true, "Location created successfully", Some(created))
                && locationRepository.locations == old(locationRepository.locations) + [created]
    {
      var site := siteRepository.GetSiteById(request.siteId);
      if site.None? {
        return LocationResult(false, "Site not found", None);
      }
      var company := companyRepository.GetCompanyById(request.companyId);
      if company.None? {
        return LocationResult(false, "Company not found", None);
      }
      if site.value.companyId != request.companyId {
        return LocationResult(false, "Site does not belong to the specified company", None);
      }
      var exists_ := locationRepository.LocationExists(request.name, request.siteId);
      if exists_ {
        return LocationResult(false, "Location with this name already exists for the specified site", None);
      }
      var location := Location(newId, request.name, request.siteId, request.companyId);
      KeysUniqueAppend(locationRepository.locations, LocationNameAndSite, location);
      var created := locationRepository.CreateLocation(location);
      r := LocationResult(true, "Location created successfully", Some(created.value));
    }

    /**
     * `UpdateLocationAsync`, with the duplicate-name test run whenever the
     * name or the site changes (as written it runs only when the name
     * changes; see UpdateLocationAsWritten). An unknown id is "Location not
     * found"; a name already used on the target site by another location is
     * refused; otherwise the form overwrites the location. Site existence and
     * ownership are not checked here, as in the source.
     */
    method UpdateLocation(id: Guid, request: CreateLocationRequest) returns (r: Outcome)
      requires Valid()
      modifies locationRepository
      ensures Valid()
      ensures old(locationRepository.GetLocationById(id)).None? ==>
                r == Outcome(false, "Location not found") && locationRepository.locations == old(locationRepository.locations)
      ensures old(locationRepository.GetLocationById(id)).Some? ==>
                var existing := old(locationRepository.GetLocationById(id)).value;
                var i := IndexOf(old(locationRepository.locations), LocationId, id).value;
                if (existing.name != request.name || existing.siteId != request.siteId)
                   && old(locationRepository.LocationExists(request.name, request.siteId))
                then r == Outcome(false, "Another location with this name already exists for the specified site")
                     && locationRepository.locations == old(locationRepository.locations)
                else r == Outcome(true, "Location updated successfully")
                     && locationRepository.locations == old(locationRepository.locations)[i := MapOnto(request, existing)]
      ensures (r, locationRepository.locations) == UpdateLocationCorrected(old(locationRepository.locations), id, request)
    {
      var existing := locationRepository.GetLocationById(id);
      if existing.None? {
        return Outcome(false, "Location not found");
      }
      var l := existing.value;
      ghost var i := IndexOf(locationRepository.locations, LocationId, id).value;
      if l.name != request.name || l.siteId != request.siteId {
        var taken := locationRepository.LocationExists(request.name, request.siteId);
        if taken {
          return Outcome(false, "Another location with this name already exists for the specified site");
        }
      }
      var updated := MapOnto(request, l);
      KeysUniqueReplace(locationRepository.locations, LocationNameAndSite, i, updated);
      var success := locationRepository.UpdateLocation(updated);
      if success.Success? && success.value {
        r := Outcome(true, "Location updated successfully");
      } else {
        r := Outcome(false, "Failed to update location");
      }
    }

    /** `DeleteLocationAsync`: success exactly when a location was removed, and then only that one. */
    method DeleteLocation(id: Guid) returns (r: Outcome)
      requires Valid()
      modifies locationRepository
      ensures Valid()
      ensures old(locationRepository.GetLocationById(id)).None? ==>
                r == Outcome(false, "Location not found") && locationRepository.locations == old(locationRepository.locations)
      ensures old(locationRepository.GetLocationById(id)).Some? ==>
                var i := IndexOf(old(locationRepository.locations), LocationId, id).value;
                && r == Outcome(true, "Location deleted successfully")
                && locationRepository.locations == old(locationRepository.locations)[..i] + old(locationRepository.locations)[i + 1..]
      ensures locationRepository.GetLocationById(id).None?
    {
      ghost var before := locationRepository.locations;
      var deleted := locationRepository.DeleteLocation(id);
      if deleted {
        KeysUniqueRemove(before, LocationNameAndSite, IndexOf(before, LocationId, id).value);
        r := Outcome(true, "Location deleted successfully");
      } else {
        r := Outcome(false, "Location not found");
      }
    }
  }

  /**
   * `UpdateLocationAsync` on the Locations table, with the duplicate-name
   * test run whenever the name or the site changes: the outcome and the new
   * table of LocationService.UpdateLocation.
   */
  function UpdateLocationCorrected(locations: seq<Location>, id: Guid, request: CreateLocationRequest): (result: (Outcome, seq<Location>))
    ensures IndexOf(locations, LocationId, id).None? ==>
              result == (Outcome(false, "Location not found"), locations)
    ensures IndexOf(locations, LocationId, id).Some? ==>
              var i := IndexOf(locations, LocationId, id).value;
              var moved := locations[i].name != request.name || locations[i].siteId != request.siteId;
              && (result.0.success <==> !(moved && Any(locations, LocationNameAndSite, (request.name, request.siteId))))
              && (result.0.success ==>
                    result == (Outcome(true, "Location updated successfully"), locations[i := MapOnto(request, locations[i])]))
              && (!result.0.success ==>
                    result == (Outcome(false, "Another location with this name already exists for the specified site"), locations))
  {
    match IndexOf(locations, LocationId, id)
    case None => (Outcome(false, "Location not found"), locations)
    case Some(i) =>
      if (locations[i].name != request.name || locations[i].siteId != request.siteId)
         && Any(locations, LocationNameAndSite, (request.name, request.siteId))
      then (Outcome(false, "Another location with this name already exists for the specified site"), locations)
      else (Outcome(true, "Location updated successfully"), locations[i := MapOnto(request, locations[i])])
  }

  /** The corrected update keeps the primary key and names unique within each site. */
  lemma CorrectedKeepsNames(locations: seq<Location>, id: Guid, request: CreateLocationRequest)
    requires KeysUnique(locations, LocationId) && NamesUniquePerSite(locations)
    ensures KeysUnique(UpdateLocationCorrected(locations, id, request).1, LocationId)
    ensures NamesUniquePerSite(UpdateLocationCorrected(locations, id, request).1)
  {
    match IndexOf(locations, LocationId, id)
    case None =>
    case Some(i) =>
      var updated := MapOnto(request, locations[i]);
      if UpdateLocationCorrected(locations, id, request).0.success {
        KeysUniqueReplace(locations, LocationId, i, updated);
        KeysUniqueReplace(locations, LocationNameAndSite, i, updated);
      }
  }

  /**
   * `UpdateLocationAsync` as written, on the Locations table: the duplicate
   * test runs only when the name changes, so moving a location to a site
   * that already has a location of that name is accepted.
   */
  function UpdateLocationAsWritten(locations: seq<Location>, id: Guid, request: CreateLocationRequest): (result: (Outcome, seq<Location>))
    ensures IndexOf(locations, LocationId, id).None? ==>
              result == (Outcome(false, "Location not found"), locations)
    ensures IndexOf(locations, LocationId, id).Some? ==>
              var i := IndexOf(locations, LocationId, id).value;
              if locations[i].name == request.name
              then result == (Outcome(true, "Location updated successfully"), locations[i := MapOnto(request, locations[i])])
              else result == UpdateLocationCorrected(locations, id, request)
  {
    match IndexOf(locations, LocationId, id)
    case None => (Outcome(false, "Location not found"), locations)
    case Some(i) =>
      if locations[i].name != request.name && Any(locations, LocationNameAndSite, (request.name, request.siteId))
      then (Outcome(false, "Another location with this name already exists for the specified site"), locations)
      else (Outcome(true, "Location updated successfully"), locations[i := MapOnto(request, locations[i])])
  }

  /** As written and corrected agree on every update that keeps the location on its site. */
  lemma AsWrittenAgreesOnSameSite(locations: seq<Location>, id: Guid, request: CreateLocationRequest)
    requires IndexOf(locations, LocationId, id).Some? ==>
               locations[IndexOf(locations, LocationId, id).value].siteId == request.siteId
    ensures UpdateLocationAsWritten(locations, id, request) == UpdateLocationCorrected(locations, id, request)
  {
  }

  /**
   * Two sites each with a location named "Store room": moving the first to
   * the second site keeps its name, so the test is skipped and the second
   * site ends up with two locations named "Store room".
   */
  lemma UpdateAsWrittenBreaksNames()
    ensures var locations := [Location(1, "Store room", 10, 100), Location(2, "Store room", 20, 100)];
            var after := UpdateLocationAsWritten(locations, 1, CreateLocationRequest("Store room", 20, 100));
            && NamesUniquePerSite(locations)
            && after.0.success
            && !NamesUniquePerSite(after.1)
  {
    var locations := [Location(1, "Store room", 10, 100), Location(2, "Store room", 20, 100)];
    var after := UpdateLocationAsWritten(locations, 1, CreateLocationRequest("Store room", 20, 100));
    assert IndexOf(locations, LocationId, 1) == Some(0);
    assert after.1[0].name == after.1[1].name && after.1[0].siteId == after.1[1].siteId;
  }
}
