/**
 * backend/MappingProfiles/CompanyProfile.cs: the two AutoMapper maps the
 * company operations use. The registration form maps onto the ten
 * business fields of a Company; Id and UserId are never taken from it.
 */
module CompanyProfile {
  import opened Wrappers
  import opened Entities

  /** `CompanyResponse`: the company as returned to its owner (the owner's id is not shown). */
  datatype CompanyResponse = CompanyResponse(
    id: Guid,
    companyName: string,
    country: string,
    state: string,
    city: string,
    zipCode: string,
    address: string,
    financialYearMonth: int,
    financialYearDay: int,
    currency: string,
    logoPath: Option<string>)

  /** The form a company's business fields would be submitted as: the inverse direction of the map. */
  function RequestOf(c: Company): CompanyRegistrationRequest
  {
    CompanyRegistrationRequest(c.companyName, c.country, c.state, c.city, c.zipCode, c.address,
                               c.financialYearMonth, c.financialYearDay, c.currency, c.logoPath)
  }

  /** `_mapper.Map(request, company)`: overwrite the ten mapped fields in place, keep Id and UserId. */
  function MapOnto(request: CompanyRegistrationRequest, c: Company): (d: Company)
    ensures d.id == c.id && d.userId == c.userId
    ensures RequestOf(d) == request
  {
    c.(companyName := request.companyName, country := request.country, state := request.state,
       city := request.city, zipCode := request.zipCode, address := request.address,
       financialYearMonth := request.financialYearMonth, financialYearDay := request.financialYearDay,
       currency := request.currency, logoPath := request.logoPath)
  }

  /**
   * `_mapper.Map<Company>(request)` followed by `company.UserId = userId`:
   * a new row whose Id is the Guid its initializer draws.
   */
  function NewCompany(request: CompanyRegistrationRequest, newId: Guid, userId: Guid): (c: Company)
    ensures c.id == newId && c.userId == userId
    ensures RequestOf(c) == request
  {
    Company(newId, request.companyName, request.country, request.state, request.city, request.zipCode,
            request.address, request.financialYearMonth, request.financialYearDay, request.currency,
            request.logoPath, userId)
  }

  /** The ten business fields a response shows, read back as a form. */
  function FormOf(r: CompanyResponse): CompanyRegistrationRequest
  {
    CompanyRegistrationRequest(r.companyName, r.country, r.state, r.city, r.zipCode, r.address,
                               r.financialYearMonth, r.financialYearDay, r.currency, r.logoPath)
  }

  /** `_mapper.Map<CompanyResponse>(company)`: Id and the ten business fields. */
  function ToResponse(c: Company): (r: CompanyResponse)
    ensures r.id == c.id
    ensures FormOf(r) == RequestOf(c)
  {
    CompanyResponse(c.id, c.companyName, c.country, c.state, c.city, c.zipCode, c.address,
                    c.financialYearMonth, c.financialYearDay, c.currency, c.logoPath)
  }

  /** A company is determined by its keys and its form: the map loses nothing it is given. */
  lemma CompanyFromParts(c: Company, d: Company)
    requires c.id == d.id && c.userId == d.userId && RequestOf(c) == RequestOf(d)
    ensures c == d
  {
  }

  /** Mapping a form onto a company twice is the same as once, and a later form wins. */
  lemma MapOntoOverwrites(first: CompanyRegistrationRequest, second: CompanyRegistrationRequest, c: Company)
    ensures MapOnto(second, MapOnto(first, c)) == MapOnto(second, c)
    ensures MapOnto(first, MapOnto(first, c)) == MapOnto(first, c)
  {
  }

  /** The response shows exactly what the form said, under the company's own id. */
  lemma ResponseOfMapped(request: CompanyRegistrationRequest, c: Company)
    ensures ToResponse(MapOnto(request, c)) == ToResponse(NewCompany(request, c.id, c.userId))
    ensures MapOnto(request, c) == NewCompany(request, c.id, c.userId)
  {
    CompanyFromParts(MapOnto(request, c), NewCompany(request, c.id, c.userId));
  }
}
