/**
 * The persisted entities (backend/Models) and the request records the core
 * receives (backend/DTOs), reduced to the fields the rules read or write.
 * Timestamps and navigation properties are not modelled.
 */
module Entities {
  import opened Wrappers

  /** A `System.Guid`; only equality and freshness matter, so a natural number stands for it. */
  type Guid = nat

  newtype byte = x: int | 0 <= x < 256

  /** The exceptions `SaveChangesAsync` raises when a write would break a database constraint. */
  datatype DbError =
    | DuplicateKey          // an added row reuses an existing primary key
    | UniqueIndexViolation  // an added or updated row breaks a unique index
    | ConcurrencyConflict   // an updated or removed row is no longer in the table

  datatype User = User(
    id: Guid,
    email: string,
    firstName: string,
    lastName: string,
    passwordHash: seq<byte>,
    passwordSalt: seq<byte>,
    role: string,
    emailConfirmed: bool)

  /** The initial value of `User.Role`. */
  const DefaultRole: string := "User"

  datatype Company = Company(
    id: Guid,
    companyName: string,
    country: string,
    state: string,
    city: string,
    zipCode: string,
    address: string,
    financialYearMonth: int,
    financialYearDay: int,
    currency: string,
    logoPath: Option<string>,
    userId: Guid)

  datatype Site = Site(
    id: Guid,
    companyId: Guid,
    name: string,
    description: string,
    address: string,
    countryId: int,
    stateId: int,
    cityId: int,
    zipCode: string)

  datatype Location = Location(id: Guid, name: string, siteId: Guid, companyId: Guid)

  datatype Country = Country(id: int, name: string, iso3: string, iso2: string)

  datatype State = State(id: int, name: string, countryId: int)

  datatype City = City(id: int, name: string, stateId: int)

  datatype RegisterRequest = RegisterRequest(email: string, firstName: string, lastName: string, password: string)

  datatype LoginRequest = LoginRequest(email: string, password: string)

  datatype UpdateProfileRequest = UpdateProfileRequest(firstName: string, lastName: string, email: string)

  datatype CompanyRegistrationRequest = CompanyRegistrationRequest(
    companyName: string,
    country: string,
    state: string,
    city: string,
    zipCode: string,
    address: string,
    financialYearMonth: int,
    financialYearDay: int,
    currency: string,
    logoPath: Option<string>)

  datatype CreateLocationRequest = CreateLocationRequest(name: string, siteId: Guid, companyId: Guid)

  // Key accessors the queries select by.

  function UserId(u: User): Guid { u.id }
  function UserEmail(u: User): string { u.email }
  function CompanyId(c: Company): Guid { c.id }
  function CompanyUserId(c: Company): Guid { c.userId }
  function SiteId(s: Site): Guid { s.id }
  function LocationId(l: Location): Guid { l.id }
  function LocationSiteId(l: Location): Guid { l.siteId }
  function LocationCompanyId(l: Location): Guid { l.companyId }
  function LocationNameAndSite(l: Location): (string, Guid) { (l.name, l.siteId) }
  function StateCountryId(s: State): int { s.countryId }
  function CityStateId(c: City): int { c.stateId }
}
