# Asset management backend: accounts, companies, sites and locations

A Dafny model of the rules in the ASP.NET Core backend of the asset
management platform. It covers:

- **The user account lifecycle.** Registration with a hashed and salted
  password. Login. E-mail confirmation. The confirmation token, the base 64
  text of a new Guid. Editing the signed-in user's own profile.
- **Companies.** One company per user. It is created from the registration
  form, and the same form later overwrites its fields.
- **Sites.** The Sites table and its paged listing.
- **Locations inside sites.** Creation behind an ordered chain of guards, and
  a name that is unique within its site.
- **The geography lists.** The read-only country, state and city lists behind
  the address forms.

Each repository is a class whose table is a `seq` field in store order.
`Valid()` states the constraints the database keeps on that table: the
primary key, the unique index on `Users.Email`, and the unique `Companies.UserId`
that comes from the one-to-one Company to User mapping. A write that would
break a constraint makes `SaveChanges` throw. The model returns that as a
`Failure(DbError)`. The services and controllers are classes that hold their
repositories as `const` fields. Their methods state every outcome: the
message or HTTP result, and the new table.

Entity Framework queries (`FirstOrDefault`, `Any`, `Where`) are generic
functions in module `Linq`. They are keyed by named accessor functions.

Things outside the program are parameters:

- the HMAC-SHA512 of RFC 2104 is an uninterpreted keyed function `Mac`;
- the random HMAC key, the random Guids and the Guid generated for a new row
  are arguments (a new row's Guid is required not to collide);
- the e-mail sender's outcome is a boolean;
- the JWT issuer is a function from users to strings;
- the signed-in user's id is an `Option<Guid>`.

Behaviour of the code that the model keeps:

- `IAuthService` declares `RefreshTokenAsync` and `RevokeRefreshTokenAsync`.
  `AuthService` implements neither, and there is no external (OAuth) login.
- `AuthService.LoginAsync` returns no has-a-company flag. `AuthController`,
  which is not modelled, adds it.
- `ConfirmEmail` never inspects its token argument.
- Login does not require a confirmed e-mail.
- Users can be deleted (`DeleteUserAsync`).
- The answers "Failed to update profile", "Failed to update company" and
  "Failed to update location" cannot occur. `SaveChanges` after `Update` of a
  row that exists always reports a written row. The model proves those
  branches dead: `SaveProfile`, `CompanyController.UpdateCompany` and
  `LocationService.UpdateLocation` answer success whenever their guards pass.

## Model

| member | source | states |
|---|---|---|
| Linq.IndexOf | backend/Repositories/AuthRepository.cs:24-27 | the position of the first row with the key, none iff no row has it |
| Linq.FirstOrDefault | backend/Repositories/AuthRepository.cs:24-27 | a stored row carrying the key, null iff no row carries it |
| Linq.Any | backend/Repositories/AuthRepository.cs:57-60 | true exactly when the scan for the key finds a row, i.e. when the lookup is not null |
| Linq.Where | backend/Repositories/LocationRepository.cs:36-43 | only matching rows, every matching row, never longer than the input |
| Linq.WhereAppend | backend/Repositories/LocationRepository.cs:36-43 | filtering distributes over concatenation, so the rows keep their store order |
| Linq.WhereCount | backend/Repositories/LocationRepository.cs:45-52 | each row occurs in the result exactly as often as it is stored if it matches, otherwise not at all |
| Linq.WhereCounts | backend/Repositories/LocationRepository.cs:36-52 | for every row at once: a filter keeps each matching row with its full multiplicity and drops every other row |
| Linq.KeysUniqueAppend | backend/Data/ApplicationDbContext.cs:21-23 | appending a row whose key is unused keeps the key unique |
| Linq.FirstOrDefaultUnique | backend/Data/ApplicationDbContext.cs:21-23 | under a unique key the lookup finds exactly the row that carries it |
| Linq.KeysUniqueReplace | backend/Data/ApplicationDbContext.cs:21-23 | replacing a row by one with its own key or an unused key keeps the key unique |
| Linq.KeysUniqueRemove | backend/Repositories/AuthRepository.cs:47-55 | removing a row keeps keys unique and leaves no row with the removed key |
| Base64.Encode | backend/Repositories/AuthRepository.cs:126 | the text is 4 characters per started group of 3 bytes (section 4 of RFC 4648) |
| Base64.RoundTrip | backend/Repositories/AuthRepository.cs:126 | decoding the encoding gives back exactly the bytes encoded |
| Base64.SixteenBytes | backend/Repositories/AuthRepository.cs:126 | the 16 bytes of a Guid encode to 24 characters that decode back to those bytes |
| AuthRepository.PasswordRoundTrip | backend/Repositories/AuthRepository.cs:130-146 | a stored hash verifies its own password, and another password iff the MAC agrees on it |
| AuthRepository.CreatePasswordHash | backend/Repositories/AuthRepository.cs:130-137 | the salt is the fresh HMAC key and the hash is the MAC of the password under that salt |
| AuthRepository.VerifyPasswordHash | backend/Repositories/AuthRepository.cs:139-146 | a password verifies iff hashing it under the stored salt gives the stored hash and salt |
| AuthRepository.NewUser | backend/Repositories/AuthRepository.cs:64-75 | the registered user has the fresh id, the form's email and names, a hash that verifies the form's password, the default role and an unconfirmed email |
| AuthRepository.AuthRepository.GetUserByEmail | backend/Repositories/AuthRepository.cs:24-27 | a user with exactly that email, null iff none has it |
| AuthRepository.AuthRepository.GetUserById | backend/Repositories/AuthRepository.cs:29-32 | the user with that id, null iff none has it |
| AuthRepository.AuthRepository.UserExists | backend/Repositories/AuthRepository.cs:57-60 | true iff some user has exactly that email |
| AuthRepository.AuthRepository.CreateUser | backend/Repositories/AuthRepository.cs:34-39 | the row is appended, or a reused id / taken email is refused with the table unchanged |
| AuthRepository.AuthRepository.UpdateUser | backend/Repositories/AuthRepository.cs:41-45 | the row is replaced; an unknown id or an email another user has is refused with no change; keys stay unique |
| AuthRepository.AuthRepository.DeleteUser | backend/Repositories/AuthRepository.cs:47-55 | false and no change for an unknown id, otherwise exactly that row is removed and the id is gone |
| AuthRepository.AuthRepository.Register | backend/Repositories/AuthRepository.cs:62-81 | exactly one unconfirmed user with the fresh id, the request's email and names, the hashed password and role "User" is appended, and that email and password then log in |
| AuthRepository.AuthRepository.Login | backend/Repositories/AuthRepository.cs:83-97 | a user is returned iff some user has exactly that email and the password verifies against its hash and salt |
| AuthRepository.AuthRepository.ConfirmEmail | backend/Repositories/AuthRepository.cs:99-116 | three outcomes: "User not found" and "Email already confirmed" change nothing; otherwise only that user's EmailConfirmed becomes true; the token is never read |
| AuthRepository.AuthRepository.GenerateEmailConfirmationToken | backend/Repositories/AuthRepository.cs:118-128 | fails with "User not found" iff the user is unknown; otherwise the token is exactly the base 64 encoding of the 16 Guid bytes, 24 characters that decode back to them |
| AuthService.AuthService.RegisterAsync | backend/Services/AuthService.cs:34-58 | a taken email gives "Email already exists" with no write; otherwise the user is inserted and stays even when the e-mail fails (success false), and afterwards the email exists and logs in |
| AuthService.AuthService.LoginAsync | backend/Services/AuthService.cs:60-70 | success iff some user with that email verifies the password; every failure is the same "Invalid email or password"; success carries that user and its token |
| AuthService.AuthService.GetUserByIdAsync | backend/Services/AuthService.cs:72-75 | the user with that id, null iff none |
| AuthService.AuthService.UserExists | backend/Services/AuthService.cs:92-95 | true iff some user has that email |
| AuthService.AuthService.UpdateUserAsync | backend/Services/AuthService.cs:97-100 | the repository's update outcomes |
| AuthService.AuthService.ConfirmEmailAsync | backend/Services/AuthService.cs:87-90 | exactly the repository's three ConfirmEmail outcomes |
| ProfileController.ToProfile | backend/Controllers/ProfileController.cs:49 | the profile shows the user's id, names, email, role and confirmation flag |
| ProfileController.EditProfile | backend/Controllers/ProfileController.cs:77-89 | names overwritten; a different email replaces the old one and clears the confirmation, the same email keeps it; id, role and credentials kept |
| ProfileController.EditKeepsPassword | backend/Controllers/ProfileController.cs:77-89 | an edited profile verifies exactly the passwords it verified before |
| ProfileController.EditIdempotent | backend/Controllers/ProfileController.cs:77-89 | submitting the same form twice gives the same user as once |
| ProfileController.EmailsAfterEdit | backend/Controllers/ProfileController.cs:81-91 | after the edit the new email finds the edited user and a replaced email is no longer used |
| ProfileController.ProfileController.GetProfile | backend/Controllers/ProfileController.cs:32-57 | no user id gives Unauthorized, an unknown id NotFound, otherwise the stored user's profile |
| ProfileController.ProfileController.UpdateProfile | backend/Controllers/ProfileController.cs:59-106 | Unauthorized, NotFound and "Email is already taken" write nothing; otherwise the edited user replaces the row, emails stay unique and the new profile is returned |
| ProfileController.ProfileController.SaveProfile | backend/Controllers/ProfileController.cs:91-99 | the edited user replaces exactly its own row, the new email finds it, a replaced email is gone, and the response is its profile |
| CompanyProfile.MapOnto | backend/MappingProfiles/CompanyProfile.cs:11-21 | the form's ten fields are copied; Id and UserId are kept |
| CompanyProfile.NewCompany | backend/Services/CompanyService.cs:41-42 | the new company carries the form, the drawn id and the caller's UserId |
| CompanyProfile.ToResponse | backend/MappingProfiles/CompanyProfile.cs:23-33 | the response has the company's id and shows exactly its ten business fields, read back as the same form as the company's |
| CompanyProfile.CompanyFromParts | backend/MappingProfiles/CompanyProfile.cs:11-21 | a company is determined by its Id, its UserId and its mapped fields |
| CompanyProfile.MapOntoOverwrites | backend/MappingProfiles/CompanyProfile.cs:11-21 | mapping is idempotent and the later form wins |
| CompanyProfile.ResponseOfMapped | backend/Services/CompanyService.cs:56-58 | an updated company equals a new company with the same keys and form |
| CompanyRepository.CompanyRepository.GetCompanyByUserId | backend/Repositories/CompanyRepository.cs:19-23 | a company owned by the user, null iff the user owns none |
| CompanyRepository.CompanyRepository.HasCompany | backend/Repositories/CompanyRepository.cs:25-29 | true iff some company is owned by the user |
| CompanyRepository.CompanyRepository.GetCompanyById | backend/Repositories/ICompanyRepository.cs:11 | the company with that id, null iff none |
| CompanyRepository.CompanyRepository.CreateCompany | backend/Repositories/CompanyRepository.cs:31-36 | exactly the given company is appended and returned, or a reused id / second company for the user is refused with no change |
| CompanyRepository.CompanyRepository.UpdateCompany | backend/Repositories/CompanyRepository.cs:38-43 | the row is replaced and the given company returned; an unknown id or another user's UserId is refused with no change |
| CompanyRepository.OneCompanyPerUser | backend/Data/ApplicationDbContext.cs:25-28 | in a valid table a user owns at most one company, the one the lookup finds |
| CompanyService.CompanyService.GetCompanyByUserId | backend/Services/CompanyService.cs:27-31 | null iff the user has no company, otherwise the response of the user's company |
| CompanyService.CompanyService.CreateCompany | backend/Services/CompanyService.cs:33-46 | "User already has a company" with no write, or exactly one company owned by the user is added; afterwards the user has a company |
| CompanyService.CompanyService.UpdateCompany | backend/Services/CompanyService.cs:48-59 | null with no write when the user has no company; otherwise only the mapped fields of the user's company change |
| CompanyService.CompanyService.UserHasCompany | backend/Services/CompanyService.cs:61-64 | true iff the user owns a company |
| CompanyController.CompanyController.GetCompany | backend/Controllers/CompanyController.cs:32-48 | Unauthorized iff no user id; NotFound "Company not found"; otherwise the user's company |
| CompanyController.CompanyController.CreateCompany | backend/Controllers/CompanyController.cs:50-70 | Unauthorized or "User already has a company" write nothing; otherwise one company owned by the current user is added and returned as Created |
| CompanyController.CompanyController.UpdateCompany | backend/Controllers/CompanyController.cs:72-96 | Unauthorized or "Company not found" write nothing; otherwise the mapped fields of the user's company are overwritten |
| SiteRepository.Wrap32 | backend/Repositories/SiteRepository.cs:31 | unchecked 32-bit int arithmetic: in range, equal to the value modulo 2^32 |
| SiteRepository.TotalPages | backend/Repositories/SiteRepository.cs:28 | the least page count whose pages hold all rows; zero iff there are no rows |
| SiteRepository.Offset | backend/Repositories/SiteRepository.cs:31 | the first row of a page: never negative for a page number of at least 1, negative for a page number below 1 |
| SiteRepository.Page | backend/Repositories/SiteRepository.cs:30-33 | Skip/Take: at most `size` rows, the rows from the offset on, empty past the end |
| SiteRepository.Paginate | backend/Repositories/SiteRepository.cs:23-43 | fails iff the count exceeds int, the page number is below 1 or the page size below 1; count, page number and size echoed; ceiling page count; a page past the last is empty |
| SiteRepository.PageBeyondEnd | backend/Repositories/SiteRepository.cs:28-33 | a page numbered past the last starts at or after the last row |
| SiteRepository.PagesArePrefix | backend/Repositories/SiteRepository.cs:30-33 | pages 1 to k together are the first k times PageSize rows |
| SiteRepository.PagesCoverAll | backend/Repositories/SiteRepository.cs:28-33 | pages 1 to TotalPages cover every site exactly once, in order |
| SiteRepository.PageIsSlice | backend/Repositories/SiteRepository.cs:30-33 | item i is the row at Offset(PageNumber, PageSize) + i, which is a real row |
| SiteRepository.PageItemsAreRows | backend/Repositories/SiteRepository.cs:30-33 | every item is a stored row |
| SiteRepository.PaginateAsWritten | backend/Repositories/SiteRepository.cs:23-43 | the code as written, with the offset wrapped to 32 bits; when it answers, the count is the table size and the page holds at most PageSize items |
| SiteRepository.WrapExact | backend/Repositories/SiteRepository.cs:31 | when the exact offset fits in `int`, the 32-bit computation gives that offset |
| SiteRepository.AsWrittenAgrees | backend/Repositories/SiteRepository.cs:23-43 | for a valid request whose offset fits in `int`, the code as written returns the same page as the exact version |
| SiteRepository.OffsetOverflow | backend/Repositories/SiteRepository.cs:31 | page 65538 of size 65536 must be empty but, as written, returns rows from row 65536 |
| SiteRepository.SiteRepository.GetPaginated | backend/Repositories/SiteRepository.cs:23-43 | the count is the table size and every item is a stored site |
| SiteRepository.SiteRepository.GetSiteById | backend/Repositories/SiteRepository.cs:45-48 | the site with that id, null iff none |
| SiteRepository.SiteRepository.Add | backend/Repositories/SiteRepository.cs:50-55 | exactly the given site is appended, or a reused id is refused with no change |
| SiteRepository.SiteRepository.Update | backend/Repositories/SiteRepository.cs:57-61 | the row with the site's id is replaced, or an unknown id is refused with no change |
| SiteRepository.SiteRepository.Delete | backend/Repositories/SiteRepository.cs:63-67 | exactly the row with the site's id is removed, or an unknown id is refused with no change; the id is gone |
| LocationRepository.LocationRepository.GetLocationById | backend/Repositories/LocationRepository.cs:20-26 | the location with that id, null iff none |
| LocationRepository.LocationRepository.GetLocationsBySiteId | backend/Repositories/LocationRepository.cs:36-43 | exactly the site's locations, each as often as stored |
| LocationRepository.LocationRepository.GetLocationsByCompanyId | backend/Repositories/LocationRepository.cs:45-52 | exactly the company's locations, each as often as stored |
| LocationRepository.LocationRepository.LocationExists | backend/Repositories/LocationRepository.cs:79-82 | true iff some location has exactly that name and that site |
| LocationRepository.LocationRepository.CreateLocation | backend/Repositories/LocationRepository.cs:54-59 | exactly the given location is appended and returned, or a reused id is refused with no change |
| LocationRepository.LocationRepository.UpdateLocation | backend/Repositories/LocationRepository.cs:61-65 | the row with the location's id is replaced, or an unknown id is refused with no change |
| LocationRepository.LocationRepository.DeleteLocation | backend/Repositories/LocationRepository.cs:67-76 | false and no change for an unknown id, otherwise exactly that row is removed |
| LocationService.MapOnto | backend/Services/LocationService.cs:115 | name, site and company come from the form; the id is kept |
| LocationService.LocationService.GetLocationById | backend/Services/LocationService.cs:34-42 | "Location not found" iff the id is unknown; a stored id gives success, "Location retrieved successfully" and that stored location |
| LocationService.LocationService.GetAllLocations | backend/Services/LocationService.cs:44-48 | always successful, every stored location |
| LocationService.LocationService.GetLocationsBySiteId | backend/Services/LocationService.cs:50-54 | always successful, exactly the site's locations |
| LocationService.LocationService.GetLocationsByCompanyId | backend/Services/LocationService.cs:56-60 | always successful, exactly the company's locations |
| LocationService.LocationService.CreateLocation | backend/Services/LocationService.cs:62-96 | guards in the order site, company, ownership, duplicate name; the first failing one decides the message and nothing is written; otherwise exactly one location with the form is added and names stay unique per site |
| LocationService.LocationService.UpdateLocation | backend/Services/LocationService.cs:98-127 | "Location not found" with no change; a name taken on the target site is refused when the name or the site changes; otherwise the form overwrites only that location; outcome and table are those of UpdateLocationCorrected, so names stay unique per site |
| LocationService.LocationService.DeleteLocation | backend/Services/LocationService.cs:129-143 | success iff a location was removed, and then only that one |
| LocationService.UpdateLocationAsWritten | backend/Services/LocationService.cs:98-127 | the update as written: an unknown id is "Location not found"; a kept name is always written, even onto a site that has that name; a changed name behaves as the corrected update |
| LocationService.UpdateLocationCorrected | backend/Services/LocationService.cs:98-127 | the update with the duplicate test run when the name or the site changes: success iff the id is stored and the moved location's name is free on the target site, and then only that row is overwritten by the form |
| LocationService.CorrectedKeepsNames | backend/Services/LocationService.cs:98-127 | the corrected update keeps ids unique and names unique within each site |
| LocationService.AsWrittenAgreesOnSameSite | backend/Services/LocationService.cs:109 | as written and corrected give the same outcome and table whenever the location stays on its site |
| LocationService.UpdateAsWrittenBreaksNames | backend/Services/LocationService.cs:109 | moving a location to a site that has its name succeeds as written and leaves two equal names on one site |
| LocationDataService.LocationDataService.GetCountries | backend/Services/LocationDataService.cs:20 | the loaded list, every country in load order |
| LocationDataService.LocationDataService.GetStatesByCountry | backend/Services/LocationDataService.cs:21 | exactly the states of that country, each as often as loaded; empty for an unknown id |
| LocationDataService.LocationDataService.GetCitiesByState | backend/Services/LocationDataService.cs:22 | exactly the cities of that state, each as often as loaded; empty for an unknown id |
| LocationDataService.StatesInLoadOrder | backend/Services/LocationDataService.cs:21 | the state filter keeps load order |
| LocationDataService.CitiesInLoadOrder | backend/Services/LocationDataService.cs:22 | the city filter keeps load order |

## Left out

- Cryptography: HMAC-SHA512 is an uninterpreted function of key and password. The password's UTF-8 encoding is folded into it. Key generation and `Guid.NewGuid` are arguments.
- JWT signing and expiry (`JwtService`) are a function parameter. SMTP delivery (`EmailService`) is its boolean outcome. The claim lookup behind `GetCurrentUserId` is the optional user id passed in.
- Timestamps (`CreatedAt`, `UpdatedAt`), logging, and the `async`/`Task` plumbing are not modelled.
- Navigation data is not modelled. `Include(...)` loads it, and `LocationResponse` carries the site and company names from it. Location results carry the stored row instead.
- Foreign keys (Site to Company, Location to Site and Company) and cascading deletes are not modelled. A location update may name any site. The source checks neither the site's existence nor its owner there, and the model follows it.
- SQL Server's default collation compares `Email` and `Name` case-insensitively. The model compares strings exactly.
- Concurrent requests, and the check-then-write races they allow, are not modelled. Every operation runs alone. The constraints are invariants of one store.
- Exceptions from `SaveChanges` are `DbError` outcomes. A controller that would answer 500 for them answers `ServerError`.
- The C# `void UpdateUser` of `AuthRepository`, the synchronous twin of `UpdateUserAsync`, has the same effect and is not modelled separately. The Dafny member `AuthRepository.AuthRepository.UpdateUser` models `UpdateUserAsync`.
- `SiteRepository.GetAllAsync` returns the table as it stands. It has no rule beyond that, so it is not modelled.
- `GetCurrentUserId`: Guid parsing of the claim is not modelled.
- `PaginationParameters` and `PaginatedResponse<T>` are not part of this model's source files. Their fields are taken as C# `int`.
- SiteRepository.Paginate: a page size below 1 or a page number below 1 is modelled as a failed query (SQL Server rejects a negative OFFSET and an empty FETCH). The page count computed through `double` is taken as the exact ceiling. No quotient of two `int` values rounds across an integer, so the two agree.
- Row order: no query has an `ORDER BY`. Store order, the order of the `seq`, stands for the order the database returns.
- Refresh tokens and external login are declared in the interfaces but implemented nowhere, so they are not modelled.
- The `ApplicationDbContext` shown declares no `Locations` set. The model treats Locations as a table like the others.
- `ICompanyRepository.GetCompanyByIdAsync` has no implementation in `CompanyRepository`. It is modelled as a plain lookup by id.

## Findings

| source | as written | input that shows it | evidently intended | confidence | as-written member | corrected member |
|---|---|---|---|---|---|---|
| backend/Repositories/SiteRepository.cs:31 | the offset `(PageNumber - 1) * PageSize` is computed in 32-bit `int` and wraps | PageNumber 65538, PageSize 65536, more than 65536 sites: the offset wraps to 65536 and the page returns rows from there, though it lies past the last page | the offset is the exact product, so a page past the last is empty | not executed | SiteRepository.PaginateAsWritten, SiteRepository.OffsetOverflow | SiteRepository.Paginate |
| backend/Services/LocationService.cs:109 | the duplicate-name test runs only when the name changes | two sites each with a location "Store room"; update the first with the same name and the second site's id: accepted, and that site then holds two "Store room" locations | the test also runs when the site changes, so names stay unique per site | not executed | LocationService.UpdateLocationAsWritten, LocationService.UpdateAsWrittenBreaksNames | LocationService.LocationService.UpdateLocation, LocationService.UpdateLocationCorrected |
