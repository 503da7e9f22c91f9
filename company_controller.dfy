/**
 * backend/Controllers/CompanyController.cs: the signed-in user's company,
 * read, created and edited directly through the CompanyRepository. The
 * signed-in user's id is a parameter (None when the request has no usable
 * NameIdentifier claim).
 */
module CompanyController {
  import opened Wrappers
  import opened Entities
  import opened Linq
  import opened CompanyProfile
  import opened CompanyRepository

  /** The HTTP results of the three actions; Created is `CreatedAtAction(GetCompany, ...)`. */
  datatype CompanyResult =
    | Unauthorized
    | NotFound(message: string)
    | BadRequest(message: string)
    | Ok(company: CompanyResponse)
    | Created(company: CompanyResponse)

  class CompanyController {
    const companyRepository: CompanyRepository

    ghost predicate Valid()
      reads this, companyRepository
    {
      companyRepository.Valid()
    }

    constructor (companyRepository: CompanyRepository)
      ensures this.companyRepository == companyRepository
    {
      this.companyRepository := companyRepository;
    }

    /** `GetCompany`: 401 without a user, 404 "Company not found" when the user owns none, else that company. */
    method GetCompany(currentUserId: Option<Guid>) returns (r: CompanyResult)
      ensures currentUserId.None? <==> r == Unauthorized
      ensures currentUserId.Some? && !companyRepository.HasCompany(currentUserId.value) ==> r == NotFound("Company not found")
      ensures currentUserId.Some? && companyRepository.HasCompany(currentUserId.value) ==>
                exists i :: 0 <= i < |companyRepository.companies|
                            && companyRepository.companies[i].userId == currentUserId.value
                            && r == Ok(ToResponse(companyRepository.companies[i]))
    {
      if currentUserId.None? {
        return Unauthorized;
      }
      var company := companyRepository.GetCompanyByUserId(currentUserId.value);
      if company.None? {
        return NotFound("Company not found");
      }
      r := Ok(ToResponse(company.value));
    }

    /**
     * `CreateCompany`: 401 without a user; "User already has a company" and no
     * write when the user owns one; otherwise the new company, owned by the
     * current user, is added and returned.
     */
    method CreateCompany(currentUserId: Option<Guid>, request: CompanyRegistrationRequest, newId: Guid)
      returns (r: CompanyResult)
      requires Valid()
      requires companyRepository.GetCompanyById(newId).None?  // Guid.NewGuid() does not collide
      modifies companyRepository
      ensures Valid()
      ensures currentUserId.None? ==> r == Unauthorized && companyRepository.companies == old(companyRepository.companies)
      ensures currentUserId.Some? && old(companyRepository.HasCompany(currentUserId.value)) ==>
                r == BadRequest("User already has a company") && companyRepository.companies == old(companyRepository.companies)
      ensures currentUserId.Some? && !old(companyRepository.HasCompany(currentUserId.value)) ==>
                && companyRepository.companies == old(companyRepository.companies) + [NewCompany(request, newId, currentUserId.value)]
                && r == Created(ToResponse(NewCompany(request, newId, currentUserId.value)))
    {
      if currentUserId.None? {
        return Unauthorized;
      }
      var hasCompany := companyRepository.HasCompany(currentUserId.value);
      if hasCompany {
        return BadRequest("User already has a company");
      }
      var company := NewCompany(request, newId, currentUserId.value);
      var created := companyRepository.CreateCompany(company);
      r := Created(ToResponse(created.value));
    }

    /**
     * `UpdateCompany`: 401 without a user; 404 "Company not found" and no write
     * when the user owns none; otherwise the form overwrites the mapped fields
     * of the user's company. The repository never returns null, so the
     * "Failed to update company" answer cannot occur.
     */
    method UpdateCompany(currentUserId: Option<Guid>, request: CompanyRegistrationRequest) returns (r: CompanyResult)
      requires Valid()
      modifies companyRepository
      ensures Valid()
      ensures currentUserId.None? ==> r == Unauthorized && companyRepository.companies == old(companyRepository.companies)
      ensures currentUserId.Some? && !old(companyRepository.HasCompany(currentUserId.value)) ==>
                r == NotFound("Company not found") && companyRepository.companies == old(companyRepository.companies)
      ensures currentUserId.Some? && old(companyRepository.HasCompany(currentUserId.value)) ==>
                var i := IndexOf(old(companyRepository.companies), CompanyUserId, currentUserId.value).value;
                var updated := MapOnto(request, old(companyRepository.companies)[i]);
                companyRepository.companies == old(companyRepository.companies)[i := updated] && r == Ok(ToResponse(updated))
    {
      if currentUserId.None? {
        return Unauthorized;
      }
      var existing := companyRepository.GetCompanyByUserId(currentUserId.value);
      if existing.None? {
        return NotFound("Company not found");
      }
      ghost var i := IndexOf(companyRepository.companies, CompanyUserId, currentUserId.value).value;
      FirstOrDefaultUnique(companyRepository.companies, CompanyId, i);
      var company := MapOnto(request, existing.value);
      var updated := companyRepository.UpdateCompany(company);
      r := Ok(ToResponse(updated.value));
    }
  }
}
