/**
 * backend/Services/CompanyService.cs: one company per user, created from
 * the registration form and edited in place through the same form.
 */
module CompanyService {
  import opened Wrappers
  import opened Entities
  import opened Linq
  import opened CompanyProfile
  import opened CompanyRepository

  class CompanyService {
    const companyRepository: CompanyRepository

    ghost predicate Valid()
      reads this, companyRepository
    {
      companyRepository.Valid()
    }

    constructor (companyRepository: CompanyRepository)
      ensures this.companyRepository == companyRepository
    {
      this.companyRepository := companyRepository;
    }

    /** `GetCompanyByUserIdAsync`: the user's company as a response, null iff the user has none. */
    method GetCompanyByUserId(userId: Guid) returns (r: Option<CompanyResponse>)
      ensures r.None? <==> !companyRepository.HasCompany(userId)
      ensures r.Some? ==> exists i :: 0 <= i < |companyRepository.companies|
                                      && companyRepository.companies[i].userId == userId
                                      && r.value == ToResponse(companyRepository.companies[i])
    {
      var company := companyRepository.GetCompanyByUserId(userId);
      if company.None? {
        return None;
      }
      r := Some(ToResponse(company.value));
    }

    /**
     * `CreateCompanyAsync`: a user who already owns a company gets the
     * InvalidOperationException "User already has a company" and nothing is
     * written; otherwise exactly one company, owned by the user and carrying
     * the form, is added. `newId` is the Guid the new row's initializer draws.
     */
    method CreateCompany(request: CompanyRegistrationRequest, userId: Guid, newId: Guid)
      returns (r: Result<CompanyResponse, string>)
      requires Valid()
      requires companyRepository.GetCompanyById(newId).None?  // Guid.NewGuid() does not collide
      modifies companyRepository
      ensures Valid()
      ensures old(companyRepository.HasCompany(userId)) ==>
                r == Failure("User already has a company") && companyRepository.companies == old(companyRepository.companies)
      ensures !old(companyRepository.HasCompany(userId)) ==>
                && r == Success(ToResponse(NewCompany(request, newId, userId)))
                && companyRepository.companies == old(companyRepository.companies) + [NewCompany(request, newId, userId)]
      ensures companyRepository.HasCompany(userId)
    {
      var hasCompany := companyRepository.HasCompany(userId);
      if hasCompany {
        return Failure("User already has a company");
      }
      var company := NewCompany(request, newId, userId);
      var created := companyRepository.CreateCompany(company);
      assert companyRepository.companies[|companyRepository.companies| - 1] == company;
      r := Success(ToResponse(created.value));
    }

    /**
     * `UpdateCompanyAsync`: null and no write when the user has no company;
     * otherwise the form overwrites the mapped fields of the user's company,
     * which keeps its id and owner, and the result shows the stored row.
     */
    method UpdateCompany(request: CompanyRegistrationRequest, userId: Guid) returns (r: Option<CompanyResponse>)
      requires Valid()
      modifies companyRepository
      ensures Valid()
      ensures !old(companyRepository.HasCompany(userId)) ==>
                r == None && companyRepository.companies == old(companyRepository.companies)
      ensures old(companyRepository.HasCompany(userId)) ==>
                var i := IndexOf(old(companyRepository.companies), CompanyUserId, userId).value;
                var updated := MapOnto(request, old(companyRepository.companies)[i]);
                && companyRepository.companies == old(companyRepository.companies)[i := updated]
                && r == Some(ToResponse(updated))
                && companyRepository.GetCompanyByUserId(userId) == Some(updated)
    {
      var existing := companyRepository.GetCompanyByUserId(userId);
      if existing.None? {
        return None;
      }
      ghost var i := IndexOf(companyRepository.companies, CompanyUserId, userId).value;
      FirstOrDefaultUnique(companyRepository.companies, CompanyId, i);
      var company := MapOnto(request, existing.value);
      var updated := companyRepository.UpdateCompany(company);
      FirstOrDefaultUnique(companyRepository.companies, CompanyUserId, i);
      r := Some(ToResponse(updated.value));
    }

    /** `UserHasCompanyAsync`: the repository's ownership test. */
    method UserHasCompany(userId: Guid) returns (has: bool)
      ensures has <==> exists i :: 0 <= i < |companyRepository.companies| && companyRepository.companies[i].userId == userId
    {
      has := companyRepository.HasCompany(userId);
    }
  }
}
