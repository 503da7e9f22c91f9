/**
 * backend/Repositories/CompanyRepository.cs: the Companies table. The
 * one-to-one relation Company -> User (backend/Data/ApplicationDbContext.cs)
 * puts a unique index on UserId, so the table keeps at most one company per user.
 */
module CompanyRepository {
  import opened Wrappers
  import opened Entities
  import opened Linq

  /** The constraints the database keeps on Companies: the primary key and the unique index on UserId. */
  ghost predicate CompaniesValid(companies: seq<Company>)
  {
    KeysUnique(companies, CompanyId) && KeysUnique(companies, CompanyUserId)
  }

  class CompanyRepository {
    var companies: seq<Company>

    ghost predicate Valid()
      reads this
    {
      CompaniesValid(companies)
    }

    constructor ()
      ensures Valid() && companies == []
    {
      companies := [];
    }

    /** `GetCompanyByUserIdAsync`: the company owned by that user, or null. */
    function GetCompanyByUserId(userId: Guid): (r: Option<Company>)
      reads this
      ensures r.Some? ==> r.value in companies && r.value.userId == userId
      ensures r.None? <==> forall i :: 0 <= i < |companies| ==> companies[i].userId != userId
    {
      FirstOrDefault(companies, CompanyUserId, userId)
    }

    /** `HasCompanyAsync`: some company is owned by that user. */
    predicate HasCompany(userId: Guid)
      reads this
      ensures HasCompany(userId) <==> exists i :: 0 <= i < |companies| && companies[i].userId == userId
      ensures HasCompany(userId) <==> GetCompanyByUserId(userId).Some?
    {
      Any(companies, CompanyUserId, userId)
    }

    /**
     * The lookup by primary key that `ICompanyRepository` declares and
     * LocationService calls; the class in the repository does not define
     * it, so it is modelled as a plain lookup.
     */
    function GetCompanyById(id: Guid): (r: Option<Company>)
      reads this
      ensures r.Some? ==> r.value in companies && r.value.id == id
      ensures r.None? <==> forall i :: 0 <= i < |companies| ==> companies[i].id != id
    {
      FirstOrDefault(companies, CompanyId, id)
    }

    /** `CreateCompanyAsync`: insert the given row and return it; the database rejects a reused id or a second company for the user. */
    method CreateCompany(company: Company) returns (r: Result<Company, DbError>)
      requires Valid()
      modifies this
      ensures Valid()
      ensures old(GetCompanyById(company.id)).Some? ==> r == Failure(DuplicateKey) && companies == old(companies)
      ensures old(GetCompanyById(company.id)).None? && old(HasCompany(company.userId)) ==>
                r == Failure(UniqueIndexViolation) && companies == old(companies)
      ensures old(GetCompanyById(company.id)).None? && !old(HasCompany(company.userId)) ==>
                r == Success(company) && companies == old(companies) + [company]
    {
      if Any(companies, CompanyId, company.id) {
        r := Failure(DuplicateKey);
      } else if Any(companies, CompanyUserId, company.userId) {
        r := Failure(UniqueIndexViolation);
      } else {
        KeysUniqueAppend(companies, CompanyId, company);
        KeysUniqueAppend(companies, CompanyUserId, company);
        companies := companies + [company];
        r := Success(company);
      }
    }

    /**
     * `UpdateCompanyAsync`: overwrite the row with the company's id and
     * return the company given; an id no longer stored, or a UserId another
     * company owns, makes SaveChanges throw.
     */
    method UpdateCompany(company: Company) returns (r: Result<Company, DbError>)
      requires Valid()
      modifies this
      ensures Valid()
      ensures old(GetCompanyById(company.id)).None? ==> r == Failure(ConcurrencyConflict) && companies == old(companies)
      ensures old(GetCompanyById(company.id)).Some? ==>
                var i := IndexOf(old(companies), CompanyId, company.id).value;
                if old(HasCompany(company.userId)) && old(companies)[i].userId != company.userId
                then r == Failure(UniqueIndexViolation) && companies == old(companies)
                else r == Success(company) && companies == old(companies)[i := company]
    {
      var found := IndexOf(companies, CompanyId, company.id);
      if found.None? {
        r := Failure(ConcurrencyConflict);
      } else {
        var i := found.value;
        if Any(companies, CompanyUserId, company.userId) && companies[i].userId != company.userId {
          r := Failure(UniqueIndexViolation);
        } else {
          KeysUniqueReplace(companies, CompanyId, i, company);
          KeysUniqueReplace(companies, CompanyUserId, i, company);
          companies := companies[i := company];
          r := Success(company);
        }
      }
    }
  }

  /** In a valid table a user's company is unique: any row owned by the user is the one the lookup finds. */
  lemma {:induction false} OneCompanyPerUser(companies: seq<Company>, i: nat, userId: Guid)
    requires CompaniesValid(companies) && i < |companies| && companies[i].userId == userId
    ensures FirstOrDefault(companies, CompanyUserId, userId) == Some(companies[i])
    ensures forall j :: 0 <= j < |companies| && companies[j].userId == userId ==> j == i
  {
    FirstOrDefaultUnique(companies, CompanyUserId, i);
  }
}
