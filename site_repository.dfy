/**
 * backend/Repositories/SiteRepository.cs: the Sites table and its paged
 * listing. `PaginationParameters` and `PaginatedResponse<T>` are 32-bit
 * C# integers; the arithmetic on them is written out.
 */
module SiteRepository {
  import opened Wrappers
  import opened Entities
  import opened Linq

  const Int32Min: int := -0x8000_0000
  const Int32Max: int := 0x7FFF_FFFF

  predicate IsInt32(x: int)
  {
    Int32Min <= x <= Int32Max
  }

  /** Unchecked C# `int` arithmetic: the mathematical result reduced into the 32-bit two's-complement range. */
  function Wrap32(x: int): (w: int)
    ensures IsInt32(w)
    ensures IsInt32(x) ==> w == x
    ensures (w - x) % 0x1_0000_0000 == 0
  {
    (x - Int32Min) % 0x1_0000_0000 + Int32Min
  }

  datatype PaginationParameters = PaginationParameters(pageNumber: int, pageSize: int)

  datatype PaginatedResponse<T> = PaginatedResponse(
    items: seq<T>, totalCount: int, pageNumber: int, pageSize: int, totalPages: int)

  /** `(int)Math.Ceiling(count / (double)pageSize)` for a positive page size: the number of pages holding `count` rows. */
  function TotalPages(count: nat, pageSize: int): (n: nat)
    requires pageSize > 0
    ensures n * pageSize >= count
    ensures n > 0 ==> (n - 1) * pageSize < count
    ensures n == 0 <==> count == 0
  {
    (count + pageSize - 1) / pageSize
  }

  /** `Skip(offset).Take(size)` over a row sequence in store order. */
  function Page<T>(rows: seq<T>, offset: nat, size: nat): (r: seq<T>)
    ensures |r| <= size
    ensures forall i :: 0 <= i < |r| ==> offset + i < |rows| && r[i] == rows[offset + i]
    ensures offset >= |rows| ==> r == []
    ensures offset < |rows| ==> r == rows[offset..if offset + size <= |rows| then offset + size else |rows|]
  {
    if offset >= |rows| then []
    else if offset + size <= |rows| then rows[offset..offset + size]
    else rows[offset..]
  }

  /** The first row of a page, `(PageNumber - 1) * PageSize`, computed exactly. */
  function Offset(pageNumber: int, pageSize: int): (offset: int)
    ensures pageNumber >= 1 && pageSize >= 0 ==> offset >= 0
    ensures pageSize >= 1 ==> (offset < 0 <==> pageNumber < 1)
  {
    if pageSize >= 1 then OffsetSign(pageNumber, pageSize); (pageNumber - 1) * pageSize
    else if pageNumber >= 1 && pageSize >= 0 then MulMonotone(0, pageNumber - 1, pageSize); (pageNumber - 1) * pageSize
    else (pageNumber - 1) * pageSize
  }

  /**
   * `GetPaginatedAsync` with the offset `(PageNumber - 1) * PageSize`
   * computed exactly. A count beyond `int`, a page number below 1 (a
   * negative OFFSET) or a page size below 1 (a FETCH of no rows) makes the
   * SQL Server query throw: None.
   */
  function Paginate<T>(rows: seq<T>, p: PaginationParameters): (r: Option<PaginatedResponse<T>>)
    ensures r.None? <==> |rows| > Int32Max || p.pageNumber < 1 || p.pageSize < 1
    ensures r.Some? ==>
              && r.value.totalCount == |rows|
              && r.value.pageNumber == p.pageNumber && r.value.pageSize == p.pageSize
              && r.value.totalPages * p.pageSize >= |rows|
              && (r.value.totalPages > 0 ==> (r.value.totalPages - 1) * p.pageSize < |rows|)
              && |r.value.items| <= p.pageSize
              && (p.pageNumber > r.value.totalPages ==> r.value.items == [])
  {
    if |rows| > Int32Max || p.pageNumber < 1 || p.pageSize < 1 then None
    else
      var totalPages := TotalPages(|rows|, p.pageSize);
      PageBeyondEnd(|rows|, p.pageSize, p.pageNumber, totalPages);
      Some(PaginatedResponse(Page(rows, Offset(p.pageNumber, p.pageSize), p.pageSize),
                             |rows|, p.pageNumber, p.pageSize, totalPages))
  }

  /** A page numbered past the last one starts at or after the last row. */
  lemma PageBeyondEnd(count: nat, pageSize: int, pageNumber: int, totalPages: nat)
    requires pageSize > 0 && pageNumber >= 1
    requires totalPages * pageSize >= count
    ensures pageNumber > totalPages ==> Offset(pageNumber, pageSize) >= count
  {
    if pageNumber > totalPages {
      MulMonotone(totalPages, pageNumber - 1, pageSize);
    }
  }

  lemma MulMonotone(a: nat, b: nat, c: nat)
    requires a <= b
    ensures a * c <= b * c
  {
  }

  /** Pages 1 to k read one after another. */
  function Pages<T>(rows: seq<T>, pageSize: nat, k: nat): seq<T>
  {
    if k == 0 then [] else Pages(rows, pageSize, k - 1) + Page(rows, Offset(k, pageSize), pageSize)
  }

  /** Pages 1 to k together are exactly the first k * pageSize rows (all rows once k * pageSize reaches the count). */
  lemma {:induction false} PagesArePrefix<T>(rows: seq<T>, pageSize: nat, k: nat)
    ensures Pages(rows, pageSize, k) == rows[..if k * pageSize <= |rows| then k * pageSize else |rows|]
  {
    if k > 0 {
      PagesArePrefix(rows, pageSize, k - 1);
      var start := Offset(k, pageSize);
      assert start + pageSize == k * pageSize;
      if start < |rows| {
        var end := if k * pageSize <= |rows| then k * pageSize else |rows|;
        PrefixSplit(rows, start, end);
      } else {
        MulMonotone(k - 1, k, pageSize);
      }
    }
  }

  lemma PrefixSplit<T>(rows: seq<T>, mid: nat, end: nat)
    requires mid <= end <= |rows|
    ensures rows[..mid] + rows[mid..end] == rows[..end]
  {
  }

  /** The pages 1 to TotalPages of a successful listing cover every row exactly once, in store order. */
  lemma {:induction false} PagesCoverAll<T>(rows: seq<T>, p: PaginationParameters)
    requires Paginate(rows, p).Some?
    ensures Pages(rows, p.pageSize, Paginate(rows, p).value.totalPages) == rows
  {
    PagesArePrefix(rows, p.pageSize, Paginate(rows, p).value.totalPages);
  }

  /** The items of a successful listing are the rows from (PageNumber - 1) * PageSize on, at most PageSize of them. */
  lemma PageIsSlice<T>(rows: seq<T>, p: PaginationParameters, i: nat)
    requires Paginate(rows, p).Some? && i < |Paginate(rows, p).value.items|
    ensures 0 <= Offset(p.pageNumber, p.pageSize) && Offset(p.pageNumber, p.pageSize) + i < |rows|
    ensures Paginate(rows, p).value.items[i] == rows[Offset(p.pageNumber, p.pageSize) + i]
  {
  }

  /** Every item of a successful listing is a stored row. */
  lemma PageItemsAreRows<T>(rows: seq<T>, p: PaginationParameters)
    requires Paginate(rows, p).Some?
    ensures forall i :: 0 <= i < |Paginate(rows, p).value.items| ==> Paginate(rows, p).value.items[i] in rows
  {
    var items := Paginate(rows, p).value.items;
    var offset: nat := Offset(p.pageNumber, p.pageSize);
    assert items == Page(rows, offset, p.pageSize);
    forall i | 0 <= i < |items|
      ensures items[i] in rows
    {
      assert items[i] == rows[offset + i];
    }
  }

  /**
   * `GetPaginatedAsync` as written: the offset is computed in unchecked
   * 32-bit arithmetic, so a product beyond `int` wraps.
   */
  function PaginateAsWritten<T>(rows: seq<T>, p: PaginationParameters): (r: Option<PaginatedResponse<T>>)
    requires IsInt32(p.pageNumber) && IsInt32(p.pageSize)
    ensures r.Some? ==> r.value.totalCount == |rows| && |r.value.items| <= p.pageSize
  {
    var offset := Wrap32(Wrap32(p.pageNumber - 1) * p.pageSize);
    // A page number of Int32Min also wraps, to a non-negative offset, and the query runs.
    if |rows| > Int32Max || offset < 0 || p.pageSize < 1 then None
    else Some(PaginatedResponse(Page(rows, offset, p.pageSize), |rows|, p.pageNumber, p.pageSize, TotalPages(|rows|, p.pageSize)))
  }

  /** While the true offset fits in `int`, the 32-bit computation gives exactly it. */
  lemma WrapExact(pageNumber: int, pageSize: int)
    requires IsInt32(pageNumber) && pageSize >= 1 && IsInt32(pageSize)
    requires IsInt32(Offset(pageNumber, pageSize))
    ensures Wrap32(Wrap32(pageNumber - 1) * pageSize) == Offset(pageNumber, pageSize)
  {
    if pageNumber - 1 < 0 {
      MulMonotone(1, pageSize, 1 - pageNumber);
      assert (pageNumber - 1) * pageSize <= pageNumber - 1;
    }
  }

  /** As written and corrected agree on every request whose offset fits in `int`. */
  lemma AsWrittenAgrees<T>(rows: seq<T>, p: PaginationParameters)
    requires IsInt32(p.pageNumber) && IsInt32(p.pageSize)
    requires IsInt32(Offset(p.pageNumber, p.pageSize))
    ensures PaginateAsWritten(rows, p) == Paginate(rows, p)
  {
    if p.pageSize >= 1 {
      WrapExact(p.pageNumber, p.pageSize);
    }
  }

  lemma OffsetSign(pageNumber: int, pageSize: int)
    requires pageSize >= 1
    ensures (pageNumber - 1) * pageSize < 0 <==> pageNumber < 1
  {
    if pageNumber < 1 {
      var a: nat := 1 - pageNumber;
      MulMonotone(1, a, pageSize);
      assert (pageNumber - 1) * pageSize == -(a * pageSize);
    } else {
      MulMonotone(0, pageNumber - 1, pageSize);
    }
  }

  /**
   * Page 65538 of size 65536 starts at row 65537 * 65536 = 4295032832,
   * beyond any table `int` can count, so it must be empty; the wrapped
   * offset is 65536, and as written the call returns rows from there.
   */
  lemma OffsetOverflow<T>(rows: seq<T>)
    requires 65536 < |rows| <= Int32Max
    ensures Paginate(rows, PaginationParameters(65538, 65536)).value.items == []
    ensures PaginateAsWritten(rows, PaginationParameters(65538, 65536)).value.items != []
    ensures PaginateAsWritten(rows, PaginationParameters(65538, 65536)).value.items[0] == rows[65536]
  {
    assert Wrap32(65537 * 65536) == 65536;
  }

  /** The constraint the database keeps on Sites: the primary key. */
  ghost predicate SitesValid(sites: seq<Site>)
  {
    KeysUnique(sites, SiteId)
  }

  class SiteRepository {
    var sites: seq<Site>

    ghost predicate Valid()
      reads this
    {
      SitesValid(sites)
    }

    constructor ()
      ensures Valid() && sites == []
    {
      sites := [];
    }

    /** `GetPaginatedAsync`, with the offset computed exactly. */
    function GetPaginated(p: PaginationParameters): (r: Option<PaginatedResponse<Site>>)
      reads this
      ensures r.Some? ==> forall i :: 0 <= i < |r.value.items| ==> r.value.items[i] in sites
      ensures r.Some? ==> r.value.totalCount == |sites|
    {
      var r := Paginate(sites, p);
      if r.Some? then PageItemsAreRows(sites, p); r else r
    }

    /** `GetSiteByIdAsync`: the site with that id, or null. */
    function GetSiteById(id: Guid): (r: Option<Site>)
      reads this
      ensures r.Some? ==> r.value in sites && r.value.id == id
      ensures r.None? <==> forall i :: 0 <= i < |sites| ==> sites[i].id != id
    {
      FirstOrDefault(sites, SiteId, id)
    }

    /** `AddAsync`: insert the given site and return it; a reused id makes SaveChanges throw. */
    method Add(site: Site) returns (r: Result<Site, DbError>)
      requires Valid()
      modifies this
      ensures Valid()
      ensures old(GetSiteById(site.id)).Some? ==> r == Failure(DuplicateKey) && sites == old(sites)
      ensures old(GetSiteById(site.id)).None? ==> r == Success(site) && sites == old(sites) + [site]
    {
      if Any(sites, SiteId, site.id) {
        r := Failure(DuplicateKey);
      } else {
        KeysUniqueAppend(sites, SiteId, site);
        sites := sites + [site];
        r := Success(site);
      }
    }

    /** `UpdateAsync`: overwrite the row with the site's id; an id no longer stored makes SaveChanges throw. */
    method Update(site: Site) returns (error: Option<DbError>)
      requires Valid()
      modifies this
      ensures Valid()
      ensures old(GetSiteById(site.id)).None? ==> error == Some(ConcurrencyConflict) && sites == old(sites)
      ensures old(GetSiteById(site.id)).Some? ==>
                error == None && sites == old(sites)[IndexOf(old(sites), SiteId, site.id).value := site]
    {
      var found := IndexOf(sites, SiteId, site.id);
      if found.None? {
        error := Some(ConcurrencyConflict);
      } else {
        KeysUniqueReplace(sites, SiteId, found.value, site);
        sites := sites[found.value := site];
        error := None;
      }
    }

    /** `DeleteAsync`: remove the row with the site's id; an id no longer stored makes SaveChanges throw. */
    method Delete(site: Site) returns (error: Option<DbError>)
      requires Valid()
      modifies this
      ensures Valid()
      ensures old(GetSiteById(site.id)).None? ==> error == Some(ConcurrencyConflict) && sites == old(sites)
      ensures old(GetSiteById(site.id)).Some? ==>
                var i := IndexOf(old(sites), SiteId, site.id).value;
                error == None && sites == old(sites)[..i] + old(sites)[i + 1..]
      ensures GetSiteById(site.id).None?
    {
      var found := IndexOf(sites, SiteId, site.id);
      if found.None? {
        error := Some(ConcurrencyConflict);
      } else {
        var i := found.value;
        KeysUniqueRemove(sites, SiteId, i);
        sites := sites[..i] + sites[i + 1..];
        error := None;
      }
    }
  }
}
