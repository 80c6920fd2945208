/** The response envelope builders: success with data, success with only a message, error, and a
    paginated list whose page count is `Math.ceil(total / limit)`. */
module Response {
  import opened Wrappers
  import Paging

  /** The pagination block of a paginated envelope. */
  datatype PageInfo = PageInfo(page: int, limit: int, total: int, totalPages: Paging.JsNumber)

  /** Every envelope shape the builders produce; an absent field is `None`. */
  datatype Envelope<T> = Envelope(
    success: bool,
    data: Option<T>,
    error: Option<string>,
    message: Option<string>,
    pagination: Option<PageInfo>)

  const DefaultSuccessMessage := "Success"
  const PaginatedMessage := "Data retrieved successfully"

  /** The envelope invariant: `success` is true exactly when there is no `error`, and only a
      success envelope carries data or pagination. */
  predicate WellFormed<T>(e: Envelope<T>)
  {
    && (e.success <==> e.error.None?)
    && (e.data.Some? ==> e.success)
    && (e.pagination.Some? ==> e.success && e.data.Some?)
  }

  /** `success(data, message = 'Success')`. */
  function Success<T>(data: T, message: Option<string>): (r: Envelope<T>)
    ensures WellFormed(r)
    ensures r.success && r.data == Some(data) && r.pagination.None?
    ensures r.message == Some(if message.Some? then message.value else DefaultSuccessMessage)
  {
    Envelope(true, Some(data), None, Some(if message.Some? then message.value else DefaultSuccessMessage), None)
  }

  /** `successNoData(message)`: success without a data field. */
  function SuccessNoData<T>(message: string): (r: Envelope<T>)
    ensures WellFormed(r)
    ensures r.success && r.data.None? && r.message == Some(message) && r.pagination.None?
  {
    Envelope(true, None, None, Some(message), None)
  }

  /** `error(error, message?)`: failure with the error text and the optional message. */
  function Error<T>(error: string, message: Option<string>): (r: Envelope<T>)
    ensures WellFormed(r)
    ensures !r.success && r.error == Some(error) && r.message == message
    ensures r.data.None? && r.pagination.None?
  {
    Envelope(false, None, Some(error), message, None)
  }

  /** `paginated(data, page, limit, total)`: the page echoed back with the fixed message. */
  function Paginated<T>(data: seq<T>, page: int, limit: int, total: int): (r: Envelope<seq<T>>)
    ensures WellFormed(r)
    ensures r.success && r.data == Some(data) && r.message == Some(PaginatedMessage)
    ensures r.pagination.Some?
    ensures var p := r.pagination.value;
      p.page == page && p.limit == limit && p.total == total && p.totalPages == Paging.CeilDiv(total, limit)
  {
    Envelope(true, Some(data), None, Some(PaginatedMessage), Some(PageInfo(page, limit, total, Paging.CeilDiv(total, limit))))
  }

  /** With a positive limit the page count is the least number of pages of `limit` rows holding
      `total` rows; the examples 25/10, 30/10, 31/10, 0/10 and 5/10 give 3, 3, 4, 0 and 1. */
  lemma PaginatedPageCount<T>(data: seq<T>, page: int, limit: int, total: int, n: int)
    requires limit > 0
    ensures var tp := Paginated(data, page, limit, total).pagination.value.totalPages;
      tp == Paging.Finite(n) <==> (n - 1) * limit < total <= n * limit
  {
    var tp := Paginated(data, page, limit, total).pagination.value.totalPages;
    if (n - 1) * limit < total <= n * limit {
      Paging.CeilDivUnique(total, limit, n);
    }
  }

  lemma PaginatedExamples<T>(data: seq<T>)
    ensures Paginated(data, 1, 10, 25).pagination.value.totalPages == Paging.Finite(3)
    ensures Paginated(data, 1, 10, 30).pagination.value.totalPages == Paging.Finite(3)
    ensures Paginated(data, 1, 10, 31).pagination.value.totalPages == Paging.Finite(4)
    ensures Paginated(data, 1, 10, 0).pagination.value.totalPages == Paging.Finite(0)
    ensures Paginated(data, 1, 10, 5).pagination.value.totalPages == Paging.Finite(1)
  {
    Paging.CeilDivExamples();
  }
}
