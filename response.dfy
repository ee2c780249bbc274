/** The uniform response envelopes of the API (lib/utils/response.ts). */
module Response {
  import opened Types

  datatype ApiResponse<T> = ApiResponse(success: bool, data: Option<T>, message: Option<string>, error: Option<string>)

  datatype Pagination = Pagination(total: int, page: int, pageSize: int, totalPages: int)

  datatype PaginatedResponse<T> = PaginatedResponse(success: bool, data: seq<T>, pagination: Pagination)

  /** A successful response carrying the data and the optional message as given. */
  function Success<T>(data: T, message: Option<string>): (r: ApiResponse<T>)
    ensures r.success
    ensures r.data == Some(data) && r.message == message && r.error.None?
  {
    ApiResponse(true, Some(data), message, None)
  }

  /** A failed response: the message and the optional error detail, and no data. */
  function Error<T>(message: string, error: Option<string>): (r: ApiResponse<T>)
    ensures !r.success
    ensures r.data.None? && r.message == Some(message) && r.error == error
  {
    ApiResponse(false, None, Some(message), error)
  }

  /** Math.ceil(total / pageSize): the fewest pages of pageSize rows that hold
      total rows. */
  function TotalPages(total: nat, pageSize: int): (n: nat)
    requires pageSize > 0
    ensures n * pageSize >= total
    ensures n == 0 || (n - 1) * pageSize < total
    ensures total == 0 ==> n == 0
  {
    var n := (total + pageSize - 1) / pageSize;
    assert n * pageSize + (total + pageSize - 1) % pageSize == total + pageSize - 1;
    n
  }

  /** A successful list response: the page of data as given and the
      pagination figures of the whole list. */
  function Paginated<T>(data: seq<T>, total: nat, page: int, pageSize: int): (r: PaginatedResponse<T>)
    requires pageSize > 0
    ensures r.success && r.data == data
    ensures r.pagination.total == total && r.pagination.page == page && r.pagination.pageSize == pageSize
    ensures r.pagination.totalPages * pageSize >= total
    ensures r.pagination.totalPages == 0 || (r.pagination.totalPages - 1) * pageSize < total
  {
    PaginatedResponse(true, data, Pagination(total, page, pageSize, TotalPages(total, pageSize)))
  }
}
