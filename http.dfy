/** Values shared by the discovery and fan-out halves of the proxy: bytes,
    header pairs, the tuple a finished outbound request yields, and the
    small Option/Result wrappers used for missing values and raised errors. */
module Http {

  newtype byte = x: int | 0 <= x < 256

  /** One header as a (name, value) pair. */
  type Header = (string, string)

  datatype Option<T> = None | Some(value: T)

  datatype Result<T, E> = Ok(value: T) | Err(error: E)

  /** What `async_request` returns for a call that completed:
      the requested URL, the body read, the status code and the header items. */
  datatype Response = Response(url: string, content: seq<byte>, status: int, headers: seq<Header>)

  /** A finished task: either `task.result()` raised (network error, timeout,
      any exception inside the request) or it returned a response tuple. */
  datatype TaskResult = Raised | Completed(response: Response)

  /** The status range the proxy accepts as a usable upstream reply: the
      2xx class. */
  predicate IsSuccessStatus(status: int): (ok: bool)
    ensures ok <==> status / 100 == 2
  {
    200 <= status <= 299
  }
}
