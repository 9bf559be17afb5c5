/**
 * The rejection of the second generation of the server: a status code and the
 * headers to send with it (src/routes/rejections.rs).
 */
module AppRejections {
  import opened Wrappers
  import opened Http

  /** Rust's `u16`. */
  type u16 = x: int | 0 <= x < 0x1_0000

  datatype AppRejection = AppRejection(headers: HeaderMap, statusCode: u16)

  /** `AppRejection::new`: the given headers, or an empty map, and the code exactly as given. */
  function New(headerOpt: Option<HeaderMap>, statusCode: u16): (r: AppRejection)
    ensures r.statusCode == statusCode
    ensures headerOpt.None? ==> r.headers == []
    ensures headerOpt.Some? ==> r.headers == headerOpt.value
  {
    var headers := match headerOpt
      case Some(val) => val
      case None => [];
    AppRejection(headers, statusCode)
  }

  /** `AppRejection::default`: no headers, status 400. */
  function Default(): (r: AppRejection)
    ensures r.headers == [] && r.statusCode == 400
  {
    AppRejection([], 400)
  }
}
