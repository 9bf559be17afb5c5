/** The error kinds of the first generation of the server (src/rejections.rs). */
module Rejections {

  datatype Error = BadRequest | NotFound | InternalServerError | Unauthorized
}
