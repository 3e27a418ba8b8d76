/** What the services and the user table throw. */
module Errors {

  /** The codes of the Prisma known-request errors the user table raises. */
  datatype KnownRequestError =
    | UniqueConstraintFailed  // P2002: the write would repeat a unique column (email)
    | RecordNotFound          // P2025: the row to update does not exist

  datatype Error =
    | PrismaKnown(code: KnownRequestError)  // a PrismaClientKnownRequestError
    | Forbidden(message: string)            // ForbiddenException, HTTP 403
    | BadRequest(message: string)           // BadRequestException, HTTP 400
    | NotFound(message: string)             // NotFoundException, HTTP 404
}
