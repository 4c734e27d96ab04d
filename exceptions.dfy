/** The closed family of AppException kinds the gateway raises, each with
    the HTTP status its `status_code` attribute carries. */
module Exceptions {

  datatype Error =
    // 400 Bad Request
    | InvalidBucketName
    | MetadataTooLarge
    | InvalidArgument
    | TooManyBuckets
    | InvalidDigest
    | EntityTooLarge
    // 403 Forbidden
    | AccessDenied
    | SignatureDoesNotMatch
    | InvalidAccessKeyId
    // 404 Not Found
    | NoSuchBucket
    | NoSuchKey
    | NotSuchBucketPolicy
    // 405, 409, 411
    | MethodNotAllowed
    | BucketAlreadyExists
    | BucketNotEmpty
    | MissingContentLength
    // 500, 501
    | InternalError
    | NotImplemented

  /** The `status_code` class attribute of each kind. */
  function StatusCode(e: Error): (code: int)
    ensures 400 <= code <= 501
    ensures code == 400 <==>
      e.InvalidBucketName? || e.MetadataTooLarge? || e.InvalidArgument? ||
      e.TooManyBuckets? || e.InvalidDigest? || e.EntityTooLarge?
    ensures code == 403 <==> e.AccessDenied? || e.SignatureDoesNotMatch? || e.InvalidAccessKeyId?
    ensures code == 404 <==> e.NoSuchBucket? || e.NoSuchKey? || e.NotSuchBucketPolicy?
    ensures code == 405 <==> e.MethodNotAllowed?
    ensures code == 409 <==> e.BucketAlreadyExists? || e.BucketNotEmpty?
    ensures code == 411 <==> e.MissingContentLength?
    ensures code == 500 <==> e.InternalError?
    ensures code == 501 <==> e.NotImplemented?
  {
    match e
    case InvalidBucketName => 400
    case MetadataTooLarge => 400
    case InvalidArgument => 400
    case TooManyBuckets => 400
    case InvalidDigest => 400
    case EntityTooLarge => 400
    case AccessDenied => 403
    case SignatureDoesNotMatch => 403
    case InvalidAccessKeyId => 403
    case NoSuchBucket => 404
    case NoSuchKey => 404
    case NotSuchBucketPolicy => 404
    case MethodNotAllowed => 405
    case BucketAlreadyExists => 409
    case BucketNotEmpty => 409
    case MissingContentLength => 411
    case InternalError => 500
    case NotImplemented => 501
  }

  /** The `message` class attribute, the same placeholder for every kind. */
  function Message(e: Error): (message: string)
  {
    "xxx"
  }

  /** A Python exception the application does not catch. */
  datatype PyError =
    | TypeError   // `int(None)` or `re.match(..., None)` on a missing header
    | ValueError  // `int(...)` on a header that is not a decimal number
    | IndexError  // `resource_path[-1]` on an empty resource path

  /** How a request handler can end other than by answering: an
      AppException it raises, or an exception nobody catches, which the
      web framework answers with 500. */
  datatype Fault = Raised(kind: Error) | Uncaught(cause: PyError)
}
