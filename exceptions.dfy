/** The exceptions the comparison service can raise or propagate. */
module Exceptions {

  datatype Error =
    /** IllegalArgumentException with its message. */
    | IllegalArgument(message: string)
    /** NullPointerException: a protobuf builder setter was handed null. */
    | NullPointer
    /** Any exception raised while turning a wire message into a library message. */
    | ConversionFailed(reason: string)
    /** The UNIMPLEMENTED gRPC status of a generated service's default method. */
    | Unimplemented
    /** new RuntimeException(cause) */
    | Runtime(cause: Error)
    /** An error raised while reporting another one: the original first, the new one second. */
    | Composite(original: Error, raised: Error)
}
