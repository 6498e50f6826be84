/**
 Java-level values the consumer model works with: nullable references, the
 outcome of an operation that may throw, and opaque tokens for the runtime
 objects (proxies, classes, reflective methods, method models) whose
 internals lie outside the model.
 */
module Values {

  /** A Java reference that may be `null`. */
  datatype Nullable<+T> = Null | NonNull(value: T)

  /** Either a value, or the exception the operation throws. */
  datatype Result<+T, +E> = Success(value: T) | Failure(error: E)

  /** The exceptions the consumer model can raise. */
  datatype Error =
    | IllegalArgument(message: string)  // argument validation in the constructor
    | ClassCast                         // an attribute value that is not an AsyncMethodInfo
    | NullPointer                       // delegation through a null service model

  /** An arbitrary Java object (a proxy stub, a callback instance, ...), known only by identity. */
  datatype ObjectRef = ObjectRef(address: nat)

  /** A `Class<?>` descriptor, known only by identity. */
  datatype ClassRef = ClassRef(address: nat)

  /** A `java.lang.reflect.Method`, known only by identity. */
  datatype MethodRef = MethodRef(address: nat)

  /** A per-method metadata entry of the external service model, known only by identity. */
  datatype MethodModel = MethodModel(address: nat)
}
