/** Optional values and outcomes that may fail, used wherever the source can
    return `undefined` or throw. */
module Results {

  datatype Option<+T> = None | Some(value: T)

  /** `Failure` stands for a JavaScript exception escaping the operation. */
  datatype Result<+T> = Ok(value: T) | Failure(reason: string)
}
