/** The success-or-failure value every decode and encode operation returns. */
module Results {

  /** `Ok` carries the decoded value, `Err` the error the operation reports. */
  datatype Result<T, E> = Ok(value: T) | Err(error: E)
}
