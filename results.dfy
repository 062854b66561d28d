/** Return shapes of the key-value handles: an optional value, and a result
    whose only failure is that the other end of the channel is gone. */
module Results {

  datatype Option<+T> = None | Some(value: T)

  /** `Disconnected` is the single error kind of the store. */
  datatype Result<+T> = Ok(value: T) | Disconnected
}
