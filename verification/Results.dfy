/** What may be missing, and what may be refused. */
module Results {

  datatype Option<+T> = None | Some(value: T)

  datatype Result<+T, +R> = Ok(value: T) | Refused(why: R)
}
