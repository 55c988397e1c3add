/** Outcomes shared by the components: the engine's coded errors become `Err`. */
module Results {
  datatype Option<+T> = None | Some(value: T)

  datatype Result<+T> = Ok(value: T) | Err(code: string)
}
