/** The optional value used by the event bridge and the contact-form validator. */
module Optional {
  datatype Option<+T> = None | Some(value: T)
}
