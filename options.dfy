/** The optional value used wherever the Java code uses a nullable reference. */
module Options {

  datatype Option<+T> = None | Some(value: T)
}
