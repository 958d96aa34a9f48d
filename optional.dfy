/** The optional value shared by the modules of this model: JavaScript's
    `undefined`/`null`, C#'s nullable value types and Python's `None`. */
module Optional {

  datatype Option<+T> = None | Some(value: T)

}
