/** Option and Result values, used for the outcomes of the external collaborators
    (the PDF library, the language model, the JSON parser, the file system). */
module Wrappers {

  datatype Option<+T> = None | Some(value: T)

  datatype Result<+R, +E> = Success(value: R) | Failure(error: E)
}
