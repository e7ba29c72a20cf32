/** The optional value that stands for Python's None in the curve-matching
    pipeline: an ideal function that was not found, a row that does not exist. */
module Options {

  datatype Option<+T> = None | Some(value: T)
}
