/** The optional value used wherever the source may find nothing: an
    unreachable node, a string that is not a decimal numeral. */
module Options {

  datatype Option<+T> = None | Some(value: T)

}
