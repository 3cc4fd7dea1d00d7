/** The optional value the TypeScript source spells `T | undefined`. */
module Options {

  datatype Option<+T> = None | Some(value: T)

}
