/** An optional value: `undefined` in the plugin's TypeScript is `None`. */
module Wrappers {
  datatype Option<+T> = None | Some(value: T)
}
