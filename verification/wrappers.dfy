/** A minimal Option type for decoders that may reject their input. */
module Wrappers {

  datatype Option<+T> = None | Some(value: T)

}
