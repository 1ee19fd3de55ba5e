/** What the visualisers of data structures have in common: a cap on their input, and the error for exceeding it. */
module Structures {

  const MAX_ELEMENTS := 128

  datatype Result<T> = Done(value: T) | InputError
}
