/** A variable passed by reference, as the mutators of src/core/model.cpp take their first argument. */
module References {
  class Ref<T> {
    var value: T

    constructor (value: T)
      ensures this.value == value
    {
      this.value := value;
    }
  }
}
