/** A growable list updated in place, standing for the `java.util.List`
    objects that the helpers append to. */
module Lists {

  class ArrayList<T> {
    var items: seq<T>

    constructor (init: seq<T>)
      ensures items == init
    {
      items := init;
    }

    /** `add(x)`: appends one element. */
    method Add(x: T)
      modifies this
      ensures items == old(items) + [x]
    {
      items := items + [x];
    }

    /** `addAll(xs)`: appends every element of `xs`, in order. */
    method AddAll(xs: seq<T>)
      modifies this
      ensures items == old(items) + xs
    {
      items := items + xs;
    }
  }
}
