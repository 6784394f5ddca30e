/** The three-way comparison result used throughout the engine. */
module Orderings {

  datatype Ordering = Less | Equal | Greater {

    function Reverse(): Ordering {
      match this
      case Less => Greater
      case Equal => Equal
      case Greater => Less
    }

    /** Lexicographic combination: the second comparison only breaks ties. */
    function Then(next: Ordering): Ordering {
      if Equal? then next else this
    }
  }

  function CompareInts(a: int, b: int): Ordering {
    if a < b then Less else if a == b then Equal else Greater
  }
}
