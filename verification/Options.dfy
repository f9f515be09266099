/** A value that may be absent. */
module Options {

  datatype Option<+T> = None | Some(value: T) {
    function Or(default: T): T {
      if Some? then value else default
    }
  }

  /** The first of two values that is present. */
  function Over<T>(above: Option<T>, below: Option<T>): Option<T> {
    if above.Some? then above else below
  }

  /** What the last item that has a value gives. */
  ghost function Latest<R, T>(items: seq<R>, get: R -> Option<T>): Option<T> {
    if items == [] then None else Over(get(items[|items| - 1]), Latest(items[..|items| - 1], get))
  }
}
