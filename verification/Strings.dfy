/** Joining strings by a separator. */
module Strings {

  function Join(items: seq<string>, sep: string): string {
    if items == [] then "" else if |items| == 1 then items[0] else items[0] + (sep + Join(items[1..], sep))
  }
}
