/** The trait catalogs and the four trait dimensions the board tracks. */
module Traits {
  import opened Lists

  /** The nine valid colour names, in the order the program lists them. */
  const Colors: seq<string> :=
    ["yellow", "orange", "red", "purple", "pink", "blue", "green", "silver", "white"]

  /** The nine valid shape names, in the order the program lists them. */
  const Shapes: seq<string> :=
    ["sun", "star", "eye", "moon", "circle", "bolt", "diamond", "hand", "heart"]

  predicate IsColor(s: string) { s in Colors }
  predicate IsShape(s: string) { s in Shapes }

  /** Each catalog holds nine distinct names. */
  lemma CatalogSizes()
    ensures |Colors| == 9 && NoDup(Colors)
    ensures |Shapes| == 9 && NoDup(Shapes)
  {
  }

  /** A trait value as the program stores it: colour and shape names are
      strings, a row is a one-letter string, a column is an integer.
      Values of different kinds never compare equal. */
  datatype Value = Word(word: string) | Letter(letter: char) | Number(number: int)

  /** The dimension names, keys of the board's `eliminated` and `retained`
      dictionaries, in the order a guess visits them. */
  const DimOrder: seq<string> := ["colors", "shapes", "rows", "cols"]
  const Dims: set<string> := {"colors", "shapes", "rows", "cols"}
}
