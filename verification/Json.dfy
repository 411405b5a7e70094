/** JSON/YAML documents: what the collectors load and the checkers walk. */
module Json {
  import opened PyValues

  /** A Python dict is a map here: iteration order is left open, so whatever is proved holds for
      every insertion order. */
  datatype Json =
    | Leaf(v: Value)
    | Dict(m: map<string, Json>)
    | List(xs: seq<Json>)
}
