/**
 * Parsed query strings as the hapi server hands them to the plugin: a
 * parameter given once holds a string, a parameter given several times
 * holds the list of its values. Percent-decoding has already happened.
 */
module Query {
  import opened Wrappers

  datatype QueryValue = Single(value: string) | Repeated(values: seq<string>)

  type Query = map<string, QueryValue>

  /**
   * The value of `key` that the plugin acts on: the last one when the
   * parameter is repeated; none when the key is absent or the list is empty.
   */
  function Last(query: Query, key: string): (r: Option<string>)
    ensures key !in query ==> r == None
    ensures key in query && query[key].Single? ==> r == Some(query[key].value)
    ensures key in query && query[key].Repeated? ==>
      var vs := query[key].values;
      (r.Some? <==> vs != []) && (r.Some? ==> r.value == vs[|vs| - 1])
  {
    if key !in query then None
    else match query[key]
      case Single(v) => Some(v)
      case Repeated(vs) => if vs == [] then None else Some(vs[|vs| - 1])
  }

  /** Only the last of repeated values counts, and no other parameter does. */
  lemma LastWins(query: Query, key: string, values: seq<string>)
    requires values != []
    ensures Last(query[key := Repeated(values)], key) == Last(map[key := Single(values[|values| - 1])], key)
  {
  }
}
