/** Request parameters as the browser sends them (an ordered list of
    key/value pairs, before percent-encoding) and as Spring hands them to a
    `@RequestParam Map<String, String>` (the first value of each key). */
module Http {
  /** One `key=value` pair of a query string or form body. */
  type Pair = (string, string)

  /** The map Spring binds: every key present, with its first value. */
  function ParamMap(pairs: seq<Pair>): map<string, string> {
    if pairs == [] then map[] else ParamMap(pairs[1..])[pairs[0].0 := pairs[0].1]
  }

  /** The value bound for the key of a pair is that pair's value when no
      earlier pair has the same key. */
  lemma {:induction false} ParamMapFirst(pairs: seq<Pair>, i: nat)
    requires i < |pairs|
    requires forall j :: 0 <= j < i ==> pairs[j].0 != pairs[i].0
    ensures pairs[i].0 in ParamMap(pairs) && ParamMap(pairs)[pairs[i].0] == pairs[i].1
  {
    if i > 0 {
      ParamMapFirst(pairs[1..], i - 1);
    }
  }
}
