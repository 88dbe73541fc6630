/**
 Regular-expression matching as an oracle.

 The auditor calls Python's `re.findall` and `re.search`, always with the flags
 IGNORECASE | MULTILINE. The regex engine itself is outside this model: a pattern is
 kept as its literal source text and matching is delegated to an `Oracle`, a pair of
 functions supplied by the caller. `Consistent` ties the two together the way
 `findall` and `search` agree in Python.
 */
module Regex {

  datatype Option<T> = None | Some(value: T)

  /** A regular expression, kept as its literal source text. */
  datatype Pattern = Pattern(source: string)

  /** `count(p, t)` is `len(re.findall(p, t, re.I | re.M))`;
      `first(p, t)` is the start offset of `re.search(p, t, re.I | re.M)`, or `None`. */
  datatype Oracle = Oracle(count: (Pattern, string) -> nat, first: (Pattern, string) -> Option<nat>)

  /** The search finds a match, at an offset inside the text, exactly when `findall`
      returns a non-empty list. */
  ghost predicate Consistent(o: Oracle) {
    forall p: Pattern, t: string ::
      && (o.first(p, t).Some? <==> o.count(p, t) > 0)
      && (o.first(p, t).Some? ==> o.first(p, t).value <= |t|)
  }
}

