/** Names of indices. */
module Names {
  predicate Distinct(names: seq<string>) { forall i, j :: 0 <= i < j < |names| ==> names[i] != names[j] }

  /** What a resize appends to the name of its temporary index. */
  const RESIZE_SUFFIX: string := "__resize"
}
