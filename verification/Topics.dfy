/** Topic names and filters: splitting on '/', and the matching rules of
    section 4.7.1 of MQTT Version 3.1.1. */
module Topics {
  import opened Base
  import opened Texts

  const SLASH: byte := 47
  const PLUS: Text := [43]
  const HASH: Text := [35]

  type Path = seq<Text>

  /** strings.Split(t, "/"): always at least one level. */
  function Split(t: Text): (levels: Path)
    ensures |levels| >= 1
    ensures forall i :: 0 <= i < |levels| ==> SLASH !in levels[i]
  {
    SplitOn(t, SLASH)
  }

  /** Two different topics never share a path in the tree. */
  lemma SplitInjective(a: Text, b: Text)
    requires Split(a) == Split(b)
    ensures a == b
  {
    JoinOfSplit(a, SLASH);
    JoinOfSplit(b, SLASH);
  }

  predicate IsWildcard(level: Text) { level == PLUS || level == HASH }

  predicate WildcardFree(levels: Path) {
    forall i :: 0 <= i < |levels| ==> !IsWildcard(levels[i])
  }

  /** Section 4.7.1: "+" stands for one level, a final "#" for any number of levels. */
  predicate Matches(filter: Path, levels: Path)
    decreases |filter|
  {
    if filter == [] then levels == []
    else if filter == [HASH] then true
    else levels != [] && (filter[0] == levels[0] || filter[0] == PLUS) && Matches(filter[1..], levels[1..])
  }
}
