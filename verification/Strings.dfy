/** Searching strings. */
module Strings {
  import opened Wrappers

  /** string::find and string::find_first_not_of; None stands for npos. */
  function Find(s: string, c: char, start: nat): (p: Option<nat>)
    ensures p.None? ==> forall i :: start <= i < |s| ==> s[i] != c
    ensures p.Some? ==> start <= p.value < |s| && s[p.value] == c && forall i :: start <= i < p.value ==> s[i] != c
    decreases |s| - start
  {
    if start >= |s| then None else if s[start] == c then Some(start) else Find(s, c, start + 1)
  }

  function FindNot(s: string, c: char, start: nat): (p: Option<nat>)
    ensures p.None? ==> forall i :: start <= i < |s| ==> s[i] == c
    ensures p.Some? ==> start <= p.value < |s| && s[p.value] != c && forall i :: start <= i < p.value ==> s[i] == c
    decreases |s| - start
  {
    if start >= |s| then None else if s[start] != c then Some(start) else FindNot(s, c, start + 1)
  }
}
