/** Substring search: the first occurrence of a pattern. */
module Search {
  import opened Wrappers
  import opened Text

  predicate OccursAt(s: string, pattern: string, i: nat) {
    i + |pattern| <= |s| && s[i..i + |pattern|] == pattern
  }

  ghost predicate Occurs(s: string, pattern: string) {
    exists i: nat :: OccursAt(s, pattern, i)
  }

  function FindFrom(s: string, pattern: string, start: nat): (found: Option<nat>)
    requires start <= |s|
    ensures found.Some? ==> start <= found.value && OccursAt(s, pattern, found.value)
    ensures found.Some? ==> forall i :: start <= i < found.value ==> !OccursAt(s, pattern, i)
    ensures found.None? ==> forall i: nat :: start <= i ==> !OccursAt(s, pattern, i)
    decreases |s| - start
  {
    if OccursAt(s, pattern, start) then Some(start)
    else if start == |s| then None
    else FindFrom(s, pattern, start + 1)
  }

  function Find(s: string, pattern: string): (found: Option<nat>)
    ensures found.Some? ==> OccursAt(s, pattern, found.value)
    ensures found.Some? ==> forall i :: 0 <= i < found.value ==> !OccursAt(s, pattern, i)
    ensures found.None? <==> !Occurs(s, pattern)
  {
    FindFrom(s, pattern, 0)
  }
}
