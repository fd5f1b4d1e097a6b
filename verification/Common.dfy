/** What several modules share. */
module Common {
  datatype Option<+T> = None | Some(value: T)

  ghost predicate NoDup(s: seq<nat>) {
    forall i, j :: 0 <= i < j < |s| ==> s[i] != s[j]
  }

  // Some definitions are wrapped in a recursion on a number that does nothing but keep them from being
  // unfolded in every proof they appear in; a lemma next to each says what it stands for.
  const SEAL: nat := 3
}
