/** Facts about sequences and maps that the loops, inductions and store
    updates use. Stated as lemmas, they are proved once, apart from the
    large contexts in which they are needed. */
module Seqs {
  /** Taking a whole sequence gives the sequence. */
  lemma TakeAll<T>(s: seq<T>)
    ensures s[..|s|] == s
  {
  }

  /** A non-empty sequence is its prefix followed by its last element. */
  lemma LastSplit<T>(s: seq<T>)
    requires s != []
    ensures s == s[..|s| - 1] + [s[|s| - 1]]
  {
  }

  /** A second write to the same key replaces the first. */
  lemma StoreTwice<K, V>(m: map<K, V>, k: K, a: V, b: V)
    ensures m[k := a][k := b] == m[k := b]
  {
  }
}
