module Text {
  /** `s` stands in `t` starting at `i`. */
  predicate OccursAt(s: string, t: string, i: nat) {
    i + |s| <= |t| && t[i..i + |s|] == s
  }

  predicate Contains(t: string, s: string) {
    exists i :: 0 <= i <= |t| && OccursAt(s, t, i)
  }
}
