/** Repeated substring masking of known secrets (grpc_client.py, _safe_text;
    s3_client.py, _KnownSecretRedactor.text). */
module SecretMasking {
  import opened Text

  const PEER_REDACTED := "***"
  const S3_REDACTED := "***redacted***"

  /** Python's `str.replace`: leftmost occurrences, never overlapping. */
  function Replace(t: string, s: string, mask: string): (r: string)
    requires s != ""
  {
    if |t| < |s| then t
    else if t[..|s|] == s then mask + Replace(t[|s|..], s, mask)
    else [t[0]] + Replace(t[1..], s, mask)
  }

  /** `s` laid over `mask`, shifted by `shift`, agrees wherever both have a
      character. */
  ghost predicate AgreesAt(s: string, mask: string, shift: int) {
    forall k :: 0 <= k < |s| && 0 <= k + shift < |mask| ==> s[k] == mask[k + shift]
  }

  /** `s` can be laid over a part of `mask` without a disagreement. */
  ghost predicate Clashes(s: string, mask: string) {
    exists shift :: -|s| < shift < |mask| && AgreesAt(s, mask, shift)
  }

  ghost predicate Unclashing(secrets: seq<string>, mask: string) {
    forall k :: 0 <= k < |secrets| ==> secrets[k] != "" && !Clashes(secrets[k], mask)
  }

  // ----- One replacement -----

  lemma Shifted(s: string, t: string, lead: string, i: nat)
    requires OccursAt(s, t, i)
    ensures OccursAt(s, lead + t, |lead| + i)
  {}

  lemma Unshifted(s: string, t: string, lead: string, i: nat)
    requires OccursAt(s, lead + t, i) && i >= |lead|
    ensures OccursAt(s, t, i - |lead|)
  {}

  /** A tail of `w` that opens the masked text already opened the text. */
  lemma {:induction false} TailSurvives(t: string, s: string, mask: string, w: string, k: int)
    requires 0 <= k && s != "" && mask != "" && k < |w| && !Clashes(w, mask)
    requires w[k..] <= Replace(t, s, mask)
    ensures w[k..] <= t
  {
    var r := Replace(t, s, mask);
    if |t| >= |s| {
      if t[..|s|] == s {
        assert forall j :: 0 <= j < |w| && 0 <= j - k < |mask| ==> w[j] == w[k..][j - k] == r[j - k] == mask[j - k];
        assert AgreesAt(w, mask, -k);
        assert false;
      } else {
        assert w[k..][0] == r[0] == t[0];
        if k + 1 < |w| {
          assert w[k + 1..] == w[k..][1..] <= r[1..];
          TailSurvives(t[1..], s, mask, w, k + 1);
          assert w[k..] == [t[0]] + w[k + 1..];
        } else {
          assert w[k..] == [t[0]];
        }
      }
    }
  }

  /** Masking never creates an occurrence of a string that cannot overlap the
      mask: one found after was there before. */
  lemma {:induction false} NothingNew(t: string, s: string, mask: string, w: string, i: nat) returns (j: nat)
    requires s != "" && mask != "" && w != "" && !Clashes(w, mask)
    requires OccursAt(w, Replace(t, s, mask), i)
    ensures OccursAt(w, t, j)
    ensures w == s ==> false
    decreases |t|
  {
    var r := Replace(t, s, mask);
    if |t| < |s| {
      j := i;
    } else if t[..|s|] == s {
      if i < |mask| {
        assert forall k :: 0 <= k < |w| && 0 <= k + i < |mask| ==> w[k] == r[i..i + |w|][k] == r[k + i] == mask[k + i];
        assert AgreesAt(w, mask, i);
        assert false;
      }
      Unshifted(w, Replace(t[|s|..], s, mask), mask, i);
      j := NothingNew(t[|s|..], s, mask, w, i - |mask|);
      Shifted(w, t[|s|..], t[..|s|], j);
      assert t == t[..|s|] + t[|s|..];
      j := |s| + j;
    } else if i == 0 {
      assert w[0..] == w;
      TailSurvives(t, s, mask, w, 0);
      j := 0;
    } else {
      Unshifted(w, Replace(t[1..], s, mask), [t[0]], i);
      j := NothingNew(t[1..], s, mask, w, i - 1);
      Shifted(w, t[1..], t[..1], j);
      assert t == t[..1] + t[1..];
      j := 1 + j;
    }
  }

  lemma {:induction false} NothingToMask(t: string, s: string, mask: string)
    requires s != "" && !Contains(t, s)
    ensures Replace(t, s, mask) == t
  {
    if |t| >= |s| {
      assert !OccursAt(s, t, 0) && t == t[..1] + t[1..];
      forall i: nat ensures !OccursAt(s, t[1..], i) {
        if OccursAt(s, t[1..], i) {
          Shifted(s, t[1..], t[..1], i);
        }
      }
      NothingToMask(t[1..], s, mask);
    }
  }

  /** One secret, one occurrence, a short rest: the occurrence is what goes. */
  lemma {:induction false} MasksFirst(x: string, s: string, y: string, mask: string)
    requires s != "" && !Contains(y, s)
    requires forall p: nat :: p < |x| ==> !OccursAt(s, x + s + y, p)
    ensures Replace(x + s + y, s, mask) == x + mask + y
    decreases |x|
  {
    var t := x + s + y;
    if x == "" {
      assert t[..|s|] == s && t[|s|..] == y;
      NothingToMask(y, s, mask);
    } else {
      assert !OccursAt(s, t, 0);
      assert t == [x[0]] + (x[1..] + s + y);
      forall p: nat | p < |x| - 1 ensures !OccursAt(s, x[1..] + s + y, p) {
        if OccursAt(s, x[1..] + s + y, p) {
          Shifted(s, x[1..] + s + y, [x[0]], p);
          assert false;
        }
      }
      MasksFirst(x[1..], s, y, mask);
      assert t[1..] == x[1..] + s + y;
      assert x + mask + y == [x[0]] + (x[1..] + mask + y);
    }
  }

  // ----- The masking loop -----

  ghost function MaskAll(t: string, secrets: seq<string>, mask: string): (r: string)
    requires forall k :: 0 <= k < |secrets| ==> secrets[k] != ""
  {
    if secrets == [] then t
    else Replace(MaskAll(t, secrets[..|secrets| - 1], mask), secrets[|secrets| - 1], mask)
  }

  /** The loop. Every secret that cannot overlap the mask is gone afterwards,
      whatever the other secrets are and in whatever order; text holding no
      secret is left alone. */
  method Mask(text: string, secrets: seq<string>, mask: string) returns (safe: string)
    requires mask != "" && forall k :: 0 <= k < |secrets| ==> secrets[k] != ""
    ensures safe == MaskAll(text, secrets, mask)
    ensures forall k :: 0 <= k < |secrets| && !Clashes(secrets[k], mask) ==> !Contains(safe, secrets[k])
    ensures (forall k :: 0 <= k < |secrets| ==> !Contains(text, secrets[k])) ==> safe == text
  {
    safe := text;
    for i := 0 to |secrets|
      invariant safe == MaskAll(text, secrets[..i], mask)
      invariant forall k :: 0 <= k < i && !Clashes(secrets[k], mask) ==> !Contains(safe, secrets[k])
      invariant (forall k :: 0 <= k < |secrets| ==> !Contains(text, secrets[k])) ==> safe == text
    {
      ghost var before := safe;
      safe := Replace(safe, secrets[i], mask);
      assert secrets[..i + 1][..i] == secrets[..i];
      forall k, at: nat | 0 <= k <= i && !Clashes(secrets[k], mask) ensures !OccursAt(secrets[k], safe, at) {
        if OccursAt(secrets[k], safe, at) {
          var j := NothingNew(before, secrets[i], mask, secrets[k], at);
          assert false;
        }
      }
      if forall k :: 0 <= k < |secrets| ==> !Contains(text, secrets[k]) {
        NothingToMask(before, secrets[i], mask);
      }
    }
    assert secrets[..|secrets|] == secrets;
  }

  // ----- Exactly which secrets a mask hides -----

  lemma TooShort(y: string, s: string)
    requires |y| < |s|
    ensures !Contains(y, s)
  {}

  lemma OccursChars(s: string, t: string, p: nat)
    requires OccursAt(s, t, p)
    ensures forall k :: 0 <= k < |s| ==> t[p + k] == s[k]
  {}

  ghost predicate Hidden(t: string, s: string, mask: string)
    requires s != ""
  {
    !Contains(Replace(t, s, mask), s)
  }

  /** A piece of the mask is there again after the replacement. */
  lemma ShowsPiece(s: string, mask: string, at: nat)
    requires s != "" && OccursAt(s, mask, at)
    ensures !Hidden(s, s, mask)
  {
    TooShort("", s);
    MasksFirst("", s, "", mask);
    assert "" + s + "" == s && "" + mask + "" == mask;
  }

  /** The mask's end and what follows it spell the secret again. */
  lemma ShowsBehind(s: string, mask: string, o: nat) returns (t: string)
    requires 0 < o <= |s| && o <= |mask| && s[..o] == mask[|mask| - o..]
    ensures !Hidden(t, s, mask)
  {
    t := "" + s + s[o..];
    TooShort(s[o..], s);
    MasksFirst("", s, s[o..], mask);
    var r := "" + mask + s[o..];
    assert r[|mask| - o..|mask| - o + |s|] == s;
    assert OccursAt(s, r, |mask| - o);
  }

  /** A text that repeats what stands before `i` holds no occurrence before
      there, when `i` has a character the secret does not begin with. */
  lemma PinnedAt(s: string, i: nat, y: string, p: nat)
    requires p < i < |s| && s[i] != s[0]
    ensures !OccursAt(s, s[..i] + s + y, p)
  {}

  /** What precedes the mask and the mask's beginning spell the secret again. */
  lemma ShowsBefore(s: string, mask: string, i: int) returns (t: string)
    requires 0 < i < |s| && mask != "" && AgreesAt(s, mask, -i) && s[0] != mask[0]
    ensures !Hidden(t, s, mask)
  {
    var y := if i + |mask| < |s| then s[i + |mask|..] else "";
    t := s[..i] + s + y;
    assert s[i] == mask[0];
    forall p: nat | p < i ensures !OccursAt(s, s[..i] + s + y, p) {
      PinnedAt(s, i, y, p);
    }
    TooShort(y, s);
    MasksFirst(s[..i], s, y, mask);
    var r := s[..i] + mask + y;
    forall k | 0 <= k < |s| ensures r[k] == s[k] {
      if i <= k < i + |mask| { assert s[k] == mask[k - i]; }
    }
    assert r[..|s|] == s;
    assert OccursAt(s, r, 0);
  }

  /** A secret that can overlap a mask with equal ends is shown by some text. */
  lemma ClashShows(s: string, mask: string) returns (t: string)
    requires s != "" && mask != "" && mask[0] == mask[|mask| - 1] && Clashes(s, mask)
    ensures !Hidden(t, s, mask)
  {
    var shift :| -|s| < shift < |mask| && AgreesAt(s, mask, shift);
    if s[0] == mask[0] {
      assert s[..1] == mask[|mask| - 1..];
      t := ShowsBehind(s, mask, 1);
    } else if shift < 0 {
      t := ShowsBefore(s, mask, -shift);
    } else if shift + |s| <= |mask| {
      assert mask[shift..shift + |s|] == s;
      ShowsPiece(s, mask, shift);
      t := s;
    } else {
      assert s[..|mask| - shift] == mask[shift..];
      t := ShowsBehind(s, mask, |mask| - shift);
    }
  }

  /** For every secret and every mask whose first and last characters are
      equal: the mask hides the secret in every text exactly when the two
      cannot overlap. */
  lemma HidesExactly(s: string, mask: string)
    requires s != "" && mask != "" && mask[0] == mask[|mask| - 1]
    ensures (forall t :: Hidden(t, s, mask)) <==> !Clashes(s, mask)
  {
    if Clashes(s, mask) {
      var t := ClashShows(s, mask);
    } else {
      forall t ensures Hidden(t, s, mask) {
        if !Hidden(t, s, mask) {
          var i: nat :| OccursAt(s, Replace(t, s, mask), i);
          var j := NothingNew(t, s, mask, s, i);
        }
      }
    }
  }

  /** One lies inside the other, or an end of one is the other end of the
      other: what a caller can check of a secret before using it. */
  predicate Overlaps(s: string, mask: string) {
    || Contains(mask, s) || Contains(s, mask)
    || exists o | 1 <= o <= |mask| :: EndsMeet(s, mask, o)
  }

  predicate EndsMeet(s: string, mask: string, o: nat)
    requires o <= |mask|
  {
    o <= |s| && (s[..o] == mask[|mask| - o..] || s[|s| - o..] == mask[..o])
  }

  lemma OverlapsExactly(s: string, mask: string)
    requires s != "" && mask != ""
    ensures Clashes(s, mask) <==> Overlaps(s, mask)
  {
    if Clashes(s, mask) {
      var shift :| -|s| < shift < |mask| && AgreesAt(s, mask, shift);
      if 0 <= shift && shift + |s| <= |mask| {
        assert mask[shift..shift + |s|] == s;
        assert OccursAt(s, mask, shift);
      } else if 0 <= shift {
        assert s[..|mask| - shift] == mask[shift..];
        assert EndsMeet(s, mask, |mask| - shift);
      } else if |s| + shift <= |mask| {
        assert s[-shift..] == mask[..|s| + shift];
        assert EndsMeet(s, mask, |s| + shift);
      } else {
        assert s[-shift..-shift + |mask|] == mask;
        assert OccursAt(mask, s, -shift);
      }
    }
    if Overlaps(s, mask) {
      if Contains(mask, s) {
        var i :| 0 <= i <= |mask| && OccursAt(s, mask, i);
        OccursChars(s, mask, i);
        assert AgreesAt(s, mask, i);
      } else if Contains(s, mask) {
        var i :| 0 <= i <= |s| && OccursAt(mask, s, i);
        OccursChars(mask, s, i);
        assert AgreesAt(s, mask, -i);
      } else {
        var o :| 1 <= o <= |mask| && EndsMeet(s, mask, o);
        if s[..o] == mask[|mask| - o..] {
          assert forall k :: 0 <= k < o ==> s[k] == s[..o][k] == mask[|mask| - o + k];
          assert AgreesAt(s, mask, |mask| - o);
        } else {
          assert forall k :: 0 <= k < o ==> s[|s| - o + k] == s[|s| - o..][k] == mask[k];
          assert AgreesAt(s, mask, o - |s|);
        }
      }
    }
  }

  predicate StarsAt(s: string, i: nat) {
    i + 3 <= |s| && s[i] == s[i + 1] == s[i + 2] == '*'
  }

  predicate EdgedOrStarred(s: string) {
    s != "" && (s[0] == '*' || s[|s| - 1] == '*' || exists i | 0 <= i < |s| :: StarsAt(s, i))
  }

  lemma ClashWithStars(s: string)
    requires s != ""
    ensures Clashes(s, PEER_REDACTED) <==> EdgedOrStarred(s)
  {
    if Clashes(s, PEER_REDACTED) {
      var shift :| -|s| < shift < 3 && AgreesAt(s, PEER_REDACTED, shift);
      if shift >= 0 {
        assert s[0] == PEER_REDACTED[shift];
      } else if |s| + shift <= 3 {
        assert s[|s| - 1] == PEER_REDACTED[|s| - 1 + shift];
      } else {
        assert s[-shift] == PEER_REDACTED[0] && s[-shift + 1] == PEER_REDACTED[1] && s[-shift + 2] == PEER_REDACTED[2];
        assert StarsAt(s, -shift);
      }
    }
    if s[0] == '*' {
      assert AgreesAt(s, PEER_REDACTED, 2);
    } else if s[|s| - 1] == '*' {
      assert AgreesAt(s, PEER_REDACTED, 1 - |s|);
    } else if EdgedOrStarred(s) {
      var i :| 0 <= i < |s| && StarsAt(s, i);
      assert AgreesAt(s, PEER_REDACTED, -i);
    }
  }

  /** `***` hides a secret in every text exactly when the secret neither starts
      nor ends with `*` nor holds `***`. */
  lemma PeerHidesExactly(s: string)
    requires s != ""
    ensures (forall t :: Hidden(t, s, PEER_REDACTED)) <==> !EdgedOrStarred(s)
  {
    HidesExactly(s, PEER_REDACTED);
    ClashWithStars(s);
  }

  /** `***redacted***` hides a secret in every text exactly when neither lies
      inside the other and no end of one is an end of the other; a secret made
      of a run of the mask's own letters stays readable. */
  lemma S3HidesExactly(s: string)
    requires s != ""
    ensures (forall t :: Hidden(t, s, S3_REDACTED)) <==> !Overlaps(s, S3_REDACTED)
    ensures Contains(S3_REDACTED, s) ==> !Hidden(s, s, S3_REDACTED)
  {
    assert S3_REDACTED[0] == S3_REDACTED[|S3_REDACTED| - 1] == '*';
    HidesExactly(s, S3_REDACTED);
    OverlapsExactly(s, S3_REDACTED);
    if Contains(S3_REDACTED, s) {
      var at :| 0 <= at <= |S3_REDACTED| && OccursAt(s, S3_REDACTED, at);
      ShowsPiece(s, S3_REDACTED, at);
    }
  }

  // ----- Why the secrets are sorted longest first -----

  ghost predicate LongestFirst(secrets: seq<string>) {
    forall i, j :: 0 <= i < j < |secrets| ==> |secrets[i]| >= |secrets[j]| && secrets[i] != secrets[j]
  }

  /** Every secret found in `x + a + y` is found inside `a`. */
  ghost predicate OnlyInside(secrets: seq<string>, x: string, a: string, y: string) {
    forall k, p: nat :: 0 <= k < |secrets| && OccursAt(secrets[k], x + a + y, p)
      ==> |x| <= p && p + |secrets[k]| <= |x| + |a|
  }

  /** A long secret that contains shorter ones is masked whole: none of its
      other characters are left beside the mask. */
  lemma {:induction false} MasksWhole(secrets: seq<string>, n: nat, at: nat, x: string, y: string, mask: string)
    requires n <= |secrets| && at < |secrets|
    requires mask != "" && LongestFirst(secrets) && Unclashing(secrets, mask)
    requires OnlyInside(secrets, x, secrets[at], y)
    ensures MaskAll(x + secrets[at] + y, secrets[..n], mask)
         == if at < n then x + mask + y else x + secrets[at] + y
    decreases n
  {
    if n > 0 {
      var a, last, t := secrets[at], secrets[n - 1], x + secrets[at] + y;
      MasksWhole(secrets, n - 1, at, x, y, mask);
      assert secrets[..n][..n - 1] == secrets[..n - 1];
      if at == n - 1 {
        forall p: nat ensures !OccursAt(a, y, p) {
          if OccursAt(a, y, p) {
            Shifted(a, y, x + a, p);
          }
        }
        assert forall p: nat :: p < |x| ==> !OccursAt(secrets[at], x + a + y, p);
        MasksFirst(x, a, y, mask);
      } else if n - 1 < at {
        forall p: nat ensures !OccursAt(last, t, p) {
          assert t[|x|..|x| + |a|] == a;
        }
        NothingToMask(t, last, mask);
      } else {
        forall p: nat ensures !OccursAt(last, x + mask + y, p) {
          if OccursAt(last, x + mask + y, p) {
            var q := OutsideMask(last, x, mask, a, y, p);
          }
        }
        NothingToMask(x + mask + y, last, mask);
      }
    }
  }

  /** What is found beside a mask was beside the text the mask replaced. */
  lemma OutsideMask(w: string, x: string, mask: string, a: string, y: string, p: nat) returns (q: nat)
    requires w != "" && mask != "" && !Clashes(w, mask)
    requires OccursAt(w, x + mask + y, p)
    ensures OccursAt(w, x + a + y, q) && (q + |w| <= |x| || q >= |x| + |a|)
  {
    var t := x + mask + y;
    OccursChars(w, t, p);
    if p + |w| > |x| && p < |x| + |mask| {
      forall k | 0 <= k < |w| && 0 <= k + (p - |x|) < |mask| ensures w[k] == mask[k + (p - |x|)] {
        assert t[p + k] == mask[p + k - |x|];
      }
      assert AgreesAt(w, mask, p - |x|);
      assert false;
    }
    q := if p + |w| <= |x| then p else p - |mask| + |a|;
    assert (x + a + y)[q..q + |w|] == t[p..p + |w|];
  }
}
