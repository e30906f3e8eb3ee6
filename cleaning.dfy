/**
 * Cleaning of the text the language model returns before it is decoded as
 * JSON: every "```json" is deleted, then every remaining "```", then the
 * surrounding whitespace is stripped (app.py line 41).
 *
 * `RemoveAll` is Python's `str.replace(pat, "")` for a non-empty pattern:
 * occurrences are found left to right and do not overlap. `Strip` is
 * `str.strip()` with no argument, which trims the characters Python's
 * `str.isspace` accepts from both ends.
 */
module Cleaning {

  const JsonFence: string := "```json"
  const Fence: string := "```"

  /** Python's `str.isspace` for a single character. */
  predicate IsSpace(c: char) {
    || ('\t' <= c <= '\r')
    || ('\U{1C}' <= c <= '\U{1F}')
    || c == ' '
    || c == '\U{85}'
    || c == '\U{A0}'
    || c == '\U{1680}'
    || ('\U{2000}' <= c <= '\U{200A}')
    || c == '\U{2028}'
    || c == '\U{2029}'
    || c == '\U{202F}'
    || c == '\U{205F}'
    || c == '\U{3000}'
  }

  /** The 29 characters `str.isspace` accepts, one by one. */
  const PythonWhitespace: set<char> := {
    '\t', '\n', '\U{0B}', '\U{0C}', '\r', '\U{1C}', '\U{1D}', '\U{1E}', '\U{1F}', ' ',
    '\U{85}', '\U{A0}', '\U{1680}',
    '\U{2000}', '\U{2001}', '\U{2002}', '\U{2003}', '\U{2004}', '\U{2005}',
    '\U{2006}', '\U{2007}', '\U{2008}', '\U{2009}', '\U{200A}',
    '\U{2028}', '\U{2029}', '\U{202F}', '\U{205F}', '\U{3000}'
  }

  /** `IsSpace` accepts exactly the listed characters and no other. */
  lemma IsSpaceExactly(c: char)
    ensures IsSpace(c) <==> c in PythonWhitespace
  {
  }

  predicate AllSpace(s: string) {
    forall i :: 0 <= i < |s| ==> IsSpace(s[i])
  }

  /** Neither end of `s` is whitespace: what `Strip` leaves behind. */
  predicate Unpadded(s: string) {
    s == [] || (!IsSpace(s[0]) && !IsSpace(s[|s| - 1]))
  }

  predicate NoBackticks(s: string) {
    forall i :: 0 <= i < |s| ==> s[i] != '`'
  }

  // ---------------------------------------------------------------------
  // Occurrences of a pattern

  predicate OccursAt(s: string, pat: string, i: nat) {
    i + |pat| <= |s| && s[i..i + |pat|] == pat
  }

  ghost predicate Occurs(s: string, pat: string) {
    exists i: nat :: OccursAt(s, pat, i)
  }

  /** An occurrence in a suffix is an occurrence in the whole string. */
  lemma OccursInSuffix(s: string, n: nat, pat: string)
    requires n <= |s|
    ensures Occurs(s[n..], pat) ==> Occurs(s, pat)
  {
    if Occurs(s[n..], pat) {
      var i: nat :| OccursAt(s[n..], pat, i);
      assert s[n + i..n + i + |pat|] == s[n..][i..i + |pat|];
      assert OccursAt(s, pat, n + i);
    }
  }

  /** An occurrence in a slice is an occurrence in the whole string. */
  lemma OccursInSlice(s: string, lo: nat, hi: nat, pat: string)
    requires lo <= hi <= |s|
    ensures Occurs(s[lo..hi], pat) ==> Occurs(s, pat)
  {
    if Occurs(s[lo..hi], pat) {
      var i: nat :| OccursAt(s[lo..hi], pat, i);
      forall k | 0 <= k < |pat| ensures s[lo + i..lo + i + |pat|][k] == pat[k] {
        assert s[lo..hi][i..i + |pat|][k] == pat[k];
      }
      assert OccursAt(s, pat, lo + i);
    }
  }

  /** An occurrence that is not at the front is an occurrence in the tail. */
  lemma OccursInTail(s: string, pat: string)
    requires |s| > 0 && !OccursAt(s, pat, 0)
    ensures Occurs(s, pat) ==> Occurs(s[1..], pat)
  {
    if Occurs(s, pat) {
      var i: nat :| OccursAt(s, pat, i);
      assert i >= 1;
      assert s[1..][i - 1..i - 1 + |pat|] == s[i..i + |pat|];
      assert OccursAt(s[1..], pat, i - 1);
    }
  }

  /** Every "```json" begins with a "```". */
  lemma JsonFenceHasFence(s: string)
    requires Occurs(s, JsonFence)
    ensures Occurs(s, Fence)
  {
    var i: nat :| OccursAt(s, JsonFence, i);
    assert s[i..i + 3] == s[i..i + 7][..3];
    assert OccursAt(s, Fence, i);
  }

  /** A string without backticks holds no pattern that starts with one. */
  lemma BacktickFreeHasNoFence(s: string, pat: string)
    requires NoBackticks(s) && pat != [] && pat[0] == '`'
    ensures !Occurs(s, pat)
  {
    forall i: nat ensures !OccursAt(s, pat, i) {
      if i + |pat| <= |s| {
        assert s[i..i + |pat|][0] == s[i];
      }
    }
  }

  // ---------------------------------------------------------------------
  // str.replace(pat, "")

  /**
   * Deletes every occurrence of `pat`, scanning left to right and resuming
   * after each deleted occurrence.
   */
  function RemoveAll(s: string, pat: string): (r: string)
    requires pat != []
    ensures |r| <= |s|
    decreases |s|
  {
    if |s| < |pat| then
      s
    else if s[..|pat|] == pat then
      RemoveAll(s[|pat|..], pat)
    else
      [s[0]] + RemoveAll(s[1..], pat)
  }

  /** The text changes exactly when `pat` occurs in it, and then loses at least one whole copy. */
  lemma {:induction false} RemoveAllChangesIffOccurs(s: string, pat: string)
    requires pat != []
    ensures !Occurs(s, pat) ==> RemoveAll(s, pat) == s
    ensures Occurs(s, pat) ==> |RemoveAll(s, pat)| <= |s| - |pat|
    decreases |s|
  {
    if |s| < |pat| {
      assert !Occurs(s, pat);
    } else if s[..|pat|] == pat {
      assert OccursAt(s, pat, 0);
    } else {
      assert !OccursAt(s, pat, 0);
      OccursInTail(s, pat);
      OccursInSuffix(s, 1, pat);
      RemoveAllChangesIffOccurs(s[1..], pat);
      assert [s[0]] + s[1..] == s;
    }
  }

  /** A backtick-free prefix passes through the deletion of a pattern that starts with a backtick. */
  lemma {:induction false} RemoveAllSkipsPlain(a: string, b: string, pat: string)
    requires NoBackticks(a) && pat != [] && pat[0] == '`'
    ensures RemoveAll(a + b, pat) == a + RemoveAll(b, pat)
    decreases |a|
  {
    if a == [] {
      assert a + b == b;
    } else {
      var s := a + b;
      if |s| < |pat| {
        assert RemoveAll(b, pat) == b;
      } else {
        assert s[..|pat|][0] == a[0];
        assert s[1..] == a[1..] + b;
        RemoveAllSkipsPlain(a[1..], b, pat);
        assert [a[0]] + a[1..] == a;
      }
    }
  }

  /** A later "```" is never formed by the deletion: the output holds no "```" at all. */
  lemma {:induction false} NoFenceAfterRemoval(s: string)
    ensures !Occurs(RemoveAll(s, Fence), Fence)
    decreases |s|
  {
    var r := RemoveAll(s, Fence);
    if |s| < 3 {
      assert !OccursAt(r, Fence, 0);
    } else if s[..3] == Fence {
      NoFenceAfterRemoval(s[3..]);
    } else {
      var rest := RemoveAll(s[1..], Fence);
      assert r == [s[0]] + rest;
      NoFenceAfterRemoval(s[1..]);
      // The front of r cannot be a fence.
      if s[0] != '`' {
        assert r[0] != '`';
      } else if s[1] != '`' {
        RemoveAllSkipsPlain([s[1]], s[2..], Fence);
        assert [s[1]] + s[2..] == s[1..];
        assert rest[0] == s[1];
      } else {
        assert s[2] != '`';
        var t := s[1..];
        if |t| < 3 {
          assert rest == t;
        } else {
          assert t[..3][1] == s[2];
          assert rest == [t[0]] + RemoveAll(t[1..], Fence);
          RemoveAllSkipsPlain([s[2]], s[3..], Fence);
          assert [s[2]] + s[3..] == t[1..];
        }
        assert rest[1] == s[2];
      }
      assert !OccursAt(r, Fence, 0) by {
        if |r| >= 3 { assert r[..3] != Fence by { assert r[..3][0] == r[0]; assert r[..3][1] == r[1]; assert r[..3][2] == r[2]; } }
      }
      assert r[1..] == rest;
      OccursInTail(r, Fence);
    }
  }

  /** The characters other than the backtick, in order. */
  function Unticked(s: string): (r: string)
    ensures NoBackticks(r)
    ensures NoBackticks(s) ==> r == s
  {
    if s == [] then [] else (if s[0] == '`' then [] else [s[0]]) + Unticked(s[1..])
  }

  lemma {:induction false} UntickedConcat(a: string, b: string)
    ensures Unticked(a + b) == Unticked(a) + Unticked(b)
    decreases |a|
  {
    if a == [] {
      assert a + b == b;
    } else {
      assert (a + b)[1..] == a[1..] + b;
      UntickedConcat(a[1..], b);
    }
  }

  /** Deleting "```" removes backticks only: every other character survives, in order. */
  lemma {:induction false} FenceRemovalKeepsText(s: string)
    ensures Unticked(RemoveAll(s, Fence)) == Unticked(s)
    decreases |s|
  {
    if |s| < 3 {
    } else if s[..3] == Fence {
      FenceRemovalKeepsText(s[3..]);
      assert s == s[..3] + s[3..];
      UntickedConcat(s[..3], s[3..]);
      assert Unticked(s[..3]) == [];
    } else {
      FenceRemovalKeepsText(s[1..]);
      UntickedConcat([s[0]], RemoveAll(s[1..], Fence));
      UntickedConcat([s[0]], s[1..]);
      assert [s[0]] + s[1..] == s;
    }
  }

  // ---------------------------------------------------------------------
  // str.strip()

  /** A leading space followed by the trim of the rest is a trim of the whole. */
  lemma TrimStartStep(s: string, r: string)
    requires s != [] && IsSpace(s[0])
    requires |r| <= |s| - 1 && r == s[1..][|s| - 1 - |r|..] && AllSpace(s[1..][..|s| - 1 - |r|])
    ensures r == s[|s| - |r|..] && AllSpace(s[..|s| - |r|])
  {
    var stripped := s[..|s| - |r|];
    forall i | 0 <= i < |stripped| ensures IsSpace(stripped[i]) {
      if i > 0 {
        assert stripped[i] == s[1..][..|s| - 1 - |r|][i - 1];
      }
    }
  }

  function TrimStart(s: string): (r: string)
    ensures |r| <= |s| && r == s[|s| - |r|..]
    ensures AllSpace(s[..|s| - |r|])
    ensures r != [] ==> !IsSpace(r[0])
    decreases |s|
  {
    if s != [] && IsSpace(s[0]) then
      var r := TrimStart(s[1..]);
      TrimStartStep(s, r);
      r
    else
      s
  }

  function TrimEnd(s: string): (r: string)
    ensures |r| <= |s| && r == s[..|r|]
    ensures AllSpace(s[|r|..])
    ensures r != [] ==> !IsSpace(r[|r| - 1])
    decreases |s|
  {
    if s != [] && IsSpace(s[|s| - 1]) then
      var r := TrimEnd(s[..|s| - 1]);
      var stripped := s[|r|..];
      assert AllSpace(stripped) by {
        forall i | 0 <= i < |stripped| ensures IsSpace(stripped[i]) {
          if i < |stripped| - 1 {
            assert stripped[i] == s[..|s| - 1][|r|..][i];
          }
        }
      }
      r
    else
      s
  }

  /** `s` is `r` with only whitespace before the offset `i` and after `r`. */
  predicate PaddedAt(s: string, i: nat, r: string) {
    && i + |r| <= |s|
    && s[i..i + |r|] == r
    && AllSpace(s[..i])
    && AllSpace(s[i + |r|..])
  }

  /** Trimming the front, then the back, leaves `r` padded only by whitespace inside `s`. */
  lemma TrimsArePadding(s: string, t: string, r: string)
    requires |t| <= |s| && t == s[|s| - |t|..] && AllSpace(s[..|s| - |t|])
    requires |r| <= |t| && r == t[..|r|] && AllSpace(t[|r|..])
    ensures PaddedAt(s, |s| - |t|, r)
  {
    var i := |s| - |t|;
    assert s[i..i + |r|] == t[..|r|];
    assert s[i + |r|..] == t[|r|..];
  }

  /** What is left after both trims starts and ends with a non-space. */
  lemma TrimsAreUnpadded(t: string, r: string)
    requires t != [] ==> !IsSpace(t[0])
    requires r != [] ==> !IsSpace(r[|r| - 1])
    requires |r| <= |t| && r == t[..|r|]
    ensures Unpadded(r)
  {
    if r != [] {
      assert r[0] == t[0];
    }
  }

  /** Python's `str.strip()`: the result has no whitespace at either end and is `s` less whitespace at its ends. */
  function Strip(s: string): (r: string)
    ensures Unpadded(r)
    ensures exists i: nat :: PaddedAt(s, i, r)
  {
    var t := TrimStart(s);
    var r := TrimEnd(t);
    TrimsArePadding(s, t, r);
    TrimsAreUnpadded(t, r);
    assert PaddedAt(s, |s| - |t|, r);
    r
  }

  lemma {:induction false} TrimStartSkips(w: string, q: string)
    requires AllSpace(w) && (q == [] || !IsSpace(q[0]))
    ensures TrimStart(w + q) == q
    decreases |w|
  {
    if w == [] {
      assert w + q == q;
    } else {
      assert (w + q)[0] == w[0];
      assert (w + q)[1..] == w[1..] + q;
      TrimStartSkips(w[1..], q);
    }
  }

  lemma {:induction false} TrimEndSkips(q: string, w: string)
    requires AllSpace(w) && (q == [] || !IsSpace(q[|q| - 1]))
    ensures TrimEnd(q + w) == q
    decreases |w|
  {
    if w == [] {
      assert q + w == q;
    } else {
      var s := q + w;
      assert s[|s| - 1] == w[|w| - 1];
      assert s[..|s| - 1] == q + w[..|w| - 1];
      TrimEndSkips(q, w[..|w| - 1]);
    }
  }

  /** Stripping cannot create a fence. */
  lemma StripKeepsNoFence(s: string)
    ensures Occurs(Strip(s), Fence) ==> Occurs(s, Fence)
  {
    var t := TrimStart(s);
    var r := TrimEnd(t);
    assert Strip(s) == r;
    assert t[0..|r|] == r;
    OccursInSlice(t, 0, |r|, Fence);
    OccursInSuffix(s, |s| - |t|, Fence);
  }

  /** Whitespace around an unpadded text is exactly what `Strip` removes. */
  lemma StripPadding(w1: string, p: string, w2: string)
    requires AllSpace(w1) && AllSpace(w2) && Unpadded(p)
    ensures Strip(w1 + p + w2) == p
  {
    if p == [] {
      assert w1 + p + w2 == (w1 + w2) + [];
      assert AllSpace(w1 + w2) by {
        forall i | 0 <= i < |w1 + w2| ensures IsSpace((w1 + w2)[i]) {
          if i < |w1| { assert (w1 + w2)[i] == w1[i]; } else { assert (w1 + w2)[i] == w2[i - |w1|]; }
        }
      }
      TrimStartSkips(w1 + w2, []);
    } else {
      assert w1 + p + w2 == w1 + (p + w2);
      TrimStartSkips(w1, p + w2);
      TrimEndSkips(p, w2);
    }
  }

  // ---------------------------------------------------------------------
  // The cleaning step of app.py line 41

  /** Cleaned text holds no "```" and has no whitespace at either end. */
  function Clean(reply: string): (r: string)
    ensures !Occurs(r, Fence)
    ensures Unpadded(r)
  {
    var unfenced := RemoveAll(RemoveAll(reply, JsonFence), Fence);
    NoFenceAfterRemoval(RemoveAll(reply, JsonFence));
    StripKeepsNoFence(unfenced);
    Strip(unfenced)
  }

  /** Cleaning a cleaned text changes nothing. */
  lemma CleanIdempotent(reply: string)
    ensures Clean(Clean(reply)) == Clean(reply)
  {
    var t := Clean(reply);
    if Occurs(t, JsonFence) { JsonFenceHasFence(t); }
    RemoveAllChangesIffOccurs(t, JsonFence);
    RemoveAllChangesIffOccurs(t, Fence);
    assert [] + t + [] == t;
    StripPadding([], t, []);
  }

  /** On text without backticks, cleaning is plain `strip`. */
  lemma CleanWithoutBackticks(reply: string)
    requires NoBackticks(reply)
    ensures Clean(reply) == Strip(reply)
  {
    BacktickFreeHasNoFence(reply, JsonFence);
    BacktickFreeHasNoFence(reply, Fence);
    RemoveAllChangesIffOccurs(reply, JsonFence);
    RemoveAllChangesIffOccurs(reply, Fence);
  }

  /** A text without "```" followed by one "```" holds no "```json". */
  lemma NoJsonFenceBeforeFence(body: string)
    requires !Occurs(body, Fence)
    ensures !Occurs(body + Fence, JsonFence)
  {
    var t := body + Fence;
    forall i: nat ensures !OccursAt(t, JsonFence, i) {
      if i + |JsonFence| <= |t| {
        assert !OccursAt(body, Fence, i);
        assert t[i..i + 3] == body[i..i + 3];
        assert t[i..i + 7][..3] == t[i..i + 3];
      }
    }
  }

  /**
   * Deleting every "```" from a text without "```" followed by one "```"
   * gives back the text: the first match is the closing fence, even when the
   * text ends in one or two backticks.
   */
  lemma {:induction false} RemoveClosingFence(body: string)
    requires !Occurs(body, Fence)
    ensures RemoveAll(body + Fence, Fence) == body
    decreases |body|
  {
    var t := body + Fence;
    if |body| < 3 && t[..3] == Fence {
      assert t[3..] == body by {
        forall i | 0 <= i < |body| ensures t[3..][i] == body[i] {
          assert body[i] == t[..3][i];
        }
      }
    } else {
      if |body| >= 3 {
        assert !OccursAt(body, Fence, 0);
        assert t[..3] == body[..3];
      }
      assert t[..3] != Fence;
      assert body != [];
      assert t[1..] == body[1..] + Fence;
      OccursInSuffix(body, 1, Fence);
      RemoveClosingFence(body[1..]);
      assert [body[0]] + body[1..] == body;
    }
  }

  /** A reply wrapped in a "```json" ... "```" fence cleans to its stripped body. */
  lemma CleanFenced(body: string)
    requires !Occurs(body, Fence)
    ensures Clean(JsonFence + body + Fence) == Strip(body)
  {
    var s := JsonFence + body + Fence;
    assert s[..|JsonFence|] == JsonFence;
    assert s[|JsonFence|..] == body + Fence;
    NoJsonFenceBeforeFence(body);
    RemoveAllChangesIffOccurs(body + Fence, JsonFence);
    assert RemoveAll(s, JsonFence) == body + Fence;
    RemoveClosingFence(body);
  }

  /** A newline at each end adds no "```". */
  lemma NewlinesAddNoFence(payload: string)
    requires !Occurs(payload, Fence)
    ensures !Occurs("\n" + payload + "\n", Fence)
  {
    var body := "\n" + payload + "\n";
    forall i: nat ensures !OccursAt(body, Fence, i) {
      if i + 3 <= |body| {
        if i == 0 {
          assert body[i..i + 3][0] == '\n';
        } else if i + 3 == |body| {
          assert body[i..i + 3][2] == '\n';
        } else {
          assert !OccursAt(payload, Fence, i - 1);
          assert body[i..i + 3] == payload[i - 1..i + 2];
        }
      }
    }
  }

  lemma StripNewlines(payload: string)
    requires Unpadded(payload)
    ensures Strip("\n" + payload + "\n") == payload
  {
    StripPadding("\n", payload, "\n");
  }

  /** The fenced reply "```json\n{...}\n```" cleans to exactly "{...}" when the payload holds no "```". */
  lemma CleanFencedPayload(payload: string)
    requires !Occurs(payload, Fence) && Unpadded(payload)
    ensures Clean(JsonFence + ("\n" + payload + "\n") + Fence) == payload
  {
    NewlinesAddNoFence(payload);
    CleanFenced("\n" + payload + "\n");
    StripNewlines(payload);
  }
}
