/** Python string behaviour the pipeline relies on: `str.isspace()` and the
    argument-less `str.strip()`, plus small facts about prefixes. */
module PyText {

  /** The characters for which Python's `str.isspace()` holds; `str.strip()`
      with no argument removes exactly these from both ends. */
  predicate IsSpace(c: char) {
    var n := c as int;
    || 9 <= n <= 13
    || 28 <= n <= 32
    || n == 0x85 || n == 0xA0 || n == 0x1680
    || 0x2000 <= n <= 0x200A
    || n == 0x2028 || n == 0x2029 || n == 0x202F || n == 0x205F || n == 0x3000
  }

  predicate AllSpace(s: string) {
    forall k | 0 <= k < |s| :: IsSpace(s[k])
  }

  /** No whitespace at either end: what `strip()` leaves. */
  predicate Trimmed(s: string) {
    s == [] || (!IsSpace(s[0]) && !IsSpace(s[|s| - 1]))
  }

  predicate StartsWith(s: string, p: string) {
    |p| <= |s| && s[..|p|] == p
  }

  /** `s.lstrip()`: the longest suffix of `s` that does not start with whitespace. */
  function LStrip(s: string): (r: string)
    ensures |r| <= |s| && r == s[|s| - |r|..]
    ensures AllSpace(s[..|s| - |r|])
    ensures r == [] || !IsSpace(r[0])
    decreases |s|
  {
    if s != [] && IsSpace(s[0]) then
      var r := LStrip(s[1..]);
      assert s[..|s| - |r|] == [s[0]] + s[1..][..|s| - 1 - |r|];
      r
    else
      s
  }

  /** `s.rstrip()`: the longest prefix of `s` that does not end in whitespace. */
  function RStrip(s: string): (r: string)
    ensures |r| <= |s| && r == s[..|r|]
    ensures AllSpace(s[|r|..])
    ensures r == [] || !IsSpace(r[|r| - 1])
    decreases |s|
  {
    if s != [] && IsSpace(s[|s| - 1]) then
      var r := RStrip(s[..|s| - 1]);
      assert s[|r|..] == s[..|s| - 1][|r|..] + [s[|s| - 1]];
      r
    else
      s
  }

  /** `s.strip()`: `s` with the whitespace at both ends removed. The result
      is trimmed, and a string that is already trimmed comes back unchanged;
      StripRemovesOnlySpace says what was cut off. */
  function Strip(s: string): (r: string)
    ensures Trimmed(r)
    ensures Trimmed(s) ==> r == s
  {
    RStrip(LStrip(s))
  }

  /** What `strip()` returns is a slice of its argument with nothing but
      whitespace before and after it. */
  lemma StripRemovesOnlySpace(s: string)
    ensures exists i :: PaddedAt(s, i, Strip(s))
  {
    var l := LStrip(s);
    var r := Strip(s);
    assert r == RStrip(l);
    var i := |s| - |l|;
    assert s[i..i + |r|] == r;
    assert s[i + |r|..] == l[|r|..];
    assert PaddedAt(s, i, r);
  }

  /** `s` is `r` with only whitespace before it (up to index `i`) and after it. */
  predicate PaddedAt(s: string, i: int, r: string) {
    && 0 <= i <= |s| - |r|
    && s[i..i + |r|] == r
    && AllSpace(s[..i])
    && AllSpace(s[i + |r|..])
  }

  /** Whitespace padding around a trimmed string is exactly what `strip()` removes. */
  lemma {:induction false} StripPadded(a: string, b: string, c: string)
    requires AllSpace(a) && AllSpace(c) && Trimmed(b)
    ensures Strip(a + b + c) == b
  {
    if b == [] {
      assert a + b + c == a + c;
      AllSpaceConcat(a, c);
      StripAllSpace(a + c);
    } else {
      var s := a + b + c;
      assert s == a + (b + c);
      assert (b + c)[0] == b[0];
      LStripSpaces(a, b + c);
      RStripSpaces(b, c);
      assert Strip(s) == RStrip(LStrip(s));
    }
  }

  /** `strip()` of whitespace alone is empty. */
  lemma StripAllSpace(s: string)
    requires AllSpace(s)
    ensures Strip(s) == []
  {
    LStripAllSpace(s);
  }

  lemma {:induction false} LStripAllSpace(s: string)
    requires AllSpace(s)
    ensures LStrip(s) == []
    decreases |s|
  {
    if s != [] {
      AllSpaceTail(s);
      LStripAllSpace(s[1..]);
    }
  }

  lemma {:induction false} LStripSpaces(a: string, t: string)
    requires AllSpace(a) && t != [] && !IsSpace(t[0])
    ensures LStrip(a + t) == t
    decreases |a|
  {
    if a == [] {
      assert a + t == t;
    } else {
      var s := a + t;
      assert s[0] == a[0];
      assert s[1..] == a[1..] + t;
      AllSpaceTail(a);
      LStripSpaces(a[1..], t);
      assert LStrip(s) == LStrip(s[1..]);
    }
  }

  lemma AllSpaceTail(a: string)
    requires a != [] && AllSpace(a)
    ensures IsSpace(a[0]) && AllSpace(a[1..])
  {
    forall k | 0 <= k < |a| - 1 ensures IsSpace(a[1..][k]) {
      assert a[1..][k] == a[k + 1];
    }
  }

  lemma {:induction false} RStripSpaces(t: string, c: string)
    requires AllSpace(c) && t != [] && !IsSpace(t[|t| - 1])
    ensures RStrip(t + c) == t
    decreases |c|
  {
    if c != [] {
      assert (t + c)[..|t + c| - 1] == t + c[..|c| - 1];
      RStripSpaces(t, c[..|c| - 1]);
    } else {
      assert t + c == t;
    }
  }

  lemma AllSpaceConcat(a: string, b: string)
    requires AllSpace(a) && AllSpace(b)
    ensures AllSpace(a + b)
  {
    forall k | 0 <= k < |a + b| ensures IsSpace((a + b)[k]) {
      if k < |a| { assert (a + b)[k] == a[k]; } else { assert (a + b)[k] == b[k - |a|]; }
    }
  }

  /** Appending one whitespace character never changes what `strip()` returns. */
  lemma StripIgnoresTrailingSpace(s: string, ch: char)
    requires IsSpace(ch)
    ensures Strip(s + [ch]) == Strip(s)
  {
    LStripAppendSpace(s, ch);
    var l := LStrip(s);
    if l != [] {
      assert (l + [ch])[..|l|] == l;
    }
  }

  /** Left-stripping commutes with appending whitespace, unless everything
      was whitespace. */
  lemma {:induction false} LStripAppendSpace(s: string, ch: char)
    requires IsSpace(ch)
    ensures LStrip(s + [ch]) == if LStrip(s) == [] then [] else LStrip(s) + [ch]
    decreases |s|
  {
    if s == [] {
      assert LStrip([ch]) == LStrip([ch][1..]);
    } else if IsSpace(s[0]) {
      assert (s + [ch])[1..] == s[1..] + [ch];
      LStripAppendSpace(s[1..], ch);
    }
  }
}
