/** Removal of markdown code fences from a model reply, as both source files
    write it with `re.sub`, followed by `strip()`.

    `re.sub` scans left to right and replaces non-overlapping matches, taking
    the leftmost one first; at a position where both "```json" and "```"
    match, both spellings of the pattern consume the longer one. Matching is
    case-sensitive. */
module Fences {
  import opened PyText

  const Fence: string := "```"
  const JsonTag: string := "json"
  const JsonFence: string := "```json"

  const Tick: char := '`'

  /** A fence "```" begins at index `k` of `s`. */
  predicate FenceAt(s: string, k: nat)
    requires k + 3 <= |s|
  {
    s[k] == Tick && s[k + 1] == Tick && s[k + 2] == Tick
  }

  /** `s` begins with a fence. */
  predicate FenceFirst(s: string) {
    |s| >= 3 && FenceAt(s, 0)
  }

  predicate NoFence(s: string) {
    forall k: nat | k + 3 <= |s| :: !FenceAt(s, k)
  }

  /** `re.sub(r"```(?:json)?", "", s)` (extractor.py): match three backticks,
      then take the optional "json" whenever it follows. */
  function RemoveFencesOptional(s: string): (r: string)
    ensures |r| <= |s|
    decreases |s|
  {
    if s == [] then []
    else if FenceFirst(s) then
      var rest := s[3..];
      if StartsWith(rest, JsonTag) then RemoveFencesOptional(rest[4..])
      else RemoveFencesOptional(rest)
    else
      [s[0]] + RemoveFencesOptional(s[1..])
  }

  /** Fence removal leaves no fence behind, and its result can only begin
      with backticks that the input begins with. */
  lemma {:induction false} RemoveFencesLeavesNoFence(s: string)
    ensures var r := RemoveFencesOptional(s);
      && NoFence(r)
      && (|r| > 0 && r[0] == Tick ==> s[0] == Tick)
      && (|r| > 1 && r[0] == Tick && r[1] == Tick ==> s[1] == Tick)
    decreases |s|
  {
    if s == [] {
    } else if FenceFirst(s) {
      var rest := s[3..];
      if StartsWith(rest, JsonTag) {
        RemoveFencesLeavesNoFence(rest[4..]);
      } else {
        RemoveFencesLeavesNoFence(rest);
      }
    } else {
      var tail := RemoveFencesOptional(s[1..]);
      RemoveFencesLeavesNoFence(s[1..]);
      var r := [s[0]] + tail;
      forall k: nat | k + 3 <= |r| ensures !FenceAt(r, k) {
        if k > 0 {
          assert !FenceAt(tail, k - 1);
        }
      }
    }
  }

  /** `re.sub(r"```json|```", "", s)` (code.py): try the alternative "```json"
      first, then "```". */
  function RemoveFencesAlternation(s: string): (r: string)
    ensures |r| <= |s|
    ensures |r| == |s| ==> r == s
    decreases |s|
  {
    if s == [] then []
    else if StartsWith(s, JsonFence) then RemoveFencesAlternation(s[7..])
    else if FenceFirst(s) then RemoveFencesAlternation(s[3..])
    else [s[0]] + RemoveFencesAlternation(s[1..])
  }

  /** The two spellings of the pattern remove exactly the same text. */
  lemma {:induction false} SpellingsAgree(s: string)
    ensures RemoveFencesAlternation(s) == RemoveFencesOptional(s)
    decreases |s|
  {
    if s == [] {
    } else if StartsWith(s, JsonFence) {
      assert s[..7][..3] == s[..3];
      assert s[3..][..4] == s[..7][3..];
      assert s[3..][4..] == s[7..];
      SpellingsAgree(s[7..]);
    } else if FenceFirst(s) {
      var rest := s[3..];
      assert !StartsWith(rest, JsonTag);
      SpellingsAgree(rest);
    } else {
      assert !StartsWith(s, JsonFence);
      SpellingsAgree(s[1..]);
    }
  }

  /** A suffix of a fence-free string is fence-free. */
  lemma NoFenceSuffix(s: string, i: nat)
    requires NoFence(s) && i <= |s|
    ensures NoFence(s[i..])
  {
    forall k: nat | k + 3 <= |s[i..]| ensures !FenceAt(s[i..], k) {
      assert !FenceAt(s, i + k);
    }
  }

  /** A slice of a fence-free string is fence-free. */
  lemma NoFenceSlice(s: string, i: nat, j: nat)
    requires NoFence(s) && i <= j <= |s|
    ensures NoFence(s[i..j])
  {
    var u := s[i..j];
    forall k: nat | k + 3 <= |u| ensures !FenceAt(u, k) {
      assert !FenceAt(s, i + k);
    }
  }

  /** Where no fence starts, the first character is kept. */
  lemma RemoveFencesStep(s: string)
    requires s != [] && !FenceFirst(s)
    ensures RemoveFencesOptional(s) == [s[0]] + RemoveFencesOptional(s[1..])
  {
  }

  /** Text without a fence passes through fence removal unchanged. */
  lemma {:induction false} RemoveFencesIdentity(s: string)
    requires NoFence(s)
    ensures RemoveFencesOptional(s) == s
    decreases |s|
  {
    if s != [] {
      NoFenceSuffix(s, 1);
      RemoveFencesIdentity(s[1..]);
    }
  }

  /** A fence-free prefix that does not end in a backtick is copied through
      untouched: no match can start inside it. */
  lemma {:induction false} RemoveFencesPassThrough(b: string, z: string)
    requires Plain(b)
    ensures RemoveFencesOptional(b + z) == b + RemoveFencesOptional(z)
    decreases |b|
  {
    if b == [] {
      assert b + z == z;
    } else {
      var s := b + z;
      PlainNotFenceFirst(b, z);
      RemoveFencesStep(s);
      assert s[1..] == b[1..] + z;
      PlainTail(b);
      RemoveFencesPassThrough(b[1..], z);
      assert s[0] == b[0];
      ConsTail(b, RemoveFencesOptional(z));
    }
  }

  /** No fence starts at the front of a plain non-empty prefix. */
  lemma PlainNotFenceFirst(b: string, z: string)
    requires Plain(b) && b != []
    ensures !FenceFirst(b + z)
  {
    var s := b + z;
    if |b| >= 3 {
      assert !FenceAt(b, 0);
      assert s[0] == b[0] && s[1] == b[1] && s[2] == b[2];
    } else {
      assert s[|b| - 1] == b[|b| - 1];
    }
  }

  lemma ConsTail(b: string, y: string)
    requires b != []
    ensures [b[0]] + (b[1..] + y) == b + y
  {
    assert b == [b[0]] + b[1..];
  }

  /** Dropping the first character of a plain string leaves it plain. */
  lemma PlainTail(b: string)
    requires Plain(b) && b != []
    ensures Plain(b[1..])
  {
    NoFenceSuffix(b, 1);
  }

  /** "```json" is always removed together with its tag. */
  lemma RemoveJsonFence(z: string)
    ensures RemoveFencesOptional(JsonFence + z) == RemoveFencesOptional(z)
  {
    var s := JsonFence + z;
    assert FenceFirst(s);
    assert s[3..][..4] == JsonTag;
    assert s[3..][4..] == z;
  }

  /** A bare "```" is removed on its own when no "json" follows it. */
  lemma RemoveBareFence(z: string)
    requires !StartsWith(z, JsonTag)
    ensures RemoveFencesOptional(Fence + z) == RemoveFencesOptional(z)
  {
    var s := Fence + z;
    assert FenceFirst(s);
    assert s[3..] == z;
  }

  /** `re.sub(r"```(?:json)?", "", s).strip()` (extractor.py:140): the cleaned
      reply holds no fence and has no whitespace at either end. */
  function CleanReply(s: string): (r: string)
    ensures NoFence(r) && Trimmed(r)
  {
    var t := RemoveFencesOptional(s);
    RemoveFencesLeavesNoFence(s);
    StripKeepsNoFence(t);
    Strip(t)
  }

  /** `strip()` only cuts text off the ends, so it cannot create a fence. */
  lemma StripKeepsNoFence(t: string)
    requires NoFence(t)
    ensures NoFence(Strip(t))
  {
    var l := LStrip(t);
    NoFenceSuffix(t, |t| - |l|);
    var r := RStrip(l);
    NoFenceSlice(l, 0, |r|);
    assert Strip(t) == r;
  }

  /** `re.sub(r"```json|```", "", s).strip()` (code.py:57): the same text as
      the extractor's spelling, hence fence-free and trimmed too. */
  function CleanReplyAlternation(s: string): (r: string)
    ensures r == CleanReply(s)
  {
    SpellingsAgree(s);
    Strip(RemoveFencesAlternation(s))
  }

  /** A reply that is already fence-free and trimmed is left unchanged. */
  lemma CleanReplyIdentity(s: string)
    requires NoFence(s) && Trimmed(s)
    ensures CleanReply(s) == s
  {
    RemoveFencesIdentity(s);
  }

  /** Cleaning is idempotent. */
  lemma CleanReplyIdempotent(s: string)
    ensures CleanReply(CleanReply(s)) == CleanReply(s)
  {
    CleanReplyIdentity(CleanReply(s));
  }

  lemma SpacesHaveNoFence(ws: string)
    requires AllSpace(ws)
    ensures NoFence(ws) && (ws == [] || ws[|ws| - 1] != Tick)
  {
    forall k: nat | k + 3 <= |ws| ensures !FenceAt(ws, k) {
      assert IsSpace(ws[k]);
    }
  }

  /** Text that fence removal copies through when anything follows it: no
      fence inside and no backtick at its end. */
  predicate Plain(s: string) {
    NoFence(s) && (s == [] || s[|s| - 1] != Tick)
  }

  lemma SpacesArePlain(ws: string)
    requires AllSpace(ws)
    ensures Plain(ws) && !StartsWith(ws, JsonTag)
  {
    SpacesHaveNoFence(ws);
    if |ws| >= 4 { assert IsSpace(ws[0]); }
  }

  /** A closing fence followed by plain text that does not begin with "json" disappears. */
  lemma RemoveClosingFence(tail: string)
    requires NoFence(tail) && !StartsWith(tail, JsonTag)
    ensures RemoveFencesOptional(Fence + tail) == tail
  {
    RemoveBareFence(tail);
    RemoveFencesIdentity(tail);
  }

  /** Fence removal on the part of a fenced reply after its opening fence:
      padding, the body, padding, the closing fence, padding. */
  lemma RemoveFencesAfterTag(pad2: string, body: string, pad3: string, pad4: string)
    requires Plain(pad2) && Plain(body) && Plain(pad3)
    requires NoFence(pad4) && !StartsWith(pad4, JsonTag)
    ensures RemoveFencesOptional(pad2 + body + pad3 + Fence + pad4) == pad2 + body + pad3 + pad4
  {
    var closing := Fence + pad4;
    RemoveClosingFence(pad4);
    CopyThrough(pad3, closing, pad4);
    CopyThrough(body, pad3 + closing, pad3 + pad4);
    CopyThrough(pad2, body + (pad3 + closing), body + (pad3 + pad4));
    Regroup(pad2, body, pad3, Fence, pad4);
  }

  lemma CopyThrough(a: string, z: string, rz: string)
    requires Plain(a) && RemoveFencesOptional(z) == rz
    ensures RemoveFencesOptional(a + z) == a + rz
  {
    RemoveFencesPassThrough(a, z);
  }

  lemma Regroup(a: string, b: string, c: string, d: string, e: string)
    ensures a + b + c + d + e == a + (b + (c + (d + e)))
    ensures a + b + c + e == a + (b + (c + e))
  {
  }

  /** An opening fence, with or without its tag, is removed and the text
      before it is copied through. */
  lemma RemoveOpeningFence(pad1: string, tag: string, afterTag: string, inner: string)
    requires Plain(pad1)
    requires tag == JsonFence || (tag == Fence && !StartsWith(afterTag, JsonTag))
    requires RemoveFencesOptional(afterTag) == inner
    ensures RemoveFencesOptional(pad1 + (tag + afterTag)) == pad1 + inner
  {
    if tag == JsonFence { RemoveJsonFence(afterTag); } else { RemoveBareFence(afterTag); }
    CopyThrough(pad1, tag + afterTag, inner);
  }

  /** Text whose first character is not 'j' cannot begin with the tag. */
  lemma NotTagged(x: string)
    requires x != [] && x[0] != 'j'
    ensures !StartsWith(x, JsonTag)
  {
    if |x| >= 4 { assert x[..4][0] == x[0]; }
  }

  /** What follows a bare opening fence starts with whitespace, the body's
      first character, or the closing fence. */
  lemma AfterTagNotTagged(ws2: string, body: string, ws3: string, ws4: string)
    requires AllSpace(ws2) && AllSpace(ws3)
    requires body == [] || body[0] != 'j'
    ensures !StartsWith(ws2 + body + ws3 + Fence + ws4, JsonTag)
  {
    var x := ws2 + body + ws3 + Fence + ws4;
    if ws2 != [] {
      assert x[0] == ws2[0] && IsSpace(ws2[0]);
    } else if body != [] {
      assert x[0] == body[0];
    } else if ws3 != [] {
      assert x[0] == ws3[0] && IsSpace(ws3[0]);
    } else {
      assert x[0] == Fence[0];
    }
    NotTagged(x);
  }

  lemma RegroupReply(ws1: string, tag: string, ws2: string, body: string, ws3: string, ws4: string)
    ensures ws1 + tag + ws2 + body + ws3 + Fence + ws4 == ws1 + (tag + (ws2 + body + ws3 + Fence + ws4))
    ensures ws1 + (ws2 + body + ws3 + ws4) == (ws1 + ws2) + body + (ws3 + ws4)
  {
  }

  /** A body wrapped in a fence, with or without the "json" tag and with any
      whitespace around the fences, cleans to the body itself, provided the
      body holds no fence, is trimmed, does not end in a backtick and, after a
      bare fence, does not begin with 'j' (the start of the tag). */
  lemma CleanFencedBody(ws1: string, tag: string, ws2: string, body: string, ws3: string, ws4: string)
    requires AllSpace(ws1) && AllSpace(ws2) && AllSpace(ws3) && AllSpace(ws4)
    requires tag == JsonFence || (tag == Fence && (body == [] || body[0] != 'j'))
    requires Plain(body) && Trimmed(body)
    ensures CleanReply(ws1 + tag + ws2 + body + ws3 + Fence + ws4) == body
  {
    var afterTag := ws2 + body + ws3 + Fence + ws4;
    var inner := ws2 + body + ws3 + ws4;
    SpacesArePlain(ws1);
    SpacesArePlain(ws2);
    SpacesArePlain(ws3);
    SpacesArePlain(ws4);
    RemoveFencesAfterTag(ws2, body, ws3, ws4);
    if tag == Fence { AfterTagNotTagged(ws2, body, ws3, ws4); }
    RemoveOpeningFence(ws1, tag, afterTag, inner);
    RegroupReply(ws1, tag, ws2, body, ws3, ws4);
    AllSpaceConcat(ws1, ws2);
    AllSpaceConcat(ws3, ws4);
    StripPadded(ws1 + ws2, body, ws3 + ws4);
  }

  /** Matching is case-sensitive: after a fence, an upper-case "JSON" is not
      part of the match and stays in the text. */
  lemma UpperCaseTagSurvives(z: string)
    ensures RemoveFencesOptional(Fence + "JSON" + z) == "JSON" + RemoveFencesOptional(z)
  {
    var upper := "JSON";
    assert !StartsWith(upper + z, JsonTag) by { assert (upper + z)[0] != JsonTag[0]; }
    assert Fence + upper + z == Fence + (upper + z);
    RemoveBareFence(upper + z);
    assert NoFence(upper) by {
      forall k: nat | k + 3 <= |upper| ensures !FenceAt(upper, k) {
        assert upper[k] != Tick;
      }
    }
    RemoveFencesPassThrough(upper, z);
  }
}
