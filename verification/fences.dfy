/** Cleaning of the generator's raw reply before it is parsed: the text is
    trimmed, then every match of the global regular expression
    /```json\n?|\n?```/ is deleted, scanning left to right as
    `String.prototype.replace` does. */
module Fences {
  import opened Text

  const OpeningFence: string := "```json"
  const Fence: string := "```"

  predicate StartsWith(s: string, prefix: string) {
    |prefix| <= |s| && s[..|prefix|] == prefix
  }

  predicate NoBacktick(s: string) {
    forall i :: 0 <= i < |s| ==> s[i] != '`'
  }

  /** Length of the match of the pattern at the start of `s`, or 0 when it does
      not match there. The first alternative is tried first and its optional line
      feed is greedy; the second alternative takes a line feed only when a fence
      follows it. */
  function FenceMatch(s: string): (m: nat)
    ensures m <= |s|
    ensures m > 0 <==> StartsWith(s, Fence) || StartsWith(s, "\n" + Fence)
    ensures m > 0 ==> s[0] == '`' || (|s| > 1 && s[1] == '`')
    ensures m > 0 ==> s[..m] in {OpeningFence + "\n", OpeningFence, "\n" + Fence, Fence}
  {
    if StartsWith(s, OpeningFence) then
      if |s| > 7 && s[7] == '\n' then
        assert s[..8] == s[..7] + [s[7]];
        8
      else 7
    else if StartsWith(s, "\n" + Fence) then 4
    else if StartsWith(s, Fence) then 3
    else 0
  }

  /** One global replace pass with the empty string: each match is deleted and
      scanning resumes right after it; elsewhere one character is kept and
      scanning moves on by one. */
  function StripFences(s: string): (r: string)
    ensures |r| <= |s|
    decreases |s|
  {
    if |s| == 0 then []
    else
      var m := FenceMatch(s);
      if m > 0 then StripFences(s[m..]) else [s[0]] + StripFences(s[1..])
  }

  /** `responseText.trim().replace(/```json\n?|\n?```/g, '')`. */
  function CleanResponse(text: string): (r: string)
    ensures |r| <= |Trim(text)|
  {
    StripFences(Trim(text))
  }

  /** The reply a model gives when it wraps its JSON in a fenced block. */
  function Fenced(s: string): string {
    OpeningFence + "\n" + s + "\n" + Fence
  }

  /** Fence stripping only deletes characters. */
  lemma {:induction false} StripFencesDeletesOnly(s: string)
    ensures IsSubsequence(StripFences(s), s)
    decreases |s|
  {
    if |s| > 0 {
      var m := FenceMatch(s);
      if m > 0 {
        StripFencesDeletesOnly(s[m..]);
        SubsequenceOfSuffix(StripFences(s[m..]), s, m);
      } else {
        var r := StripFences(s);
        StripFencesDeletesOnly(s[1..]);
        assert r[0] == s[0] && r[1..] == StripFences(s[1..]);
      }
    }
  }

  /** Cleaning keeps a subsequence of the trimmed reply, never longer than it. */
  lemma CleanResponseDeletesOnly(text: string)
    ensures IsSubsequence(CleanResponse(text), Trim(text))
    ensures |CleanResponse(text)| <= |Trim(text)|
  {
    StripFencesDeletesOnly(Trim(text));
  }

  /** Text without backticks contains no match, so stripping leaves it alone. */
  lemma {:induction false} StripFencesOfPlainText(s: string)
    requires NoBacktick(s)
    ensures StripFences(s) == s
    decreases |s|
  {
    if |s| > 0 {
      assert FenceMatch(s) == 0;
      assert NoBacktick(s[1..]);
      StripFencesOfPlainText(s[1..]);
    }
  }

  /** For backtick-free text, cleaning is exactly `trim`. */
  lemma CleanPlainText(t: string)
    requires NoBacktick(t)
    ensures CleanResponse(t) == Trim(t)
  {
    var r := Trim(t);
    assert NoBacktick(r) by {
      forall i | 0 <= i < |r| ensures r[i] != '`' {
        assert r[i] in t;
      }
    }
    StripFencesOfPlainText(r);
  }

  /** No match can start where neither of the first two characters is a backtick. */
  lemma NoFenceAt(t: string)
    requires |t| > 0 && t[0] != '`' && !(t[0] == '\n' && |t| > 1 && t[1] == '`')
    ensures FenceMatch(t) == 0
  {
    assert !StartsWith(t, Fence) by {
      if |t| >= 3 { assert t[..3][0] != Fence[0]; }
    }
    assert !StartsWith(t, "\n" + Fence) by {
      if |t| >= 4 { assert t[..4][0] == t[0] && t[..4][1] == t[1]; }
    }
  }

  /** The closing line feed and fence after backtick-free text are deleted and
      nothing else is. */
  lemma {:induction false} StripClosingFence(s: string)
    requires NoBacktick(s)
    ensures StripFences(s + "\n" + Fence) == s
    decreases |s|
  {
    var t := s + "\n" + Fence;
    if |s| == 0 {
      assert t == "\n```";
      assert FenceMatch(t) == 4;
      assert t[4..] == [];
    } else {
      assert t[0] == s[0] && t[1] == (if |s| > 1 then s[1] else '\n');
      NoFenceAt(t);
      assert t[1..] == s[1..] + "\n" + Fence;
      StripClosingFence(s[1..]);
    }
  }

  /** A fenced reply starts and ends with a backtick, so `trim` leaves it alone. */
  lemma FencedIsTrimmed(s: string)
    ensures Trim(Fenced(s)) == Fenced(s)
  {
    var w := Fenced(s);
    assert w[0] == '`' && w[|w| - 1] == '`';
    TrimOfTrimmed(w);
  }

  /** The opening fence and its line feed form the first match. */
  lemma OpeningFenceStripped(s: string)
    ensures StripFences(Fenced(s)) == StripFences(s + "\n" + Fence)
  {
    var w := Fenced(s);
    assert w[..7] == OpeningFence && w[7] == '\n';
    assert FenceMatch(w) == 8;
    assert w[8..] == s + "\n" + Fence;
  }

  /** A closing bare fence right after backtick-free text that does not end in a
      line feed is deleted, and nothing else is. */
  lemma {:induction false} StripClosingBareFence(s: string)
    requires NoBacktick(s) && (s == [] || s[|s| - 1] != '\n')
    ensures StripFences(s + Fence) == s
    decreases |s|
  {
    var t := s + Fence;
    if |s| == 0 {
      assert t == Fence && StartsWith(t, Fence);
      assert FenceMatch(t) == 3;
      assert t[3..] == [];
    } else {
      assert t[0] == s[0] && t[1] == (if |s| > 1 then s[1] else '`');
      NoFenceAt(t);
      assert t[1..] == s[1..] + Fence;
      StripClosingBareFence(s[1..]);
    }
  }

  /** An opening bare fence not followed by "json" is one match of three characters. */
  lemma OpeningBareFenceStripped(u: string)
    requires !StartsWith(u, "json")
    ensures StripFences(Fence + u) == StripFences(u)
  {
    var t := Fence + u;
    assert !StartsWith(t, OpeningFence) by {
      if |t| >= 7 { assert t[..7][3..] == u[..4]; }
    }
    assert StartsWith(t, Fence);
    assert FenceMatch(t) == 3;
    assert t[3..] == u;
  }

  /** Appending a fence cannot make backtick-free text start with "json". */
  lemma NoJsonBeforeFence(s: string)
    requires NoBacktick(s) && !StartsWith(s, "json")
    ensures !StartsWith(s + Fence, "json")
  {
    if |s| >= 4 {
      assert (s + Fence)[..4] == s[..4];
    } else {
      assert (s + Fence)[|s|] == '`' && "json"[|s|] != '`';
    }
  }

  /** A reply fenced by bare fences on the same line, "```{…}```", cleans to its
      body. */
  lemma BareFencedRoundTrip(s: string)
    requires NoBacktick(s) && !StartsWith(s, "json") && (s == [] || s[|s| - 1] != '\n')
    ensures StripFences(Fence + s + Fence) == s
  {
    NoJsonBeforeFence(s);
    assert Fence + s + Fence == Fence + (s + Fence);
    OpeningBareFenceStripped(s + Fence);
    StripClosingBareFence(s);
  }

  /** A reply fenced on separate lines by bare fences, "```\n{…}\n```", cleans to
      its body with the leading line feed kept. */
  lemma BareFencedLinesRoundTrip(s: string)
    requires NoBacktick(s)
    ensures StripFences(Fence + "\n" + s + "\n" + Fence) == "\n" + s
  {
    var u := "\n" + s;
    assert !StartsWith(u + "\n" + Fence, "json") by {
      assert (u + "\n" + Fence)[0] == '\n';
    }
    assert Fence + "\n" + s + "\n" + Fence == Fence + (u + "\n" + Fence);
    OpeningBareFenceStripped(u + "\n" + Fence);
    assert NoBacktick(u) by {
      forall i | 0 <= i < |u| ensures u[i] != '`' {
        if i > 0 { assert u[i] == s[i - 1]; }
      }
    }
    StripClosingFence(u);
  }

  lemma InlineJsonFenceMatch(s: string)
    requires s == [] || s[0] != '\n'
    ensures FenceMatch(OpeningFence + s + Fence) == 7
    ensures (OpeningFence + s + Fence)[7..] == s + Fence
  {
    var t := OpeningFence + s + Fence;
    assert t[..7] == OpeningFence;
    assert t[7] == if s == [] then '`' else s[0];
  }

  /** A ```json fence on the same line as its body, "```json{…}```", is a
      seven-character match, and the body comes back. */
  lemma InlineJsonFenceRoundTrip(s: string)
    requires NoBacktick(s) && (s == [] || (s[0] != '\n' && s[|s| - 1] != '\n'))
    ensures StripFences(OpeningFence + s + Fence) == s
  {
    InlineJsonFenceMatch(s);
    StripClosingBareFence(s);
  }

  /** Round trip: a backtick-free JSON text wrapped in a ```json fence cleans
      back to exactly that text. */
  lemma FencedRoundTrip(s: string)
    requires NoBacktick(s)
    ensures CleanResponse(Fenced(s)) == s
  {
    FencedIsTrimmed(s);
    OpeningFenceStripped(s);
    StripClosingFence(s);
  }

  /** The fenced and unfenced forms of an already trimmed, backtick-free text
      clean to the same string, so they reach the parser identically. */
  lemma FencedCleansLikeUnfenced(s: string)
    requires NoBacktick(s)
    requires Trim(s) == s
    ensures CleanResponse(Fenced(s)) == CleanResponse(s) == s
  {
    FencedRoundTrip(s);
    CleanPlainText(s);
  }

  /** One pass is not idempotent: deleting a match can bring two backtick runs
      together into a new fence, which survives the pass. */
  lemma StripFencesCanLeaveAFence()
    ensures StripFences("``\n````") == "```"
  {
    var s := "``\n````";
    assert s[2] == '\n';
    assert !StartsWith(s, Fence) by { assert s[..3][2] != Fence[2]; }
    assert !StartsWith(s, "\n" + Fence) by { assert s[..4][0] != '\n'; }
    assert FenceMatch(s) == 0;
    var s1 := s[1..];
    assert s1 == "`\n````";
    assert !StartsWith(s1, Fence) by { assert s1[..3][1] != Fence[1]; }
    assert !StartsWith(s1, "\n" + Fence) by { assert s1[..4][0] != '\n'; }
    assert FenceMatch(s1) == 0;
    var s2 := s1[1..];
    assert s2 == "\n````";
    assert StartsWith(s2, "\n" + Fence) && !StartsWith(s2, OpeningFence);
    assert FenceMatch(s2) == 4;
    assert s2[4..] == "`";
    assert FenceMatch("`") == 0;
    assert "`"[1..] == [];
  }
}
