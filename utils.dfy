/**
 * The pure string helpers of src/lib/utils.ts: `generateSlug`, `truncateText`,
 * `getInitials`, and the time buckets of `formatRelativeTime`.
 */
module Utils {
  import opened Wrappers
  import opened Strings
  import Arith

  // ---------------------------------------------------------------- generateSlug

  /** The characters `/[^a-z0-9\s-]/g` does not remove. */
  predicate KeptBySlugFilter(c: char) {
    IsAsciiLower(c) || IsDigit(c) || IsSpace(c) || c == '-'
  }

  /** The characters a slug is made of. */
  predicate IsSlugChar(c: char) {
    IsAsciiLower(c) || IsDigit(c) || c == '-'
  }

  predicate IsDash(c: char) {
    c == '-'
  }

  /** A letter or digit of a slug: every slug character except `-`. */
  predicate IsSlugAlnum(c: char) {
    IsAsciiLower(c) || IsDigit(c)
  }

  predicate NotDash(c: char) {
    c != '-'
  }

  /** The characters of `s` satisfying `q`, in their order in `s`. */
  function Filter(s: string, q: char -> bool): (r: string)
    ensures forall i :: 0 <= i < |r| ==> q(r[i]) && r[i] in s
    ensures forall i :: 0 <= i < |s| && q(s[i]) ==> s[i] in r
    decreases |s|
  {
    if |s| == 0 then []
    else
      var rest := Filter(s[1..], q);
      assert forall i :: 1 <= i < |s| ==> s[i] == s[1..][i - 1];
      (if q(s[0]) then [s[0]] else []) + rest
  }

  /** Filtering by two tests that agree on every character of `s` gives the same result. */
  lemma {:induction false} FilterAgree(s: string, q1: char -> bool, q2: char -> bool)
    requires forall i :: 0 <= i < |s| ==> (q1(s[i]) <==> q2(s[i]))
    ensures Filter(s, q1) == Filter(s, q2)
    decreases |s|
  {
    if |s| > 0 {
      FilterAgree(s[1..], q1, q2);
    }
  }

  /**
   * `replace(/[^a-z0-9\s-]/g, '')`: the allowed characters are kept and the others
   * dropped; `RemoveDisallowedAppend` and `RemoveDisallowedKeepsOrder` say that the
   * order is kept too.
   */
  function RemoveDisallowed(s: string): (r: string)
    ensures forall i :: 0 <= i < |r| ==> KeptBySlugFilter(r[i]) && r[i] in s
    ensures forall i :: 0 <= i < |s| && KeptBySlugFilter(s[i]) ==> s[i] in r
    ensures (forall i :: 0 <= i < |s| ==> KeptBySlugFilter(s[i])) ==> r == s
    ensures |s| > 0 && KeptBySlugFilter(s[0]) ==> |r| > 0 && r[0] == s[0]
    decreases |s|
  {
    if |s| == 0 then []
    else
      var rest := RemoveDisallowed(s[1..]);
      assert forall i :: 1 <= i < |s| ==> s[i] == s[1..][i - 1];
      if KeptBySlugFilter(s[0]) then [s[0]] + rest
      else rest
  }

  /** The filter works character by character, so it distributes over concatenation. */
  lemma {:induction false} RemoveDisallowedAppend(a: string, b: string)
    ensures RemoveDisallowed(a + b) == RemoveDisallowed(a) + RemoveDisallowed(b)
    decreases |a|
  {
    if |a| == 0 {
      assert a + b == b;
    } else {
      assert (a + b)[0] == a[0] && (a + b)[1..] == a[1..] + b;
      RemoveDisallowedAppend(a[1..], b);
    }
  }

  /** Every class of allowed characters comes through the filter whole and in order. */
  lemma {:induction false} RemoveDisallowedKeepsOrder(s: string, q: char -> bool)
    requires forall c :: q(c) ==> KeptBySlugFilter(c)
    ensures Filter(RemoveDisallowed(s), q) == Filter(s, q)
    decreases |s|
  {
    if |s| > 0 {
      RemoveDisallowedKeepsOrder(s[1..], q);
      if KeptBySlugFilter(s[0]) {
        var t := [s[0]] + RemoveDisallowed(s[1..]);
        assert t[0] == s[0] && t[1..] == RemoveDisallowed(s[1..]);
      }
    }
  }

  /** What is left after the leading run of characters satisfying `p`. */
  function DropWhile(s: string, p: char -> bool): (r: string)
    ensures |r| <= |s| && r == s[|s| - |r|..]
    ensures r == [] || !p(r[0])
    ensures |s| > 0 && p(s[0]) ==> |r| < |s|
    decreases |s|
  {
    if |s| > 0 && p(s[0]) then DropWhile(s[1..], p) else s
  }

  /** Everything `DropWhile` drops satisfies `p`. */
  lemma {:induction false} DropWhileDropsRun(s: string, p: char -> bool)
    ensures forall i :: 0 <= i < |s| - |DropWhile(s, p)| ==> p(s[i])
    decreases |s|
  {
    if |s| > 0 && p(s[0]) {
      DropWhileDropsRun(s[1..], p);
      assert forall i :: 1 <= i < |s| ==> s[i] == s[1..][i - 1];
    }
  }

  /**
   * `replace(/P+/g, rep)`: every maximal run of characters satisfying `p` becomes
   * the single character `rep`; every other character is kept.  The contract gives
   * the characters; `CollapseRunsSplit`, `CollapseRunsOfRun` and `CollapseRunsKeepsOthers`
   * give the runs and the order.
   */
  function CollapseRuns(s: string, p: char -> bool, rep: char): (r: string)
    ensures forall i :: 0 <= i < |r| ==> r[i] == rep || (r[i] in s && !p(r[i]))
    ensures forall i :: 0 <= i < |s| && !p(s[i]) ==> s[i] in r
    ensures |r| == 0 <==> |s| == 0
    ensures |s| > 0 && !p(s[0]) ==> r[0] == s[0]
    ensures |s| > 0 && p(s[0]) ==> r[0] == rep
    decreases |s|
  {
    if |s| == 0 then []
    else if p(s[0]) then
      var rest := DropWhile(s, p);
      var r := CollapseRuns(rest, p, rep);
      DropWhileDropsRun(s, p);
      assert forall c :: c in rest ==> c in s;
      assert forall i :: |s| - |rest| <= i < |s| ==> s[i] == rest[i - (|s| - |rest|)];
      [rep] + r
    else
      var r := CollapseRuns(s[1..], p, rep);
      assert forall c :: c in s[1..] ==> c in s;
      assert forall i :: 1 <= i < |s| ==> s[i] == s[1..][i - 1];
      [s[0]] + r
  }

  /** One step into a run: a run that goes on is absorbed, a run that ends leaves one `rep`. */
  lemma CollapseRunsStep(s: string, p: char -> bool, rep: char)
    requires |s| > 0 && p(s[0])
    ensures |s| > 1 && p(s[1]) ==> CollapseRuns(s, p, rep) == CollapseRuns(s[1..], p, rep)
    ensures (|s| == 1 || !p(s[1])) ==> CollapseRuns(s, p, rep) == [rep] + CollapseRuns(s[1..], p, rep)
  {
    assert DropWhile(s, p) == DropWhile(s[1..], p);
  }

  /** What the first character of `s` contributes to the collapsed string. */
  function RunHead(s: string, p: char -> bool, rep: char): string
    requires |s| > 0
  {
    if !p(s[0]) then [s[0]] else if |s| > 1 && p(s[1]) then [] else [rep]
  }

  lemma CollapseRunsCons(s: string, p: char -> bool, rep: char)
    requires |s| > 0
    ensures CollapseRuns(s, p, rep) == RunHead(s, p, rep) + CollapseRuns(s[1..], p, rep)
  {
    if p(s[0]) {
      CollapseRunsStep(s, p, rep);
    }
  }

  /** A whole run, however long, becomes one `rep`. */
  lemma {:induction false} CollapseRunsOfRun(s: string, p: char -> bool, rep: char)
    requires |s| > 0 && forall i :: 0 <= i < |s| ==> p(s[i])
    ensures CollapseRuns(s, p, rep) == [rep]
    decreases |s|
  {
    CollapseRunsStep(s, p, rep);
    if |s| > 1 {
      CollapseRunsOfRun(s[1..], p, rep);
    }
  }

  /**
   * Collapsing splits at any character outside the class: what comes before it and
   * what comes from it on are collapsed independently.
   */
  lemma {:induction false} CollapseRunsSplit(s: string, p: char -> bool, rep: char, k: int)
    requires 0 <= k < |s| && !p(s[k])
    ensures CollapseRuns(s, p, rep) == CollapseRuns(s[..k], p, rep) + CollapseRuns(s[k..], p, rep)
    decreases |s|
  {
    if k == 0 {
      assert s[..k] == [] && s[k..] == s;
    } else {
      var pre := s[..k];
      SplitHeads(s, k, p, rep);
      calc {
        CollapseRuns(s, p, rep);
      == { CollapseRunsCons(s, p, rep); }
        RunHead(s, p, rep) + CollapseRuns(s[1..], p, rep);
      == { assert s[1..][k - 1] == s[k];
           CollapseRunsSplit(s[1..], p, rep, k - 1); }
        RunHead(s, p, rep) + (CollapseRuns(pre[1..], p, rep) + CollapseRuns(s[k..], p, rep));
      == { ConcatAssoc(RunHead(s, p, rep), CollapseRuns(pre[1..], p, rep), CollapseRuns(s[k..], p, rep)); }
        (RunHead(pre, p, rep) + CollapseRuns(pre[1..], p, rep)) + CollapseRuns(s[k..], p, rep);
      == { CollapseRunsCons(pre, p, rep); }
        CollapseRuns(pre, p, rep) + CollapseRuns(s[k..], p, rep);
      }
    }
  }

  /** Stated apart so that the solver meets it without `CollapseRuns` in view. */
  lemma ConcatAssoc(a: string, b: string, c: string)
    ensures a + (b + c) == (a + b) + c
  {
  }

  /** The facts about the cut at `k` that `CollapseRunsSplit` steps over. */
  lemma SplitHeads(s: string, k: int, p: char -> bool, rep: char)
    requires 0 < k < |s| && !p(s[k])
    ensures s[..k][1..] == s[1..][..k - 1] && s[1..][k - 1..] == s[k..]
    ensures RunHead(s[..k], p, rep) == RunHead(s, p, rep)
  {
    assert |s[..k]| == 1 ==> s[1] == s[k];
  }

  /**
   * The characters outside the class come through whole and in order: filtering by
   * any test `q` that excludes the class and `rep` sees no difference.
   */
  lemma {:induction false} CollapseRunsKeepsOthers(s: string, p: char -> bool, rep: char, q: char -> bool)
    requires !q(rep)
    requires forall c :: q(c) ==> !p(c)
    ensures Filter(CollapseRuns(s, p, rep), q) == Filter(s, q)
    decreases |s|
  {
    if |s| > 0 {
      CollapseRunsKeepsOthers(s[1..], p, rep, q);
      var tail := CollapseRuns(s[1..], p, rep);
      if p(s[0]) {
        CollapseRunsStep(s, p, rep);
        var t := [rep] + tail;
        assert t[0] == rep && t[1..] == tail;
      } else {
        var t := [s[0]] + tail;
        assert t[0] == s[0] && t[1..] == tail;
      }
    }
  }

  /** No two neighbouring characters both satisfy `p`. */
  predicate NoAdjacent(s: string, p: char -> bool) {
    forall i :: 0 <= i < |s| - 1 ==> !(p(s[i]) && p(s[i + 1]))
  }

  /** After collapsing, runs of `p` have length one (given that `rep` itself satisfies `p`). */
  lemma {:induction false} CollapseRunsNoAdjacent(s: string, p: char -> bool, rep: char)
    requires p(rep)
    ensures NoAdjacent(CollapseRuns(s, p, rep), p)
    decreases |s|
  {
    if |s| > 0 {
      if p(s[0]) {
        var rest := DropWhile(s, p);
        CollapseRunsNoAdjacent(rest, p, rep);
      } else {
        CollapseRunsNoAdjacent(s[1..], p, rep);
      }
    }
  }

  /** A string whose `p`-characters are all `rep` and never neighbours is unchanged by collapsing. */
  lemma {:induction false} CollapseRunsIdentity(s: string, p: char -> bool, rep: char)
    requires forall i :: 0 <= i < |s| ==> p(s[i]) ==> s[i] == rep
    requires NoAdjacent(s, p)
    ensures CollapseRuns(s, p, rep) == s
    decreases |s|
  {
    if |s| > 0 {
      if p(s[0]) {
        assert |s| == 1 || !p(s[1]);
        assert DropWhile(s, p) == s[1..];
      }
      CollapseRunsIdentity(s[1..], p, rep);
    }
  }

  /** The stages of `generateSlug`, before the final `trim`. */
  function SlugStages(text: string): string {
    CollapseRuns(CollapseRuns(RemoveDisallowed(Lower(text)), IsSpace, '-'), IsDash, '-')
  }

  /**
   * `generateSlug`: lower-case, drop everything but `a-z`, digits, white space and
   * `-`, turn each run of white space into `-`, squeeze runs of `-`, then `trim`.
   * The result is made of slug characters only and never holds `--`.
   */
  function GenerateSlug(text: string): (slug: string)
    ensures forall i :: 0 <= i < |slug| ==> IsSlugChar(slug[i])
    ensures forall i :: 0 <= i < |slug| - 1 ==> !(slug[i] == '-' && slug[i + 1] == '-')
  {
    var stages := SlugStages(text);
    SlugStagesShape(text);
    forall i | 0 <= i < |stages| ensures !IsSpace(stages[i]) {
      SlugCharFacts(stages[i]);
    }
    TrimNoSpace(stages);
    assert forall i :: 0 <= i < |stages| - 1 ==> !(stages[i] == '-' && stages[i + 1] == '-') by {
      forall i | 0 <= i < |stages| - 1 ensures !(stages[i] == '-' && stages[i + 1] == '-') {
        assert !(IsDash(stages[i]) && IsDash(stages[i + 1]));
      }
    }
    Trim(stages)
  }

  /** A slug character survives every stage of `generateSlug` unchanged. */
  lemma SlugCharFacts(c: char)
    requires IsSlugChar(c)
    ensures !IsSpace(c) && KeptBySlugFilter(c) && LowerChar(c) == c
  {
  }

  lemma SlugStagesShape(text: string)
    ensures forall i :: 0 <= i < |SlugStages(text)| ==> IsSlugChar(SlugStages(text)[i])
    ensures NoAdjacent(SlugStages(text), IsDash)
  {
    var filtered := RemoveDisallowed(Lower(text));
    var spaced := CollapseRuns(filtered, IsSpace, '-');
    assert forall i :: 0 <= i < |spaced| ==> IsSlugChar(spaced[i]) by {
      forall i | 0 <= i < |spaced| ensures IsSlugChar(spaced[i]) {
        if spaced[i] != '-' {
          assert spaced[i] in filtered && !IsSpace(spaced[i]);
        }
      }
    }
    CollapseRunsNoAdjacent(spaced, IsDash, '-');
  }

  /**
   * What the slug keeps of its input: its characters other than `-`, in order, are
   * exactly the ASCII letters and digits of the lower-cased text.
   */
  lemma SlugKeepsLettersAndDigits(text: string)
    ensures Filter(GenerateSlug(text), NotDash) == Filter(Lower(text), IsSlugAlnum)
  {
    var lowered := Lower(text);
    var filtered := RemoveDisallowed(lowered);
    var spaced := CollapseRuns(filtered, IsSpace, '-');
    forall c | IsSlugAlnum(c) ensures KeptBySlugFilter(c) && !IsSpace(c) && !IsDash(c) {
      SlugCharFacts(c);
    }
    RemoveDisallowedKeepsOrder(lowered, IsSlugAlnum);
    CollapseRunsKeepsOthers(filtered, IsSpace, '-', IsSlugAlnum);
    CollapseRunsKeepsOthers(spaced, IsDash, '-', IsSlugAlnum);
    SlugTrimIsNoOp(text);
    var slug := GenerateSlug(text);
    FilterAgree(slug, NotDash, IsSlugAlnum);
  }

  /** A string of slug characters without `--` is its own slug. */
  lemma SlugOfSlugShaped(s: string)
    requires forall i :: 0 <= i < |s| ==> IsSlugChar(s[i])
    requires NoAdjacent(s, IsDash)
    ensures GenerateSlug(s) == s
  {
    forall i | 0 <= i < |s| ensures !IsSpace(s[i]) && KeptBySlugFilter(s[i]) && LowerChar(s[i]) == s[i] {
      SlugCharFacts(s[i]);
    }
    assert Lower(s) == s;
    assert RemoveDisallowed(s) == s;
    assert NoAdjacent(s, IsSpace);
    CollapseRunsIdentity(s, IsSpace, '-');
    CollapseRunsIdentity(s, IsDash, '-');
    assert SlugStages(s) == s;
    TrimNoSpace(s);
  }

  /** `generateSlug` is idempotent. */
  lemma GenerateSlugIdempotent(text: string)
    ensures GenerateSlug(GenerateSlug(text)) == GenerateSlug(text)
  {
    var slug := GenerateSlug(text);
    assert NoAdjacent(slug, IsDash);
    SlugOfSlugShaped(slug);
  }

  /** The final `trim` of `generateSlug` never changes anything: no white space survives the earlier stages. */
  lemma SlugTrimIsNoOp(text: string)
    ensures GenerateSlug(text) == SlugStages(text)
  {
    SlugStagesShape(text);
    TrimNoSpace(SlugStages(text));
  }

  /** So white space at the start of the input leaves a `-` at the start of the slug. */
  lemma SlugKeepsLeadingDash(text: string)
    requires |text| > 0 && IsSpace(text[0])
    ensures |GenerateSlug(text)| > 0 && GenerateSlug(text)[0] == '-'
  {
    SlugTrimIsNoOp(text);
    var filtered := RemoveDisallowed(Lower(text));
    assert filtered[0] == text[0];
    var spaced := CollapseRuns(filtered, IsSpace, '-');
    assert spaced[0] == '-';
  }

  /** What is left after the trailing run of characters satisfying `p`. */
  function DropWhileEnd(s: string, p: char -> bool): (r: string)
    ensures |r| <= |s| && r == s[..|r|]
    ensures r == [] || !p(r[|r| - 1])
    decreases |s|
  {
    if |s| > 0 && p(s[|s| - 1]) then DropWhileEnd(s[..|s| - 1], p) else s
  }

  /** Everything `DropWhileEnd` drops satisfies `p`. */
  lemma {:induction false} DropWhileEndDropsRun(s: string, p: char -> bool)
    ensures forall i :: |DropWhileEnd(s, p)| <= i < |s| ==> p(s[i])
    decreases |s|
  {
    if |s| > 0 && p(s[|s| - 1]) {
      DropWhileEndDropsRun(s[..|s| - 1], p);
      assert forall i :: 0 <= i < |s| - 1 ==> s[i] == s[..|s| - 1][i];
    }
  }

  /** Filtering distributes over concatenation. */
  lemma {:induction false} FilterAppend(a: string, b: string, q: char -> bool)
    ensures Filter(a + b, q) == Filter(a, q) + Filter(b, q)
    decreases |a|
  {
    if |a| == 0 {
      assert a + b == b;
    } else {
      assert (a + b)[0] == a[0] && (a + b)[1..] == a[1..] + b;
      FilterAppend(a[1..], b, q);
    }
  }

  /** Dropping a leading run of `p` loses nothing a `q` that excludes `p` would keep. */
  lemma {:induction false} FilterDropWhile(s: string, p: char -> bool, q: char -> bool)
    requires forall c :: q(c) ==> !p(c)
    ensures Filter(DropWhile(s, p), q) == Filter(s, q)
    decreases |s|
  {
    if |s| > 0 && p(s[0]) {
      FilterDropWhile(s[1..], p, q);
    }
  }

  /** Dropping a trailing run of `p` loses nothing a `q` that excludes `p` would keep. */
  lemma {:induction false} FilterDropWhileEnd(s: string, p: char -> bool, q: char -> bool)
    requires forall c :: q(c) ==> !p(c)
    ensures Filter(DropWhileEnd(s, p), q) == Filter(s, q)
    decreases |s|
  {
    if |s| > 0 && p(s[|s| - 1]) {
      var init := s[..|s| - 1];
      FilterDropWhileEnd(init, p, q);
      assert s == init + [s[|s| - 1]];
      FilterAppend(init, [s[|s| - 1]], q);
      assert Filter([s[|s| - 1]], q) == [];
    }
  }

  /**
   * `s` without its leading and trailing `-` characters: every other character is
   * kept, in order (`StripDashesIsSlice` says that only the edge dashes go).
   */
  function StripDashes(s: string): (r: string)
    ensures r == [] || (r[0] != '-' && r[|r| - 1] != '-')
    ensures Filter(r, NotDash) == Filter(s, NotDash)
  {
    var start := DropWhile(s, IsDash);
    var r := DropWhileEnd(start, IsDash);
    assert r != [] ==> r[0] == start[0];
    FilterStrip(s);
    r
  }

  lemma FilterStrip(s: string)
    ensures Filter(DropWhileEnd(DropWhile(s, IsDash), IsDash), NotDash) == Filter(s, NotDash)
  {
    FilterDropWhile(s, IsDash, NotDash);
    FilterDropWhileEnd(DropWhile(s, IsDash), IsDash, NotDash);
  }

  /** A contiguous piece of a slug-shaped string is slug-shaped. */
  lemma SliceKeepsShape(s: string, k: int, m: int)
    requires 0 <= k <= m <= |s|
    requires forall i :: 0 <= i < |s| ==> IsSlugChar(s[i])
    requires NoAdjacent(s, IsDash)
    ensures forall i :: 0 <= i < m - k ==> IsSlugChar(s[k..m][i])
    ensures NoAdjacent(s[k..m], IsDash)
  {
    var t := s[k..m];
    forall i | 0 <= i < |t| ensures IsSlugChar(t[i]) {
      assert t[i] == s[k + i];
    }
    forall i | 0 <= i < |t| - 1 ensures !(IsDash(t[i]) && IsDash(t[i + 1])) {
      assert t[i] == s[k + i] && t[i + 1] == s[k + i + 1];
    }
  }

  /** Stripping the ends leaves a contiguous piece of the input, and all it cuts off is `-`. */
  lemma StripDashesIsSlice(s: string) returns (k: int, m: int)
    ensures 0 <= k <= m <= |s| && StripDashes(s) == s[k..m]
    ensures forall i :: 0 <= i < k ==> s[i] == '-'
    ensures forall i :: m <= i < |s| ==> s[i] == '-'
  {
    var start := DropWhile(s, IsDash);
    DropWhileDropsRun(s, IsDash);
    DropWhileEndDropsRun(start, IsDash);
    k, m := SliceBetween(s, start, StripDashes(s), IsDash);
  }

  /** Stripping the ends keeps a slug's character set and keeps `--` out. */
  lemma StripDashesKeepsShape(s: string)
    requires forall i :: 0 <= i < |s| ==> IsSlugChar(s[i])
    requires NoAdjacent(s, IsDash)
    ensures forall i :: 0 <= i < |StripDashes(s)| ==> IsSlugChar(StripDashes(s)[i])
    ensures NoAdjacent(StripDashes(s), IsDash)
  {
    var k, m := StripDashesIsSlice(s);
    SliceKeepsShape(s, k, m);
  }

  /**
   * `generateSlug` followed by removing `-` at either end, which is what the
   * final `trim` was meant to achieve: a slug with no `-` at its ends.
   */
  function GenerateSlugTrimmed(text: string): (slug: string)
    ensures forall i :: 0 <= i < |slug| ==> IsSlugChar(slug[i])
    ensures NoAdjacent(slug, IsDash)
    ensures slug == [] || (slug[0] != '-' && slug[|slug| - 1] != '-')
    ensures Filter(slug, NotDash) == Filter(Lower(text), IsSlugAlnum)
  {
    var full := GenerateSlug(text);
    assert NoAdjacent(full, IsDash);
    StripDashesKeepsShape(full);
    SlugKeepsLettersAndDigits(text);
    StripDashes(full)
  }

  /** The trimmed slug is idempotent too. */
  lemma GenerateSlugTrimmedIdempotent(text: string)
    ensures GenerateSlugTrimmed(GenerateSlugTrimmed(text)) == GenerateSlugTrimmed(text)
  {
    var slug := GenerateSlugTrimmed(text);
    assert NoAdjacent(slug, IsDash);
    SlugOfSlugShaped(slug);
    assert DropWhile(slug, IsDash) == slug;
    assert DropWhileEnd(slug, IsDash) == slug;
  }

  // ---------------------------------------------------------------- truncateText

  /** `s.slice(0, end)`: a negative end counts from the end of the string; the end is clamped to the string. */
  function SliceTo(s: string, end: int): (r: string)
    ensures r <= s
    ensures end > |s| ==> r == s
    ensures 0 <= end <= |s| ==> |r| == end
    ensures end < 0 ==> |r| == if |s| + end > 0 then |s| + end else 0
  {
    var e := if end < 0 then (if |s| + end > 0 then |s| + end else 0) else if end > |s| then |s| else end;
    s[..e]
  }

  /**
   * `truncateText`: a text no longer than `maxLength` comes back unchanged;
   * a longer one is cut to `maxLength` characters, trimmed, and given `...`.
   */
  function TruncateText(text: string, maxLength: int): (r: string)
    ensures |text| <= maxLength ==> r == text
    ensures |text| > maxLength ==> |r| >= 3 && r[|r| - 3..] == "..."
    ensures |text| > maxLength && maxLength >= 0 ==> |r| <= maxLength + 3
  {
    if |text| <= maxLength then text
    else
      var cut := Trim(SliceTo(text, maxLength));
      cut + "..."
  }

  /**
   * What precedes the `...` is a run of the first `maxLength` characters with only
   * white space dropped around it.
   */
  lemma TruncateKeepsCore(text: string, maxLength: int) returns (a: int, b: int)
    requires 0 <= maxLength < |text|
    ensures 0 <= a <= b <= maxLength && TruncateText(text, maxLength) == text[a..b] + "..."
    ensures forall i :: 0 <= i < a ==> IsSpace(text[i])
    ensures forall i :: b <= i < maxLength ==> IsSpace(text[i])
    ensures a < b ==> !IsSpace(text[a]) && !IsSpace(text[b - 1])
  {
    var head := text[..maxLength];
    assert SliceTo(text, maxLength) == head;
    a, b := TrimIsSlice(head);
    SliceOfPrefix(text, maxLength, a, b, IsSpace);
  }

  /** Facts about a slice of `s[..m]` and about the characters around it carry over to `s`. */
  lemma SliceOfPrefix(s: string, m: int, a: int, b: int, p: char -> bool)
    requires 0 <= a <= b <= m <= |s|
    requires forall i :: 0 <= i < a ==> p(s[..m][i])
    requires forall i :: b <= i < m ==> p(s[..m][i])
    ensures s[..m][a..b] == s[a..b]
    ensures forall i :: 0 <= i < a ==> p(s[i])
    ensures forall i :: b <= i < m ==> p(s[i])
  {
    forall i | 0 <= i < a ensures p(s[i]) {
      assert s[i] == s[..m][i];
    }
    forall i | b <= i < m ensures p(s[i]) {
      assert s[i] == s[..m][i];
    }
  }

  // ---------------------------------------------------------------- getInitials

  /** The words that have a first character, in order (`NonEmptyWordsAppend`). */
  function NonEmptyWords(words: seq<string>): (r: seq<string>)
    ensures forall i :: 0 <= i < |r| ==> |r[i]| > 0 && r[i] in words
    ensures forall i :: 0 <= i < |words| && |words[i]| > 0 ==> words[i] in r
    ensures |r| <= |words|
  {
    if |words| == 0 then []
    else (if |words[0]| > 0 then [words[0]] else []) + NonEmptyWords(words[1..])
  }

  /** Dropping empty words distributes over concatenation, so the words keep their order. */
  lemma {:induction false} NonEmptyWordsAppend(a: seq<string>, b: seq<string>)
    ensures NonEmptyWords(a + b) == NonEmptyWords(a) + NonEmptyWords(b)
    decreases |a|
  {
    if |a| == 0 {
      assert a + b == b;
    } else {
      assert (a + b)[0] == a[0] && (a + b)[1..] == a[1..] + b;
      var head := if |a[0]| > 0 then [a[0]] else [];
      var x, y := NonEmptyWords(a[1..]), NonEmptyWords(b);
      calc {
        NonEmptyWords(a + b);
        head + NonEmptyWords(a[1..] + b);
        { NonEmptyWordsAppend(a[1..], b); }
        head + (x + y);
        (head + x) + y;
      }
    }
  }

  /**
   * `words.map(n => n[0]).join('')`: the first character of each word, in order; an
   * empty word's `n[0]` is `undefined`, which `join` writes as nothing.
   */
  function Heads(words: seq<string>): (r: string)
    ensures |r| == |NonEmptyWords(words)|
    ensures forall i :: 0 <= i < |r| ==> r[i] == NonEmptyWords(words)[i][0]
  {
    if |words| == 0 then []
    else (if |words[0]| > 0 then [words[0][0]] else []) + Heads(words[1..])
  }

  /** A Kelvin sign lower-cases to an ASCII 'k', which the slug keeps. */
  lemma KelvinSignInSlug()
    ensures GenerateSlug([KelvinSign, 'm']) == "km"
  {
    KelvinSignLowersToK();
    SlugOfLower([KelvinSign, 'm'], "km");
    KmIsSlugShaped();
    SlugOfSlugShaped("km");
  }

  /** The Kelvin sign and an ASCII capital K lower-case alike. */
  lemma KelvinSignLowersToK()
    ensures Lower([KelvinSign, 'm']) == Lower("km")
  {
    assert Lower([KelvinSign, 'm']) == "km" == Lower("km");
  }

  /** "km" is already a slug. */
  lemma KmIsSlugShaped()
    ensures forall i :: 0 <= i < |"km"| ==> IsSlugChar("km"[i])
    ensures NoAdjacent("km", IsDash)
  {
  }

  /** The slug depends on the text only through its lower-cased form. */
  lemma SlugOfLower(a: string, b: string)
    requires Lower(a) == Lower(b)
    ensures GenerateSlug(a) == GenerateSlug(b)
  {
    assert SlugStages(a) == SlugStages(b);
  }

  /**
   * `getInitials`: the upper-cased first letters of the space-separated words,
   * at most two of them.
   */
  function GetInitials(name: string): (r: string)
    ensures var words := NonEmptyWords(Split(name, ' '));
            |r| == if |words| < 2 then |words| else 2
    ensures forall i :: 0 <= i < |r| ==> r[i] == UpperChar(NonEmptyWords(Split(name, ' '))[i][0])
    ensures forall i :: 0 <= i < |r| ==> !IsAsciiLower(r[i])
  {
    var letters := Upper(Heads(Split(name, ' ')));
    if |letters| <= 2 then letters else letters[..2]
  }

  // ---------------------------------------------------------------- formatRelativeTime

  /** `Math.floor((now - date) / 1000)`: whole seconds elapsed, rounded down (also before the date). */
  function DiffInSeconds(now: int, date: int): (d: int)
    ensures d * 1000 <= now - date < d * 1000 + 1000
  {
    (now - date) / 1000
  }

  /** The buckets of `formatRelativeTime`; `AbsoluteDate` is the `formatDate` fallback. */
  datatype RelativeTime =
    | JustNow
    | MinutesAgo(n: int)
    | HoursAgo(n: int)
    | DaysAgo(n: int)
    | WeeksAgo(n: int)
    | AbsoluteDate

  /** The bucket for an age of `diff` seconds; a date in the future counts as just now. */
  function RelativeBucket(diff: int): (r: RelativeTime)
    ensures r == JustNow <==> diff < 60
    ensures r.MinutesAgo? <==> 60 <= diff < 3600
    ensures r.HoursAgo? <==> 3600 <= diff < 86400
    ensures r.DaysAgo? <==> 86400 <= diff < 604800
    ensures r.WeeksAgo? <==> 604800 <= diff < 2592000
    ensures r == AbsoluteDate <==> diff >= 2592000
    ensures r.MinutesAgo? ==> 1 <= r.n <= 59 && r.n * 60 <= diff < r.n * 60 + 60
    ensures r.HoursAgo? ==> 1 <= r.n <= 23 && r.n * 3600 <= diff < r.n * 3600 + 3600
    ensures r.DaysAgo? ==> 1 <= r.n <= 6 && r.n * 86400 <= diff < r.n * 86400 + 86400
    ensures r.WeeksAgo? ==> 1 <= r.n <= 4 && r.n * 604800 <= diff < r.n * 604800 + 604800
  {
    if diff < 60 then JustNow
    else if diff < 3600 then MinutesAgo(diff / 60)
    else if diff < 86400 then HoursAgo(diff / 3600)
    else if diff < 604800 then DaysAgo(diff / 86400)
    else if diff < 2592000 then WeeksAgo(diff / 604800)
    else AbsoluteDate
  }

  /** The Indonesian text of a bucket; `None` for the locale date fallback, which is not modelled. */
  function RenderRelative(b: RelativeTime): (r: Option<string>)
    ensures r.None? <==> b == AbsoluteDate
    ensures b == JustNow ==> r == Some("Baru saja")
    ensures IsCounted(b) ==> r.Some? && ParseInt(r.value) == Some(b.n) && EndsWith(r.value, AgoText(b))
  {
    match b
    case JustNow => Some("Baru saja")
    case MinutesAgo(n) => Counted(n, " menit yang lalu")
    case HoursAgo(n) => Counted(n, " jam yang lalu")
    case DaysAgo(n) => Counted(n, " hari yang lalu")
    case WeeksAgo(n) => Counted(n, " minggu yang lalu")
    case AbsoluteDate => None
  }

  /** `${n} <unit> yang lalu`: the count reads back with `parseInt` and the unit phrase ends the text. */
  function Counted(n: int, unit: string): (r: Option<string>)
    requires |unit| > 0 && unit[0] == ' '
    ensures r.Some? && ParseInt(r.value) == Some(n) && EndsWith(r.value, unit)
  {
    var text := IntToString(n) + unit;
    ParseIntOfIntToStringThen(n, unit);
    assert text[|text| - |unit|..] == unit;
    Some(text)
  }

  /** The text after the count in a counted bucket. */
  function AgoText(b: RelativeTime): string {
    match b
    case MinutesAgo(_) => " menit yang lalu"
    case HoursAgo(_) => " jam yang lalu"
    case DaysAgo(_) => " hari yang lalu"
    case WeeksAgo(_) => " minggu yang lalu"
    case _ => ""
  }

  /** Different buckets read differently, so the text tells the bucket and its count. */
  lemma RenderRelativeInjective(b1: RelativeTime, b2: RelativeTime)
    requires RenderRelative(b1) == RenderRelative(b2)
    ensures b1 == b2
  {
    if IsCounted(b1) && IsCounted(b2) {
      CountedInjective(b1, b2);
    }
  }

  predicate IsCounted(b: RelativeTime) {
    b.MinutesAgo? || b.HoursAgo? || b.DaysAgo? || b.WeeksAgo?
  }

  lemma CountedInjective(b1: RelativeTime, b2: RelativeTime)
    requires IsCounted(b1) && IsCounted(b2)
    requires IntToString(b1.n) + AgoText(b1) == IntToString(b2.n) + AgoText(b2)
    ensures b1 == b2
  {
    var x1, x2 := IntToString(b1.n), IntToString(b2.n);
    var u1, u2 := AgoText(b1), AgoText(b2);
    SameEnd(x1, x2, u1, u2, 11);
    assert u1 == u2;
    PrefixCancel(x1, x2, u1);
    ParseIntOfIntToString(b1.n);
    ParseIntOfIntToString(b2.n);
  }

  /** Two equal strings agree at the same distance from the end. */
  lemma SameEnd(x1: string, x2: string, u1: string, u2: string, k: int)
    requires x1 + u1 == x2 + u2
    requires 0 < k <= |u1| && k <= |u2|
    ensures u1[|u1| - k] == u2[|u2| - k]
  {
    var s := x1 + u1;
    assert s[|s| - k] == u1[|u1| - k];
    assert s[|s| - k] == (x2 + u2)[|s| - k];
  }

  /** A common ending can be cancelled. */
  lemma PrefixCancel(x1: string, x2: string, u: string)
    requires x1 + u == x2 + u
    ensures x1 == x2
  {
    assert x1 == (x1 + u)[..|x1|];
    assert x2 == (x2 + u)[..|x2|];
  }

  /**
   * `formatRelativeTime(date)` at time `now`, both in milliseconds: "Baru saja" for
   * less than a minute (or a date in the future) and the date fallback from thirty
   * days on.
   */
  function FormatRelativeTime(now: int, date: int): (r: Option<string>)
    ensures r == Some("Baru saja") <==> now - date < 60000
    ensures r.None? <==> now - date >= 2592000000
    ensures 60000 <= now - date < 3600000 ==>
              r.Some? && ParseInt(r.value) == Some((now - date) / 60000) && EndsWith(r.value, " menit yang lalu")
    ensures 3600000 <= now - date < 86400000 ==>
              r.Some? && ParseInt(r.value) == Some((now - date) / 3600000) && EndsWith(r.value, " jam yang lalu")
    ensures 86400000 <= now - date < 604800000 ==>
              r.Some? && ParseInt(r.value) == Some((now - date) / 86400000) && EndsWith(r.value, " hari yang lalu")
    ensures 604800000 <= now - date < 2592000000 ==>
              r.Some? && ParseInt(r.value) == Some((now - date) / 604800000) && EndsWith(r.value, " minggu yang lalu")
  {
    var d := DiffInSeconds(now, date);
    WholeUnits(now - date, d);
    var b := RelativeBucket(d);
    assert b == JustNow <==> now - date < 60000;
    RenderRelative(b)
  }

  /** Counting whole seconds first and then whole units gives the whole units of the milliseconds. */
  lemma WholeUnits(ms: int, d: int)
    requires d * 1000 <= ms < d * 1000 + 1000
    ensures d / 60 == ms / 60000 && d / 3600 == ms / 3600000
    ensures d / 86400 == ms / 86400000 && d / 604800 == ms / 604800000
  {
    WholeUnit(ms, d, 60);
    WholeUnit(ms, d, 3600);
    WholeUnit(ms, d, 86400);
    WholeUnit(ms, d, 604800);
  }

  lemma WholeUnit(ms: int, d: int, k: int)
    requires k > 0 && d * 1000 <= ms < d * 1000 + 1000
    ensures d / k == ms / (1000 * k)
  {
    var q, r := d / k, d % k;
    assert d == q * k + r && 0 <= r < k;
    var lo := ms - q * (1000 * k);
    assert ms == q * (1000 * k) + lo;
    assert lo == (d - q * k) * 1000 + (ms - d * 1000) by {
      assert q * (1000 * k) == (q * k) * 1000;
    }
    assert 0 <= lo < 1000 * k by {
      assert r * 1000 <= (k - 1) * 1000;
    }
    Arith.DivModUnique(ms, 1000 * k, q, lo);
  }

  /** Two days ago reads "2 hari yang lalu", the example the source gives. */
  lemma TwoDaysAgo(now: int)
    ensures FormatRelativeTime(now, now - 2 * 86400000) == Some("2 hari yang lalu")
  {
    var date := now - 2 * 86400000;
    assert DiffInSeconds(now, date) == 172800;
    assert RelativeBucket(172800) == DaysAgo(2);
    assert IntToString(2) == "2" by {
      assert DigitChar(2) == '2';
    }
    assert "2" + " hari yang lalu" == "2 hari yang lalu";
    assert Counted(2, " hari yang lalu") == Some("2 hari yang lalu");
    assert FormatRelativeTime(now, date) == RenderRelative(DaysAgo(2));
  }

  /** Buckets in order from most to least recent. */
  function Rank(r: RelativeTime): nat {
    match r
    case JustNow => 0
    case MinutesAgo(_) => 1
    case HoursAgo(_) => 2
    case DaysAgo(_) => 3
    case WeeksAgo(_) => 4
    case AbsoluteDate => 5
  }

  /** An older date never lands in a more recent bucket, and within a bucket its count never drops. */
  lemma BucketMonotone(d1: int, d2: int)
    requires d1 <= d2
    ensures Rank(RelativeBucket(d1)) <= Rank(RelativeBucket(d2))
    ensures Rank(RelativeBucket(d1)) == Rank(RelativeBucket(d2)) && RelativeBucket(d1) !in {JustNow, AbsoluteDate}
            ==> RelativeBucket(d1).n <= RelativeBucket(d2).n
  {
  }
}
