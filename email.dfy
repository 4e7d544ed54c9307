/** The email extraction applied to each machine tag:
      tag.match(/([a-zA-Z0-9._%+-]+@[a-zA-Z0-9.-]+\.[a-zA-Z]{2,})/i)
    written as a dedicated matcher rather than a general regular-expression
    engine. The `i` flag changes nothing here: every class already lists both
    cases of the ASCII letters, and without the `u` flag case folding never maps
    a non-ASCII character onto an ASCII one.

    `EmailAt` states declaratively what a match of the pattern is; `MatchEnd`
    and `FirstMatch` compute the match the JavaScript engine returns, which
    tries start positions from the left and, at a start, backtracks from the
    greediest choice. The lemmas show that this is the leftmost start at which
    any match exists, and the longest match from that start. */
module EmailPattern {

  import opened Wrappers
  import opened Text

  /** The three character classes of the pattern. */
  datatype CharClass =
    | LocalPart   // [a-zA-Z0-9._%+-]
    | DomainPart  // [a-zA-Z0-9.-]
    | Letters     // [a-zA-Z]

  predicate InClass(c: char, k: CharClass) {
    match k
    case LocalPart => IsLetter(c) || IsDigit(c) || c == '.' || c == '_' || c == '%' || c == '+' || c == '-'
    case DomainPart => IsLetter(c) || IsDigit(c) || c == '.' || c == '-'
    case Letters => IsLetter(c)
  }

  /** Every character of t[lo..hi] is in class `k`. */
  predicate AllIn(t: string, lo: nat, hi: nat, k: CharClass)
    requires lo <= hi <= |t|
  {
    forall i :: lo <= i < hi ==> InClass(t[i], k)
  }

  /** t[s..e] matches the pattern with the `@` at `a` and the last `.` at `d`:
      a non-empty local part t[s..a], then `@`, a non-empty domain t[a+1..d],
      then `.`, then at least two letters t[d+1..e]. */
  ghost predicate EmailAt(t: string, s: nat, a: nat, d: nat, e: nat) {
    && s < a && a + 1 < d && d + 3 <= e <= |t|
    && AllIn(t, s, a, LocalPart)
    && t[a] == '@'
    && AllIn(t, a + 1, d, DomainPart)
    && t[d] == '.'
    && AllIn(t, d + 1, e, Letters)
  }

  /** t[s..e] is a match of the pattern. */
  ghost predicate Matches(t: string, s: nat, e: nat) {
    exists a: nat, d: nat :: EmailAt(t, s, a, d, e)
  }

  // ---------------------------------------------------------------------------
  // The matcher

  /** The end of the longest run of class `k` starting at `i` (a greedy `+`). */
  function RunEnd(t: string, i: nat, k: CharClass): (j: nat)
    requires i <= |t|
    ensures i <= j <= |t| && AllIn(t, i, j, k)
    ensures j == |t| || !InClass(t[j], k)
    decreases |t| - i
  {
    if i == |t| || !InClass(t[i], k) then i else RunEnd(t, i + 1, k)
  }

  /** No run of class `k` from `i` reaches past `RunEnd`. */
  lemma {:induction false} RunEndMaximal(t: string, i: nat, j: nat, k: CharClass)
    requires i <= j <= |t| && AllIn(t, i, j, k)
    ensures j <= RunEnd(t, i, k)
    decreases j - i
  {
    if i < j {
      RunEndMaximal(t, i + 1, j, k);
    }
  }

  /** A `.` at `d` followed by at least two letters. */
  predicate DotBeforeTld(t: string, d: nat)
    requires d < |t|
  {
    t[d] == '.' && RunEnd(t, d + 1, Letters) >= d + 3
  }

  /** The right-most `d` in [lo, hi) with a `.` followed by two letters: the
      backtracking of the greedy domain run `[a-zA-Z0-9.-]+` before `\.`. */
  function TldDot(t: string, lo: nat, hi: nat): (r: Option<nat>)
    requires lo <= hi <= |t|
    ensures r.Some? ==> lo <= r.value < hi && DotBeforeTld(t, r.value)
    ensures r.Some? ==> forall d :: r.value < d < hi ==> !DotBeforeTld(t, d)
    ensures r.None? ==> forall d :: lo <= d < hi ==> !DotBeforeTld(t, d)
    decreases hi - lo
  {
    if lo == hi then None
    else if DotBeforeTld(t, hi - 1) then Some(hi - 1)
    else TldDot(t, lo, hi - 1)
  }

  /** The end of the match the engine finds when it starts at `s`, if any. */
  function MatchEnd(t: string, s: nat): (r: Option<nat>)
    requires s <= |t|
    ensures r.Some? ==> s < r.value <= |t| && Matches(t, s, r.value)
  {
    var a := RunEnd(t, s, LocalPart);
    if a == s || a == |t| || t[a] != '@' then None
    else
      var f := RunEnd(t, a + 1, DomainPart);
      if f < a + 2 then None
      else match TldDot(t, a + 2, f)
        case None => None
        case Some(d) =>
          var e := RunEnd(t, d + 1, Letters);
          assert EmailAt(t, s, a, d, e);
          Some(e)
  }

  /** Trying start positions from `from` onwards, the first one with a match. */
  function FirstMatch(t: string, from: nat): (r: Option<(nat, nat)>)
    requires from <= |t|
    ensures r.Some? ==> from <= r.value.0 < r.value.1 <= |t| && MatchEnd(t, r.value.0) == Some(r.value.1)
    decreases |t| - from
  {
    if from == |t| then
      NoMatchAtEnd(t);
      None
    else
      var m := MatchEnd(t, from);
      if m.Some? then Some((from, m.value)) else FirstMatch(t, from + 1)
  }

  /** No start position before the reported one has a match; when none is
      reported, no start position from `from` on has one. */
  lemma {:induction false} FirstMatchIsFirst(t: string, from: nat)
    requires from <= |t|
    ensures FirstMatch(t, from).Some? ==>
              forall j :: from <= j < FirstMatch(t, from).value.0 ==> MatchEnd(t, j).None?
    ensures FirstMatch(t, from).None? ==> forall j :: from <= j <= |t| ==> MatchEnd(t, j).None?
    decreases |t| - from
  {
    if from == |t| {
      NoMatchAtEnd(t);
    } else if MatchEnd(t, from).None? {
      assert FirstMatch(t, from) == FirstMatch(t, from + 1);
      FirstMatchIsFirst(t, from + 1);
    } else {
      assert FirstMatch(t, from).value.0 == from;
    }
  }

  /** Nothing matches from the end of the tag: a match needs characters. */
  lemma NoMatchAtEnd(t: string)
    ensures MatchEnd(t, |t|).None?
  {
    assert RunEnd(t, |t|, LocalPart) == |t|;
  }

  /** `emailMatch ? emailMatch[1] : null`: the first email-shaped substring. */
  function FirstEmail(tag: string): Option<string> {
    match FirstMatch(tag, 0)
    case None => None
    case Some((s, e)) => Some(tag[s..e])
  }

  // ---------------------------------------------------------------------------
  // What the matcher finds

  /** Every match from `s` is found, and none reaches past the one returned:
      backtracking from the greedy choice yields the longest match. */
  lemma MatchEndCompleteAndLongest(t: string, s: nat, e: nat)
    requires s <= |t| && Matches(t, s, e)
    ensures MatchEnd(t, s).Some? && e <= MatchEnd(t, s).value
  {
    var a: nat, d: nat :| EmailAt(t, s, a, d, e);
    // the `@` closes the longest local run, since `@` is not a local character
    RunEndMaximal(t, s, a, LocalPart);
    assert RunEnd(t, s, LocalPart) == a;
    var f := DomainRunCoversMatch(t, a, d, e);
    assert DotBeforeTld(t, d) by {
      RunEndMaximal(t, d + 1, e, Letters);
    }
    var d' := TldDot(t, a + 2, f).value;
    LettersReachPastLastDot(t, d, d', e);
  }

  /** The whole tail after `@` consists of domain characters, so the greedy
      domain run reaches at least the end of the match. */
  lemma DomainRunCoversMatch(t: string, a: nat, d: nat, e: nat) returns (f: nat)
    requires a + 1 < d && d + 3 <= e <= |t|
    requires AllIn(t, a + 1, d, DomainPart) && t[d] == '.' && AllIn(t, d + 1, e, Letters)
    ensures f == RunEnd(t, a + 1, DomainPart) && e <= f
  {
    assert AllIn(t, a + 1, e, DomainPart);
    RunEndMaximal(t, a + 1, e, DomainPart);
    f := RunEnd(t, a + 1, DomainPart);
  }

  /** The letters after the right-most qualifying dot reach at least as far
      as those after any earlier dot of a match. */
  lemma LettersReachPastLastDot(t: string, d: nat, d': nat, e: nat)
    requires d <= d' < |t| && d + 3 <= e <= |t|
    requires t[d'] == '.' && AllIn(t, d + 1, e, Letters)
    ensures e <= RunEnd(t, d' + 1, Letters)
  {
    if d == d' {
      RunEndMaximal(t, d + 1, e, Letters);
    } else {
      assert !InClass(t[d'], Letters);
      assert e <= d';
    }
  }

  /** The span the matcher reports starts at the leftmost position where the
      pattern matches at all, and is the longest match from there; when it
      reports nothing, the tag contains no match. */
  lemma FirstMatchIsLeftmostLongest(t: string)
    ensures FirstMatch(t, 0).Some? ==>
              var (s, e) := FirstMatch(t, 0).value;
              && Matches(t, s, e)
              && (forall s': nat, e': nat :: s' < s && Matches(t, s', e') ==> false)
              && (forall e': nat :: Matches(t, s, e') ==> e' <= e)
    ensures FirstMatch(t, 0).None? <==> forall s: nat, e: nat :: !Matches(t, s, e)
  {
    FirstMatchIsFirst(t, 0);
    forall s: nat, e: nat | Matches(t, s, e)
      ensures FirstMatch(t, 0).Some? && FirstMatch(t, 0).value.0 <= s
    {
      var a: nat, d: nat :| EmailAt(t, s, a, d, e);
      MatchEndCompleteAndLongest(t, s, e);
    }
    if FirstMatch(t, 0).Some? {
      var (s, e) := FirstMatch(t, 0).value;
      forall e': nat | Matches(t, s, e')
        ensures e' <= e
      {
        MatchEndCompleteAndLongest(t, s, e');
      }
    }
  }

  /** A match holds exactly one `@`, and ends with a `.` followed by at least
      two ASCII letters. */
  lemma MatchShape(t: string, s: nat, e: nat)
    requires Matches(t, s, e)
    ensures s < e <= |t|
    ensures multiset(t[s..e])['@'] == 1
    ensures exists d :: 0 < d && d + 3 <= e - s && t[s..e][d] == '.'
                        && forall i :: d < i < e - s ==> IsLetter(t[s..e][i])
  {
    var a: nat, d: nat :| EmailAt(t, s, a, d, e);
    var local, domain := t[s..a], t[a + 1..e];
    forall i | a + 1 <= i < e
      ensures t[i] != '@'
    {
      if i < d { assert InClass(t[i], DomainPart); }
      else if i > d { assert InClass(t[i], Letters); }
    }
    assert '@' !in local by {
      forall i | 0 <= i < |local| ensures local[i] != '@' {
        assert InClass(t[s + i], LocalPart);
      }
    }
    assert '@' !in domain by {
      forall i | 0 <= i < |domain| ensures domain[i] != '@' {
        assert domain[i] == t[a + 1 + i];
      }
    }
    assert t[s..e] == local + ['@'] + domain;
    assert t[s..e][d - s] == '.';
    assert forall i :: d - s < i < e - s ==> t[s..e][i] == t[s + i];
  }

  /** An extracted email is a substring of its tag, holds exactly one `@`, and
      ends with a `.` followed by at least two ASCII letters. */
  lemma ExtractedEmailShape(tag: string)
    ensures FirstEmail(tag).Some? ==>
              var m := FirstEmail(tag).value;
              && Contains(tag, m)
              && multiset(m)['@'] == 1
              && (exists d :: 0 < d && d + 3 <= |m| && m[d] == '.'
                              && forall i :: d < i < |m| ==> IsLetter(m[i]))
  {
    if FirstMatch(tag, 0).Some? {
      var (s, e) := FirstMatch(tag, 0).value;
      assert OccursAt(tag, tag[s..e], s);
      MatchShape(tag, s, e);
    }
  }
}
