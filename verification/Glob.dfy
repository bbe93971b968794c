/** Include patterns (src/sshcfg.rs, wildcard_match): a loop that keeps one star to go back to,
    against what a pattern is meant to match. */
module Glob {
  import opened Common

  /** `*` stands for any run of bytes, `?` for any one byte, and every other byte for itself. */
  predicate Matches(pattern: string, value: string)
    decreases |pattern| + |value|
  {
    if pattern == "" then value == ""
    else if pattern[0] == '*' then Matches(pattern[1..], value) || (value != "" && Matches(pattern, value[1..]))
    else value != "" && (pattern[0] == '?' || pattern[0] == value[0]) && Matches(pattern[1..], value[1..])
  }

  predicate OnlyStars(s: string) {
    forall c | c in s :: c == '*'
  }

  /** Where the loop stands: its two indices, and the star it can go back to with the place in
      the value from which that star was last tried. */
  datatype Position = Position(p: nat, v: nat, star: Option<nat>, retry: nat)

  predicate Within(pattern: string, value: string, at: Position) {
    && at.p <= |pattern| && at.v <= |value|
    && (at.star.Some? ==> at.star.value < at.p && at.retry <= at.v)
  }

  /** What the loop answers from a position. Each turn takes a later star, or tries the same
      star at a later place, or moves along the value. */
  predicate Answer(pattern: string, value: string, at: Position)
    requires Within(pattern, value, at)
    decreases if at.star.Some? then |pattern| - at.star.value else |pattern| + 1, if at.star.Some? then |value| - at.retry else 0, |value| - at.v
  {
    if at.v == |value| then OnlyStars(pattern[at.p..])
    else if at.p < |pattern| && (pattern[at.p] == '?' || pattern[at.p] == value[at.v]) then
      Answer(pattern, value, at.(p := at.p + 1, v := at.v + 1))
    else if at.p < |pattern| && pattern[at.p] == '*' then
      Answer(pattern, value, Position(at.p + 1, at.v, Some(at.p), at.v))
    else if at.star.Some? then
      Answer(pattern, value, Position(at.star.value + 1, at.retry + 1, at.star, at.retry + 1))
    else false
  }

  const BEGIN := Position(0, 0, None, 0)

  /** What wildcard_match answers. */
  predicate Accepts(pattern: string, value: string) {
    Answer(pattern, value, BEGIN)
  }

  method WildcardMatch(pattern: string, value: string) returns (accepted: bool)
    ensures accepted == Accepts(pattern, value)
  {
    var patternIndex: nat, valueIndex: nat := 0, 0;
    var star: Option<nat>, retry: nat := None, 0;
    while valueIndex < |value|
      invariant Within(pattern, value, Position(patternIndex, valueIndex, star, retry))
      invariant Accepts(pattern, value) == Answer(pattern, value, Position(patternIndex, valueIndex, star, retry))
      decreases if star.Some? then |pattern| - star.value else |pattern| + 1, if star.Some? then |value| - retry else 0, |value| - valueIndex
    {
      if patternIndex < |pattern| && (pattern[patternIndex] == '?' || pattern[patternIndex] == value[valueIndex]) {
        patternIndex := patternIndex + 1;
        valueIndex := valueIndex + 1;
      } else if patternIndex < |pattern| && pattern[patternIndex] == '*' {
        star := Some(patternIndex);
        patternIndex := patternIndex + 1;
        retry := valueIndex;
      } else if star.Some? {
        patternIndex := star.value + 1;
        retry := retry + 1;
        valueIndex := retry;
      } else {
        return false;
      }
    }
    return OnlyStars(pattern[patternIndex..]);
  }

  // ---------- Facts about the relation ----------

  lemma {:induction false} StarAbsorbs(pattern: string, value: string, k: nat)
    requires k <= |value| && pattern != "" && pattern[0] == '*' && Matches(pattern[1..], value[k..])
    ensures Matches(pattern, value)
    decreases k
  {
    if k > 0 {
      assert value[1..][k - 1..] == value[k..];
      StarAbsorbs(pattern, value[1..], k - 1);
    }
  }

  lemma {:induction false} StarReaches(pattern: string, value: string) returns (k: nat)
    requires pattern != "" && pattern[0] == '*' && Matches(pattern, value)
    ensures k <= |value| && Matches(pattern[1..], value[k..])
    decreases |value|
  {
    if Matches(pattern[1..], value) {
      k := 0;
      assert value[0..] == value;
    } else {
      k := StarReaches(pattern, value[1..]);
      k := k + 1;
      assert value[1..][k - 1..] == value[k..];
    }
  }

  lemma {:induction false} StarsMatchNothing(pattern: string)
    ensures OnlyStars(pattern) <==> Matches(pattern, "")
  {
    if pattern != "" {
      StarsMatchNothing(pattern[1..]);
      assert pattern[0] in pattern && pattern == [pattern[0]] + pattern[1..];
      assert forall c | c in pattern[1..] :: c in pattern;
    }
  }

  /** A byte that matches at the head, even a star against itself, can be taken off both. */
  lemma {:induction false} HeadsMatch(pattern: string, value: string)
    requires pattern != "" && value != "" && (pattern[0] == '?' || pattern[0] == value[0]) && Matches(pattern[1..], value[1..])
    ensures Matches(pattern, value)
  {
    if pattern[0] == '*' {
      StarAbsorbs(pattern, value, 1);
    }
  }

  // ---------- Whatever is accepted matches ----------

  /** Every way on from this position is a way for the whole pattern to match. */
  ghost predicate Leads(pattern: string, value: string, at: Position)
    requires Within(pattern, value, at)
  {
    && (Matches(pattern[at.p..], value[at.v..]) ==> Matches(pattern, value))
    && (at.star.Some? ==> forall k | at.retry <= k <= |value| && Matches(pattern[at.star.value + 1..], value[k..]) :: Matches(pattern, value))
  }

  lemma {:induction false} AnswersAreSound(pattern: string, value: string, at: Position)
    requires Within(pattern, value, at) && Leads(pattern, value, at) && Answer(pattern, value, at)
    ensures Matches(pattern, value)
    decreases if at.star.Some? then |pattern| - at.star.value else |pattern| + 1, if at.star.Some? then |value| - at.retry else 0, |value| - at.v
  {
    var rest, left := pattern[at.p..], value[at.v..];
    if at.v == |value| {
      StarsMatchNothing(rest);
    } else if at.p < |pattern| && (pattern[at.p] == '?' || pattern[at.p] == value[at.v]) {
      assert rest[1..] == pattern[at.p + 1..] && left[1..] == value[at.v + 1..];
      if Matches(rest[1..], left[1..]) { HeadsMatch(rest, left); }
      AnswersAreSound(pattern, value, at.(p := at.p + 1, v := at.v + 1));
    } else if at.p < |pattern| && pattern[at.p] == '*' {
      assert rest[1..] == pattern[at.p + 1..];
      forall k | at.v <= k <= |value| && Matches(pattern[at.p + 1..], value[k..]) ensures Matches(pattern, value) {
        assert left[k - at.v..] == value[k..];
        StarAbsorbs(rest, left, k - at.v);
      }
      AnswersAreSound(pattern, value, Position(at.p + 1, at.v, Some(at.p), at.v));
    } else if at.star.Some? {
      AnswersAreSound(pattern, value, Position(at.star.value + 1, at.retry + 1, at.star, at.retry + 1));
    }
  }

  // ---------- When everything that matches is accepted ----------

  /** One byte of a star-free stretch against one byte of a value. */
  predicate Fits(c: char, b: char) { c == '?' || c == b }

  ghost predicate Agree(stretch: string, bytes: string) {
    |stretch| == |bytes| && forall i | 0 <= i < |stretch| :: stretch[i] != '*' && Fits(stretch[i], bytes[i])
  }

  /** Where the loop's stretch of the pattern begins, and the bytes it is laid against. */
  function From(at: Position): nat { if at.star.Some? then at.star.value + 1 else 0 }

  function Against(at: Position): nat { if at.star.Some? then at.retry else 0 }

  /** From some place on, and without a star only from where it began, the rest matches. */
  ghost predicate Placed(pattern: string, value: string, at: Position, k: nat)
    requires Within(pattern, value, at)
  {
    Against(at) <= k <= |value| && (at.star.None? ==> k == 0) && Matches(pattern[From(at)..], value[k..])
  }

  /** Since its star, the loop has matched a star-free stretch of the pattern byte by byte, and
      if the pattern matches at all, it does so from here on or by moving that star. */
  ghost predicate OnTrack(pattern: string, value: string, at: Position)
    requires Within(pattern, value, at)
  {
    && Against(at) <= at.v && Agree(pattern[From(at)..at.p], value[Against(at)..at.v])
    && (Matches(pattern, value) ==> exists k: nat :: Placed(pattern, value, at, k))
  }

  /** A star-free stretch matches byte by byte, and then the rest matches. */
  lemma {:induction false} StretchMatches(pattern: string, value: string, n: nat)
    requires n <= |pattern| && (forall i | 0 <= i < n :: pattern[i] != '*') && Matches(pattern, value)
    ensures n <= |value| && Agree(pattern[..n], value[..n]) && Matches(pattern[n..], value[n..])
    decreases n
  {
    if n > 0 {
      StretchMatches(pattern[1..], value[1..], n - 1);
      assert pattern[1..][n - 1..] == pattern[n..] && value[1..][n - 1..] == value[n..];
      assert pattern[..n] == [pattern[0]] + pattern[1..][..n - 1] && value[..n] == [value[0]] + value[1..][..n - 1];
    } else {
      assert pattern[0..] == pattern && value[0..] == value;
    }
  }

  /** What is left of the stretch at a place where the rest of the pattern matches. */
  lemma {:induction false} RestMatches(pattern: string, value: string, at: Position, k: nat)
    requires Within(pattern, value, at) && Placed(pattern, value, at, k) && OnTrack(pattern, value, at)
    ensures var n := at.v - Against(at);
      k + n <= |value| && Agree(pattern[From(at)..at.p], value[k..k + n]) && Matches(pattern[at.p..], value[k + n..])
  {
    var n := at.v - Against(at);
    var stretch := pattern[From(at)..at.p];
    assert pattern[From(at)..][..n] == stretch;
    forall i | 0 <= i < n ensures pattern[From(at)..][i] != '*' { assert pattern[From(at)..][i] == stretch[i]; }
    StretchMatches(pattern[From(at)..], value[k..], n);
    assert pattern[From(at)..][n..] == pattern[at.p..] && value[k..][n..] == value[k + n..] && value[k..][..n] == value[k..k + n];
  }

  /** The loop moves along a byte that fits. */
  lemma {:induction false} MovingStaysOnTrack(pattern: string, value: string, at: Position)
    requires Within(pattern, value, at) && OnTrack(pattern, value, at) && at.p < |pattern| && at.v < |value|
    requires pattern[at.p] != '*' && Fits(pattern[at.p], value[at.v])
    ensures var next := at.(p := at.p + 1, v := at.v + 1); Within(pattern, value, next) && OnTrack(pattern, value, next)
  {
    var next := at.(p := at.p + 1, v := at.v + 1);
    assert pattern[From(at)..at.p + 1] == pattern[From(at)..at.p] + [pattern[at.p]];
    assert value[Against(at)..at.v + 1] == value[Against(at)..at.v] + [value[at.v]];
    if k: nat :| Placed(pattern, value, at, k) { assert Placed(pattern, value, next, k); }
  }

  /** The loop takes a star: any place the rest could match is one this star can reach. */
  lemma {:induction false} StarringStaysOnTrack(pattern: string, value: string, at: Position, k: nat)
    requires Within(pattern, value, at) && OnTrack(pattern, value, at) && at.p < |pattern| && pattern[at.p] == '*'
    requires Placed(pattern, value, at, k)
    ensures var next := Position(at.p + 1, at.v, Some(at.p), at.v); Within(pattern, value, next) && OnTrack(pattern, value, next)
  {
    RestMatches(pattern, value, at, k);
    var rest, left := pattern[at.p..], value[k + at.v - Against(at)..];
    var j := StarReaches(rest, left);
    assert rest[1..] == pattern[at.p + 1..] && left[j..] == value[k + at.v - Against(at) + j..];
    assert Placed(pattern, value, Position(at.p + 1, at.v, Some(at.p), at.v), k + at.v - Against(at) + j);
  }

  /** The loop goes back: where it is cannot be where the pattern matches, so it is later. */
  lemma {:induction false} GoingBackStaysOnTrack(pattern: string, value: string, at: Position, k: nat)
    requires Within(pattern, value, at) && OnTrack(pattern, value, at) && at.v < |value| && Placed(pattern, value, at, k)
    requires at.p == |pattern| || (pattern[at.p] != '*' && !Fits(pattern[at.p], value[at.v]))
    ensures at.star.Some?
    ensures var next := Position(at.star.value + 1, at.retry + 1, at.star, at.retry + 1); Within(pattern, value, next) && OnTrack(pattern, value, next)
  {
    RestMatches(pattern, value, at, k);
    assert k != Against(at);
    assert Placed(pattern, value, Position(at.star.value + 1, at.retry + 1, at.star, at.retry + 1), k);
  }

  lemma {:induction false} AnswersAreComplete(pattern: string, value: string, at: Position)
    requires Within(pattern, value, at) && OnTrack(pattern, value, at) && Matches(pattern, value)
    requires '*' !in value || '*' !in pattern
    ensures Answer(pattern, value, at)
    decreases if at.star.Some? then |pattern| - at.star.value else |pattern| + 1, if at.star.Some? then |value| - at.retry else 0, |value| - at.v
  {
    var k: nat :| Placed(pattern, value, at, k);
    if at.v == |value| {
      RestMatches(pattern, value, at, k);
      assert value[k + at.v - Against(at)..] == "";
      StarsMatchNothing(pattern[at.p..]);
    } else if at.p < |pattern| && (pattern[at.p] == '?' || pattern[at.p] == value[at.v]) {
      assert pattern[at.p] in pattern && value[at.v] in value;
      MovingStaysOnTrack(pattern, value, at);
      AnswersAreComplete(pattern, value, at.(p := at.p + 1, v := at.v + 1));
    } else if at.p < |pattern| && pattern[at.p] == '*' {
      StarringStaysOnTrack(pattern, value, at, k);
      AnswersAreComplete(pattern, value, Position(at.p + 1, at.v, Some(at.p), at.v));
    } else {
      GoingBackStaysOnTrack(pattern, value, at, k);
      AnswersAreComplete(pattern, value, Position(at.star.value + 1, at.retry + 1, at.star, at.retry + 1));
    }
  }

  // ---------- The main results ----------

  /** Whatever the function accepts matches, for every pattern and every value; and where the
      value or the pattern is free of stars, it accepts everything that matches. */
  lemma AcceptsWhatMatches(pattern: string, value: string)
    ensures Accepts(pattern, value) ==> Matches(pattern, value)
    ensures '*' !in value || '*' !in pattern ==> (Accepts(pattern, value) <==> Matches(pattern, value))
  {
    assert pattern[0..] == pattern && value[0..] == value;
    if Accepts(pattern, value) {
      AnswersAreSound(pattern, value, BEGIN);
    } else if Matches(pattern, value) && ('*' !in value || '*' !in pattern) {
      assert Placed(pattern, value, BEGIN, 0);
      AnswersAreComplete(pattern, value, BEGIN);
    }
  }

  function Marks(n: nat): string {
    if n == 0 then "" else "?" + Marks(n - 1)
  }

  lemma {:induction false} MarksMatch(value: string)
    ensures Matches(Marks(|value|), value)
  {
    if value != "" {
      assert Marks(|value|)[1..] == Marks(|value| - 1);
      MarksMatch(value[1..]);
    }
  }

  lemma {:induction false} Prefixed(head: string, pattern: string, value: string)
    requires Matches(pattern, value)
    ensures Matches(head + pattern, head + value)
  {
    if head == "" {
      assert head + pattern == pattern && head + value == value;
    } else {
      assert (head + pattern)[1..] == head[1..] + pattern && (head + value)[1..] == head[1..] + value;
      Prefixed(head[1..], pattern, value);
      HeadsMatch(head + pattern, head + value);
    }
  }

  /** While pattern and value agree byte by byte, the loop only moves along. */
  lemma {:induction false} MovesAlong(pattern: string, value: string, n: nat, m: nat)
    requires m <= n <= |pattern| && n <= |value| && forall i | 0 <= i < n :: Fits(pattern[i], value[i])
    ensures Accepts(pattern, value) == Answer(pattern, value, Position(m, m, None, 0))
    decreases m
  {
    if m > 0 {
      MovesAlong(pattern, value, n, m - 1);
    }
  }

  /** Bytes run out on one side before the other, and no star was taken to go back to. */
  lemma {:induction false} RunsOut(pattern: string, value: string, m: nat)
    requires m <= |pattern| && m <= |value| && (forall i | m <= i < |pattern| :: pattern[i] != '*')
    requires |pattern| != |value|
    ensures !Answer(pattern, value, Position(m, m, None, 0))
    decreases |value| - m
  {
    if m == |value| {
      assert pattern[m..][0] == pattern[m] && pattern[m] in pattern[m..];
    } else if m < |pattern| && Fits(pattern[m], value[m]) {
      RunsOut(pattern, value, m + 1);
    }
  }

  function FirstStar(s: string): (i: nat)
    requires '*' in s
    ensures i < |s| && s[i] == '*'
  {
    if s[0] == '*' then 0 else 1 + FirstStar(s[1..])
  }

  function LastStar(s: string): (i: nat)
    requires '*' in s
    ensures i < |s| && s[i] == '*' && forall j | i < j < |s| :: s[j] != '*'
  {
    if s[|s| - 1] == '*' then |s| - 1 else LastStar(s[..|s| - 1])
  }

  /** A value with a star in it is refused by a pattern that matches it: the same bytes up to
      that star, and then room for one byte more than the value has left. */
  lemma {:induction false} StarredValueIsRefused(value: string) returns (pattern: string)
    requires '*' in value
    ensures Matches(pattern, value) && !Accepts(pattern, value)
  {
    var i := FirstStar(value);
    var head, tail := value[..i], value[i..];
    var marks := Marks(|tail|);
    pattern := head + ("*" + marks);
    MarksMatch(tail);
    assert ("*" + marks)[1..] == marks;
    Prefixed(head, "*" + marks, tail);
    assert head + tail == value;
    MarksAreMarks(|tail|);
    MovesAlong(pattern, value, i + 1, i + 1);
    RunsOut(pattern, value, i + 1);
  }

  lemma {:induction false} MarksAreMarks(n: nat)
    ensures |Marks(n)| == n && forall i | 0 <= i < n :: Marks(n)[i] == '?'
  {
    if n > 0 { MarksAreMarks(n - 1); }
  }

  lemma {:induction false} MatchesItself(s: string)
    ensures Matches(s, s)
  {
    if s != "" {
      MatchesItself(s[1..]);
      HeadsMatch(s, s);
    }
  }

  /** A pattern with a star in it refuses a value it matches: its own bytes, with one more
      byte after the last star. */
  lemma {:induction false} StarredPatternRefuses(pattern: string) returns (value: string)
    requires '*' in pattern
    ensures Matches(pattern, value) && !Accepts(pattern, value)
  {
    var i := LastStar(pattern);
    var head, tail := pattern[..i], pattern[i + 1..];
    value := head + ("*x" + tail);
    MatchesItself(tail);
    assert ("*" + tail)[1..] == tail && ("*x" + tail)[2..] == tail;
    StarAbsorbs("*" + tail, "*x" + tail, 2);
    Prefixed(head, "*" + tail, "*x" + tail);
    assert head + ("*" + tail) == pattern;
    MovesAlong(pattern, value, i + 1, i + 1);
    RunsOut(pattern, value, i + 1);
  }

  /** The function agrees with the relation for every pattern exactly on the values that hold
      no star, and for every value exactly on the patterns that hold none. */
  lemma WhereTheyAgree(s: string)
    ensures (forall pattern :: Accepts(pattern, s) <==> Matches(pattern, s)) <==> '*' !in s
    ensures (forall value :: Accepts(s, value) <==> Matches(s, value)) <==> '*' !in s
  {
    if '*' in s {
      var pattern := StarredValueIsRefused(s);
      var value := StarredPatternRefuses(s);
    } else {
      forall t ensures Accepts(t, s) <==> Matches(t, s) { AcceptsWhatMatches(t, s); }
      forall t ensures Accepts(s, t) <==> Matches(s, t) { AcceptsWhatMatches(s, t); }
    }
  }
}
