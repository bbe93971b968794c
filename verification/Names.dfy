/** The names an observer makes up (src/observer_manager.rs): group ids that are new and that
    the id parser accepts, titles that the title parser accepts, and labels that differ.

    The parsers are acceptance predicates (src/model.rs). Slugs and components are built one
    character at a time and related to what those predicates ask; the loops that build them
    and the loop that tries suffixes are proved against functions. */
module Names {
  import opened Common
  import opened Text

  predicate IsLower(c: char) { 'a' <= c <= 'z' }

  predicate IsAlphanumeric(c: char) { IsLower(c) || 'A' <= c <= 'Z' || IsDigit(c) }

  predicate IsGraphic(c: char) { '!' <= c <= '~' }

  function Lowered(c: char): char {
    if 'A' <= c <= 'Z' then (c as int + 32) as char else c
  }

  // ---------- What the parsers accept ----------

  const MAX_GROUP_ID_BYTES: nat := 64
  const MAX_TITLE_BYTES: nat := 128

  predicate IsGroupId(s: string) {
    && 0 < |s| <= MAX_GROUP_ID_BYTES
    && IsLower(s[0]) && IsAlphanumeric(s[|s| - 1])
    && (forall i | 0 <= i < |s| :: IsLower(s[i]) || IsDigit(s[i]) || s[i] == '-' || s[i] == '_')
    && (forall i, j | 0 <= i < |s| && i < j < |s| && j == i + 1 :: !((s[i] == '-' || s[i] == '_') && (s[j] == '-' || s[j] == '_')))
  }

  /** Printable, and without white space at either end. */
  predicate IsTitle(s: string) {
    && 0 < |s| <= MAX_TITLE_BYTES
    && (forall i | 0 <= i < |s| :: s[i] == ' ' || IsGraphic(s[i]))
    && s[0] != ' ' && s[|s| - 1] != ' '
  }

  // ---------- Slugs ----------

  datatype Draft = Draft(output: string, gap: bool)

  function SlugStep(d: Draft, c: char, max: nat): Draft {
    if IsAlphanumeric(c) then
      var spaced := if d.gap && d.output != "" && |d.output| < max then d.output + "-" else d.output;
      Draft(if |spaced| < max then spaced + [Lowered(c)] else spaced, false)
    else d.(gap := true)
  }

  function SlugDraft(input: string, max: nat): Draft {
    if input == "" then Draft("", false) else SlugStep(SlugDraft(input[..|input| - 1], max), input[|input| - 1], max)
  }

  function WithoutTail(s: string, drop: string): string {
    if s != "" && s[|s| - 1] in drop then WithoutTail(s[..|s| - 1], drop) else s
  }

  function FinishedSlug(draft: string, max: nat): string {
    var output := WithoutTail(draft, "-");
    if output == "" then "group"
    else if !IsLower(output[0]) then
      var room := if max < 6 then 0 else max - 6;
      "group-" + WithoutTail(if |output| <= room then output else output[..room], "-")
    else output
  }

  function Slug(input: string, max: nat): string {
    FinishedSlug(SlugDraft(input, max).output, max)
  }

  method Trimmed(s: string, drop: string) returns (trimmed: string)
    ensures trimmed == WithoutTail(s, drop)
  {
    trimmed := s;
    while trimmed != "" && trimmed[|trimmed| - 1] in drop
      invariant WithoutTail(trimmed, drop) == WithoutTail(s, drop)
      decreases |trimmed|
    {
      trimmed := trimmed[..|trimmed| - 1];
    }
  }

  /** A full draft takes nothing more. */
  lemma {:induction false} FullSlugStays(input: string, from: nat, max: nat)
    requires from <= |input| && |SlugDraft(input[..from], max).output| >= max
    ensures SlugDraft(input, max).output == SlugDraft(input[..from], max).output
    decreases |input| - from
  {
    if from == |input| {
      assert input[..from] == input;
    } else {
      assert input[..from + 1][..from] == input[..from];
      FullSlugStays(input, from + 1, max);
    }
  }

  method MakeSlug(input: string, max: nat) returns (slug: string)
    ensures slug == Slug(input, max)
  {
    var output, separator := "", false;
    var i := 0;
    while i < |input|
      invariant i <= |input| && SlugDraft(input[..i], max) == Draft(output, separator)
    {
      assert input[..i + 1][..i] == input[..i];
      var c := input[i];
      if IsAlphanumeric(c) {
        if separator && output != "" && |output| < max { output := output + "-"; }
        separator := false;
        if |output| < max { output := output + [Lowered(c)]; }
      } else {
        separator := true;
      }
      i := i + 1;
      if |output| >= max { break; }
    }
    if i < |input| { FullSlugStays(input, i, max); } else { assert input[..i] == input; }
    slug := FinishSlug(output, max);
  }

  /** Trims the draft, and makes it start with a letter. */
  method FinishSlug(draft: string, max: nat) returns (slug: string)
    ensures slug == FinishedSlug(draft, max)
  {
    var output := Trimmed(draft, "-");
    if output == "" { return "group"; }
    if !IsLower(output[0]) {
      var room := if max < 6 then 0 else max - 6;
      output := Trimmed(if |output| <= room then output else output[..room], "-");
      return "group-" + output;
    }
    return output;
  }

  /** Lower-case letters, digits and single dashes, not starting with a dash. */
  predicate IsDraft(s: string, max: nat) {
    && |s| <= max
    && (forall i | 0 <= i < |s| :: IsLower(s[i]) || IsDigit(s[i]) || s[i] == '-')
    && (s != "" ==> s[0] != '-')
    && (forall i, j | 0 <= i < |s| && i < j < |s| && j == i + 1 :: !(s[i] == '-' && s[j] == '-'))
  }

  lemma {:induction false} DraftsAreDrafts(input: string, max: nat)
    ensures IsDraft(SlugDraft(input, max).output, max)
    ensures var output := SlugDraft(input, max).output; output != "" && output[|output| - 1] == '-' ==> |output| == max
  {
    if input != "" {
      DraftsAreDrafts(input[..|input| - 1], max);
      var d, c := SlugDraft(input[..|input| - 1], max), input[|input| - 1];
      if IsAlphanumeric(c) {
        var spaced := if d.gap && d.output != "" && |d.output| < max then d.output + "-" else d.output;
        assert IsLower(Lowered(c)) || IsDigit(Lowered(c));
        assert IsDraft(spaced, max);
      }
    }
  }

  lemma {:induction false} TrimmedDraft(s: string, max: nat)
    requires IsDraft(s, max)
    ensures var t := WithoutTail(s, "-"); IsDraft(t, max) && (t != "" ==> t[|t| - 1] != '-') && t <= s && (s != "" ==> t != "")
  {
    if s != "" && s[|s| - 1] in "-" {
      assert |s| > 1;
      TrimmedDraft(s[..|s| - 1], max);
    }
  }

  /** A slug is the middle of a group id: it starts with a letter, ends with a letter or digit,
      and holds no two dashes side by side. */
  predicate IsSlug(s: string, max: nat) {
    s != "" && IsDraft(s, max) && IsLower(s[0]) && s[|s| - 1] != '-'
  }

  lemma SlugsAreSlugs(input: string, max: nat)
    requires max >= 7
    ensures IsSlug(Slug(input, max), max)
  {
    DraftsAreDrafts(input, max);
    FinishedSlugsAreSlugs(SlugDraft(input, max).output, max);
  }

  lemma JoinedSlugs(a: string, b: string)
    requires IsDraft(a, |a|) && a != "" && a[|a| - 1] != '-' && IsDraft(b, |b|) && b != "" && b[0] != '-'
    ensures IsDraft(a + "-" + b, |a| + 1 + |b|) && (a + "-" + b)[0] == a[0] && (a + "-" + b)[|a| + |b|] == b[|b| - 1]
  {
    var s := a + "-" + b;
    forall i, j | 0 <= i < j < |s| && j == i + 1 ensures !(s[i] == '-' && s[j] == '-') {
      if j < |a| { assert s[i] == a[i] && s[j] == a[j]; }
      else if i > |a| { assert s[i] == b[i - |a| - 1] && s[j] == b[j - |a| - 1]; }
    }
  }

  lemma FinishedSlugsAreSlugs(draft: string, max: nat)
    requires max >= 7 && IsDraft(draft, max)
    ensures IsSlug(FinishedSlug(draft, max), max)
  {
    TrimmedDraft(draft, max);
    var output := WithoutTail(draft, "-");
    if output != "" && !IsLower(output[0]) {
      GroupSlugs(if |output| <= max - 6 then output else output[..max - 6], max);
    }
  }

  /** What does not start with a letter is put behind one that does. */
  lemma GroupSlugs(head: string, max: nat)
    requires max >= 7 && IsDraft(head, max - 6) && head != ""
    ensures IsSlug("group-" + WithoutTail(head, "-"), max)
  {
    TrimmedDraft(head, max - 6);
    JoinedSlugs("group", WithoutTail(head, "-"));
    assert "group" + "-" + WithoutTail(head, "-") == "group-" + WithoutTail(head, "-");
  }

  lemma SlugTakesLetter(d: Draft, c: char, max: nat)
    requires IsAlphanumeric(c) && Lowered(c) == c && |d.output| + 1 < max + (if d.gap then 0 else 1) && (d.gap ==> d.output != "")
    ensures SlugStep(d, c, max) == Draft((if d.gap then d.output + "-" else d.output) + [c], false)
  {}

  lemma SlugByLast(s: string, i: nat, max: nat)
    requires i < |s|
    ensures SlugDraft(s[..i + 1], max) == SlugStep(SlugDraft(s[..i], max), s[i], max)
  {
    assert s[..i + 1][..i] == s[..i];
  }

  /** The draft when a slug has been read up to here: a dash waits until something follows it. */
  function SlugSoFar(s: string, i: nat): Draft
    requires i <= |s|
  {
    if i > 0 && s[i - 1] == '-' then Draft(s[..i - 1], true) else Draft(s[..i], false)
  }

  lemma SlugReadsOn(s: string, i: nat, max: nat)
    requires IsSlug(s, max) && i < |s|
    ensures SlugStep(SlugSoFar(s, i), s[i], max) == SlugSoFar(s, i + 1)
  {
    var d, c := SlugSoFar(s, i), s[i];
    assert s[..i + 1] == s[..i] + [c];
    if c != '-' {
      assert IsAlphanumeric(c) && Lowered(c) == c;
      if d.gap {
        assert i > 1 && s[..i] == s[..i - 1] + "-";
      }
      SlugTakesLetter(d, c, max);
    }
  }

  lemma {:induction false} SlugPrefix(s: string, i: nat, max: nat)
    requires IsSlug(s, max) && i <= |s|
    ensures SlugDraft(s[..i], max) == SlugSoFar(s, i)
    decreases i
  {
    if i > 0 {
      SlugPrefix(s, i - 1, max);
      SlugByLast(s, i - 1, max);
      SlugReadsOn(s, i - 1, max);
    }
  }

  /** What is a slug already stays as it is. */
  lemma SlugsStay(s: string, max: nat)
    requires IsSlug(s, max)
    ensures Slug(s, max) == s
  {
    SlugPrefix(s, |s|, max);
    assert s[..|s|] == s;
  }

  // ---------- Safe components ----------

  predicate IsSafe(c: char) { IsAlphanumeric(c) || c in "-_." }

  function SafeStep(d: Draft, c: char, max: nat): Draft {
    if IsSafe(c) then
      var spaced := if d.gap && d.output != "" && |d.output| < max then d.output + " " else d.output;
      Draft(if |spaced| < max then spaced + [c] else spaced, false)
    else d.(gap := true)
  }

  function SafeDraft(input: string, max: nat): Draft {
    if input == "" then Draft("", false) else SafeStep(SafeDraft(input[..|input| - 1], max), input[|input| - 1], max)
  }

  function SafeComponent(input: string, max: nat): string {
    var output := WithoutTail(SafeDraft(input, max).output, " -_.");
    if output == "" then "workspace" else output
  }

  lemma {:induction false} FullComponentStays(input: string, from: nat, max: nat)
    requires from <= |input| && |SafeDraft(input[..from], max).output| >= max
    ensures SafeDraft(input, max).output == SafeDraft(input[..from], max).output
    decreases |input| - from
  {
    if from == |input| {
      assert input[..from] == input;
    } else {
      assert input[..from + 1][..from] == input[..from];
      FullComponentStays(input, from + 1, max);
    }
  }

  method MakeSafeComponent(input: string, max: nat) returns (component: string)
    ensures component == SafeComponent(input, max)
  {
    var output, pending := "", false;
    var i := 0;
    while i < |input|
      invariant i <= |input| && SafeDraft(input[..i], max) == Draft(output, pending)
    {
      assert input[..i + 1][..i] == input[..i];
      var c := input[i];
      if IsSafe(c) {
        if pending && output != "" && |output| < max { output := output + " "; }
        pending := false;
        if |output| < max { output := output + [c]; }
      } else {
        pending := true;
      }
      i := i + 1;
      if |output| >= max { break; }
    }
    if i < |input| { FullComponentStays(input, i, max); } else { assert input[..i] == input; }
    output := Trimmed(output, " -_.");
    return if output == "" then "workspace" else output;
  }

  predicate IsComponent(s: string) {
    (forall i | 0 <= i < |s| :: IsSafe(s[i]) || s[i] == ' ') && (s != "" ==> s[0] != ' ')
  }

  lemma {:induction false} DraftsAreComponents(input: string, max: nat)
    ensures IsComponent(SafeDraft(input, max).output) && |SafeDraft(input, max).output| <= max
  {
    if input != "" {
      DraftsAreComponents(input[..|input| - 1], max);
    }
  }

  lemma {:induction false} TrimmedComponent(s: string)
    requires IsComponent(s)
    ensures var t := WithoutTail(s, " -_."); IsComponent(t) && |t| <= |s| && (t != "" ==> t[|t| - 1] != ' ')
  {
    if s != "" && s[|s| - 1] in " -_." {
      TrimmedComponent(s[..|s| - 1]);
    }
  }

  /** A safe component is an acceptable title, of any length limit that has room for one. */
  lemma ComponentsAreTitles(input: string, max: nat)
    requires max <= MAX_TITLE_BYTES
    ensures IsTitle(SafeComponent(input, max)) && IsComponent(SafeComponent(input, max))
    ensures |SafeComponent(input, max)| <= max || SafeComponent(input, max) == "workspace"
  {
    DraftsAreComponents(input, max);
    TrimmedComponent(SafeDraft(input, max).output);
    TrimmedIsTitle(WithoutTail(SafeDraft(input, max).output, " -_."));
  }

  lemma TrimmedIsTitle(t: string)
    requires IsComponent(t) && |t| <= MAX_TITLE_BYTES && (t != "" ==> t[|t| - 1] != ' ')
    ensures var s := if t == "" then "workspace" else t; IsTitle(s) && IsComponent(s)
  {
    forall i | 0 <= i < |t| ensures t[i] == ' ' || IsGraphic(t[i]) {
      assert IsSafe(t[i]) || t[i] == ' ';
    }
  }

  /** Safe characters, single spaces between them, and nothing to trim. */
  predicate IsNeat(s: string, max: nat) {
    && s != "" && |s| <= max && IsComponent(s) && s[|s| - 1] !in " -_."
    && (forall i, j | 0 <= i < |s| && i < j < |s| && j == i + 1 :: !(s[i] == ' ' && s[j] == ' '))
  }

  lemma SafeByLast(s: string, i: nat, max: nat)
    requires i < |s|
    ensures SafeDraft(s[..i + 1], max) == SafeStep(SafeDraft(s[..i], max), s[i], max)
  {
    assert s[..i + 1][..i] == s[..i];
  }

  function NeatSoFar(s: string, i: nat): Draft
    requires i <= |s|
  {
    if i > 0 && s[i - 1] == ' ' then Draft(s[..i - 1], true) else Draft(s[..i], false)
  }

  lemma NeatReadsOn(s: string, i: nat, max: nat)
    requires IsNeat(s, max) && i < |s|
    ensures SafeStep(NeatSoFar(s, i), s[i], max) == NeatSoFar(s, i + 1)
  {
    var d, c := NeatSoFar(s, i), s[i];
    assert s[..i + 1] == s[..i] + [c];
    if c != ' ' && d.gap {
      assert i > 1 && s[..i] == s[..i - 1] + " ";
    }
  }

  lemma {:induction false} NeatPrefix(s: string, i: nat, max: nat)
    requires IsNeat(s, max) && i <= |s|
    ensures SafeDraft(s[..i], max) == NeatSoFar(s, i)
    decreases i
  {
    if i > 0 {
      NeatPrefix(s, i - 1, max);
      SafeByLast(s, i - 1, max);
      NeatReadsOn(s, i - 1, max);
    }
  }

  /** What is neat already stays as it is. */
  lemma NeatComponentsStay(s: string, max: nat)
    requires IsNeat(s, max)
    ensures SafeComponent(s, max) == s
  {
    NeatPrefix(s, |s|, max);
    assert s[..|s|] == s;
  }

  // ---------- A new group ----------

  function GroupIdAt(base: string, suffix: nat): string {
    if suffix == 1 then base else base + "-" + Decimal(suffix)
  }

  lemma GroupIdsDiffer(base: string, m: nat, n: nat)
    requires 1 <= m < n
    ensures GroupIdAt(base, m) != GroupIdAt(base, n)
  {
    DecimalReadsBack(m);
    DecimalReadsBack(n);
    assert GroupIdAt(base, n)[|base| + 1..] == Decimal(n);
    assert m > 1 ==> GroupIdAt(base, m)[|base| + 1..] == Decimal(m);
  }

  function Tried(base: string, count: nat): seq<string> {
    if count == 0 then [] else Tried(base, count - 1) + [GroupIdAt(base, count)]
  }

  lemma {:induction false} TriedAreDistinct(base: string, count: nat)
    ensures |Tried(base, count)| == count && Distinct(Tried(base, count))
    ensures forall k | 0 <= k < count :: Tried(base, count)[k] == GroupIdAt(base, k + 1)
  {
    if count > 0 {
      TriedAreDistinct(base, count - 1);
      forall k | 0 <= k < count - 1 ensures Tried(base, count)[k] != GroupIdAt(base, count) {
        GroupIdsDiffer(base, k + 1, count);
      }
    }
  }

  function Base(host: string, repository: string): string {
    "observer-" + Slug(host, 24) + "-" + Slug(repository, 24)
  }

  lemma BaseIsAGroupId(host: string, repository: string)
    ensures IsSlug(Base(host, repository), 58)
  {
    SlugsAreSlugs(host, 24);
    SlugsAreSlugs(repository, 24);
    NamedSlugs("observer", Slug(host, 24), Slug(repository, 24));
    assert "observer" + "-" + Slug(host, 24) == "observer-" + Slug(host, 24);
  }

  lemma NamedSlugs(name: string, a: string, b: string)
    requires IsSlug(name, 8) && IsSlug(a, 24) && IsSlug(b, 24)
    ensures IsSlug(name + "-" + a + "-" + b, 58)
  {
    JoinedSlugs(name, a);
    JoinedSlugs(name + "-" + a, b);
  }

  /** The id made with a suffix is accepted for every suffix of at most five digits. */
  lemma SuffixedIdsAreAccepted(host: string, repository: string, suffix: nat)
    requires 1 <= suffix < 100_000
    ensures IsGroupId(GroupIdAt(Base(host, repository), suffix))
  {
    BaseIsAGroupId(host, repository);
    assert Power(5) == 100_000 by { assert Power(3) == 1_000; }
    DecimalIsShort(suffix, 5);
    if suffix == 1 {
      SlugsAreGroupIds(Base(host, repository), 58);
    } else {
      SlugWithNumber(Base(host, repository), suffix);
    }
  }

  lemma SlugsAreGroupIds(s: string, max: nat)
    requires IsSlug(s, max) && max <= MAX_GROUP_ID_BYTES
    ensures IsGroupId(s)
  {}

  lemma SlugWithNumber(base: string, n: nat)
    requires IsSlug(base, 58) && |Decimal(n)| <= 5
    ensures IsGroupId(base + "-" + Decimal(n))
  {
    var digits := Decimal(n);
    DecimalReadsBack(n);
    assert IsDraft(digits, |digits|);
    JoinedSlugs(base, digits);
    SlugsAreGroupIds(base + "-" + digits, 64);
  }

  function TitleAt(host: string, repository: string, suffix: nat): string {
    SafeComponent("Observer " + host + " " + repository + (if suffix == 1 then "" else " " + Decimal(suffix)), MAX_TITLE_BYTES)
  }

  /** As many tries as were taken, so many ids there are. */
  lemma TriesAreFew(base: string, n: nat, existing: set<string>)
    requires forall k: nat | 1 <= k <= n :: GroupIdAt(base, k) in existing
    ensures n <= |existing|
  {
    TriedAreDistinct(base, n);
    forall x | x in Tried(base, n) ensures x in existing {
      var k :| 0 <= k < n && Tried(base, n)[k] == x;
      assert x == GroupIdAt(base, k + 1);
    }
    DistinctFitsIn(Tried(base, n), existing);
  }

  /** Finds a group id nobody has, within one more try than there are groups; for as many
      groups as a state may hold, the parsers accept the id and the title. */
  method NextGroupIdentity(groups: seq<string>, host: string, repository: string) returns (id: string, title: string, ghost suffix: nat)
    ensures 1 <= suffix <= |groups| + 1 && id == GroupIdAt(Base(host, repository), suffix) && title == TitleAt(host, repository, suffix)
    ensures id !in groups && forall earlier | 1 <= earlier < suffix :: GroupIdAt(Base(host, repository), earlier) in groups
    ensures |groups| < 99_999 ==> IsGroupId(id)
    ensures IsTitle(title)
  {
    var hostSlug := MakeSlug(host, 24);
    var repositorySlug := MakeSlug(repository, 24);
    var base := "observer-" + hostSlug + "-" + repositorySlug;
    var existing := Elements(groups);
    DistinctByCount(groups);
    var n := 1;
    id := base;
    while id in existing
      invariant 1 <= n && id == GroupIdAt(base, n)
      invariant forall earlier | 1 <= earlier < n :: GroupIdAt(base, earlier) in existing
      invariant n <= |groups| + 1
      decreases |groups| + 1 - n
    {
      TriesAreFew(base, n, existing);
      n := n + 1;
      id := base + "-" + Decimal(n);
    }
    suffix := n;
    var text := "Observer " + host + " " + repository + (if n == 1 then "" else " " + Decimal(n));
    title := MakeSafeComponent(text, MAX_TITLE_BYTES);
    ComponentsAreTitles(text, MAX_TITLE_BYTES);
    if |groups| < 99_999 {
      SuffixedIdsAreAccepted(host, repository, n);
    }
  }

  // ---------- Labels that differ ----------

  const SHORT_REFERENCE_WIDTH: nat := 8
  const MAX_REFERENCE_WIDTH: nat := 32

  /** A session an observer could take in; its id is written in thirty-two characters. */
  datatype Candidate = Candidate(uuid: string, host: string, directory: string, preset: Option<string>, eligible: bool)

  function AfterSlash(s: string): string {
    if s == "" || s[|s| - 1] == '/' then "" else AfterSlash(s[..|s| - 1]) + [s[|s| - 1]]
  }

  /** The last named part of a directory. */
  function RepositoryName(directory: string): string {
    var name := AfterSlash(TrimmedSlashes(directory));
    if name == "" then "workspace" else name
  }

  function BaseLabel(c: Candidate): string {
    SafeComponent(c.host, 24) + " / " + SafeComponent(RepositoryName(c.directory), 32) + " / " + SafeComponent(c.preset.GetOr("shell"), 24)
  }

  lemma NoBracket(input: string, max: nat)
    requires max <= MAX_TITLE_BYTES
    ensures '[' !in SafeComponent(input, max)
  {
    ComponentsAreTitles(input, max);
    assert !IsSafe('[');
  }

  lemma BaseLabelsHaveNoBracket(c: Candidate)
    ensures '[' !in BaseLabel(c)
  {
    NoBracket(c.host, 24);
    NoBracket(RepositoryName(c.directory), 32);
    NoBracket(c.preset.GetOr("shell"), 24);
    NoBracketJoined(SafeComponent(c.host, 24), SafeComponent(RepositoryName(c.directory), 32), SafeComponent(c.preset.GetOr("shell"), 24));
  }

  lemma NoBracketJoined(a: string, b: string, c: string)
    requires '[' !in a && '[' !in b && '[' !in c
    ensures '[' !in a + " / " + b + " / " + c
  {}

  /** The ids of the eligible candidates that would carry this label, in order. */
  function Sharing(cs: seq<Candidate>, key: Candidate -> string, base: string): seq<string> {
    if cs == [] then [] else
    var last := cs[|cs| - 1];
    Sharing(cs[..|cs| - 1], key, base) + if last.eligible && key(last) == base then [last.uuid] else []
  }

  function Token(uuid: string, width: nat): string
    requires |uuid| == MAX_REFERENCE_WIDTH && width <= MAX_REFERENCE_WIDTH
  {
    uuid[..width]
  }

  function Tokens(ids: seq<string>, width: nat): (tokens: seq<string>)
    requires width <= MAX_REFERENCE_WIDTH && forall id | id in ids :: |id| == MAX_REFERENCE_WIDTH
    ensures |tokens| == |ids| && forall i | 0 <= i < |ids| :: tokens[i] == Token(ids[i], width)
  {
    if ids == [] then [] else [Token(ids[0], width)] + Tokens(ids[1..], width)
  }

  ghost predicate Separates(ids: seq<string>, width: nat)
    requires width <= MAX_REFERENCE_WIDTH && forall id | id in ids :: |id| == MAX_REFERENCE_WIDTH
  {
    Distinct(Tokens(ids, width))
  }

  ghost predicate WellFormed(cs: seq<Candidate>) {
    && (forall c | c in cs :: |c.uuid| == MAX_REFERENCE_WIDTH)
    && (forall i, j | 0 <= i < j < |cs| :: cs[i].uuid != cs[j].uuid)
  }

  lemma {:induction false} SharingHolds(cs: seq<Candidate>, key: Candidate -> string, base: string, id: string)
    ensures id in Sharing(cs, key, base) <==> exists i :: 0 <= i < |cs| && cs[i].uuid == id && cs[i].eligible && key(cs[i]) == base
  {
    if cs != [] {
      var init, last := cs[..|cs| - 1], cs[|cs| - 1];
      SharingHolds(init, key, base, id);
      if id in Sharing(init, key, base) {
        var i :| 0 <= i < |init| && init[i].uuid == id && init[i].eligible && key(init[i]) == base;
        assert cs[i] == init[i];
      }
      if i :| 0 <= i < |cs| && cs[i].uuid == id && cs[i].eligible && key(cs[i]) == base {
        assert i < |init| ==> init[i] == cs[i];
      }
    }
  }

  lemma {:induction false} SharingIsDistinct(cs: seq<Candidate>, key: Candidate -> string, base: string)
    requires WellFormed(cs)
    ensures Distinct(Sharing(cs, key, base)) && forall id | id in Sharing(cs, key, base) :: |id| == MAX_REFERENCE_WIDTH
  {
    if cs != [] {
      var init, last := cs[..|cs| - 1], cs[|cs| - 1];
      assert forall i | 0 <= i < |init| :: init[i] == cs[i];
      assert forall c | c in init :: c in cs;
      SharingIsDistinct(init, key, base);
      SharingHolds(init, key, base, last.uuid);
      assert last in cs;
    }
  }

  /** The shortest reference, from eight characters on, that tells all these ids apart. */
  ghost function ReferenceWidth(ids: seq<string>, from: nat): (width: nat)
    requires from <= MAX_REFERENCE_WIDTH && forall id | id in ids :: |id| == MAX_REFERENCE_WIDTH
    ensures from <= width <= MAX_REFERENCE_WIDTH && (Separates(ids, width) || width == MAX_REFERENCE_WIDTH)
    ensures forall less | from <= less < width :: !Separates(ids, less)
    decreases MAX_REFERENCE_WIDTH - from
  {
    if from == MAX_REFERENCE_WIDTH || Separates(ids, from) then from else ReferenceWidth(ids, from + 1)
  }

  method FindReferenceWidth(ids: seq<string>) returns (width: nat)
    requires forall id | id in ids :: |id| == MAX_REFERENCE_WIDTH
    ensures SHORT_REFERENCE_WIDTH <= width <= MAX_REFERENCE_WIDTH && width == ReferenceWidth(ids, SHORT_REFERENCE_WIDTH)
  {
    width := SHORT_REFERENCE_WIDTH;
    while true
      invariant SHORT_REFERENCE_WIDTH <= width <= MAX_REFERENCE_WIDTH
      invariant ReferenceWidth(ids, SHORT_REFERENCE_WIDTH) == ReferenceWidth(ids, width)
      decreases MAX_REFERENCE_WIDTH - width
    {
      var tokens := Elements(Tokens(ids, width));
      DistinctByCount(Tokens(ids, width));
      if |tokens| == |ids| || width == MAX_REFERENCE_WIDTH { break; }
      width := width + 1;
    }
  }

  /** A sequence has as many elements as places exactly when they are all different. */
  lemma {:induction false} DistinctByCount(s: seq<string>)
    ensures |Elements(s)| <= |s| && (|Elements(s)| == |s| <==> Distinct(s))
  {
    if s == [] {
      assert Elements(s) == {};
    } else {
      var init, last := s[..|s| - 1], s[|s| - 1];
      assert s == init + [last] && Elements(s) == Elements(init) + {last};
      DistinctByCount(init);
      assert Distinct(s) <==> Distinct(init) && last !in init by {
        if last in init {
          var i :| 0 <= i < |init| && init[i] == last;
          assert s[i] == s[|s| - 1];
        }
        if Distinct(s) {
          forall i, j | 0 <= i < j < |init| ensures init[i] != init[j] { assert s[i] != s[j]; }
        }
      }
    }
  }

  /** The label of one of the sessions that share a base. */
  ghost function LabelWithin(ids: seq<string>, base: string, id: string): string
    requires |id| == MAX_REFERENCE_WIDTH && forall other | other in ids :: |other| == MAX_REFERENCE_WIDTH
  {
    if |ids| == 1 then base else base + " [" + Token(id, ReferenceWidth(ids, SHORT_REFERENCE_WIDTH)) + "]"
  }

  /** A candidate's own label, with a reference where others share it. */
  ghost function LabelOf(c: Candidate, cs: seq<Candidate>, key: Candidate -> string): string
    requires WellFormed(cs) && |c.uuid| == MAX_REFERENCE_WIDTH
  {
    var base := key(c);
    SharingIsDistinct(cs, key, base);
    LabelWithin(Sharing(cs, key, base), base, c.uuid)
  }

  /** The sessions grouped by the label they would carry. */
  method GroupByLabel(cs: seq<Candidate>, key: Candidate -> string) returns (groups: map<string, seq<string>>)
    ensures forall base :: base in groups <==> Sharing(cs, key, base) != []
    ensures forall base | base in groups :: groups[base] == Sharing(cs, key, base)
  {
    groups := map[];
    for i := 0 to |cs|
      invariant forall base :: base in groups <==> Sharing(cs[..i], key, base) != []
      invariant forall base | base in groups :: groups[base] == Sharing(cs[..i], key, base)
    {
      assert cs[..i + 1][..i] == cs[..i];
      var c := cs[i];
      if c.eligible {
        var base := key(c);
        groups := groups[base := (if base in groups then groups[base] else []) + [c.uuid]];
      }
    }
    assert cs[..|cs|] == cs;
  }

  ghost predicate Labels(labels: map<string, string>, cs: seq<Candidate>, key: Candidate -> string, bases: set<string>)
    requires WellFormed(cs)
  {
    && (forall i | 0 <= i < |cs| :: cs[i].uuid in labels <==> cs[i].eligible && key(cs[i]) in bases)
    && (forall i | 0 <= i < |cs| && cs[i].uuid in labels :: labels[cs[i].uuid] == LabelOf(cs[i], cs, key))
    && (forall id | id in labels :: exists i :: 0 <= i < |cs| && cs[i].uuid == id)
  }

  method LabelGroup(ids: seq<string>, base: string, labels: map<string, string>) returns (more: map<string, string>)
    requires forall id | id in ids :: |id| == MAX_REFERENCE_WIDTH
    ensures forall id :: id in more <==> id in labels || id in ids
    ensures forall id | id in labels && id !in ids :: more[id] == labels[id]
    ensures forall id | id in ids :: more[id] == LabelWithin(ids, base, id)
  {
    more := labels;
    if |ids| == 1 {
      more := more[ids[0] := base];
      return;
    }
    var width := FindReferenceWidth(ids);
    ghost var texts := map id | id in ids :: LabelWithin(ids, base, id);
    for i := 0 to |ids|
      invariant Labelled(more, ids[..i], texts, labels)
    {
      var text := base + " [" + Token(ids[i], width) + "]";
      assert texts[ids[i]] == text;
      LabelledGrows(more, ids, i, texts, labels);
      more := more[ids[i] := text];
    }
    assert ids[..|ids|] == ids;
  }

  /** These ids have been labelled with their texts, on top of the given labels. */
  ghost predicate Labelled<K(!new), V>(more: map<K, V>, ids: seq<K>, texts: map<K, V>, labels: map<K, V>) {
    && (forall id :: id in more <==> id in labels || id in ids)
    && (forall id | id in more :: if id in ids then id in texts && more[id] == texts[id] else id in labels && more[id] == labels[id])
  }

  lemma {:induction false} LabelledGrows<K(!new), V>(more: map<K, V>, ids: seq<K>, i: nat, texts: map<K, V>, labels: map<K, V>)
    requires i < |ids| && ids[i] in texts && Labelled(more, ids[..i], texts, labels)
    ensures Labelled(more[ids[i] := texts[ids[i]]], ids[..i + 1], texts, labels)
  {
    assert ids[..i + 1] == ids[..i] + [ids[i]];
  }

  /** Exactly the eligible sessions get labels, each its own. Groups come in any order. */
  method LabelAll(cs: seq<Candidate>, key: Candidate -> string) returns (labels: map<string, string>)
    requires WellFormed(cs)
    ensures forall i | 0 <= i < |cs| :: cs[i].uuid in labels <==> cs[i].eligible
    ensures forall i | 0 <= i < |cs| && cs[i].eligible :: labels[cs[i].uuid] == LabelOf(cs[i], cs, key)
  {
    var groups := GroupByLabel(cs, key);
    labels := map[];
    var left := groups.Keys;
    NoneAreLabelled(cs, key);
    assert groups.Keys - left == {};
    while left != {}
      invariant left <= groups.Keys && Labels(labels, cs, key, groups.Keys - left)
      decreases |left|
    {
      var base :| base in left;
      SharingIsDistinct(cs, key, base);
      var more := LabelGroup(groups[base], base, labels);
      LabelsGrow(labels, more, cs, key, groups.Keys - left, base, groups[base]);
      labels := more;
      assert groups.Keys - left + {base} == groups.Keys - (left - {base});
      left := left - {base};
    }
    assert groups.Keys - left == groups.Keys;
    AllAreLabelled(labels, cs, key, groups.Keys);
  }

  lemma {:induction false} NoneAreLabelled(cs: seq<Candidate>, key: Candidate -> string)
    requires WellFormed(cs)
    ensures Labels(map[], cs, key, {})
  {}

  lemma {:induction false} AllAreLabelled(labels: map<string, string>, cs: seq<Candidate>, key: Candidate -> string, bases: set<string>)
    requires WellFormed(cs) && Labels(labels, cs, key, bases) && forall base :: base in bases <==> Sharing(cs, key, base) != []
    ensures forall i | 0 <= i < |cs| :: cs[i].uuid in labels <==> cs[i].eligible
    ensures forall i | 0 <= i < |cs| && cs[i].eligible :: labels[cs[i].uuid] == LabelOf(cs[i], cs, key)
  {
    forall i | 0 <= i < |cs| && cs[i].eligible ensures key(cs[i]) in bases {
      SharingHolds(cs, key, key(cs[i]), cs[i].uuid);
    }
  }

  method CandidateLabels(cs: seq<Candidate>) returns (labels: map<string, string>)
    requires WellFormed(cs)
    ensures forall i | 0 <= i < |cs| :: cs[i].uuid in labels <==> cs[i].eligible
    ensures forall i | 0 <= i < |cs| && cs[i].eligible :: labels[cs[i].uuid] == LabelOf(cs[i], cs, BaseLabel)
  {
    labels := LabelAll(cs, BaseLabel);
  }

  lemma {:induction false} LabelsGrow(labels: map<string, string>, more: map<string, string>, cs: seq<Candidate>, key: Candidate -> string, bases: set<string>, base: string, ids: seq<string>)
    requires WellFormed(cs) && Labels(labels, cs, key, bases) && base !in bases
    requires ids == Sharing(cs, key, base) && forall id | id in ids :: |id| == MAX_REFERENCE_WIDTH
    requires forall id :: id in more <==> id in labels || id in ids
    requires forall id | id in labels && id !in ids :: more[id] == labels[id]
    requires forall id | id in ids :: more[id] == LabelWithin(ids, base, id)
    ensures Labels(more, cs, key, bases + {base})
  {
    forall i | 0 <= i < |cs|
      ensures cs[i].uuid in more <==> cs[i].eligible && key(cs[i]) in bases + {base}
      ensures cs[i].uuid in more ==> more[cs[i].uuid] == LabelOf(cs[i], cs, key)
    {
      SharingHolds(cs, key, base, cs[i].uuid);
      if cs[i].uuid in Sharing(cs, key, base) {
        var j :| 0 <= j < |cs| && cs[j].uuid == cs[i].uuid && cs[j].eligible && key(cs[j]) == base;
        assert i == j;
      }
    }
    forall id | id in ids ensures exists i :: 0 <= i < |cs| && cs[i].uuid == id { SharingHolds(cs, key, base, id); }
  }

  function Bracketed(base: string, token: string): string { base + " [" + token + "]" }

  /** A base without brackets can be read off a bracketed label, and is never one itself. */
  lemma {:induction false} BracketsTellApart(a: string, b: string, s: string, t: string)
    requires '[' !in a && '[' !in b
    ensures Bracketed(a, s) == Bracketed(b, t) ==> a == b && s == t
    ensures Bracketed(a, s) != b
  {
    var x, y := Bracketed(a, s), Bracketed(b, t);
    assert x[|a| + 1] == '[' && y[|b| + 1] == '[' && x[|a|] == ' ' && y[|b|] == ' ';
    assert |a| + 1 < |b| ==> b[|a| + 1] in b && y[|a| + 1] == b[|a| + 1];
    assert |b| + 1 < |a| ==> a[|b| + 1] in a && x[|b| + 1] == a[|b| + 1];
    assert x[..|a|] == a && y[..|b|] == b;
    assert x[|a| + 2..|x| - 1] == s && y[|b| + 2..|y| - 1] == t;
  }

  lemma WidthSeparates(ids: seq<string>)
    requires Distinct(ids) && forall id | id in ids :: |id| == MAX_REFERENCE_WIDTH
    ensures Separates(ids, ReferenceWidth(ids, SHORT_REFERENCE_WIDTH))
  {
    forall i, j | 0 <= i < j < |ids| ensures Token(ids[i], MAX_REFERENCE_WIDTH) != Token(ids[j], MAX_REFERENCE_WIDTH) {
      assert ids[i][..32] == ids[i] && ids[j][..32] == ids[j];
    }
    assert Separates(ids, MAX_REFERENCE_WIDTH);
  }

  /** Two of the sessions that share a base are told apart within it. */
  lemma SharersDiffer(ids: seq<string>, base: string, one: string, other: string)
    requires Distinct(ids) && (forall id | id in ids :: |id| == MAX_REFERENCE_WIDTH) && one in ids && other in ids && one != other
    requires '[' !in base
    ensures LabelWithin(ids, base, one) != LabelWithin(ids, base, other)
  {
    WidthSeparates(ids);
    var width := ReferenceWidth(ids, SHORT_REFERENCE_WIDTH);
    TokensDiffer(ids, width, one, other);
    BracketsTellApart(base, base, Token(one, width), Token(other, width));
    assert LabelWithin(ids, base, one) == Bracketed(base, Token(one, width));
    assert LabelWithin(ids, base, other) == Bracketed(base, Token(other, width));
  }

  lemma TokensDiffer(ids: seq<string>, width: nat, one: string, other: string)
    requires width <= MAX_REFERENCE_WIDTH && (forall id | id in ids :: |id| == MAX_REFERENCE_WIDTH)
    requires Separates(ids, width) && one in ids && other in ids && one != other
    ensures |ids| > 1 && Token(one, width) != Token(other, width)
  {
    var i :| 0 <= i < |ids| && ids[i] == one;
    var j :| 0 <= j < |ids| && ids[j] == other;
    var tokens := Tokens(ids, width);
    assert tokens[i] == Token(one, width) && tokens[j] == Token(other, width);
    assert if i < j then tokens[i] != tokens[j] else tokens[j] != tokens[i];
  }

  /** Sessions with different bases are told apart by them, bracketed or not. */
  lemma BasesDiffer(ids: seq<string>, others: seq<string>, a: string, b: string, one: string, other: string)
    requires |one| == MAX_REFERENCE_WIDTH && (forall id | id in ids :: |id| == MAX_REFERENCE_WIDTH)
    requires |other| == MAX_REFERENCE_WIDTH && (forall id | id in others :: |id| == MAX_REFERENCE_WIDTH)
    requires '[' !in a && '[' !in b && a != b
    ensures LabelWithin(ids, a, one) != LabelWithin(others, b, other)
  {
    var s, t := Token(one, ReferenceWidth(ids, SHORT_REFERENCE_WIDTH)), Token(other, ReferenceWidth(others, SHORT_REFERENCE_WIDTH));
    BracketsTellApart(a, b, s, t);
    BracketsTellApart(b, a, t, s);
    assert LabelWithin(ids, a, one) == a || LabelWithin(ids, a, one) == Bracketed(a, s);
    assert LabelWithin(others, b, other) == b || LabelWithin(others, b, other) == Bracketed(b, t);
  }

  /** Different eligible sessions never carry the same label. */
  lemma LabelsAreDistinct(cs: seq<Candidate>, i: nat, j: nat)
    requires WellFormed(cs) && i < j < |cs| && cs[i].eligible && cs[j].eligible
    ensures LabelOf(cs[i], cs, BaseLabel) != LabelOf(cs[j], cs, BaseLabel)
  {
    var a, b := BaseLabel(cs[i]), BaseLabel(cs[j]);
    BaseLabelsHaveNoBracket(cs[i]);
    BaseLabelsHaveNoBracket(cs[j]);
    SharingIsDistinct(cs, BaseLabel, a);
    SharingIsDistinct(cs, BaseLabel, b);
    SharingHolds(cs, BaseLabel, a, cs[i].uuid);
    SharingHolds(cs, BaseLabel, b, cs[j].uuid);
    if a == b {
      SharersDiffer(Sharing(cs, BaseLabel, a), a, cs[i].uuid, cs[j].uuid);
    } else {
      BasesDiffer(Sharing(cs, BaseLabel, a), Sharing(cs, BaseLabel, b), a, b, cs[i].uuid, cs[j].uuid);
    }
  }
}
