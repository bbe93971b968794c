/** What an observer shows of a terminal (src/observer.rs): captured output is stripped of
    escape sequences and controls, cut to its newest part, and wrapped into a viewport. The
    shapes of escape sequences are those of sections 5.4 and 5.6 of ECMA-48. */
module Capture {
  import opened Common
  import Records

  const MAX_CAPTURE_LINES: nat := 200
  const MAX_CAPTURE_BYTES: nat := 16 * 1024
  const MAX_CAPTURE_CELLS: nat := 16 * 1024

  const ESC: char := '\U{1B}'
  const BEL: char := '\U{7}'

  /** The characters of Unicode category Cc. */
  predicate IsControl(c: char) {
    var code := c as int;
    code < 0x20 || 0x7F <= code < 0xA0
  }

  predicate IsUnsafeFormat(c: char) {
    var code := c as int;
    code == 0x61C || 0x200B <= code <= 0x200C || 0x200E <= code <= 0x200F || 0x202A <= code <= 0x202E ||
    0x2060 <= code <= 0x206F || code == 0xFEFF
  }

  // ---------- Escape sequences ----------

  predicate IsFinal(c: char) { 0x40 <= c as int <= 0x7E }

  predicate OpensString(c: char) { c in "]PX^_" }

  /** The length of a control sequence's rest: everything up to its first final character. */
  function ControlLength(s: string): (n: nat)
    ensures n <= |s|
  {
    if s == "" then 0 else if IsFinal(s[0]) then 1 else 1 + ControlLength(s[1..])
  }

  /** The length of a control string's rest: up to a BEL, or an ESC followed by a backslash. */
  function StringLength(s: string, escaped: bool): (n: nat)
    ensures n <= |s|
  {
    if s == "" then 0
    else if s[0] == BEL || (escaped && s[0] == '\\') then 1
    else 1 + StringLength(s[1..], s[0] == ESC)
  }

  /** How much of the text after an ESC belongs to the escape sequence. */
  function EscapeLength(s: string): (n: nat)
    ensures n <= |s|
  {
    if s == "" then 0
    else if s[0] == '[' then 1 + ControlLength(s[1..])
    else if OpensString(s[0]) then 1 + StringLength(s[1..], false)
    else 1
  }

  /** What a complete escape sequence looks like, and what an unfinished one at the end does. */
  ghost predicate IsControlSequence(s: string) {
    s != "" && s[0] == '[' && forall i | 1 <= i < |s| - 1 :: !IsFinal(s[i])
  }

  ghost predicate Terminates(s: string, i: nat)
    requires i < |s|
  {
    s[i] == BEL || (i > 1 && s[i - 1] == ESC && s[i] == '\\')
  }

  ghost predicate IsControlString(s: string) {
    s != "" && OpensString(s[0]) && forall i | 1 <= i < |s| - 1 :: !Terminates(s, i)
  }

  /** The part of `rest` that was taken is one escape sequence, and it was taken whole: it is
      finished, or the text is. */
  ghost predicate IsEscapeOf(taken: string, rest: string) {
    && taken <= rest
    && (rest == "" || taken != "")
    && (taken != "" && taken[0] == '[' ==>
          IsControlSequence(taken) && (taken == rest || (|taken| > 1 && IsFinal(taken[|taken| - 1]))))
    && (taken != "" && OpensString(taken[0]) ==>
          IsControlString(taken) && (taken == rest || (|taken| > 1 && Terminates(taken, |taken| - 1))))
    && (taken != "" && taken[0] != '[' && !OpensString(taken[0]) ==> |taken| == 1)
  }

  lemma {:induction false} ControlEndsAtFinal(s: string)
    ensures var n := ControlLength(s);
      && (forall i | 0 <= i < n - 1 :: !IsFinal(s[i]))
      && (n < |s| ==> n > 0)
      && (n > 0 ==> IsFinal(s[n - 1]) || (n == |s| && !IsFinal(s[n - 1])))
  {
    if s != "" && !IsFinal(s[0]) {
      ControlEndsAtFinal(s[1..]);
      var n := ControlLength(s);
      forall i | 0 <= i < n - 1 ensures !IsFinal(s[i]) {
        if i > 0 { assert s[i] == s[1..][i - 1]; }
      }
      if n > 1 { assert s[n - 1] == s[1..][n - 2]; }
    }
  }

  /** A character that ends a control string whose rest this is. */
  ghost predicate EndsString(s: string, escaped: bool, i: nat)
    requires i < |s|
  {
    s[i] == BEL || (s[i] == '\\' && if i == 0 then escaped else s[i - 1] == ESC)
  }

  lemma {:induction false} StringEndsAtTerminator(s: string, escaped: bool)
    ensures var n := StringLength(s, escaped);
      && (forall i | 0 <= i < n - 1 :: !EndsString(s, escaped, i))
      && (n > 0 && n < |s| ==> EndsString(s, escaped, n - 1))
      && (n < |s| ==> n > 0)
  {
    if s != "" && !(s[0] == BEL || (escaped && s[0] == '\\')) {
      var rest := s[1..];
      StringEndsAtTerminator(rest, s[0] == ESC);
      var n := StringLength(s, escaped);
      forall i | 0 < i < |s| ensures EndsString(s, escaped, i) <==> EndsString(rest, s[0] == ESC, i - 1) {
        assert s[i] == rest[i - 1];
        if i > 1 { assert s[i - 1] == rest[i - 2]; }
      }
    }
  }

  /** What is skipped after an ESC is exactly one escape sequence. */
  lemma {:induction false} EscapesAreWhole(rest: string)
    ensures IsEscapeOf(rest[..EscapeLength(rest)], rest)
  {
    if rest != "" {
      var n := EscapeLength(rest);
      var taken, body := rest[..n], rest[1..];
      if rest[0] == '[' {
        ControlEndsAtFinal(body);
        forall i | 1 <= i < n - 1 ensures !IsFinal(taken[i]) { assert taken[i] == body[i - 1]; }
        if n > 1 { assert taken[n - 1] == body[n - 2]; }
      } else if OpensString(rest[0]) {
        StringEndsAtTerminator(body, false);
        forall i | 1 <= i < n ensures Terminates(taken, i) <==> EndsString(body, false, i - 1) {
          assert taken[i] == body[i - 1];
          if i > 1 { assert taken[i - 1] == body[i - 2]; }
        }
      }
    }
  }

  // ---------- Stripping ----------

  /** One piece of captured text. */
  datatype Token = Escape(rest: string) | LineEnd(text: string) | Tab | Dropped(c: char) | Kept(c: char) {
    function Text(): string {
      match this
      case Escape(rest) => [ESC] + rest
      case LineEnd(text) => text
      case Tab => "\t"
      case Dropped(c) => [c]
      case Kept(c) => [c]
    }

    function Shown(): string {
      match this
      case Escape(_) => ""
      case LineEnd(_) => "\n"
      case Tab => "    "
      case Dropped(_) => ""
      case Kept(c) => [c]
    }

    ghost predicate Valid(after: string) {
      match this
      case Escape(rest) => IsEscapeOf(rest, rest + after)
      case LineEnd(text) => text == "\n" || text == "\r\n" || (text == "\r" && (after == "" || after[0] != '\n'))
      case Tab => true
      case Dropped(c) => c != ESC && c !in "\r\n\t" && (IsControl(c) || IsUnsafeFormat(c))
      case Kept(c) => !IsControl(c) && !IsUnsafeFormat(c)
    }
  }

  function NextToken(s: string): Token
    requires s != ""
  {
    var c := s[0];
    if c == ESC then Escape(s[1..][..EscapeLength(s[1..])])
    else if c == '\r' then LineEnd(if |s| > 1 && s[1] == '\n' then "\r\n" else "\r")
    else if c == '\n' then LineEnd("\n")
    else if c == '\t' then Tab
    else if IsUnsafeFormat(c) || IsControl(c) then Dropped(c)
    else Kept(c)
  }

  lemma NextTokenTakes(s: string)
    requires s != ""
    ensures var text := NextToken(s).Text(); 0 < |text| <= |s| && text == s[..|text|]
  {
    var token := NextToken(s);
    if token.Escape? {
      assert s == [ESC] + s[1..];
      assert s[..1 + |token.rest|] == [ESC] + s[1..][..|token.rest|];
    }
  }

  function Tokens(s: string): seq<Token>
    decreases |s|
  {
    if s == "" then []
    else NextTokenTakes(s); [NextToken(s)] + Tokens(s[|NextToken(s).Text()|..])
  }

  function Texts(tokens: seq<Token>): string {
    if tokens == [] then "" else tokens[0].Text() + Texts(tokens[1..])
  }

  function Shown(tokens: seq<Token>): string {
    if tokens == [] then "" else tokens[0].Shown() + Shown(tokens[1..])
  }

  function Strip(s: string): string { Shown(Tokens(s)) }

  lemma {:induction false} FirstTokenIsValid(s: string)
    requires s != ""
    ensures var token := NextToken(s); |token.Text()| <= |s| && token.Valid(s[|token.Text()|..])
  {
    NextTokenTakes(s);
    var token := NextToken(s);
    if token.Escape? {
      EscapesAreWhole(s[1..]);
      assert token.rest + s[1 + |token.rest|..] == s[1..];
    }
  }

  /** Each piece is what it is taken for, given what comes after it. */
  ghost predicate AllValid(tokens: seq<Token>) {
    tokens != [] ==> tokens[0].Valid(Texts(tokens[1..])) && AllValid(tokens[1..])
  }

  /** The tokens are the text, taken apart: nothing is lost, nothing overlaps, and each piece
      is what it is taken for. */
  lemma {:induction false} TokensAreTheText(s: string)
    ensures Texts(Tokens(s)) == s && AllValid(Tokens(s))
    decreases |s|
  {
    if s != "" {
      NextTokenTakes(s);
      FirstTokenIsValid(s);
      var token := NextToken(s);
      TokensAreTheText(s[|token.Text()|..]);
      TokenThenTokens(s, token, Tokens(s[|token.Text()|..]));
    }
  }

  lemma {:induction false} TokenThenTokens(s: string, token: Token, tokens: seq<Token>)
    requires token.Text() <= s && Texts(tokens) == s[|token.Text()|..] && token.Valid(Texts(tokens)) && AllValid(tokens)
    ensures Texts([token] + tokens) == s && AllValid([token] + tokens)
  {
    assert ([token] + tokens)[1..] == tokens;
  }

  lemma {:induction false} StripByHead(s: string)
    requires s != ""
    ensures var n := |NextToken(s).Text()|; 0 < n <= |s| && Strip(s) == NextToken(s).Shown() + Strip(s[n..])
  {
    NextTokenTakes(s);
    assert Tokens(s)[1..] == Tokens(s[|NextToken(s).Text()|..]);
  }

  predicate IsClean(s: string) {
    forall c | c in s :: c == '\n' || (!IsControl(c) && !IsUnsafeFormat(c))
  }

  lemma {:induction false} StrippedIsClean(s: string)
    ensures IsClean(Strip(s))
    decreases |s|
  {
    if s != "" {
      NextTokenTakes(s);
      StrippedIsClean(s[|NextToken(s).Text()|..]);
      assert Tokens(s)[1..] == Tokens(s[|NextToken(s).Text()|..]);
      forall c | c in NextToken(s).Shown() ensures c == '\n' || (!IsControl(c) && !IsUnsafeFormat(c)) {}
    }
  }

  lemma {:induction false} CleanStaysAsItIs(s: string)
    requires IsClean(s)
    ensures Strip(s) == s
    decreases |s|
  {
    if s != "" {
      assert s[0] in s && s == [s[0]] + s[1..];
      NextTokenTakes(s);
      assert |NextToken(s).Text()| == 1;
      assert Tokens(s)[1..] == Tokens(s[1..]);
      forall c | c in s[1..] ensures c in s {}
      CleanStaysAsItIs(s[1..]);
    }
  }

  /** Skips one escape sequence, character by character, and returns where it ends. */
  method ConsumeEscape(s: string, from: nat) returns (to: nat)
    requires from <= |s|
    ensures from <= to <= |s| && to == from + EscapeLength(s[from..])
  {
    to := from;
    if to == |s| { return; }
    var kind := s[to];
    to := to + 1;
    assert s[from..][1..] == s[to..];
    if kind == '[' {
      var done := false;
      while to < |s| && !done
        invariant from < to <= |s|
        invariant from + EscapeLength(s[from..]) == to + if done then 0 else ControlLength(s[to..])
        decreases |s| - to
      {
        assert s[to..][1..] == s[to + 1..];
        done := IsFinal(s[to]);
        to := to + 1;
      }
    } else if OpensString(kind) {
      var escaped, done := false, false;
      while to < |s| && !done
        invariant from < to <= |s|
        invariant from + EscapeLength(s[from..]) == to + if done then 0 else StringLength(s[to..], escaped)
        decreases |s| - to
      {
        assert s[to..][1..] == s[to + 1..];
        var c := s[to];
        done := c == BEL || (escaped && c == '\\');
        escaped := c == ESC;
        to := to + 1;
      }
    }
  }

  /** Takes one piece of the text: an escape sequence, a line end, or a character. */
  method StripOne(input: string, at: nat) returns (next: nat, shown: string)
    requires at < |input|
    ensures next == at + |NextToken(input[at..]).Text()| && shown == NextToken(input[at..]).Shown()
  {
    ghost var rest := input[at..];
    assert rest[1..] == input[at + 1..];
    var c := input[at];
    next, shown := at + 1, "";
    if c == ESC {
      next := ConsumeEscape(input, next);
    } else if c == '\r' {
      if next < |input| && input[next] == '\n' {
        next := next + 1;
      }
      shown := "\n";
    } else if c == '\n' {
      shown := "\n";
    } else if c == '\t' {
      shown := "    ";
    } else if !IsUnsafeFormat(c) && !IsControl(c) {
      shown := [c];
    }
  }

  method StripCapture(input: string) returns (output: string)
    ensures output == Strip(input)
  {
    output := "";
    var at := 0;
    assert input[0..] == input;
    while at < |input|
      invariant at <= |input|
      invariant Strip(input) == output + Strip(input[at..])
      decreases |input| - at
    {
      StripByHead(input[at..]);
      var next, shown := StripOne(input, at);
      assert input[at..][next - at..] == input[next..];
      assert output + (shown + Strip(input[next..])) == output + shown + Strip(input[next..]);
      output := output + shown;
      at := next;
    }
    assert input[at..] == "" && Strip("") == "";
  }

  // ---------- The newest part ----------

  /** A grapheme cluster, with the display width it was given. */
  datatype Cluster = Cluster(text: string, width: nat)

  function Bytes(cs: seq<Cluster>): nat {
    if cs == [] then 0 else Records.ByteLength(cs[0].text) + Bytes(cs[1..])
  }

  function Breaks(cs: seq<Cluster>): nat {
    if cs == [] then 0 else (if cs[0].text == "\n" then 1 else 0) + Breaks(cs[1..])
  }

  function Cells(cs: seq<Cluster>): nat {
    if cs == [] then 0 else (if cs[0].text == "\n" then 0 else cs[0].width) + Cells(cs[1..])
  }

  /** Within the budgets of bytes, of lines and of display cells. */
  predicate Fits(cs: seq<Cluster>) {
    Bytes(cs) <= MAX_CAPTURE_BYTES && Breaks(cs) + 1 <= MAX_CAPTURE_LINES && Cells(cs) <= MAX_CAPTURE_CELLS
  }

  /** Walks back from the end while the budgets last. */
  method BoundedTail(cs: seq<Cluster>) returns (start: nat)
    ensures start <= |cs| && Fits(cs[start..])
    ensures forall earlier | 0 <= earlier < start :: !Fits(cs[earlier..])
  {
    start := |cs|;
    var lines, bytes, cells := 1, 0, 0;
    while start > 0
      invariant start <= |cs| && Fits(cs[start..])
      invariant bytes == Bytes(cs[start..]) && lines == Breaks(cs[start..]) + 1 && cells == Cells(cs[start..])
    {
      var cluster := cs[start - 1];
      assert cs[start - 1..][1..] == cs[start..];
      var size := Records.ByteLength(cluster.text);
      if cluster.text == "\n" {
        if lines >= MAX_CAPTURE_LINES || bytes + size > MAX_CAPTURE_BYTES { break; }
        lines := lines + 1;
      } else {
        if bytes + size > MAX_CAPTURE_BYTES || cells + cluster.width > MAX_CAPTURE_CELLS { break; }
        cells := cells + cluster.width;
      }
      bytes := bytes + size;
      start := start - 1;
    }
    forall earlier | 0 <= earlier < start ensures !Fits(cs[earlier..]) {
      LongerFitsLess(cs, earlier, start - 1);
    }
  }

  lemma {:induction false} LongerFitsLess(cs: seq<Cluster>, earlier: nat, later: nat)
    requires earlier <= later <= |cs|
    ensures Fits(cs[earlier..]) ==> Fits(cs[later..])
    decreases later - earlier
  {
    if earlier < later {
      assert cs[earlier..][1..] == cs[earlier + 1..];
      LongerFitsLess(cs, earlier + 1, later);
    }
  }

  /** Where the newest part begins, as a function of the text alone. */
  function TailStart(cs: seq<Cluster>): (start: nat)
    ensures start <= |cs| && Fits(cs[start..])
    ensures forall earlier | 0 <= earlier < start :: !Fits(cs[earlier..])
  {
    TailFrom(cs, |cs|)
  }

  function TailFrom(cs: seq<Cluster>, from: nat): (start: nat)
    requires from <= |cs| && Fits(cs[from..])
    ensures start <= from && Fits(cs[start..])
    ensures forall earlier | 0 <= earlier < start :: !Fits(cs[earlier..])
  {
    if from > 0 && Fits(cs[from - 1..]) then TailFrom(cs, from - 1)
    else
      AllEarlierFitLess(cs, from);
      from
  }

  lemma {:induction false} AllEarlierFitLess(cs: seq<Cluster>, from: nat)
    requires from <= |cs| && (from == 0 || !Fits(cs[from - 1..]))
    ensures forall earlier | 0 <= earlier < from :: !Fits(cs[earlier..])
  {
    forall earlier | 0 <= earlier < from ensures !Fits(cs[earlier..]) {
      LongerFitsLess(cs, earlier, from - 1);
    }
  }

  function Text(cs: seq<Cluster>): string {
    if cs == [] then "" else cs[0].text + Text(cs[1..])
  }

  /** Taking text apart into clusters loses nothing, and what follows a cluster boundary is
      taken apart by itself as it was within the whole. */
  ghost predicate Cohesive(segment: string -> seq<Cluster>) {
    && (forall s :: Text(segment(s)) == s)
    && (forall s, k | 0 <= k <= |segment(s)| :: segment(Text(segment(s)[k..])) == segment(s)[k..])
  }

  /** The simplest segmentation: every character is a cluster of its own. */
  function Characters(s: string): seq<Cluster> {
    if s == "" then [] else [Cluster([s[0]], 1)] + Characters(s[1..])
  }

  lemma {:induction false} CharactersSpell(s: string)
    ensures Text(Characters(s)) == s && |Characters(s)| == |s|
  {
    if s != "" {
      CharactersSpell(s[1..]);
      assert Characters(s)[1..] == Characters(s[1..]);
    }
  }

  lemma {:induction false} CharactersByTail(s: string, k: nat)
    requires k <= |Characters(s)| && k <= |s|
    ensures Characters(s)[k..] == Characters(s[k..])
  {
    if k == 0 {
      assert s[0..] == s;
    } else {
      CharactersSpell(s);
      CharactersSpell(s[1..]);
      CharactersByTail(s[1..], k - 1);
      assert s[1..][k - 1..] == s[k..] && Characters(s)[k..] == Characters(s[1..])[k - 1..];
    }
  }

  /** There are segmentations that cohere. */
  lemma CharactersCohere()
    ensures Cohesive(Characters)
  {
    forall s ensures Text(Characters(s)) == s {
      CharactersSpell(s);
    }
    forall s, k | 0 <= k <= |Characters(s)| ensures Characters(Text(Characters(s)[k..])) == Characters(s)[k..] {
      CharactersSpell(s);
      CharactersByTail(s, k);
      CharactersSpell(s[k..]);
    }
  }

  function Sanitized(segment: string -> seq<Cluster>, input: string): string {
    var cs := segment(Strip(input));
    Text(cs[TailStart(cs)..])
  }

  method SanitizeCapture(segment: string -> seq<Cluster>, input: string) returns (output: string)
    ensures output == Sanitized(segment, input)
  {
    var stripped := StripCapture(input);
    var cs := segment(stripped);
    var start := BoundedTail(cs);
    assert start == TailStart(cs);
    return Text(cs[start..]);
  }

  lemma {:induction false} TextOfSuffix(cs: seq<Cluster>, k: nat)
    requires k <= |cs|
    ensures forall c | c in Text(cs[k..]) :: c in Text(cs)
  {
    if k > 0 {
      TextOfSuffix(cs[1..], k - 1);
      assert cs[1..][k - 1..] == cs[k..];
    } else {
      assert cs[0..] == cs;
    }
  }

  /** Sanitized text holds no escape, no control but line feeds and no unsafe format character;
      it is the longest cluster-aligned end of the stripped text within the budgets; and
      sanitizing it again changes nothing. */
  lemma SanitizingIsCleanLongestAndIdempotent(segment: string -> seq<Cluster>, input: string)
    requires Cohesive(segment)
    ensures var output, cs := Sanitized(segment, input), segment(Strip(input));
      && IsClean(output)
      && (exists start: nat :: start <= |cs| && output == Text(cs[start..]) && Fits(cs[start..]) && forall earlier | 0 <= earlier < start :: !Fits(cs[earlier..]))
      && Sanitized(segment, output) == output
  {
    var output, cs := Sanitized(segment, input), segment(Strip(input));
    var tail := cs[TailStart(cs)..];
    StrippedIsClean(input);
    TextOfSuffix(cs, TailStart(cs));
    assert IsClean(output);
    CleanStaysAsItIs(output);
    assert segment(output) == tail;
    assert TailStart(tail) == 0 by { assert tail[0..] == tail; }
    assert tail[0..] == tail;
  }

  // ---------- The viewport ----------

  function Width(row: seq<Cluster>): nat {
    if row == [] then 0 else row[0].width + Width(row[1..])
  }

  /** How a line wraps: a row is complete when the next cluster would not fit beside it, and a
      cluster wider than a whole row is left out. */
  function Wrap(row: seq<Cluster>, line: seq<Cluster>, width: nat): (rows: seq<seq<Cluster>>)
    ensures rows != []
    decreases |line|
  {
    if line == [] then [row]
    else if Width(row) > 0 && Width(row) + line[0].width > width then
      [row] + Wrap(if line[0].width <= width then [line[0]] else [], line[1..], width)
    else Wrap(if line[0].width <= width then row + [line[0]] else row, line[1..], width)
  }

  function WrapAll(lines: seq<seq<Cluster>>, width: nat): seq<seq<Cluster>> {
    if lines == [] then [] else WrapAll(lines[..|lines| - 1], width) + Wrap([], lines[|lines| - 1], width)
  }

  function Last<T>(s: seq<T>, n: nat): seq<T> {
    if |s| <= n then s else s[|s| - n..]
  }

  lemma {:induction false} WidthGrows(row: seq<Cluster>, c: Cluster)
    ensures Width(row + [c]) == Width(row) + c.width
  {
    if row != [] {
      assert (row + [c])[1..] == row[1..] + [c];
      WidthGrows(row[1..], c);
    } else {
      assert [c][1..] == [] && [] + [c] == [c];
    }
  }

  method PushRow(rows: seq<seq<Cluster>>, row: seq<Cluster>, height: nat, ghost all: seq<seq<Cluster>>) returns (kept: seq<seq<Cluster>>)
    requires height > 0 && rows == Last(all, height)
    ensures kept == Last(all + [row], height)
  {
    kept := if |rows| == height then rows[1..] + [row] else rows + [row];
  }

  /** Keeps only as many rows as the viewport is high, and still shows the end of the whole. */
  method CaptureViewport(lines: seq<seq<Cluster>>, width: nat, height: nat) returns (rows: seq<seq<Cluster>>)
    ensures rows == if width == 0 || height == 0 then [] else Last(WrapAll(lines, width), height)
  {
    rows := [];
    if width == 0 || height == 0 { return; }
    for i := 0 to |lines|
      invariant rows == Last(WrapAll(lines[..i], width), height)
    {
      assert lines[..i + 1][..i] == lines[..i];
      rows := ViewLine(lines[i], width, height, rows, WrapAll(lines[..i], width));
    }
    assert lines[..|lines|] == lines;
  }

  method ViewLine(line: seq<Cluster>, width: nat, height: nat, before: seq<seq<Cluster>>, ghost above: seq<seq<Cluster>>) returns (rows: seq<seq<Cluster>>)
    requires width > 0 && height > 0 && before == Last(above, height)
    ensures rows == Last(above + Wrap([], line, width), height)
  {
    rows := before;
    var row: seq<Cluster>, cells := [], 0;
    ghost var done := above;
    assert line[0..] == line;
    for k := 0 to |line|
      invariant rows == Last(done, height) && cells == Width(row)
      invariant above + Wrap([], line, width) == done + Wrap(row, line[k..], width)
    {
      var cluster := line[k];
      ghost var rest := line[k..];
      assert rest[0] == cluster && rest[1..] == line[k + 1..];
      if cells > 0 && cells + cluster.width > width {
        rows := PushRow(rows, row, height, done);
        assert done + Wrap(row, rest, width) == done + [row] + Wrap(if cluster.width <= width then [cluster] else [], rest[1..], width);
        done := done + [row];
        row, cells := [], 0;
      }
      if cluster.width <= width {
        WidthGrows(row, cluster);
        assert row == [] ==> row + [cluster] == [cluster];
        row := row + [cluster];
        cells := cells + cluster.width;
      }
    }
    assert line[|line|..] == [];
    rows := PushRow(rows, row, height, done);
  }

  function Flat(rows: seq<seq<Cluster>>): seq<Cluster> {
    if rows == [] then [] else rows[0] + Flat(rows[1..])
  }

  lemma {:induction false} RowsFit(row: seq<Cluster>, line: seq<Cluster>, width: nat)
    requires Width(row) <= width
    ensures forall r | r in Wrap(row, line, width) :: Width(r) <= width
    decreases |line|
  {
    if line != [] {
      var c := line[0];
      if Width(row) > 0 && Width(row) + c.width > width {
        assert [c][1..] == [];
        RowsFit(if c.width <= width then [c] else [], line[1..], width);
      } else {
        WidthGrows(row, c);
        RowsFit(if c.width <= width then row + [c] else row, line[1..], width);
      }
    }
  }

  lemma {:induction false} RowsKeep(row: seq<Cluster>, line: seq<Cluster>, width: nat)
    ensures Flat(Wrap(row, line, width)) == row + Filter(line, (c: Cluster) => c.width <= width)
    decreases |line|
  {
    var fitting := Filter(line, (c: Cluster) => c.width <= width);
    if line == [] {
      assert [row] + [] == [row];
    } else {
      var c, rest := line[0], line[1..];
      var own := if c.width <= width then [c] else [];
      assert fitting == own + Filter(rest, (c: Cluster) => c.width <= width);
      if Width(row) > 0 && Width(row) + c.width > width {
        RowsKeep(own, rest, width);
      } else {
        RowsKeep(if c.width <= width then row + [c] else row, rest, width);
      }
    }
  }

  /** Every row fits the width, and together the rows hold every cluster of the line that fits
      a row at all, in order. */
  lemma WrappingFitsAndKeeps(line: seq<Cluster>, width: nat)
    ensures var rows := Wrap([], line, width);
      && (forall r | r in rows :: Width(r) <= width)
      && Flat(rows) == Filter(line, (c: Cluster) => c.width <= width)
  {
    RowsFit([], line, width);
    RowsKeep([], line, width);
  }
}
