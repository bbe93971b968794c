/** Shell quoting (src/quote.rs) and command lines (src/backend.rs), against the way a POSIX
    shell takes a line apart: sections 2.2.1, 2.2.2 and 2.3 of the Shell Command Language
    volume (XCU) of POSIX.1-2017. */
module Quote {
  import opened Common
  import opened Text

  const NUL: char := '\0'

  // ---------- How a shell splits a line ----------

  /** What the shell is reading: nothing yet, a word, the inside of single quotes, or the byte
      after a backslash, each with what the current word holds so far. */
  datatype Mode =
    | Between
    | InWord(word: string)
    | InQuotes(word: string)
    | AfterBackslash(begun: Option<string>)

  /** Bytes that an unquoted word cannot hold for itself: operators, expansions, patterns,
      double quotes and the comment sign all mean something else, or could. */
  predicate IsSpecial(c: char) {
    c in "|&;<>()$`\"*?[#~=%{}!\n\0"
  }

  predicate IsBlank(c: char) { c == ' ' || c == '\t' }

  /** One byte of the line, and the word it completes, if any; nothing when the line is not
      a plain sequence of words. */
  function Read(mode: Mode, c: char): Option<(Mode, Option<string>)> {
    match mode
    case InQuotes(word) => Some((if c == '\'' then InWord(word) else InQuotes(word + [c]), None))
    case AfterBackslash(word) =>
      if c == '\n' then Some((if word.Some? then InWord(word.value) else Between, None))
      else Some((InWord(word.GetOr("") + [c]), None))
    case Between =>
      if IsBlank(c) then Some((Between, None))
      else if c == '\'' then Some((InQuotes(""), None))
      else if c == '\\' then Some((AfterBackslash(None), None))
      else if IsSpecial(c) then None
      else Some((InWord([c]), None))
    case InWord(word) =>
      if IsBlank(c) then Some((Between, Some(word)))
      else if c == '\'' then Some((InQuotes(word), None))
      else if c == '\\' then Some((AfterBackslash(Some(word)), None))
      else if IsSpecial(c) then None
      else Some((InWord(word + [c]), None))
  }

  /** The words of a line, when it is a plain sequence of words and every quote is closed. */
  function Words(mode: Mode, line: string): Option<seq<string>>
    decreases |line|
  {
    if line == "" then
      match mode
      case Between => Some([])
      case InWord(word) => Some([word])
      case _ => None
    else
      var step := Read(mode, line[0]);
      if step.None? then None
      else
        var rest := Words(step.value.0, line[1..]);
        if rest.None? then None
        else Some((if step.value.1.Some? then [step.value.1.value] else []) + rest.value)
  }

  // ---------- What is written ----------

  /** How an apostrophe is written: out of the quotes, escaped, and into them again. */
  const ESCAPED: string := "'\\''"

  function Escaped(value: string): string {
    if value == "" then ""
    else (if value[0] == '\'' then ESCAPED else [value[0]]) + Escaped(value[1..])
  }

  function Quoted(value: string): string {
    "'" + Escaped(value) + "'"
  }

  function Apostrophes(value: string): nat {
    if value == "" then 0 else (if value[0] == '\'' then 1 else 0) + Apostrophes(value[1..])
  }

  function Joined(parts: seq<string>): string {
    if parts == [] then "" else (if |parts| == 1 then "" else Joined(parts[..|parts| - 1]) + ESCAPED) + parts[|parts| - 1]
  }

  lemma {:induction false} JoinedByHead(parts: seq<string>)
    requires |parts| > 1
    ensures Joined(parts) == parts[0] + ESCAPED + Joined(parts[1..])
  {
    var n := |parts| - 1;
    if n == 1 {
      assert parts[..1] == [parts[0]] && parts[1..] == [parts[1]];
    } else {
      JoinedByHead(parts[..n]);
      assert parts[..n][1..] == parts[1..][..n - 1];
    }
  }

  /** Joining the parts with an escaped apostrophe escapes every apostrophe of the value. */
  lemma {:induction false} JoiningEscapes(value: string)
    ensures Joined(Split(value, '\'')) == Escaped(value)
  {
    if value != "" {
      JoiningEscapes(value[1..]);
      var rest := Split(value[1..], '\'');
      if value[0] == '\'' {
        JoinedByHead([""] + rest);
        assert ([""] + rest)[1..] == rest && "" + ESCAPED == ESCAPED;
      } else {
        JoinedFromByte(value[0], rest);
      }
    }
  }

  lemma {:induction false} JoinedFromByte(c: char, parts: seq<string>)
    requires parts != []
    ensures Joined([[c] + parts[0]] + parts[1..]) == [c] + Joined(parts)
  {
    var longer := [[c] + parts[0]] + parts[1..];
    if |parts| > 1 {
      JoinedByHead(parts);
      JoinedByHead(longer);
      assert longer[1..] == parts[1..];
    } else {
      assert longer == [[c] + parts[0]];
    }
  }

  lemma {:induction false} EscapedLength(value: string)
    ensures |Escaped(value)| == |value| + 3 * Apostrophes(value)
  {
    if value != "" { EscapedLength(value[1..]); }
  }

  /** Quotes one value, or refuses a value that holds a NUL; the space it reserves is exactly
      the space it uses. */
  method PosixQuote(value: string) returns (quoted: Option<string>)
    ensures quoted == if NUL in value then None else Some(Quoted(value))
    ensures quoted.Some? ==> |quoted.value| == |value| + 2 + 3 * Apostrophes(value)
  {
    if NUL in value {
      return None;
    }
    var parts := Split(value, '\'');
    var text := "'";
    for index := 0 to |parts|
      invariant text == "'" + Joined(parts[..index])
    {
      assert parts[..index + 1][..index] == parts[..index];
      if index != 0 {
        text := text + ESCAPED;
      }
      text := text + parts[index];
    }
    assert parts[..|parts|] == parts;
    JoiningEscapes(value);
    EscapedLength(value);
    return Some(text + "'");
  }

  datatype CommandSpec = CommandSpec(program: string, args: seq<string>)

  function Line(program: string, args: seq<string>): string {
    if args == [] then Quoted(program) else Line(program, args[..|args| - 1]) + " " + Quoted(args[|args| - 1])
  }

  predicate Quotable(spec: CommandSpec) {
    NUL !in spec.program && forall arg | arg in spec.args :: NUL !in arg
  }

  method PosixCommandLine(spec: CommandSpec) returns (line: Option<string>)
    ensures line == if Quotable(spec) then Some(Line(spec.program, spec.args)) else None
  {
    var program := PosixQuote(spec.program);
    if program.None? {
      return None;
    }
    var command := program.value;
    for i := 0 to |spec.args|
      invariant command == Line(spec.program, spec.args[..i])
      invariant forall k | 0 <= k < i :: NUL !in spec.args[k]
    {
      var argument := PosixQuote(spec.args[i]);
      if argument.None? {
        return None;
      }
      assert spec.args[..i + 1][..i] == spec.args[..i];
      command := command + " " + argument.value;
    }
    assert spec.args[..|spec.args|] == spec.args;
    return Some(command);
  }

  // ---------- Reading back what was written ----------

  /** A byte that completes no word only changes what is being read. */
  lemma {:induction false} ReadsOn(mode: Mode, c: char, rest: string, next: Mode)
    requires Read(mode, c) == Some((next, None))
    ensures Words(mode, [c] + rest) == Words(next, rest)
  {
    assert ([c] + rest)[1..] == rest;
    var after := Words(next, rest);
    assert after.Some? ==> [] + after.value == after.value;
  }

  /** Inside quotes, the shell reads an escaped value back as the value. */
  lemma {:induction false} EscapedReadsBack(value: string, rest: string, word: string)
    ensures Words(InQuotes(word), Escaped(value) + "'" + rest) == Words(InWord(word + value), rest)
    decreases |value|
  {
    var line := Escaped(value) + "'" + rest;
    if value == "" {
      assert line == ['\''] + rest && word + value == word;
      ReadsOn(InQuotes(word), '\'', rest, InWord(word));
    } else {
      var tail := Escaped(value[1..]) + "'" + rest;
      var longer := word + [value[0]];
      assert longer + value[1..] == word + value;
      EscapedReadsBack(value[1..], rest, longer);
      if value[0] == '\'' {
        var third, second, first := "'" + tail, "'" + ("'" + tail), "\\" + ("'" + ("'" + tail));
        assert line == ['\''] + first && first == ['\\'] + second && second == ['\''] + third && third == ['\''] + tail;
        ReadsOn(InQuotes(word), '\'', first, InWord(word));
        ReadsOn(InWord(word), '\\', second, AfterBackslash(Some(word)));
        ReadsOn(AfterBackslash(Some(word)), '\'', third, InWord(longer));
        ReadsOn(InWord(longer), '\'', tail, InQuotes(longer));
      } else {
        assert line == [value[0]] + tail;
        ReadsOn(InQuotes(word), value[0], tail, InQuotes(longer));
      }
    }
  }

  lemma {:induction false} QuotedReadsBack(value: string, rest: string)
    ensures Words(Between, Quoted(value) + rest) == Words(InWord(value), rest)
  {
    var after := Escaped(value) + "'" + rest;
    assert Quoted(value) + rest == ['\''] + after && "" + value == value;
    ReadsOn(Between, '\'', after, InQuotes(""));
    EscapedReadsBack(value, rest, "");
  }

  function Tail(args: seq<string>): string {
    if args == [] then "" else " " + Quoted(args[0]) + Tail(args[1..])
  }

  lemma {:induction false} Regroup(a: string, b: string, c: string, d: string)
    ensures a + b + c + d == a + (b + (c + d))
  {
  }

  lemma {:induction false} LineByHead(program: string, args: seq<string>)
    ensures Line(program, args) == Quoted(program) + Tail(args)
  {
    if args != [] {
      var n := |args| - 1;
      LineByHead(program, args[..n]);
      TailGrows(args[..n], args[n]);
      assert args == args[..n] + [args[n]];
      Regroup(Quoted(program), Tail(args[..n]), " ", Quoted(args[n]));
    }
  }

  lemma {:induction false} TailGrows(args: seq<string>, arg: string)
    ensures Tail(args + [arg]) == Tail(args) + (" " + Quoted(arg))
  {
    if args == [] {
      assert [arg][1..] == [] && [] + [arg] == [arg];
    } else {
      assert (args + [arg])[1..] == args[1..] + [arg];
      TailGrows(args[1..], arg);
    }
  }

  lemma {:induction false} TailReadsBack(word: string, args: seq<string>)
    ensures Words(InWord(word), Tail(args)) == Some([word] + args)
    decreases |args|
  {
    if args == [] {
      assert [word] + args == [word];
    } else {
      var line := Tail(args);
      var rest := Quoted(args[0]) + Tail(args[1..]);
      assert line[0] == ' ' && line[1..] == rest;
      QuotedReadsBack(args[0], Tail(args[1..]));
      TailReadsBack(args[0], args[1..]);
      assert [args[0]] + args[1..] == args;
    }
  }

  /** The shell takes a command line apart into exactly the program and the arguments it was
      made from, whatever bytes they hold, and nothing in it means anything else. */
  lemma CommandLineReadsBack(spec: CommandSpec)
    ensures Words(Between, Line(spec.program, spec.args)) == Some([spec.program] + spec.args)
  {
    LineByHead(spec.program, spec.args);
    QuotedReadsBack(spec.program, Tail(spec.args));
    TailReadsBack(spec.program, spec.args);
  }

  lemma {:induction false} NothingNew(value: string)
    requires NUL !in value
    ensures NUL !in Escaped(value) && NUL !in Quoted(value)
  {
    if value != "" { NothingNew(value[1..]); }
  }

  lemma {:induction false} LinesHoldNoNul(program: string, args: seq<string>)
    requires NUL !in program && forall arg | arg in args :: NUL !in arg
    ensures NUL !in Line(program, args)
  {
    NothingNew(program);
    if args != [] {
      NothingNew(args[|args| - 1]);
      LinesHoldNoNul(program, args[..|args| - 1]);
    }
  }

  /** A command line handed on as an argument of another command survives both shells: the
      outer one yields it as one word, and that word yields the inner program and arguments. */
  lemma NestedCommandsReadBack(outer: CommandSpec, at: nat, inner: CommandSpec)
    requires Quotable(inner) && Quotable(outer) && at < |outer.args| && outer.args[at] == Line(inner.program, inner.args)
    ensures NUL !in Line(inner.program, inner.args)
    ensures var words := Words(Between, Line(outer.program, outer.args));
      words.Some? && |words.value| == |outer.args| + 1 && Words(Between, words.value[at + 1]) == Some([inner.program] + inner.args)
  {
    LinesHoldNoNul(inner.program, inner.args);
    CommandLineReadsBack(outer);
    CommandLineReadsBack(inner);
  }

  /** Different commands never share a command line. */
  lemma CommandLinesAreDistinct(a: CommandSpec, b: CommandSpec)
    requires Line(a.program, a.args) == Line(b.program, b.args)
    ensures a == b
  {
    CommandLineReadsBack(a);
    CommandLineReadsBack(b);
    assert ([a.program] + a.args)[0] == ([b.program] + b.args)[0];
    assert ([a.program] + a.args)[1..] == a.args && ([b.program] + b.args)[1..] == b.args;
  }
}
