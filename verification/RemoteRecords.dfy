/** What a remote scan prints and how it is read (src/discovery.rs, parse_remote): records of
    NUL-terminated fields, of which nothing is believed unless all of it makes sense. */
module RemoteRecords {
  import opened Common
  import opened Text

  const NUL: char := '\0'

  const USIZE_MAX: nat := 0xFFFF_FFFF_FFFF_FFFF

  datatype Completion = Complete | ResultsLimit | EntriesLimit | Malformed | ScanError

  datatype Reading = Reading(repositories: seq<string>, completion: Completion)

  const MALFORMED := Reading([], Malformed)

  // ---------- Fields ----------

  function Terminated(fields: seq<string>): string {
    if fields == [] then "" else fields[0] + [NUL] + Terminated(fields[1..])
  }

  // ---------- One record ----------

  /** An index as it is read: digits, perhaps after a plus sign, that fit the machine's width. */
  function ParseIndex(s: string): Option<nat> {
    var digits := if s != "" && s[0] == '+' then s[1..] else s;
    if digits == "" || exists i | 0 <= i < |digits| :: !IsDigit(digits[i]) then None
    else if Value(digits) < 0 || Value(digits) > USIZE_MAX then None else Some(Value(digits))
  }

  /** A path that stays below its root: not absolute, and without a step up. */
  predicate SafeRelative(path: string) {
    path == "" || (path[0] != '/' && ".." !in Split(path, '/'))
  }

  function Joined(root: string, relative: string): string {
    if relative == "" then root else TrimmedSlashes(root) + "/" + relative
  }

  /** What one record says; an unreadable path is a repository that cannot be named. */
  datatype Record = Found(index: nat, relative: Option<string>) | RootFailed(index: nat) | ResultsCut | EntriesCut

  /** Text is what its bytes decode to, if they decode. */
  type Decoder = string -> Option<string>

  /** The record at the head of the fields, and how many fields it takes. */
  function Head(fields: seq<string>, roots: seq<string>, decode: Decoder): Option<(Record, nat)>
    requires fields != []
  {
    if fields[0] == "R" && |fields| > 2 then
      var index := ParseIndex(fields[1]);
      if index.None? || index.value >= |roots| then None
      else if decode(fields[2]).None? then Some((Found(index.value, None), 3))
      else if SafeRelative(decode(fields[2]).value) then Some((Found(index.value, decode(fields[2])), 3))
      else None
    else if fields[0] == "E" && |fields| > 1 then
      var index := ParseIndex(fields[1]);
      if index.None? || index.value >= |roots| then None else Some((RootFailed(index.value), 2))
    else if fields[0] == "L" && |fields| == 1 then Some((ResultsCut, 1))
    else if fields[0] == "N" && |fields| == 1 then Some((EntriesCut, 1))
    else None
  }

  // ---------- What a sequence of records means ----------

  datatype Progress = Progress(repositories: seq<string>, hadError: bool)

  /** What one record adds; a repository beyond the limit ends the reading. */
  function Apply(p: Progress, r: Record, roots: seq<string>, limit: nat): Option<Progress> {
    match r
    case Found(index, relative) =>
      if index >= |roots| || relative.None? then Some(p.(hadError := true))
      else
        var path := Joined(roots[index], relative.value);
        if path in p.repositories then Some(p)
        else if |p.repositories| >= limit then None
        else Some(p.(repositories := p.repositories + [path]))
    case RootFailed(_) => Some(p.(hadError := true))
    case _ => Some(p)
  }

  function Meaning(p: Progress, records: seq<Record>, roots: seq<string>, limit: nat): Reading
    decreases |records|
  {
    if records == [] then Reading(p.repositories, if p.hadError then ScanError else Complete)
    else if records[0] == ResultsCut then Reading(p.repositories, ResultsLimit)
    else if records[0] == EntriesCut then Reading(p.repositories, EntriesLimit)
    else
      var next := Apply(p, records[0], roots, limit);
      if next.None? then Reading(p.repositories, ResultsLimit) else Meaning(next.value, records[1..], roots, limit)
  }

  // ---------- Reading ----------

  function Read(p: Progress, fields: seq<string>, roots: seq<string>, limit: nat, decode: Decoder): Reading
    decreases |fields|
  {
    if fields == [] then Reading(p.repositories, if p.hadError then ScanError else Complete)
    else
      var head := Head(fields, roots, decode);
      if head.None? then MALFORMED
      else if head.value.0 == ResultsCut then Reading(p.repositories, ResultsLimit)
      else if head.value.0 == EntriesCut then Reading(p.repositories, EntriesLimit)
      else
        var next := Apply(p, head.value.0, roots, limit);
        if next.None? then Reading(p.repositories, ResultsLimit) else Read(next.value, fields[head.value.1..], roots, limit, decode)
  }

  function ReadAll(stdout: string, roots: seq<string>, limit: nat, decode: Decoder): Reading {
    if stdout == "" then Reading([], Complete)
    else if stdout[|stdout| - 1] != NUL then MALFORMED
    else Read(Progress([], false), Split(stdout[..|stdout| - 1], NUL), roots, limit, decode)
  }

  method SplitFields(s: string) returns (fields: seq<string>)
    ensures fields == Split(s, NUL)
  {
    fields := [""];
    var i := |s|;
    assert s[i..] == "";
    while i > 0
      invariant i <= |s| && fields == Split(s[i..], NUL)
    {
      i := i - 1;
      assert s[i..][1..] == s[i + 1..];
      fields := if s[i] == NUL then [""] + fields else [[s[i]] + fields[0]] + fields[1..];
    }
    assert s[0..] == s;
  }

  /** Moves a cursor over the fields. Anything out of place discards everything. */
  method ParseRemote(stdout: string, roots: seq<string>, limit: nat, decode: Decoder) returns (reading: Reading)
    ensures reading == ReadAll(stdout, roots, limit, decode)
  {
    if stdout == "" { return Reading([], Complete); }
    if stdout[|stdout| - 1] != NUL { return MALFORMED; }
    var fields := SplitFields(stdout[..|stdout| - 1]);
    var cursor := 0;
    var repositories: seq<string> := [];
    var hadError := false;
    assert fields[0..] == fields;
    while cursor < |fields|
      invariant cursor <= |fields|
      invariant ReadAll(stdout, roots, limit, decode) == Read(Progress(repositories, hadError), fields[cursor..], roots, limit, decode)
      decreases |fields| - cursor
    {
      ghost var rest := fields[cursor..];
      assert rest[0] == fields[cursor];
      if fields[cursor] == "R" && cursor + 2 < |fields| {
        assert rest[1] == fields[cursor + 1] && rest[2] == fields[cursor + 2] && rest[3..] == fields[cursor + 3..];
        var index := ParseIndex(fields[cursor + 1]);
        if index.None? || index.value >= |roots| { return MALFORMED; }
        var relative := decode(fields[cursor + 2]);
        if relative.None? {
          hadError := true;
        } else {
          if !SafeRelative(relative.value) { return MALFORMED; }
          var path := Joined(roots[index.value], relative.value);
          if path !in repositories {
            if |repositories| >= limit { return Reading(repositories, ResultsLimit); }
            repositories := repositories + [path];
          }
        }
        cursor := cursor + 3;
      } else if fields[cursor] == "E" && cursor + 1 < |fields| {
        assert rest[1] == fields[cursor + 1] && rest[2..] == fields[cursor + 2..];
        var index := ParseIndex(fields[cursor + 1]);
        if index.None? || index.value >= |roots| { return MALFORMED; }
        hadError := true;
        cursor := cursor + 2;
      } else if fields[cursor] == "L" {
        return if cursor + 1 != |fields| then MALFORMED else Reading(repositories, ResultsLimit);
      } else if fields[cursor] == "N" {
        return if cursor + 1 != |fields| then MALFORMED else Reading(repositories, EntriesLimit);
      } else {
        return MALFORMED;
      }
    }
    return Reading(repositories, if hadError then ScanError else Complete);
  }

  // ---------- Whatever is printed ----------

  /** A path made of one of the roots and a relative path that cannot leave it. */
  ghost predicate BelowARoot(path: string, roots: seq<string>) {
    exists i, relative :: 0 <= i < |roots| && SafeRelative(relative) && path == Joined(roots[i], relative)
  }

  ghost predicate Trustworthy(repositories: seq<string>, roots: seq<string>, limit: nat) {
    Distinct(repositories) && |repositories| <= limit && forall path | path in repositories :: BelowARoot(path, roots)
  }

  lemma {:induction false} ReadingIsTrustworthy(p: Progress, fields: seq<string>, roots: seq<string>, limit: nat, decode: Decoder)
    requires Trustworthy(p.repositories, roots, limit)
    ensures var reading := Read(p, fields, roots, limit, decode);
      Trustworthy(reading.repositories, roots, limit) && (reading.completion == Malformed ==> reading.repositories == [])
    decreases |fields|
  {
    if fields != [] {
      var head := Head(fields, roots, decode);
      if head.Some? && head.value.0 != ResultsCut && head.value.0 != EntriesCut {
        var next := Apply(p, head.value.0, roots, limit);
        if next.Some? {
          if head.value.0.Found? && head.value.0.relative.Some? {
            assert BelowARoot(Joined(roots[head.value.0.index], head.value.0.relative.value), roots);
          }
          ReadingIsTrustworthy(next.value, fields[head.value.1..], roots, limit, decode);
        }
      }
    }
  }

  /** Whatever the other side prints, the repositories read from it are different, within the
      limit and below the roots that were asked about; and nothing is read from output that is
      out of order anywhere before the limit was reached. */
  lemma OutputIsNeverTrustedBlindly(stdout: string, roots: seq<string>, limit: nat, decode: Decoder)
    ensures var reading := ReadAll(stdout, roots, limit, decode);
      Trustworthy(reading.repositories, roots, limit) && (reading.completion == Malformed ==> reading.repositories == [])
  {
    if stdout != "" && stdout[|stdout| - 1] == NUL {
      ReadingIsTrustworthy(Progress([], false), Split(stdout[..|stdout| - 1], NUL), roots, limit, decode);
    }
  }

  // ---------- What the scan script prints ----------

  /** The bytes of one record; `encode` is how the other side writes a path. */
  function Fields(r: Record, encode: string -> string): seq<string> {
    match r
    case Found(index, relative) => ["R", Decimal(index), encode(relative.GetOr(""))]
    case RootFailed(index) => ["E", Decimal(index)]
    case ResultsCut => ["L"]
    case EntriesCut => ["N"]
  }

  function AllFields(records: seq<Record>, encode: string -> string): seq<string> {
    if records == [] then [] else Fields(records[0], encode) + AllFields(records[1..], encode)
  }

  /** Records a scan can print: about the roots it was given, with paths below them that hold
      no NUL, and a cut only at the end. */
  ghost predicate Printable(records: seq<Record>, roots: seq<string>, encode: string -> string) {
    && (forall r | r in records && (r.Found? || r.RootFailed?) :: r.index < |roots| && r.index <= USIZE_MAX)
    && (forall r | r in records && r.Found? :: r.relative.Some? && SafeRelative(r.relative.value) && NUL !in encode(r.relative.value))
    && (forall i | 0 <= i < |records| - 1 :: !records[i].ResultsCut? && !records[i].EntriesCut?)
  }

  lemma {:induction false} IndexReadsBack(n: nat)
    requires n <= USIZE_MAX
    ensures ParseIndex(Decimal(n)) == Some(n) && NUL !in Decimal(n)
  {
    DecimalReadsBack(n);
    assert IsDigit(Decimal(n)[0]);
  }

  lemma {:induction false} RecordReadsBack(r: Record, rest: seq<string>, roots: seq<string>, encode: string -> string, decode: Decoder)
    requires r.Found? || r.RootFailed? ==> r.index < |roots| && r.index <= USIZE_MAX
    requires r.Found? ==> r.relative.Some? && SafeRelative(r.relative.value) && decode(encode(r.relative.value)) == r.relative
    requires r.ResultsCut? || r.EntriesCut? ==> rest == []
    ensures Head(Fields(r, encode) + rest, roots, decode) == Some((r, |Fields(r, encode)|))
    ensures (Fields(r, encode) + rest)[|Fields(r, encode)|..] == rest
  {
    if r.Found? || r.RootFailed? {
      IndexReadsBack(r.index);
    }
  }

  lemma {:induction false} RecordsReadBack(p: Progress, records: seq<Record>, roots: seq<string>, limit: nat, encode: string -> string, decode: Decoder)
    requires Printable(records, roots, encode) && forall text :: decode(encode(text)) == Some(text)
    ensures Read(p, AllFields(records, encode), roots, limit, decode) == Meaning(p, records, roots, limit)
    decreases |records|
  {
    if records != [] {
      var r, rest := records[0], records[1..];
      assert Printable(rest, roots, encode) by {
        assert forall x | x in rest :: x in records;
        assert forall i | 0 <= i < |rest| - 1 :: rest[i] == records[i + 1];
      }
      assert r in records;
      RecordReadsBack(r, AllFields(rest, encode), roots, encode, decode);
      var next := Apply(p, r, roots, limit);
      if !r.ResultsCut? && !r.EntriesCut? && next.Some? {
        RecordsReadBack(next.value, rest, roots, limit, encode, decode);
      }
    }
  }

  lemma {:induction false} SplitTakesFirst(field: string, rest: string)
    requires NUL !in field
    ensures Split(field + [NUL] + rest, NUL) == [field] + Split(rest, NUL)
  {
    var s := field + [NUL] + rest;
    if field == "" {
      assert s[1..] == rest;
    } else {
      assert s[1..] == field[1..] + [NUL] + rest && field == [field[0]] + field[1..];
      SplitTakesFirst(field[1..], rest);
    }
  }

  lemma {:induction false} LastFieldSplits(field: string)
    requires NUL !in field
    ensures Split(field, NUL) == [field]
  {
    if field != "" {
      LastFieldSplits(field[1..]);
      assert field == [field[0]] + field[1..];
    }
  }

  /** Terminated fields split back into the fields. */
  lemma {:induction false} FieldsSplitBack(fields: seq<string>)
    requires fields != [] && forall f | f in fields :: NUL !in f
    ensures var s := Terminated(fields); s != "" && s[|s| - 1] == NUL && Split(s[..|s| - 1], NUL) == fields
  {
    var s, field := Terminated(fields), fields[0];
    assert field in fields;
    if |fields| == 1 {
      assert fields[1..] == [] && Terminated(fields[1..]) == "" && s == field + [NUL] + "";
      assert s == field + [NUL] && s[..|s| - 1] == field;
      LastFieldSplits(field);
    } else {
      var rest := Terminated(fields[1..]);
      FieldsSplitBack(fields[1..]);
      assert s == field + [NUL] + rest && s[..|s| - 1] == field + [NUL] + rest[..|rest| - 1];
      SplitTakesFirst(field, rest[..|rest| - 1]);
      assert fields == [field] + fields[1..];
    }
  }

  lemma {:induction false} FieldsHoldNoNul(records: seq<Record>, roots: seq<string>, encode: string -> string)
    requires Printable(records, roots, encode)
    ensures forall f | f in AllFields(records, encode) :: NUL !in f
    ensures records != [] ==> AllFields(records, encode) != []
  {
    if records != [] {
      var rest := records[1..];
      assert Printable(rest, roots, encode) by {
        assert forall x | x in rest :: x in records;
        assert forall i | 0 <= i < |rest| - 1 :: rest[i] == records[i + 1];
      }
      assert records[0] in records;
      FieldsHoldNoNul(rest, roots, encode);
      if records[0].Found? || records[0].RootFailed? { IndexReadsBack(records[0].index); }
    }
  }

  /** What a scan printed is read back exactly: the different repositories in the order they
      were found, up to the limit, and why the scan ended. */
  lemma PrintedRecordsReadBack(records: seq<Record>, roots: seq<string>, limit: nat, encode: string -> string, decode: Decoder)
    requires Printable(records, roots, encode) && forall text :: decode(encode(text)) == Some(text)
    ensures ReadAll(Terminated(AllFields(records, encode)), roots, limit, decode) == Meaning(Progress([], false), records, roots, limit)
  {
    FieldsHoldNoNul(records, roots, encode);
    RecordsReadBack(Progress([], false), records, roots, limit, encode, decode);
    if records != [] {
      FieldsSplitBack(AllFields(records, encode));
    }
  }

  // ---------- Exactly what is accepted ----------

  /** How many fields a record takes. */
  function Width(r: Record): nat {
    match r
    case Found(_, _) => 3
    case RootFailed(_) => 2
    case _ => 1
  }

  /** These fields spell the record: its letter, an index of a root in whatever digits, and a
      path that stays below it or cannot be decoded. */
  predicate Spells(fields: seq<string>, r: Record, roots: seq<string>, decode: Decoder) {
    |fields| == Width(r) &&
    match r
    case Found(index, relative) =>
      && fields[0] == "R" && ParseIndex(fields[1]) == Some(index) && index < |roots| && decode(fields[2]) == relative
      && (relative.Some? ==> SafeRelative(relative.value))
    case RootFailed(index) => fields[0] == "E" && ParseIndex(fields[1]) == Some(index) && index < |roots|
    case ResultsCut => fields[0] == "L"
    case EntriesCut => fields[0] == "N"
  }

  predicate IsCut(r: Record) { r.ResultsCut? || r.EntriesCut? }

  /** These fields spell the records one after the other, a cut only as the last of all. */
  predicate Spelled(fields: seq<string>, records: seq<Record>, roots: seq<string>, decode: Decoder)
    decreases |records|
  {
    if records == [] then fields == []
    else
      && Width(records[0]) <= |fields| && Spells(fields[..Width(records[0])], records[0], roots, decode)
      && (IsCut(records[0]) ==> |records| == 1)
      && Spelled(fields[Width(records[0])..], records[1..], roots, decode)
  }

  /** Among these records is a repository beyond the limit, at which reading stops. */
  predicate HitsLimit(p: Progress, records: seq<Record>, roots: seq<string>, limit: nat)
    decreases |records|
  {
    records != [] && !IsCut(records[0]) &&
    var next := Apply(p, records[0], roots, limit);
    next.None? || HitsLimit(next.value, records[1..], roots, limit)
  }

  lemma {:induction false} HeadSpells(fields: seq<string>, roots: seq<string>, decode: Decoder)
    requires fields != [] && Head(fields, roots, decode).Some?
    ensures var (r, n) := Head(fields, roots, decode).value;
      n == Width(r) <= |fields| && Spells(fields[..n], r, roots, decode) && (IsCut(r) ==> n == |fields|)
  {}

  lemma {:induction false} SpelledHead(fields: seq<string>, r: Record, roots: seq<string>, decode: Decoder)
    requires Width(r) <= |fields| && Spells(fields[..Width(r)], r, roots, decode) && (IsCut(r) ==> |fields| == 1)
    ensures Head(fields, roots, decode) == Some((r, Width(r)))
  {
    var own := fields[..Width(r)];
    assert own[0] == fields[0] && (Width(r) > 1 ==> own[1] == fields[1]) && (Width(r) > 2 ==> own[2] == fields[2]);
  }

  /** Spelled records mean what they say, whatever follows a repository beyond the limit. */
  lemma {:induction false} SpelledReads(p: Progress, read: seq<string>, rest: seq<string>, records: seq<Record>, roots: seq<string>, limit: nat, decode: Decoder)
    requires Spelled(read, records, roots, decode) && (rest == [] || HitsLimit(p, records, roots, limit))
    ensures Read(p, read + rest, roots, limit, decode) == Meaning(p, records, roots, limit)
    decreases |records|
  {
    var fields := read + rest;
    if records == [] {
      assert fields == [];
    } else {
      var r, n := records[0], Width(records[0]);
      assert fields[..n] == read[..n] && fields[n..] == read[n..] + rest;
      if IsCut(r) {
        assert records[1..] == [] && read[n..] == [];
      }
      SpelledHead(fields, r, roots, decode);
      var next := Apply(p, r, roots, limit);
      if !IsCut(r) && next.Some? {
        SpelledReads(next.value, read[n..], rest, records[1..], roots, limit, decode);
      }
    }
  }

  lemma {:induction false} SpelledGrows(own: seq<string>, r: Record, read: seq<string>, records: seq<Record>, roots: seq<string>, decode: Decoder)
    requires Spells(own, r, roots, decode) && !IsCut(r) && Spelled(read, records, roots, decode)
    ensures Spelled(own + read, [r] + records, roots, decode)
  {
    assert (own + read)[..Width(r)] == own && (own + read)[Width(r)..] == read && ([r] + records)[1..] == records;
  }

  lemma {:induction false} HitsLater(p: Progress, r: Record, records: seq<Record>, roots: seq<string>, limit: nat)
    requires !IsCut(r) && Apply(p, r, roots, limit).Some?
    ensures HitsLimit(p, [r] + records, roots, limit) == HitsLimit(Apply(p, r, roots, limit).value, records, roots, limit)
  {
    assert ([r] + records)[1..] == records;
  }

  /** The first of the fields spell the records; the rest is empty, or never reached because
      a repository is beyond the limit. */
  ghost predicate ReadAs(p: Progress, fields: seq<string>, read: seq<string>, rest: seq<string>, records: seq<Record>, roots: seq<string>, limit: nat, decode: Decoder) {
    fields == read + rest && Spelled(read, records, roots, decode) && (rest == [] || HitsLimit(p, records, roots, limit))
  }

  lemma {:induction false} ReadingStops(p: Progress, fields: seq<string>, r: Record, roots: seq<string>, limit: nat, decode: Decoder)
    requires Width(r) <= |fields| && Spells(fields[..Width(r)], r, roots, decode) && (IsCut(r) ==> |fields| == 1)
    requires IsCut(r) || Apply(p, r, roots, limit).None?
    ensures ReadAs(p, fields, fields[..Width(r)], fields[Width(r)..], [r], roots, limit, decode)
  {
    var read := fields[..Width(r)];
    assert read[..Width(r)] == read && read[Width(r)..] == [] && [r][1..] == [];
    assert Spelled([], [], roots, decode);
  }

  lemma {:induction false} ReadingGoesOn(p: Progress, fields: seq<string>, r: Record, read: seq<string>, rest: seq<string>, records: seq<Record>,
                                         roots: seq<string>, limit: nat, decode: Decoder)
    requires Width(r) <= |fields| && Spells(fields[..Width(r)], r, roots, decode) && !IsCut(r) && Apply(p, r, roots, limit).Some?
    requires ReadAs(Apply(p, r, roots, limit).value, fields[Width(r)..], read, rest, records, roots, limit, decode)
    ensures ReadAs(p, fields, fields[..Width(r)] + read, rest, [r] + records, roots, limit, decode)
  {
    SpelledGrows(fields[..Width(r)], r, read, records, roots, decode);
    HitsLater(p, r, records, roots, limit);
    assert fields == fields[..Width(r)] + fields[Width(r)..];
  }

  /** What was read without complaint was spelled. */
  lemma {:induction false} ReadingIsSpelled(p: Progress, fields: seq<string>, roots: seq<string>, limit: nat, decode: Decoder)
    returns (read: seq<string>, rest: seq<string>, records: seq<Record>)
    requires Read(p, fields, roots, limit, decode).completion != Malformed
    ensures ReadAs(p, fields, read, rest, records, roots, limit, decode)
    decreases |fields|
  {
    if fields == [] {
      read, rest, records := [], [], [];
    } else {
      HeadSpells(fields, roots, decode);
      var (r, n) := Head(fields, roots, decode).value;
      var next := Apply(p, r, roots, limit);
      if IsCut(r) || next.None? {
        ReadingStops(p, fields, r, roots, limit, decode);
        read, rest, records := fields[..n], fields[n..], [r];
      } else {
        read, rest, records := ReadingIsSpelled(next.value, fields[n..], roots, limit, decode);
        ReadingGoesOn(p, fields, r, read, rest, records, roots, limit, decode);
        read, records := fields[..n] + read, [r] + records;
      }
    }
  }

  /** Output is these terminated fields, of which the first spell the records; the rest is
      empty, or never reached because a repository is beyond the limit. */
  ghost predicate AcceptedAs(stdout: string, read: seq<string>, rest: seq<string>, records: seq<Record>, roots: seq<string>, limit: nat, decode: Decoder) {
    && (forall f | f in read + rest :: NUL !in f) && stdout == Terminated(read + rest)
    && ReadAs(Progress([], false), read + rest, read, rest, records, roots, limit, decode)
  }

  lemma {:induction false} SplitTerminates(s: string)
    ensures Terminated(Split(s, NUL)) == s + [NUL] && forall f | f in Split(s, NUL) :: NUL !in f
  {
    if s != "" {
      SplitTerminates(s[1..]);
      var rest := Split(s[1..], NUL);
      if s[0] == NUL {
        assert ([""] + rest)[1..] == rest && s == [NUL] + s[1..];
      } else {
        var fields := [[s[0]] + rest[0]] + rest[1..];
        assert fields[1..] == rest[1..] && s == [s[0]] + s[1..];
        assert Terminated(fields) == [s[0]] + Terminated(rest);
      }
    } else {
      assert [""][1..] == [];
    }
  }

  /** Output is refused as malformed exactly if it is not the terminated fields of records, up
      to the end or to a repository beyond the limit; and if it is, it means those records. */
  lemma {:induction false} MalformedIsExactlyUnspelled(stdout: string, roots: seq<string>, limit: nat, decode: Decoder)
    ensures ReadAll(stdout, roots, limit, decode).completion != Malformed <==>
      exists read, rest, records :: AcceptedAs(stdout, read, rest, records, roots, limit, decode)
    ensures forall read, rest, records | AcceptedAs(stdout, read, rest, records, roots, limit, decode) ::
      ReadAll(stdout, roots, limit, decode) == Meaning(Progress([], false), records, roots, limit)
  {
    var reading := ReadAll(stdout, roots, limit, decode);
    if reading.completion != Malformed {
      if stdout == "" {
        assert AcceptedAs(stdout, [], [], [], roots, limit, decode);
      } else {
        var text := stdout[..|stdout| - 1];
        SplitTerminates(text);
        var read, rest, records := ReadingIsSpelled(Progress([], false), Split(text, NUL), roots, limit, decode);
        assert stdout == text + [NUL];
        assert AcceptedAs(stdout, read, rest, records, roots, limit, decode);
      }
    }
    forall read, rest, records | AcceptedAs(stdout, read, rest, records, roots, limit, decode)
      ensures reading == Meaning(Progress([], false), records, roots, limit) && reading.completion != Malformed
    {
      SpelledReads(Progress([], false), read, rest, records, roots, limit, decode);
      MeaningIsNoComplaint(Progress([], false), records, roots, limit);
      if read + rest != [] {
        FieldsSplitBack(read + rest);
      }
    }
  }

  lemma {:induction false} MeaningIsNoComplaint(p: Progress, records: seq<Record>, roots: seq<string>, limit: nat)
    ensures Meaning(p, records, roots, limit).completion != Malformed
    decreases |records|
  {
    if records != [] && !IsCut(records[0]) {
      var next := Apply(p, records[0], roots, limit);
      if next.Some? { MeaningIsNoComplaint(next.value, records[1..], roots, limit); }
    }
  }
}
