/** Installing Tether's key binding into the Herdr configuration, and taking it back
    (src/config.rs): the original is copied beside the file first, and every write can fail,
    with or without an effect, or be the last thing that happens. */
module Keybinding {
  import opened Common

  type Bytes = string

  const TETHER_KEYBINDING: Bytes :=
    "[[keys.command]]\nkey = \"prefix+t\"\ntype = \"plugin_action\"\ncommand = \"moneycaringcoder.tether.open\"\ndescription = \"Tether: Open\"\n"

  /** What a configuration says about the key: it cannot be read, something else has it, the
      binding is there already, or the key is free. */
  datatype Verdict = Malformed | Taken | Bound | Free

  /** How the configuration's text is judged, and whether it stays readable with the binding. */
  datatype Judge = Judge(verdict: Bytes -> Verdict, mergeable: Bytes -> bool)

  datatype Files = Files(config: Option<Bytes>, backup: Option<Bytes>)

  datatype Installation = Installed | AlreadyInstalled | NotInstalled

  /** An absent configuration counts as an empty one. */
  function Source(config: Option<Bytes>): Bytes { config.GetOr("") }

  function Appended(source: Bytes): Bytes {
    source
    + (if source != "" && source[|source| - 1] != '\n' then "\n" else "")
    + (if source != "" then "\n" else "")
    + TETHER_KEYBINDING
  }

  method AppendKeybinding(source: Bytes) returns (updated: Bytes)
    ensures updated == Appended(source)
  {
    updated := source;
    if source != "" && source[|source| - 1] != '\n' {
      updated := updated + "\n";
    }
    if source != "" {
      updated := updated + "\n";
    }
    updated := updated + TETHER_KEYBINDING;
  }

  // ---------- What an attempt does ----------

  /** One write or removal: whether it happened, and whether its success was reported. An
      attempt that dies at a write stops there, like one that sees it fail. */
  datatype Writing = Writing(reached: bool, reported: bool) {
    predicate Ok() { reached && reported }
  }

  /** What an attempt meets: files it cannot read, and what becomes of its writes. */
  datatype Chances = Chances(unreadable: bool, removing: Writing, saving: Writing, writing: Writing) {
    predicate Fine() { !unreadable && removing.Ok() && saving.Ok() && writing.Ok() }
  }

  function Written(was: Option<Bytes>, becomes: Option<Bytes>, w: Writing): Option<Bytes> {
    if w.reached then becomes else was
  }

  /** Where the key is free, and a backup that is there holds the very bytes of the
      configuration, an installation may begin to write. */
  predicate MayInstall(judge: Judge, f: Files) {
    judge.verdict(Source(f.config)).Free? && (f.backup.None? || f.backup.value == Source(f.config))
  }

  /** Where an installation gets on some chances. */
  function Installing(judge: Judge, f: Files, c: Chances): (Files, Installation) {
    var s := Source(f.config);
    if c.unreadable then (f, NotInstalled)
    else if judge.verdict(s).Bound? then (f, AlreadyInstalled)
    else if !MayInstall(judge, f) then (f, NotInstalled)
    else
      var removed := Files(f.config, if f.backup.Some? then Written(f.backup, None, c.removing) else None);
      if (f.backup.Some? && !c.removing.Ok()) || !judge.mergeable(s) then (removed, NotInstalled)
      else
        var saved := Files(f.config, Written(None, Some(s), c.saving));
        if !c.saving.Ok() then (saved, NotInstalled)
        else (Files(Written(f.config, Some(Appended(s)), c.writing), Some(s)), if c.writing.Ok() then Installed else NotInstalled)
  }

  /** A rollback overwrites only what the backup says Tether left there. */
  predicate MayRollBack(f: Files) {
    f.backup.Some? && f.config.Some? && (f.config.value == f.backup.value || f.config.value == Appended(f.backup.value))
  }

  /** Where a rollback gets on some chances. */
  function RollingBack(f: Files, c: Chances): (Files, bool) {
    if c.unreadable || !MayRollBack(f) then (f, false)
    else
      var written := Files(Written(f.config, f.backup, c.writing), f.backup);
      if !c.writing.Ok() then (written, false)
      else (Files(f.backup, Written(f.backup, None, c.removing)), c.removing.Ok())
  }

  class HerdrKeybindingStore {
    const judge: Judge
    var config: Option<Bytes>
    var backup: Option<Bytes>

    ghost function Now(): Files
      reads this
    {
      Files(config, backup)
    }

    constructor (judge: Judge, config: Option<Bytes>, backup: Option<Bytes>)
      ensures this.judge == judge && Now() == Files(config, backup)
    {
      this.judge, this.config, this.backup := judge, config, backup;
    }

    /** Replaces the configuration in one rename. A failing write may have happened. */
    method WriteConfig(bytes: Bytes, w: Writing) returns (ok: bool)
      modifies this`config
      ensures config == Written(old(config), Some(bytes), w) && ok == w.Ok()
    {
      if w.reached { config := Some(bytes); }
      ok := w.reached && w.reported;
    }

    method WriteBackup(bytes: Bytes, w: Writing) returns (ok: bool)
      modifies this`backup
      ensures backup == Written(old(backup), Some(bytes), w) && ok == w.Ok()
    {
      if w.reached { backup := Some(bytes); }
      ok := w.reached && w.reported;
    }

    method RemoveBackup(w: Writing) returns (ok: bool)
      modifies this`backup
      ensures backup == Written(old(backup), None, w) && ok == w.Ok()
    {
      if w.reached { backup := None; }
      ok := w.reached && w.reported;
    }

    /** Stops at the first failure. It succeeds exactly if it may install, the binding can be
        merged, and nothing fails; then the binding is there, and the original is backed up
        byte for byte. */
    method Install(c: Chances) returns (result: Installation)
      modifies this
      ensures (Now(), result) == Installing(judge, old(Now()), c)
      ensures c.Fine() && MayInstall(judge, old(Now())) && judge.mergeable(Source(old(config))) ==> result.Installed?
      ensures result.Installed? ==> Now() == Files(Some(Appended(Source(old(config)))), Some(Source(old(config))))
    {
      if c.unreadable { return NotInstalled; }
      var source := Source(config);
      match judge.verdict(source) {
      case Malformed => return NotInstalled;
      case Taken => return NotInstalled;
      case Bound => return AlreadyInstalled;
      case Free =>
      }
      if backup.Some? {
        if backup.value != source { return NotInstalled; }
        var removed := RemoveBackup(c.removing);
        if !removed { return NotInstalled; }
      }
      var updated := AppendKeybinding(source);
      if !judge.mergeable(source) { return NotInstalled; }
      var saved := WriteBackup(source, c.saving);
      if !saved { return NotInstalled; }
      var written := WriteConfig(updated, c.writing);
      return if written then Installed else NotInstalled;
    }

    /** Overwrites the configuration only when it is what the backup says Tether left there,
        and restores it whenever it is and nothing fails. */
    method Rollback(c: Chances) returns (restored: bool)
      modifies this
      ensures (Now(), restored) == RollingBack(old(Now()), c)
      ensures c.Fine() && MayRollBack(old(Now())) ==> restored
      ensures restored ==> old(backup).Some? && Now() == Files(old(backup), None)
    {
      if c.unreadable || backup.None? || config.None? { return false; }
      var bytes := backup.value;
      var installed := AppendKeybinding(bytes);
      if config.value != installed && config.value != bytes { return false; }
      var written := WriteConfig(bytes, c.writing);
      if !written { return false; }
      restored := RemoveBackup(c.removing);
    }
  }

  // ---------- What holds over any number of attempts ----------

  datatype Attempt = ToInstall(c: Chances) | ToRollBack(c: Chances)

  function Attempted(judge: Judge, f: Files, a: Attempt): Files {
    match a
    case ToInstall(c) => Installing(judge, f, c).0
    case ToRollBack(c) => RollingBack(f, c).0
  }

  /** The judge recognizes its own binding wherever it could be merged. */
  ghost predicate Recognizes(judge: Judge) {
    forall s :: judge.verdict(s).Free? && judge.mergeable(s) ==> judge.verdict(Appended(s)).Bound?
  }

  /** Attempts to install and to roll back, in any order, each stopping anywhere. */
  ghost predicate IsHistory(judge: Judge, files: seq<Files>, attempts: seq<Attempt>) {
    |files| == |attempts| + 1 && forall i | 0 <= i < |attempts| :: files[i + 1] == Attempted(judge, files[i], attempts[i])
  }

  /** The original bytes are in the configuration or in the backup, the configuration holds
      them or them with the binding, and a backup holds nothing else. */
  ghost predicate Recoverable(s: Bytes, f: Files) {
    && (Source(f.config) == s || f.backup == Some(s))
    && (Source(f.config) == s || f.config == Some(Appended(s)))
    && (f.backup.None? || f.backup == Some(s))
  }

  /** The files before the first attempt: the key is free, and a backup is the same bytes. */
  ghost predicate Begins(judge: Judge, f: Files, s: Bytes) {
    Source(f.config) == s && MayInstall(judge, f)
  }

  lemma AppendingGrows(s: Bytes)
    ensures |Appended(s)| > |s| && s <= Appended(s)
  {}

  lemma {:induction false} AttemptsStayRecoverable(judge: Judge, f: Files, a: Attempt, s: Bytes)
    requires Recoverable(s, f) && Recognizes(judge) && judge.verdict(s).Free? && (f.config == Some(Appended(s)) ==> judge.mergeable(s))
    ensures var g := Attempted(judge, f, a); Recoverable(s, g) && (g.config == Some(Appended(s)) ==> judge.mergeable(s))
  {
    AppendingGrows(s);
  }

  /** Over any number of attempts, each cut short anywhere, the bytes s that the first one found
      are never lost: at every moment they are the configuration, or the backup holds them. */
  lemma {:induction false} TheOriginalIsNeverLost(judge: Judge, files: seq<Files>, attempts: seq<Attempt>, at: nat, s: Bytes)
    requires IsHistory(judge, files, attempts) && at < |files| && Recognizes(judge) && Begins(judge, files[0], s)
    ensures Recoverable(s, files[at]) && (files[at].config == Some(Appended(s)) ==> judge.mergeable(s))
    decreases at
  {
    AppendingGrows(s);
    if at > 0 {
      TheOriginalIsNeverLost(judge, files, attempts, at - 1, s);
      AttemptsStayRecoverable(judge, files[at - 1], attempts[at - 1], s);
    }
  }

  /** From whatever any history left behind, attempts that meet no failure get to the end: where
      there is a configuration with a backup, a rollback restores the original and consumes
      the backup; and an installation completes, or finds that it had been completed. */
  lemma {:induction false} EveryStopCanBeFinished(judge: Judge, files: seq<Files>, attempts: seq<Attempt>, s: Bytes, c: Chances)
    requires IsHistory(judge, files, attempts) && Recognizes(judge) && Begins(judge, files[0], s) && c.Fine()
    ensures var f := files[|files| - 1];
      && (f.config.Some? && f.backup.Some? ==> RollingBack(f, c) == (Files(Some(s), None), true))
      && (judge.mergeable(s) && Source(f.config) == s ==> Installing(judge, f, c) == (Files(Some(Appended(s)), Some(s)), Installed))
      && (Source(f.config) != s ==> Installing(judge, f, c) == (f, AlreadyInstalled))
  {
    TheOriginalIsNeverLost(judge, files, attempts, |files| - 1, s);
  }

  /** Whatever history came before, an installation that reports success on any chances is
      undone to the original bytes by the next rollback that meets no failure. */
  lemma {:induction false} InstallThenRollbackRestores(judge: Judge, files: seq<Files>, attempts: seq<Attempt>, s: Bytes, c: Chances, fine: Chances)
    requires IsHistory(judge, files, attempts) && Recognizes(judge) && Begins(judge, files[0], s) && fine.Fine()
    requires Installing(judge, files[|files| - 1], c).1 != NotInstalled
    ensures RollingBack(Installing(judge, files[|files| - 1], c).0, fine) == (Files(Some(s), None), true)
  {
    TheOriginalIsNeverLost(judge, files, attempts, |files| - 1, s);
    AppendingGrows(s);
  }

  /** A rollback touches a configuration only if it is the backup's bytes with the binding, or
      those bytes: anybody's later edit stays. */
  lemma RollbackSparesEdits(f: Files, c: Chances)
    ensures var g := RollingBack(f, c).0;
      && (g.config != f.config ==> f.backup.Some? && f.config == Some(Appended(f.backup.value)) && g.config == f.backup)
      && (g.backup != f.backup ==> g.backup.None? && g.config == f.backup)
  {}
}
