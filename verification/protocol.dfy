/** What the rendered commands do when a shell runs them on the target machine: the
    stage/commit protocol over a filesystem, end to end from `render`. */
module Protocol {
  import opened Results
  import opened Shadow
  import opened Text
  import Awk
  import Shell
  import opened ShadowPasswordEntry

  /** The stage command's words in the shell's terms: `user` bound to the anchored login
      pattern, `password` to the hash, reading /etc/shadow into the login's temp file. */
  lemma {:induction false} StageCommandShape(login: string, hash: string)
    requires ShellSafeLogin(login) && SafeHash(hash)
    ensures Shell.Words(StageCommand(login, hash, ShadowFile))
            == Some(Shell.StageWords("user", "^" + login + ":", "password", hash, Awk.RewriteProgram,
                                     ShadowFile, TempPath(login), []))
  {
    StageCommandWords(login, hash);
    assert "user=^" + login + ":" == "user" + "=" + ("^" + login + ":");
    assert "password=" + hash == "password" + "=" + hash;
    assert Shell.StageWords("user", "^" + login + ":", "password", hash, Awk.RewriteProgram,
                            ShadowFile, TempPath(login), [])
        == ["awk", "-v", "user=^" + login + ":", "-v", "password=" + hash,
            Awk.RewriteProgram, ShadowFile, ">" + TempPath(login)];
  }

  /** Whenever awk, given `user=^login:` and the hash, turns /etc/shadow into `text`, the
      stage command writes `text` to the login's temp file and touches nothing else. */
  lemma {:induction false} StageRunAsWritten(login: string, hash: string, fs: Shell.FileSystem, text: string)
    requires ShellSafeLogin(login) && SafeHash(hash) && ShadowFile in fs
    requires Awk.Run(Awk.RewriteProgram, map["user" := "^" + login + ":", "password" := hash], fs[ShadowFile]) == Some(text)
    ensures Shell.Run(StageCommand(login, hash, ShadowFile), fs, true) == Some(fs[TempPath(login) := text])
  {
    var tmp := TempPath(login);
    StageCommandShape(login, hash);
    TempPathIsPrivate(login, login);
    Shell.StageEffectRuns("user", "^" + login + ":", "password", hash, Awk.RewriteProgram,
                          ShadowFile, tmp, [], fs, text);
    Shell.RunStage(StageCommand(login, hash, ShadowFile),
                   Shell.StageWords("user", "^" + login + ":", "password", hash, Awk.RewriteProgram, ShadowFile, tmp, []),
                   fs, true);
  }

  /** Running the stage command with awk available and /etc/shadow present writes the
      staged copy to the login's temp file and touches nothing else. */
  lemma {:induction false} StageRun(login: string, hash: string, fs: Shell.FileSystem)
    requires SafeLogin(login) && SafeHash(hash) && ShadowFile in fs
    ensures ':' !in login && ':' !in hash
    ensures Shell.Run(StageCommand(login, hash, ShadowFile), fs, true)
            == Some(fs[TempPath(login) := Staged(login, hash, fs[ShadowFile])])
  {
    Awk.RunRewriteMeaning(login, hash, fs[ShadowFile]);
    StageRunAsWritten(login, hash, fs, Staged(login, hash, fs[ShadowFile]));
  }

  /** The commit command moves the temp file over /etc/shadow when it exists, and does
      nothing otherwise. */
  lemma {:induction false} CommitRun(login: string, fs: Shell.FileSystem, awkPresent: bool)
    requires ShellSafeLogin(login)
    ensures Shell.Run(CommitCommand(login, ShadowFile), fs, awkPresent)
            == Some(if TempPath(login) in fs then (fs - {TempPath(login)})[ShadowFile := fs[TempPath(login)]] else fs)
  {
    CommitCommandWords(login);
    TempPathIsPrivate(login, login);
  }

  /** On a Unix family with a successful hash, `render` yields the stage command and then
      the commit command, both on /etc/shadow. */
  lemma {:induction false} RenderCommands(entry: Entry, hash: string)
    ensures Render(entry, Some(Unix), Success(hash))
            == Success([StageCommand(entry.login, hash, ShadowFile), CommitCommand(entry.login, ShadowFile)])
  {
  }

  /** Whatever stage command left `text` in the login's temp file, the commit that follows
      moves it over /etc/shadow and leaves no temp file behind. */
  lemma {:induction false} StageThenCommit(stage: string, login: string, fs: Shell.FileSystem, awkPresent: bool, text: string)
    requires ShellSafeLogin(login)
    requires Shell.Run(stage, fs, awkPresent) == Some(fs[TempPath(login) := text])
    ensures Shell.Execute([stage, CommitCommand(login, ShadowFile)], fs, awkPresent)
            == Some((fs - {TempPath(login)})[ShadowFile := text])
  {
    var tmp := TempPath(login);
    var staged := fs[tmp := text];
    Shell.ExecutePair(stage, CommitCommand(login, ShadowFile), fs, awkPresent, staged);
    CommitRun(login, staged, awkPresent);
    TempPathIsPrivate(login, login);
    assert (staged - {tmp})[ShadowFile := staged[tmp]] == (fs - {tmp})[ShadowFile := text];
  }

  /** The rendered commands, run in order with awk available on a machine that has
      /etc/shadow, leave the staged copy in /etc/shadow and no temp file behind. Read back,
      the new file holds the old records, in order, with only the login's records
      rewritten. */
  lemma {:induction false} RenderThenExecute(entry: Entry, hash: string, fs: Shell.FileSystem)
    requires SafeLogin(entry.login) && SafeHash(hash) && ShadowFile in fs
    ensures ':' !in entry.login && ':' !in hash
    ensures Render(entry, Some(Unix), Success(hash)).Success?
    ensures Shell.Execute(Render(entry, Some(Unix), Success(hash)).value, fs, true)
            == Some((fs - {TempPath(entry.login)})[ShadowFile := Staged(entry.login, hash, fs[ShadowFile])])
    ensures Records(Staged(entry.login, hash, fs[ShadowFile]))
            == RewriteRecords(entry.login, hash, Records(fs[ShadowFile]))
  {
    var login := entry.login;
    RenderCommands(entry, hash);
    StageRun(login, hash, fs);
    StageThenCommit(StageCommand(login, hash, ShadowFile), login, fs, true, Staged(login, hash, fs[ShadowFile]));
    StagedRecords(login, hash, fs[ShadowFile]);
  }

  /** When /etc/shadow is newline-terminated, has no record of the login and no temp file
      is lying around, running the rendered commands leaves the filesystem exactly as it
      was. */
  lemma {:induction false} RenderThenExecuteWithoutEntry(entry: Entry, hash: string, fs: Shell.FileSystem)
    requires SafeLogin(entry.login) && SafeHash(hash) && ShadowFile in fs
    requires TempPath(entry.login) !in fs && Terminated(fs[ShadowFile])
    requires forall i :: 0 <= i < |Records(fs[ShadowFile])| ==> !IsEntryFor(entry.login, Records(fs[ShadowFile])[i])
    ensures Render(entry, Some(Unix), Success(hash)).Success?
    ensures Shell.Execute(Render(entry, Some(Unix), Success(hash)).value, fs, true) == Some(fs)
  {
    RenderThenExecute(entry, hash, fs);
    StagedWithoutEntryIsIdentity(entry.login, hash, fs[ShadowFile]);
    assert (fs - {TempPath(entry.login)})[ShadowFile := fs[ShadowFile]] == fs;
  }

  /** The stage command run where it cannot read /etc/shadow leaves an empty temp file. */
  lemma {:induction false} FailedStageRun(login: string, hash: string, fs: Shell.FileSystem, awkPresent: bool)
    requires ShellSafeLogin(login) && SafeHash(hash)
    requires !awkPresent || ShadowFile !in fs
    ensures Shell.Run(StageCommand(login, hash, ShadowFile), fs, awkPresent) == Some(fs[TempPath(login) := ""])
  {
    var tmp := TempPath(login);
    StageCommandShape(login, hash);
    TempPathIsPrivate(login, login);
    Shell.StageEffectFails("user", "^" + login + ":", "password", hash, Awk.RewriteProgram,
                           ShadowFile, tmp, [], fs, awkPresent);
    Shell.RunStage(StageCommand(login, hash, ShadowFile),
                   Shell.StageWords("user", "^" + login + ":", "password", hash, Awk.RewriteProgram, ShadowFile, tmp, []),
                   fs, awkPresent);
  }

  /** As written, a stage that fails (awk missing, or no /etc/shadow to read) still leaves
      an empty temp file, because the shell creates the redirection target before awk
      runs; the commit then finds it and moves it over /etc/shadow, leaving an empty
      shadow file. */
  lemma {:induction false} FailedStageEmptiesShadow(entry: Entry, hash: string, fs: Shell.FileSystem, awkPresent: bool)
    requires ShellSafeLogin(entry.login) && SafeHash(hash)
    requires !awkPresent || ShadowFile !in fs
    ensures Render(entry, Some(Unix), Success(hash)).Success?
    ensures Shell.Execute(Render(entry, Some(Unix), Success(hash)).value, fs, awkPresent)
            == Some((fs - {TempPath(entry.login)})[ShadowFile := ""])
  {
    var login := entry.login;
    RenderCommands(entry, hash);
    FailedStageRun(login, hash, fs, awkPresent);
    StageThenCommit(StageCommand(login, hash, ShadowFile), login, fs, awkPresent, "");
  }

  /** The record of `xcy`, followed by a newline, is a file of exactly that one record. */
  lemma {:induction false} DotRecordIsOneLine(x: string, y: string, c: char, rest: string)
    requires ShellSafeLogin(x + "." + y) && c != '\n' && '\n' !in rest
    ensures Records(x + [c] + y + ":" + rest + "\n") == [x + [c] + y + ":" + rest]
  {
    var login, record := x + "." + y, x + [c] + y + ":" + rest;
    forall i | 0 <= i < |record|
      ensures record[i] != '\n'
    {
      if i < |x| { assert record[i] == login[i]; }
      else if i == |x| { assert record[i] == c; }
      else if i < |login| { assert record[i] == login[i]; }
      else if i > |login| { assert record[i] == rest[i - |login| - 1]; }
    }
    assert Unlines([record]) == record + "\n";
    RecordsUnlines([record]);
  }

  /** Awk as written, given `user=^x.y:`, over a file holding only the record of `xcy`:
      the one record comes out with field 2 replaced by the hash. */
  lemma {:induction false} DotLoginAwkRun(x: string, y: string, c: char, rest: string, hash: string)
    requires ShellSafeLogin(x + "." + y) && Awk.RegexLiteral(x) && Awk.RegexLiteral(y)
    requires c != '.' && c != ':' && c != '\n' && '\n' !in rest && SafeHash(hash)
    ensures !IsEntryFor(x + "." + y, x + [c] + y + ":" + rest)
    ensures Records(x + [c] + y + ":" + rest + "\n") == [x + [c] + y + ":" + rest]
    ensures |Split(x + [c] + y + ":" + rest, ':')| >= 2
    ensures Awk.Run(Awk.RewriteProgram, map["user" := "^" + (x + "." + y) + ":", "password" := hash], x + [c] + y + ":" + rest + "\n")
            == Some(Join(Split(x + [c] + y + ":" + rest, ':')[1 := hash], ':') + "\n")
  {
    var login, record := x + "." + y, x + [c] + y + ":" + rest;
    var user := "^" + login + ":";
    Awk.DotLoginRewritesOtherRecord(x, y, c, rest, hash);
    var out := Awk.ProcessRecord(user, hash, record);
    JoinSplit(out, ':');
    DotRecordIsOneLine(x, y, c, rest);
    var records := Records(record + "\n");
    ShellSafeLoginIsPlain(login);
    NotInConcat("^", login, '\\');
    NotInConcat("^" + login, ":", '\\');
    assert seq(|records|, i requires 0 <= i < |records| => Awk.ProcessRecord(user, hash, records[i])) == [out];
    assert Unlines([out]) == out + "\n";
  }

  /** As written, the rendered commands for the login `x.y` rewrite the record of another
      user `xcy` (any character `c` but `.`, for instance login `a.b` and user `axb`): on a
      shadow file holding only that record, field 2 of it becomes the new hash, while the
      intended rewrite leaves a file without the login's record as it is. */
  lemma {:induction false} DotLoginRenderedRewritesOtherRecord(x: string, y: string, c: char, rest: string,
                                                               password: string, hash: string, fs: Shell.FileSystem)
    requires ShellSafeLogin(x + "." + y) && Awk.RegexLiteral(x) && Awk.RegexLiteral(y)
    requires c != '.' && c != ':' && c != '\n' && '\n' !in rest && SafeHash(hash)
    requires ShadowFile in fs && fs[ShadowFile] == x + [c] + y + ":" + rest + "\n"
    ensures !IsEntryFor(x + "." + y, x + [c] + y + ":" + rest)
    ensures Staged(x + "." + y, hash, fs[ShadowFile]) == fs[ShadowFile]
    ensures Render(Entry(x + "." + y, password), Some(Unix), Success(hash)).Success?
    ensures |Split(x + [c] + y + ":" + rest, ':')| >= 2
    ensures Shell.Execute(Render(Entry(x + "." + y, password), Some(Unix), Success(hash)).value, fs, true)
            == Some((fs - {TempPath(x + "." + y)})[ShadowFile := Join(Split(x + [c] + y + ":" + rest, ':')[1 := hash], ':') + "\n"])
  {
    var login, record := x + "." + y, x + [c] + y + ":" + rest;
    DotLoginAwkRun(x, y, c, rest, hash);
    var text := Join(Split(record, ':')[1 := hash], ':') + "\n";
    StageRunAsWritten(login, hash, fs, text);
    RenderCommands(Entry(login, password), hash);
    StageThenCommit(StageCommand(login, hash, ShadowFile), login, fs, true, text);
    StagedWithoutEntryIsIdentity(login, hash, fs[ShadowFile]);
  }

  /** The stage command with both corrections: the login is matched by the literal prefix
      test `index($0, user) == 1` instead of a regular expression, and a failed awk run
      removes the temp file again (`|| rm -f /etc/shadow.login`). */
  function CorrectedStageCommand(login: string, hash: string, file: string): string {
    "awk -v user=" + login + ": -v password='" + hash + "' '" + Awk.IndexRewriteProgram + "' " + file
    + " >" + file + "." + login + " || rm -f " + file + "." + login
  }

  /** The rendered pair with the corrected stage command in place of the stage command. */
  function CorrectedCommands(login: string, hash: string): (commands: seq<string>)
    ensures |commands| == 2 && commands[1] == CommitCommand(login, ShadowFile)
  {
    [CorrectedStageCommand(login, hash, ShadowFile), CommitCommand(login, ShadowFile)]
  }

  /** The cleanup text cut where the shell's reading of it changes state. */
  lemma {:induction false} CleanupLayout(prefix: string)
    ensures prefix + " || rm -f " == prefix + (" " + "||") + (" " + "rm") + (" " + "-f") + " "
  {
    assert " || rm -f " == (" " + "||") + (" " + "rm") + (" " + "-f") + " ";
  }

  /** Reading ` || rm -f ` after a word: the word is completed and three more follow. */
  lemma {:induction false} ScanCleanupWords(prefix: string, word: string, words: seq<string>)
    requires Shell.Scan(prefix, Shell.Start) == Shell.Scanner(word, false, words) && word != ""
    ensures Shell.Scan(prefix + " || rm -f ", Shell.Start)
            == Shell.Scanner("", false, words + [word, "||", "rm", "-f"])
  {
    var w1 := words + [word];
    Shell.AppendSpaceWord(prefix, "||", Shell.Scanner(word, false, words));
    var p1 := prefix + (" " + "||");
    Shell.AppendSpaceWord(p1, "rm", Shell.Scanner("||", false, w1));
    var p2 := p1 + (" " + "rm");
    Shell.AppendSpaceWord(p2, "-f", Shell.Scanner("rm", false, w1 + ["||"]));
    var p3 := p2 + (" " + "-f");
    Shell.AppendSpace(p3, Shell.Scanner("-f", false, w1 + ["||", "rm"]));
    CleanupLayout(prefix);
    assert w1 + ["||", "rm", "-f"] == words + [word, "||", "rm", "-f"];
  }

  /** Reading ` || rm -f /etc/shadow.login` after a word: the temp path is the word left
      open at the end. */
  lemma {:induction false} ScanCleanup(prefix: string, login: string, word: string, words: seq<string>)
    requires Shell.Scan(prefix, Shell.Start) == Shell.Scanner(word, false, words) && word != ""
    requires ShellSafeLogin(login)
    ensures Shell.Scan(prefix + " || rm -f " + ShadowFile + "." + login, Shell.Start)
            == Shell.Scanner(TempPath(login), false, words + [word, "||", "rm", "-f"])
  {
    ScanCleanupWords(prefix, word, words);
    AppendTempPath(prefix + " || rm -f ", login, Shell.Scanner("", false, words + [word, "||", "rm", "-f"]));
    assert "" + TempPath(login) == TempPath(login);
  }

  /** The corrected stage command cut where the shell's reading of it changes state. */
  lemma {:induction false} CorrectedStageLayout(login: string, hash: string, file: string)
    ensures CorrectedStageCommand(login, hash, file)
            == "awk" + (" " + "-v") + (" " + "user=") + login + ":" + (" " + "-v") + (" " + "password=")
               + "'" + hash + "'" + " " + "'" + Awk.IndexRewriteProgram + "'" + " " + file + (" " + ">")
               + file + "." + login + " || rm -f " + file + "." + login
  {
    var x1 := "awk -v user=" + login;
    assert "awk -v user=" == "awk" + (" " + "-v") + (" " + "user=");
    assert x1 + ": -v password='" == x1 + ":" + (" " + "-v") + (" " + "password=") + "'";
    var x2 := x1 + ": -v password='" + hash;
    assert x2 + "' '" == x2 + "'" + " " + "'";
    var x3 := x2 + "' '" + Awk.IndexRewriteProgram;
    assert x3 + "' " == x3 + "'" + " ";
    var x4 := x3 + "' " + file;
    assert x4 + " >" == x4 + (" " + ">");
  }

  /** The shell's state after reading the corrected stage command up to the redirection. */
  lemma {:induction false} ScanCorrectedStage(login: string, hash: string)
    requires ShellSafeLogin(login) && SafeHash(hash)
    ensures Shell.Scan("awk" + (" " + "-v") + (" " + "user=") + login + ":" + (" " + "-v") + (" " + "password=")
                       + "'" + hash + "'" + " " + "'" + Awk.IndexRewriteProgram + "'" + " " + ShadowFile + (" " + ">")
                       + ShadowFile + "." + login, Shell.Start)
            == Shell.Scanner(">" + TempPath(login), false,
                             ["awk", "-v", "user=" + login + ":", "-v", "password=" + hash,
                              Awk.IndexRewriteProgram, ShadowFile])
  {
    ScanStageHead("user=", login);
    var p2 := "awk" + (" " + "-v") + (" " + "user=") + login + ":" + (" " + "-v") + (" " + "password=") + "'";
    var w2 := ["awk", "-v", "user=" + login + ":", "-v"];
    IndexRuleIsQuotable();
    ProgramAroundRule(Awk.IndexRule);
    assert Awk.IndexRewriteProgram != "" by { assert |Awk.PrintAll| == 1; }
    ScanQuotedOperands(p2, hash, Awk.IndexRewriteProgram, w2);
    var p3 := p2 + hash + "'" + " " + "'" + Awk.IndexRewriteProgram + "'" + " ";
    var w3 := w2 + ["password=" + hash, Awk.IndexRewriteProgram];
    ScanFiles(p3, login, w3);
    assert w3 + [ShadowFile]
        == ["awk", "-v", "user=" + login + ":", "-v", "password=" + hash, Awk.IndexRewriteProgram, ShadowFile];
  }

  /** The shell reads the corrected stage command as an awk call of the prefix-test program
      with `user` bound to `login:`, followed by `|| rm -f` and the same temp path. */
  lemma {:induction false} CorrectedStageCommandWords(login: string, hash: string)
    requires ShellSafeLogin(login) && SafeHash(hash)
    ensures Shell.Words(CorrectedStageCommand(login, hash, ShadowFile))
            == Some(Shell.StageWords("user", login + ":", "password", hash, Awk.IndexRewriteProgram,
                                     ShadowFile, TempPath(login), ["||", "rm", "-f", TempPath(login)]))
  {
    var tmp := TempPath(login);
    var w7 := ["awk", "-v", "user=" + login + ":", "-v", "password=" + hash, Awk.IndexRewriteProgram, ShadowFile];
    ScanCorrectedStage(login, hash);
    var p := "awk" + (" " + "-v") + (" " + "user=") + login + ":" + (" " + "-v") + (" " + "password=")
             + "'" + hash + "'" + " " + "'" + Awk.IndexRewriteProgram + "'" + " " + ShadowFile + (" " + ">")
             + ShadowFile + "." + login;
    ScanCleanup(p, login, ">" + tmp, w7);
    CorrectedStageLayout(login, hash, ShadowFile);
    assert "user=" + login + ":" == "user" + "=" + (login + ":");
    assert "password=" + hash == "password" + "=" + hash;
    assert w7 + [">" + tmp, "||", "rm", "-f"] + [tmp]
        == Shell.StageWords("user", login + ":", "password", hash, Awk.IndexRewriteProgram,
                            ShadowFile, tmp, ["||", "rm", "-f", tmp]);
  }

  /** The corrected stage command run where it cannot read /etc/shadow leaves no temp file. */
  lemma {:induction false} CorrectedFailedStageRun(login: string, hash: string, fs: Shell.FileSystem, awkPresent: bool)
    requires ShellSafeLogin(login) && SafeHash(hash)
    requires !awkPresent || ShadowFile !in fs
    ensures Shell.Run(CorrectedStageCommand(login, hash, ShadowFile), fs, awkPresent) == Some(fs - {TempPath(login)})
  {
    var tmp := TempPath(login);
    var cleanup := ["||", "rm", "-f", tmp];
    CorrectedStageCommandWords(login, hash);
    TempPathIsPrivate(login, login);
    Shell.StageEffectFails("user", login + ":", "password", hash, Awk.IndexRewriteProgram,
                           ShadowFile, tmp, cleanup, fs, awkPresent);
    Shell.RunStage(CorrectedStageCommand(login, hash, ShadowFile),
                   Shell.StageWords("user", login + ":", "password", hash, Awk.IndexRewriteProgram, ShadowFile, tmp, cleanup),
                   fs, awkPresent);
    assert fs[tmp := ""] - {cleanup[3]} == fs - {tmp};
  }

  /** With the corrections, a failed stage leaves no temp file, so the commit does nothing
      and /etc/shadow keeps its content (or stays absent). */
  lemma {:induction false} CorrectedFailedStageKeepsShadow(login: string, hash: string, fs: Shell.FileSystem, awkPresent: bool)
    requires ShellSafeLogin(login) && SafeHash(hash)
    requires !awkPresent || ShadowFile !in fs
    ensures Shell.Execute(CorrectedCommands(login, hash), fs, awkPresent) == Some(fs - {TempPath(login)})
    ensures ShadowFile in fs ==> ShadowFile in fs - {TempPath(login)} && (fs - {TempPath(login)})[ShadowFile] == fs[ShadowFile]
  {
    var tmp := TempPath(login);
    CorrectedFailedStageRun(login, hash, fs, awkPresent);
    Shell.ExecutePair(CorrectedStageCommand(login, hash, ShadowFile), CommitCommand(login, ShadowFile), fs, awkPresent, fs - {tmp});
    CommitRun(login, fs - {tmp}, awkPresent);
    TempPathIsPrivate(login, login);
  }

  /** The corrected stage command, when awk can read /etc/shadow, writes the intended
      staged copy for every login the shell carries unchanged, `.` and other
      regular-expression characters included. */
  lemma {:induction false} CorrectedStageRun(login: string, hash: string, fs: Shell.FileSystem)
    requires ShellSafeLogin(login) && SafeHash(hash) && ShadowFile in fs
    ensures ':' !in login && ':' !in hash
    ensures Shell.Run(CorrectedStageCommand(login, hash, ShadowFile), fs, true)
            == Some(fs[TempPath(login) := Staged(login, hash, fs[ShadowFile])])
  {
    var tmp := TempPath(login);
    var cleanup := ["||", "rm", "-f", tmp];
    ShellSafeLoginIsPlain(login);
    CorrectedStageCommandWords(login, hash);
    TempPathIsPrivate(login, login);
    Awk.RunIndexRewriteMeaning(login, hash, fs[ShadowFile]);
    Shell.StageEffectRuns("user", login + ":", "password", hash, Awk.IndexRewriteProgram,
                          ShadowFile, tmp, cleanup, fs, Staged(login, hash, fs[ShadowFile]));
    Shell.RunStage(CorrectedStageCommand(login, hash, ShadowFile),
                   Shell.StageWords("user", login + ":", "password", hash, Awk.IndexRewriteProgram, ShadowFile, tmp, cleanup),
                   fs, true);
  }

  /** The corrected commands, run in order with awk present and /etc/shadow readable, leave
      /etc/shadow holding the old records in order with only the login's own records
      rewritten, for every login the shell carries unchanged: a login such as `a.b` no
      longer touches the record of `axb`. */
  lemma {:induction false} CorrectedRenderThenExecute(login: string, hash: string, fs: Shell.FileSystem)
    requires ShellSafeLogin(login) && SafeHash(hash) && ShadowFile in fs
    ensures ':' !in login && ':' !in hash
    ensures Shell.Execute(CorrectedCommands(login, hash), fs, true)
            == Some((fs - {TempPath(login)})[ShadowFile := Staged(login, hash, fs[ShadowFile])])
    ensures Records(Staged(login, hash, fs[ShadowFile])) == RewriteRecords(login, hash, Records(fs[ShadowFile]))
  {
    CorrectedStageRun(login, hash, fs);
    StageThenCommit(CorrectedStageCommand(login, hash, ShadowFile), login, fs, true, Staged(login, hash, fs[ShadowFile]));
    StagedRecords(login, hash, fs[ShadowFile]);
  }

  /** Where the rendered commands were already right (a login without regular-expression
      characters, a stage that succeeds), the corrected commands have the same effect. */
  lemma {:induction false} CorrectedAgreesWithRendered(entry: Entry, hash: string, fs: Shell.FileSystem)
    requires SafeLogin(entry.login) && SafeHash(hash) && ShadowFile in fs
    ensures Render(entry, Some(Unix), Success(hash)).Success?
    ensures Shell.Execute(CorrectedCommands(entry.login, hash), fs, true)
            == Shell.Execute(Render(entry, Some(Unix), Success(hash)).value, fs, true)
  {
    RenderThenExecute(entry, hash, fs);
    CorrectedRenderThenExecute(entry.login, hash, fs);
  }
}
