# Shadow password entry replacement

A Dafny model of jclouds' `ReplaceShadowPasswordEntry`. This script-builder statement
changes one user's password hash in `/etc/shadow`. Rendered for a Unix family, it yields
two shell commands, in this order:

- **stage**: `awk -v user=^LOGIN: -v password='HASH' 'BEGIN { FS=OFS=":" } $0 ~ user { $2 = password } 1' /etc/shadow >/etc/shadow.LOGIN`
  copies the shadow file to a per-login temp file. On the way, field 2 of the login's
  record becomes the hash.
- **commit**: `test -f /etc/shadow.LOGIN && mv /etc/shadow.LOGIN /etc/shadow` moves the
  temp file over the shadow file.

The Windows family is rejected. A null family, login or password is rejected too.
Identity (`equals`/`hashCode`) depends on the login alone.

The model has seven layers:

- `Text`: colon and newline splitting and joining, with their round trips.
- `Shadow`: the record format and the intended rewrite. The login's record gets the hash
  as field 2, and every other field and record is untouched.
- `Awk`: the part of awk the stage program uses.
  - Records use RS/ORS = newline; fields use FS/OFS = `:`.
  - `$2 =` extends a short record.
  - The anchored dynamic regex `$0 ~ user` is modelled with literal characters and `.`.
  - `index()` is modelled as well.
- `Shell`: a lexer for unquoted words and single quotes, and the effect of the two command
  shapes on a filesystem (a map from path to content).
  - The output redirection creates or truncates its target before awk starts.
  - `test -f && mv` moves only when the tested file exists.
- `JavaInt`: Java `int` wrap-around and `String.hashCode`, with the overflowing loop
  proved equal to the closed form.
- `ShadowPasswordEntry`: the class itself. The constructor, `functionDependencies`,
  `render` (with the password hash as an input), `equals` and `hashCode`. It also proves
  which words the shell reads out of each rendered command.
- `Protocol`: the rendered commands run end to end.
  - With awk present and `/etc/shadow` readable, the shadow file ends up holding exactly
    the rewritten records, and the temp file is gone.
  - Without that, the shadow file is emptied (see Findings).
  - The corrected commands fix both findings together. The stage uses the prefix test
    `index($0, user) == 1` on `LOGIN:` and ends with `|| rm -f /etc/shadow.LOGIN`. They
    rewrite exactly the login's records for dotted logins too, leave /etc/shadow alone when
    awk fails, and agree with the rendered commands wherever those were already right.

The code itself shows what the commands are meant to do, and in three places the commands
do something else. The model follows the commands as written:
- The `:` after the login in `user=^LOGIN:` (line 63) anchors the match at the end of the
  first field, so the intent is to rewrite the records whose first field is the login.
  But the login goes into a regular expression unescaped, so a `.` in it matches any
  character (finding 1, carried through the rendered commands by
  `Protocol.DotLoginRenderedRewritesOtherRecord`).
- The `test -f` guard (line 65) makes the move depend on the stage having produced a
  file, so a failed stage is meant to leave /etc/shadow alone. But the shell creates the
  temp file before awk runs, so the guard passes even when awk fails (finding 2).
- With no matching record there is nothing to replace. awk still writes a copy and the
  commit moves it. The copy is byte-identical when the file ends in a newline
  (`Protocol.RenderThenExecuteWithoutEntry`). Without that newline, awk appends one
  (`Shadow.UnlinesRecords`).

## Model

| member | source | states |
|---|---|---|
| ShadowPasswordEntry.New | scriptbuilder/src/main/java/org/jclouds/scriptbuilder/statements/login/ReplaceShadowPasswordEntry.java:42-45 | construction succeeds exactly when login and password are both non-null and keeps both; a null login is reported (as "login") before a null password ("password") |
| ShadowPasswordEntry.Propagate | scriptbuilder/src/main/java/org/jclouds/scriptbuilder/statements/login/ReplaceShadowPasswordEntry.java:68-71 | `Throwables.propagate` lets no checked exception out: a checked one is wrapped, anything else is rethrown unchanged |
| ShadowPasswordEntry.FunctionDependencies | scriptbuilder/src/main/java/org/jclouds/scriptbuilder/statements/login/ReplaceShadowPasswordEntry.java:47-50 | the statement needs no shell functions, for every family including null |
| ShadowPasswordEntry.Render | scriptbuilder/src/main/java/org/jclouds/scriptbuilder/statements/login/ReplaceShadowPasswordEntry.java:53-71 | null family fails with a null-argument error for "family"; Windows fails with the unsupported-operation message whatever hashing would do; a hashing failure on Unix propagates, a checked exception wrapped in an unchecked one and any other exception unchanged; success exactly for Unix with a hash; then two commands, the awk stage first and the `test -f` commit second |
| Protocol.RenderCommands | scriptbuilder/src/main/java/org/jclouds/scriptbuilder/statements/login/ReplaceShadowPasswordEntry.java:59-67 | on Unix the rendered list is the stage command on /etc/shadow followed by the commit command on /etc/shadow |
| ShadowPasswordEntry.StageCommandWords | scriptbuilder/src/main/java/org/jclouds/scriptbuilder/statements/login/ReplaceShadowPasswordEntry.java:61-64 | for a login and hash that need no shell quoting (regex characters such as `.` included), the shell reads the stage line as `awk`, `-v`, `user=^LOGIN:`, `-v`, `password=HASH`, the awk program, `/etc/shadow` and the redirection to `/etc/shadow.LOGIN` |
| ShadowPasswordEntry.CommitCommandWords | scriptbuilder/src/main/java/org/jclouds/scriptbuilder/statements/login/ReplaceShadowPasswordEntry.java:65-66 | the shell reads the commit line as `test -f T && mv T /etc/shadow` with the same temp path T tested and moved |
| ShadowPasswordEntry.TempPathIsPrivate | scriptbuilder/src/main/java/org/jclouds/scriptbuilder/statements/login/ReplaceShadowPasswordEntry.java:63-66 | the temp path is never /etc/shadow itself, and different logins get different temp paths |
| Shadow.ReplaceHash | scriptbuilder/src/main/java/org/jclouds/scriptbuilder/statements/login/ReplaceShadowPasswordEntry.java:63 | a record not starting with `login:` is unchanged; the login's record keeps all its fields and their positions except field 2, which becomes the hash, and still belongs to the login |
| Shadow.RewriteRecords | scriptbuilder/src/main/java/org/jclouds/scriptbuilder/statements/login/ReplaceShadowPasswordEntry.java:63 | the rewrite keeps the number and order of records, leaves every other record byte-identical and replaces exactly field 2 in the login's records |
| Shadow.LongerLoginIsKept | scriptbuilder/src/main/java/org/jclouds/scriptbuilder/statements/login/ReplaceShadowPasswordEntry.java:63 | the `:` after the login anchors the match: the record of a longer login such as `alice2` is not rewritten for `alice` |
| Shadow.RewriteWithoutEntryIsIdentity | scriptbuilder/src/main/java/org/jclouds/scriptbuilder/statements/login/ReplaceShadowPasswordEntry.java:63 | with no record of the login, the rewrite changes nothing |
| Shadow.RewriteLastWins | scriptbuilder/src/main/java/org/jclouds/scriptbuilder/statements/login/ReplaceShadowPasswordEntry.java:63 | rewriting with one hash and then another equals rewriting with the second alone, so a repeated rewrite is idempotent |
| Shadow.UnlinesRecords | scriptbuilder/src/main/java/org/jclouds/scriptbuilder/statements/login/ReplaceShadowPasswordEntry.java:63 | awk's record output reproduces newline-terminated content exactly and adds one newline to content without a final newline |
| Shadow.RecordsUnlines | scriptbuilder/src/main/java/org/jclouds/scriptbuilder/statements/login/ReplaceShadowPasswordEntry.java:63 | printing newline-free records and reading them back gives the same records |
| Shadow.StagedRecords | scriptbuilder/src/main/java/org/jclouds/scriptbuilder/statements/login/ReplaceShadowPasswordEntry.java:63 | the staged file, read back, holds exactly the rewritten records, as many as the original had |
| Shadow.StagedWithoutEntryIsIdentity | scriptbuilder/src/main/java/org/jclouds/scriptbuilder/statements/login/ReplaceShadowPasswordEntry.java:63 | with no record of the login, the staged copy of a newline-terminated file equals the original |
| Text.SplitJoin | scriptbuilder/src/main/java/org/jclouds/scriptbuilder/statements/login/ReplaceShadowPasswordEntry.java:63 | joining fields with `:` and splitting again (FS = OFS = `:`) gives back the same fields |
| Text.JoinSplit | scriptbuilder/src/main/java/org/jclouds/scriptbuilder/statements/login/ReplaceShadowPasswordEntry.java:63 | splitting a record on `:` and joining with `:` gives back the record |
| Awk.SetField | scriptbuilder/src/main/java/org/jclouds/scriptbuilder/statements/login/ReplaceShadowPasswordEntry.java:63 | `$2 = v` puts v in field 2, keeps every other field and pads a shorter record with empty fields |
| Awk.Match | scriptbuilder/src/main/java/org/jclouds/scriptbuilder/statements/login/ReplaceShadowPasswordEntry.java:63 | the match is defined exactly for the modelled expressions; without `.` it is the prefix test on the text after `^` |
| Awk.Run | scriptbuilder/src/main/java/org/jclouds/scriptbuilder/statements/login/ReplaceShadowPasswordEntry.java:63 | a run needs both `-v` variables free of backslashes; the stage program runs exactly when the `user` expression is one the model covers |
| Awk.MatchIsEntryFor | scriptbuilder/src/main/java/org/jclouds/scriptbuilder/statements/login/ReplaceShadowPasswordEntry.java:63 | for a login without regex characters, `$0 ~ "^login:"` holds exactly for the login's own records |
| Awk.ProcessRecordMeaning | scriptbuilder/src/main/java/org/jclouds/scriptbuilder/statements/login/ReplaceShadowPasswordEntry.java:63 | for such a login, one record through the awk rule is the intended rewrite |
| Awk.RunRewriteMeaning | scriptbuilder/src/main/java/org/jclouds/scriptbuilder/statements/login/ReplaceShadowPasswordEntry.java:63 | the stage program over a whole file writes exactly the intended staged copy |
| Awk.DotLoginRewritesOtherRecord | scriptbuilder/src/main/java/org/jclouds/scriptbuilder/statements/login/ReplaceShadowPasswordEntry.java:63 | as written, login `x.y` also matches and rewrites field 2 of the record of `xcy`, which is not its record |
| Awk.IndexOneIffPrefix | scriptbuilder/src/main/java/org/jclouds/scriptbuilder/statements/login/ReplaceShadowPasswordEntry.java:63 | `index(s, t) == 1` is the prefix test for a non-empty t |
| Awk.ProcessRecordByIndexMeaning | scriptbuilder/src/main/java/org/jclouds/scriptbuilder/statements/login/ReplaceShadowPasswordEntry.java:63 | with a prefix test instead of the regex, one record is rewritten as intended for every colon-free login, regex characters included |
| Awk.RunIndexRewriteMeaning | scriptbuilder/src/main/java/org/jclouds/scriptbuilder/statements/login/ReplaceShadowPasswordEntry.java:63 | the prefix-test program writes the intended staged copy for every colon- and backslash-free login |
| Awk.ByIndexKeepsOtherRecords | scriptbuilder/src/main/java/org/jclouds/scriptbuilder/statements/login/ReplaceShadowPasswordEntry.java:63 | the prefix-test program never rewrites a record that is not the login's |
| Shell.AwkEffectRuns | scriptbuilder/src/main/java/org/jclouds/scriptbuilder/statements/login/ReplaceShadowPasswordEntry.java:63 | when awk reads an existing input other than its output and succeeds, the output file holds what awk printed and no other file changes |
| Shell.StageEffectFails | scriptbuilder/src/main/java/org/jclouds/scriptbuilder/statements/login/ReplaceShadowPasswordEntry.java:63 | when awk cannot run or its input is missing, the redirection still leaves an empty output file, unless a cleanup removes it |
| Shell.StageEffectRuns | scriptbuilder/src/main/java/org/jclouds/scriptbuilder/statements/login/ReplaceShadowPasswordEntry.java:63 | when awk succeeds, its output replaces the redirection target and nothing else changes |
| Protocol.StageRunAsWritten | scriptbuilder/src/main/java/org/jclouds/scriptbuilder/statements/login/ReplaceShadowPasswordEntry.java:59-64 | for every login the shell leaves alone, whatever awk makes of /etc/shadow with `user=^LOGIN:` is written to the temp file, and nothing else changes |
| Protocol.StageRun | scriptbuilder/src/main/java/org/jclouds/scriptbuilder/statements/login/ReplaceShadowPasswordEntry.java:59-64 | running the stage line with awk present and /etc/shadow readable writes the staged copy to the login's temp file and changes nothing else |
| Protocol.CommitRun | scriptbuilder/src/main/java/org/jclouds/scriptbuilder/statements/login/ReplaceShadowPasswordEntry.java:65-66 | the commit line moves the temp file over /etc/shadow when the temp file exists (the temp path is then gone) and is a no-op otherwise |
| Protocol.StageThenCommit | scriptbuilder/src/main/java/org/jclouds/scriptbuilder/statements/login/ReplaceShadowPasswordEntry.java:60-67 | whatever the stage leaves in the temp file, running the commit after it puts that content in /etc/shadow and leaves no temp file |
| Protocol.RenderThenExecute | scriptbuilder/src/main/java/org/jclouds/scriptbuilder/statements/login/ReplaceShadowPasswordEntry.java:53-67 | running the rendered commands in order leaves /etc/shadow holding the old records in order with only the login's field 2 replaced, and no temp file |
| Protocol.RenderThenExecuteWithoutEntry | scriptbuilder/src/main/java/org/jclouds/scriptbuilder/statements/login/ReplaceShadowPasswordEntry.java:53-67 | with no record of the login, a newline-terminated shadow file and no stray temp file, running the rendered commands leaves the filesystem unchanged |
| Protocol.DotLoginAwkRun | scriptbuilder/src/main/java/org/jclouds/scriptbuilder/statements/login/ReplaceShadowPasswordEntry.java:63 | as written, awk given `user=^x.y:` turns a file holding only the record of `xcy` into that record with field 2 replaced by the hash |
| Protocol.DotLoginRenderedRewritesOtherRecord | scriptbuilder/src/main/java/org/jclouds/scriptbuilder/statements/login/ReplaceShadowPasswordEntry.java:53-67 | as written, the rendered commands for login `x.y` run on a file holding only the record of `xcy` replace that record's field 2 by the hash, although the record is not the login's and the intended rewrite leaves the file unchanged |
| Protocol.FailedStageRun | scriptbuilder/src/main/java/org/jclouds/scriptbuilder/statements/login/ReplaceShadowPasswordEntry.java:63 | as written, a stage line that cannot run awk or read /etc/shadow leaves an empty temp file |
| Protocol.FailedStageEmptiesShadow | scriptbuilder/src/main/java/org/jclouds/scriptbuilder/statements/login/ReplaceShadowPasswordEntry.java:60-67 | as written, when the stage fails, the commit still moves the empty temp file over /etc/shadow |
| Protocol.CorrectedStageCommandWords | scriptbuilder/src/main/java/org/jclouds/scriptbuilder/statements/login/ReplaceShadowPasswordEntry.java:63 | the corrected stage line reads as an awk call of the prefix-test program with `user=LOGIN:`, followed by `||`, `rm`, `-f` and the same temp path |
| Protocol.CorrectedFailedStageRun | scriptbuilder/src/main/java/org/jclouds/scriptbuilder/statements/login/ReplaceShadowPasswordEntry.java:63 | the corrected stage line, when awk is missing or /etc/shadow is absent, leaves no temp file and changes nothing else |
| Protocol.CorrectedFailedStageKeepsShadow | scriptbuilder/src/main/java/org/jclouds/scriptbuilder/statements/login/ReplaceShadowPasswordEntry.java:60-67 | with the corrected stage, a failed stage leaves /etc/shadow as it was, and the commit finds no temp file and does nothing |
| Protocol.CorrectedStageRun | scriptbuilder/src/main/java/org/jclouds/scriptbuilder/statements/login/ReplaceShadowPasswordEntry.java:63 | when awk can read /etc/shadow, the corrected stage line writes the intended staged copy to the temp file, for every login the shell leaves alone, regex characters included |
| Protocol.CorrectedRenderThenExecute | scriptbuilder/src/main/java/org/jclouds/scriptbuilder/statements/login/ReplaceShadowPasswordEntry.java:60-67 | the corrected commands run in order leave /etc/shadow holding the old records in order with only the login's field 2 replaced, and no temp file, for dotted logins too |
| Protocol.CorrectedAgreesWithRendered | scriptbuilder/src/main/java/org/jclouds/scriptbuilder/statements/login/ReplaceShadowPasswordEntry.java:53-67 | for a login without regex characters, when awk runs on an existing /etc/shadow, the corrected commands have exactly the effect of the rendered ones (when awk fails they differ on purpose, see finding 2) |
| ShadowPasswordEntry.Equals | scriptbuilder/src/main/java/org/jclouds/scriptbuilder/statements/login/ReplaceShadowPasswordEntry.java:82-97 | `equals` holds exactly for another entry of this class with the same login, never for null or another class |
| ShadowPasswordEntry.EqualsIsEquivalence | scriptbuilder/src/main/java/org/jclouds/scriptbuilder/statements/login/ReplaceShadowPasswordEntry.java:82-97 | `equals` is reflexive, symmetric and transitive on entries |
| ShadowPasswordEntry.IdentityIsLogin | scriptbuilder/src/main/java/org/jclouds/scriptbuilder/statements/login/ReplaceShadowPasswordEntry.java:74-97 | entries differing only in password are equal and hash alike; entries with different logins are unequal |
| ShadowPasswordEntry.EqualEntriesHashAlike | scriptbuilder/src/main/java/org/jclouds/scriptbuilder/statements/login/ReplaceShadowPasswordEntry.java:74-97 | equal entries have equal hash codes |
| ShadowPasswordEntry.HashCode | scriptbuilder/src/main/java/org/jclouds/scriptbuilder/statements/login/ReplaceShadowPasswordEntry.java:74-80 | the hash code is a Java `int` |
| JavaInt.Wrap | scriptbuilder/src/main/java/org/jclouds/scriptbuilder/statements/login/ReplaceShadowPasswordEntry.java:78 | `int` arithmetic gives the value in the 32-bit range congruent to the exact result modulo 2^32, and the exact result when it fits |
| JavaInt.WrapStep | scriptbuilder/src/main/java/org/jclouds/scriptbuilder/statements/login/ReplaceShadowPasswordEntry.java:78 | wrapping after each `31 * h + c` step gives the same `int` as wrapping once at the end |
| JavaInt.StringHashLoop | scriptbuilder/src/main/java/org/jclouds/scriptbuilder/statements/login/ReplaceShadowPasswordEntry.java:78 | the overflowing loop of `String.hashCode` computes the wrapped polynomial of the login's characters |

## Left out

- Hashing (`Sha512Crypt.makeShadowLine` with `JCECrypto`, line 58) is not part of this
  model. `Render` takes its outcome as an input, either a hash or a failure. The
  end-to-end lemmas require a hash without `:`, newline, `'` or `\`.
- `Statements.exec` and `StatementList.render` (lines 60-67) are not part of this model.
  `Render` returns the ordered list of command lines rather than the final script text.
- `Throwables.propagate` (lines 68-71) is `Propagate`. Which exceptions hashing can throw is
  not modelled: the hashing outcome names the exception and whether it is checked.
- `OsFamily` is not part of this model. It is modelled as the two families Unix and
  Windows, with null as `None`.
- Shell: only spaces, single quotes and the two command shapes are modelled.
  - The lemmas about reading and running the commands require a login of characters
    that the shell and the record format leave alone (`ShellSafeLogin`). The lemmas that
    the rendered commands do the intended rewrite also require no regex characters
    (`SafeLogin`), because with them they do not (finding 1).
  - The lexer drops a word that is only an empty quoted string `''`, where a real shell
    keeps it as an empty argument. No rendered command contains such a word: an empty
    hash gives `password=''`, which both read as the word `password=`.
- The filesystem is a flat map from path to content, with no directories.
  `ShellSafeLogin` therefore excludes `/`: for a login such as `a/b`, the temp path
  `/etc/shadow.a/b` lies in a directory that does not exist, so a real shell cannot
  create it, and the model says nothing about such logins.
- Awk: `-v` escape processing is not modelled. `Awk.Run` returns None for a value with a
  backslash.
- Regular expressions: only `^`, literal characters and `.` are modelled. Any other
  expression makes `Awk.Match` None.
- File permissions and ownership of the temp file, atomicity of `mv`, and concurrent
  writers are outside a sequential map-of-paths model.
- Exit statuses are not modelled. Each line runs whatever the line before it did, as
  in a script without `set -e`.
- JavaInt.StringHash: it treats each `char` as one UTF-16 code unit, which is what Java
  does, but `string` here is a sequence of Dafny chars, so supplementary characters are
  not split into surrogate pairs.
- ShadowPasswordEntry.HashCode: the `login == null ? 0` branch (line 78) is not modelled,
  because the constructor guarantees a non-null login.

## Findings

| source | as written | input that shows it | evidently intended | confidence | as-written member | corrected member |
|---|---|---|---|---|---|---|
| scriptbuilder/src/main/java/org/jclouds/scriptbuilder/statements/login/ReplaceShadowPasswordEntry.java:63 | the login is put unescaped into the regex `^login:` matched by `$0 ~ user` | login `a.b` with a shadow record `axb:…` whose field 2 gets the new hash | only records whose first field equals the login are rewritten | medium (not executed) | Protocol.DotLoginRenderedRewritesOtherRecord | Protocol.CorrectedRenderThenExecute |
| scriptbuilder/src/main/java/org/jclouds/scriptbuilder/statements/login/ReplaceShadowPasswordEntry.java:63-66 | `>/etc/shadow.LOGIN` creates the temp file before awk runs, so `test -f` succeeds even when awk failed | awk not installed, or no /etc/shadow: the commit moves an empty file over /etc/shadow | a failed stage leaves /etc/shadow untouched (the commit is a no-op) | high (not executed) | Protocol.FailedStageEmptiesShadow | Protocol.CorrectedFailedStageKeepsShadow |
