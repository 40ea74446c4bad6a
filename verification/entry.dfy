/** The statement that replaces one user's password hash in /etc/shadow: construction,
    rendering into a stage command and a commit command, and identity by login. */
module ShadowPasswordEntry {
  import opened Results
  import opened Text
  import Awk
  import Shell
  import JavaInt

  /** The operating-system families a statement is rendered for. */
  datatype OsFamily = Unix | Windows

  /** The exceptions in play: a null argument, the unsupported Windows family, an
      exception thrown while hashing or rendering (named, and checked or unchecked in
      Java's sense), and the unchecked wrapper that `Throwables.propagate` puts around a
      checked exception. */
  datatype Error =
    | NullArgument(name: string)
    | UnsupportedOperation(message: string)
    | Thrown(exception: string, checked: bool)
    | Propagated(cause: string)

  /** `Throwables.propagate(e)`: an unchecked exception is rethrown as it is, a checked one
      leaves wrapped in an unchecked exception, so nothing checked escapes `render`. */
  function Propagate(e: Error): (r: Error)
    ensures !(r.Thrown? && r.checked)
    ensures e.Thrown? && e.checked ==> r == Propagated(e.exception)
    ensures !(e.Thrown? && e.checked) ==> r == e
  {
    if e.Thrown? && e.checked then Propagated(e.exception) else e
  }

  /** A request to replace the shadow entry of `login` by a hash of `password`. */
  datatype Entry = Entry(login: string, password: string)

  /** Whatever `equals` may be handed: null, another entry, or an object of another class. */
  datatype Object = Null | ShadowEntry(entry: Entry) | OtherClass

  const ShadowFile: string := "/etc/shadow"

  const WindowsMessage: string := "windows not yet implemented"

  /** The per-login file the stage command writes and the commit command moves. */
  function TempPath(login: string): string {
    ShadowFile + "." + login
  }

  /** A login the shell carries unchanged in an unquoted word and the record format
      accepts: nothing the shell interprets, no field separator, and no `/`, so that the
      temp path names a file beside /etc/shadow (the filesystem has no directories). */
  predicate ShellSafeLogin(login: string) {
    forall i :: 0 <= i < |login| ==> login[i] != ':' && login[i] != '/' && Shell.ShellInert(login[i])
  }

  /** A login the generated commands carry through the shell and the regular expression
      unchanged: in addition, no regular-expression character. */
  predicate SafeLogin(login: string) {
    ShellSafeLogin(login) && Awk.RegexLiteral(login)
  }

  /** A hash that fits the record format and the single-quoted `-v` operand: no field
      separator, no newline, no single quote, no backslash. */
  predicate SafeHash(hash: string) {
    forall i :: 0 <= i < |hash| ==> hash[i] != ':' && hash[i] != '\n' && hash[i] != '\'' && hash[i] != '\\'
  }

  /** The constructor: both arguments must be non-null, the login checked first. */
  function New(login: Option<string>, password: Option<string>): (r: Result<Entry, Error>)
    ensures r.Success? <==> login.Some? && password.Some?
    ensures r.Success? ==> r.value.login == login.value && r.value.password == password.value
    ensures login.None? ==> r == Failure(NullArgument("login"))
    ensures login.Some? && password.None? ==> r == Failure(NullArgument("password"))
  {
    if login.None? then Failure(NullArgument("login"))
    else if password.None? then Failure(NullArgument("password"))
    else Success(Entry(login.value, password.value))
  }

  /** The statement needs no shell functions, for any family, null included. */
  function FunctionDependencies(family: Option<OsFamily>): (dependencies: seq<string>)
    ensures |dependencies| == 0
  {
    []
  }

  /** The stage command: awk copies `file` to `file.login`, replacing field 2 of every
      record that matches `^login:` by `hash`. */
  function StageCommand(login: string, hash: string, file: string): string {
    "awk -v user=^" + login + ": -v password='" + hash + "' '" + Awk.RewriteProgram + "' " + file + " >" + file + "." + login
  }

  /** The commit command: if `file.login` exists, move it over `file`. */
  function CommitCommand(login: string, file: string): string {
    "test -f " + file + "." + login + " && mv " + file + "." + login + " " + file
  }

  /** `render(family)`. `hashed` is the outcome of hashing the password with a fresh salt;
      it is consulted only after the family has been accepted, so a null or Windows
      family fails the same way whatever hashing would have done. A hashing failure
      leaves through `Propagate`. */
  function Render(entry: Entry, family: Option<OsFamily>, hashed: Result<string, Error>): (r: Result<seq<string>, Error>)
    ensures family.None? ==> r == Failure(NullArgument("family"))
    ensures family == Some(Windows) ==> r == Failure(UnsupportedOperation(WindowsMessage))
    ensures family == Some(Unix) && hashed.Failure? && hashed.error.Thrown? && hashed.error.checked
            ==> r == Failure(Propagated(hashed.error.exception))
    ensures family == Some(Unix) && hashed.Failure? && !(hashed.error.Thrown? && hashed.error.checked)
            ==> r == Failure(hashed.error)
    ensures r.Success? <==> family == Some(Unix) && hashed.Success?
    ensures r.Success? ==> |r.value| == 2 && StartsWith(r.value[0], "awk ") && StartsWith(r.value[1], "test -f ")
  {
    if family.None? then Failure(NullArgument("family"))
    else if family.value == Windows then Failure(UnsupportedOperation(WindowsMessage))
    else match hashed
      case Failure(e) => Failure(Propagate(e))
      case Success(hash) =>
        var stage, commit := StageCommand(entry.login, hash, ShadowFile), CommitCommand(entry.login, ShadowFile);
        assert family.value == Unix;
        assert stage[..4] == "awk ";
        assert commit[..8] == "test -f ";
        Success([stage, commit])
  }

  /** `hashCode()`: 31 · 1 + the login's string hash, in `int` arithmetic. */
  function HashCode(entry: Entry): (h: int)
    ensures JavaInt.IsInt32(h)
  {
    JavaInt.Wrap(31 * 1 + JavaInt.StringHash(entry.login))
  }

  /** `equals(other)`: true exactly for another entry with the same login. */
  function Equals(entry: Entry, other: Object): (eq: bool)
    ensures eq <==> other.ShadowEntry? && other.entry.login == entry.login
  {
    match other
    case Null => false
    case OtherClass => false
    case ShadowEntry(that) => that.login == entry.login
  }

  /** Equal entries have equal hash codes, and the password never affects either. */
  lemma {:induction false} EqualEntriesHashAlike(a: Entry, b: Entry)
    requires Equals(a, ShadowEntry(b))
    ensures HashCode(a) == HashCode(b)
  {
  }

  /** Identity is by login alone: a different password is the same entry, a different
      login is a different one. */
  lemma {:induction false} IdentityIsLogin(login: string, p1: string, p2: string, other: string)
    requires other != login
    ensures Equals(Entry(login, p1), ShadowEntry(Entry(login, p2)))
    ensures HashCode(Entry(login, p1)) == HashCode(Entry(login, p2))
    ensures !Equals(Entry(login, p1), ShadowEntry(Entry(other, p1)))
  {
  }

  /** `equals` is an equivalence on entries and never holds for null or another class. */
  lemma {:induction false} EqualsIsEquivalence(a: Entry, b: Entry, c: Entry)
    ensures Equals(a, ShadowEntry(a))
    ensures Equals(a, ShadowEntry(b)) ==> Equals(b, ShadowEntry(a))
    ensures Equals(a, ShadowEntry(b)) && Equals(b, ShadowEntry(c)) ==> Equals(a, ShadowEntry(c))
    ensures !Equals(a, Null) && !Equals(a, OtherClass)
  {
  }

  /** The temp file is never the shadow file itself, and different logins get different
      temp files. */
  lemma {:induction false} TempPathIsPrivate(login: string, other: string)
    ensures TempPath(login) != ShadowFile
    ensures other != login ==> TempPath(other) != TempPath(login)
  {
    var n := |ShadowFile| + 1;
    assert TempPath(login)[n..] == login;
    assert TempPath(other)[n..] == other;
  }

  lemma {:induction false} ShellSafeLoginIsPlain(login: string)
    requires ShellSafeLogin(login)
    ensures Shell.Plain(login) && '\\' !in login && ':' !in login
  {
    assert forall i :: 0 <= i < |login| ==> login[i] != ' ' && login[i] != '\'' && login[i] != '\\';
  }

  /** Reading `file.login` extends the current word by the temp path. */
  lemma {:induction false} AppendTempPath(prefix: string, login: string, st: Shell.Scanner)
    requires Shell.Scan(prefix, Shell.Start) == st && !st.quoted && ShellSafeLogin(login)
    ensures Shell.Scan(prefix + ShadowFile + "." + login, Shell.Start) == st.(word := st.word + TempPath(login))
  {
    ShellSafeLoginIsPlain(login);
    Shell.AppendChunk(prefix, ShadowFile, st);
    Shell.AppendChunk(prefix + ShadowFile, ".", st.(word := st.word + ShadowFile));
    Shell.AppendChunk(prefix + ShadowFile + ".", login, st.(word := st.word + ShadowFile + "."));
    assert st.word + ShadowFile + "." + login == st.word + TempPath(login);
  }

  /** The program text holds no single quote, so it survives single-quoting. */
  lemma {:induction false} ProgramIsQuotable()
    ensures forall i :: 0 <= i < |Awk.RewriteProgram| ==> Awk.RewriteProgram[i] != '\''
  {
    RuleIsQuotable();
    ProgramAroundRule(Awk.RegexRule);
  }

  /** A program made of the separators block, a quote-free rule and the print rule holds
      no single quote. */
  lemma {:induction false} ProgramAroundRule(rule: string)
    requires '\'' !in rule
    ensures forall i :: 0 <= i < |Awk.Separators + " " + rule + " " + Awk.PrintAll| ==>
              (Awk.Separators + " " + rule + " " + Awk.PrintAll)[i] != '\''
  {
    SeparatorsAreQuotable();
    var p := Awk.Separators + " " + rule + " " + Awk.PrintAll;
    NotInConcat(Awk.Separators, " ", '\'');
    NotInConcat(Awk.Separators + " ", rule, '\'');
    NotInConcat(Awk.Separators + " " + rule, " ", '\'');
    NotInConcat(Awk.Separators + " " + rule + " ", Awk.PrintAll, '\'');
    assert forall i :: 0 <= i < |p| ==> p[i] in p;
  }

  lemma {:induction false} SeparatorsAreQuotable()
    ensures '\'' !in Awk.Separators
  {
  }

  lemma {:induction false} RuleIsQuotable()
    ensures '\'' !in Awk.RegexRule
  {
  }

  lemma {:induction false} IndexRuleIsQuotable()
    ensures '\'' !in Awk.IndexRule
  {
  }

  lemma {:induction false} NotInConcat(a: string, b: string, c: char)
    requires c !in a && c !in b
    ensures c !in a + b
  {
  }

  /** The stage command cut where the shell's reading of it changes state. */
  lemma {:induction false} StageCommandLayout(login: string, hash: string, file: string)
    ensures StageCommand(login, hash, file)
            == "awk" + (" " + "-v") + (" " + "user=^") + login + ":" + (" " + "-v") + (" " + "password=")
               + "'" + hash + "'" + " " + "'" + Awk.RewriteProgram + "'" + " " + file + (" " + ">")
               + file + "." + login
  {
    var x1 := "awk -v user=^" + login;
    assert "awk -v user=^" == "awk" + (" " + "-v") + (" " + "user=^");
    assert x1 + ": -v password='" == x1 + ":" + (" " + "-v") + (" " + "password=") + "'";
    var x2 := x1 + ": -v password='" + hash;
    assert x2 + "' '" == x2 + "'" + " " + "'";
    var x3 := x2 + "' '" + Awk.RewriteProgram;
    assert x3 + "' " == x3 + "'" + " ";
    var x4 := x3 + "' " + file;
    assert x4 + " >" == x4 + (" " + ">");
  }

  /** Reading `login:` after the start `head` of the `user` operand, the second `-v` and
      the opening quote of the password operand. */
  lemma {:induction false} ScanUserOperand(prefix: string, head: string, login: string, words: seq<string>)
    requires Shell.Scan(prefix, Shell.Start) == Shell.Scanner(head, false, words) && ShellSafeLogin(login)
    ensures Shell.Scan(prefix + login + ":" + (" " + "-v") + (" " + "password=") + "'", Shell.Start)
            == Shell.Scanner("password=", true, words + [head + login + ":", "-v"])
  {
    ShellSafeLoginIsPlain(login);
    var user := head + login + ":";
    Shell.AppendChunk(prefix, login, Shell.Scanner(head, false, words));
    var p1 := prefix + login;
    Shell.AppendChunk(p1, ":", Shell.Scanner(head + login, false, words));
    var p2 := p1 + ":";
    Shell.AppendSpaceWord(p2, "-v", Shell.Scanner(user, false, words));
    var p3 := p2 + (" " + "-v");
    Shell.AppendSpaceWord(p3, "password=", Shell.Scanner("-v", false, words + [user]));
    var p4 := p3 + (" " + "password=");
    Shell.AppendQuote(p4, Shell.Scanner("password=", false, words + [user, "-v"]));
    assert words + [user] + ["-v"] == words + [user, "-v"];
  }

  /** Reading the quoted hash and the quote that opens the program. */
  lemma {:induction false} ScanQuotedHash(prefix: string, hash: string, words: seq<string>)
    requires Shell.Scan(prefix, Shell.Start) == Shell.Scanner("password=", true, words) && SafeHash(hash)
    ensures Shell.Scan(prefix + hash + "'" + " " + "'", Shell.Start)
            == Shell.Scanner("", true, words + ["password=" + hash])
  {
    Shell.AppendChunk(prefix, hash, Shell.Scanner("password=", true, words));
    var p1 := prefix + hash;
    Shell.AppendQuote(p1, Shell.Scanner("password=" + hash, true, words));
    var p2 := p1 + "'";
    Shell.AppendSpace(p2, Shell.Scanner("password=" + hash, false, words));
    Shell.AppendQuote(p2 + " ", Shell.Scanner("", false, words + ["password=" + hash]));
  }

  /** Reading a quoted program without single quotes and the space after it. */
  lemma {:induction false} ScanQuotedProgram(prefix: string, program: string, words: seq<string>)
    requires Shell.Scan(prefix, Shell.Start) == Shell.Scanner("", true, words)
    requires program != "" && forall i :: 0 <= i < |program| ==> program[i] != '\''
    ensures Shell.Scan(prefix + program + "'" + " ", Shell.Start) == Shell.Scanner("", false, words + [program])
  {
    Shell.AppendChunk(prefix, program, Shell.Scanner("", true, words));
    assert "" + program == program;
    var p1 := prefix + program;
    Shell.AppendQuote(p1, Shell.Scanner(program, true, words));
    Shell.AppendSpace(p1 + "'", Shell.Scanner(program, false, words));
  }

  /** Reading the quoted hash and a quoted program without single quotes. */
  lemma {:induction false} ScanQuotedOperands(prefix: string, hash: string, program: string, words: seq<string>)
    requires Shell.Scan(prefix, Shell.Start) == Shell.Scanner("password=", true, words) && SafeHash(hash)
    requires program != "" && forall i :: 0 <= i < |program| ==> program[i] != '\''
    ensures Shell.Scan(prefix + hash + "'" + " " + "'" + program + "'" + " ", Shell.Start)
            == Shell.Scanner("", false, words + ["password=" + hash, program])
  {
    var p1 := prefix + hash + "'" + " " + "'";
    var w1 := words + ["password=" + hash];
    ScanQuotedHash(prefix, hash, words);
    ScanQuotedProgram(p1, program, w1);
    assert prefix + hash + "'" + " " + "'" + program + "'" + " " == p1 + program + "'" + " ";
    assert w1 + [program] == words + ["password=" + hash, program];
  }

  /** Reading the input file and the redirection to the temp file. */
  lemma {:induction false} ScanFiles(prefix: string, login: string, words: seq<string>)
    requires Shell.Scan(prefix, Shell.Start) == Shell.Scanner("", false, words) && ShellSafeLogin(login)
    ensures Shell.Scan(prefix + ShadowFile + (" " + ">") + ShadowFile + "." + login, Shell.Start)
            == Shell.Scanner(">" + TempPath(login), false, words + [ShadowFile])
  {
    Shell.AppendChunk(prefix, ShadowFile, Shell.Scanner("", false, words));
    assert "" + ShadowFile == ShadowFile;
    var p1 := prefix + ShadowFile;
    Shell.AppendSpaceWord(p1, ">", Shell.Scanner(ShadowFile, false, words));
    var p2 := p1 + (" " + ">");
    AppendTempPath(p2, login, Shell.Scanner(">", false, words + [ShadowFile]));
  }

  /** Reading `awk -v ` and the plain start `head` of the first operand. */
  lemma {:induction false} ScanAwkHead(head: string)
    requires head != "" && Shell.Plain(head)
    ensures Shell.Scan("awk" + (" " + "-v") + (" " + head), Shell.Start) == Shell.Scanner(head, false, ["awk", "-v"])
  {
    Shell.AppendChunk("", "awk", Shell.Start);
    assert "" + "awk" == "awk";
    Shell.AppendSpaceWord("awk", "-v", Shell.Scanner("awk", false, []));
    Shell.AppendSpaceWord("awk" + (" " + "-v"), head, Shell.Scanner("-v", false, ["awk"]));
  }

  /** Reading `awk -v HEADlogin: -v password='`, where the plain `head` is `user=^` in the
      stage command as written and `user=` in the corrected one: four words and the open
      password operand. */
  lemma {:induction false} ScanStageHead(head: string, login: string)
    requires head != "" && Shell.Plain(head) && ShellSafeLogin(login)
    ensures Shell.Scan("awk" + (" " + "-v") + (" " + head) + login + ":" + (" " + "-v") + (" " + "password=") + "'", Shell.Start)
            == Shell.Scanner("password=", true, ["awk", "-v", head + login + ":", "-v"])
  {
    ScanAwkHead(head);
    ScanUserOperand("awk" + (" " + "-v") + (" " + head), head, login, ["awk", "-v"]);
  }

  /** The shell's state after reading the whole stage command: seven completed words and
      the redirection being read. */
  lemma {:induction false} StageCommandScan(login: string, hash: string)
    requires ShellSafeLogin(login) && SafeHash(hash)
    ensures Shell.Scan(StageCommand(login, hash, ShadowFile), Shell.Start)
            == Shell.Scanner(">" + TempPath(login), false,
                             ["awk", "-v", "user=^" + login + ":", "-v", "password=" + hash,
                              Awk.RewriteProgram, ShadowFile])
  {
    ScanStageHead("user=^", login);
    var p2 := "awk" + (" " + "-v") + (" " + "user=^") + login + ":" + (" " + "-v") + (" " + "password=") + "'";
    var w2 := ["awk", "-v", "user=^" + login + ":", "-v"];
    ProgramIsQuotable();
    assert Awk.RewriteProgram != "" by { assert |Awk.PrintAll| == 1; }
    ScanQuotedOperands(p2, hash, Awk.RewriteProgram, w2);
    var p3 := p2 + hash + "'" + " " + "'" + Awk.RewriteProgram + "'" + " ";
    var w3 := w2 + ["password=" + hash, Awk.RewriteProgram];
    ScanFiles(p3, login, w3);
    var p4 := p3 + ShadowFile + (" " + ">") + ShadowFile + "." + login;
    StageCommandLayout(login, hash, ShadowFile);
    assert StageCommand(login, hash, ShadowFile) == p4;
    assert w3 + [ShadowFile]
        == ["awk", "-v", "user=^" + login + ":", "-v", "password=" + hash, Awk.RewriteProgram, ShadowFile];
  }

  /** The shell splits the stage command into exactly the words of the intended awk call:
      the login's anchored pattern, the hash, the program, the shadow file as input and
      the login's temp file as redirected output. */
  lemma {:induction false} StageCommandWords(login: string, hash: string)
    requires ShellSafeLogin(login) && SafeHash(hash)
    ensures Shell.Words(StageCommand(login, hash, ShadowFile))
            == Some(["awk", "-v", "user=^" + login + ":", "-v", "password=" + hash,
                     Awk.RewriteProgram, ShadowFile, ">" + TempPath(login)])
  {
    StageCommandScan(login, hash);
    var w7 := ["awk", "-v", "user=^" + login + ":", "-v", "password=" + hash, Awk.RewriteProgram, ShadowFile];
    assert ">" + TempPath(login) != "";
    assert Shell.Flush(w7, ">" + TempPath(login)) == w7 + [">" + TempPath(login)];
    var st := Shell.Scan(StageCommand(login, hash, ShadowFile), Shell.Start);
    assert !st.quoted;
    assert Shell.Words(StageCommand(login, hash, ShadowFile)) == Some(Shell.Flush(st.words, st.word));
    assert w7 + [">" + TempPath(login)]
        == ["awk", "-v", "user=^" + login + ":", "-v", "password=" + hash,
            Awk.RewriteProgram, ShadowFile, ">" + TempPath(login)];
  }

  /** The commit command cut where the shell's reading of it changes state. */
  lemma {:induction false} CommitCommandLayout(login: string, file: string)
    ensures CommitCommand(login, file)
            == "test" + (" " + "-f") + " " + file + "." + login + (" " + "&&") + (" " + "mv") + " "
               + file + "." + login + (" " + file)
  {
    assert "test -f " == "test" + (" " + "-f") + " ";
    var x1 := "test -f " + file + "." + login;
    assert x1 + " && mv " == x1 + (" " + "&&") + (" " + "mv") + " ";
  }

  /** Reading the tested temp file and the `&& mv` that follows it. */
  lemma {:induction false} ScanTestOperand(prefix: string, login: string, words: seq<string>)
    requires Shell.Scan(prefix, Shell.Start) == Shell.Scanner("", false, words) && ShellSafeLogin(login)
    ensures Shell.Scan(prefix + ShadowFile + "." + login + (" " + "&&") + (" " + "mv") + " ", Shell.Start)
            == Shell.Scanner("", false, words + [TempPath(login), "&&", "mv"])
  {
    var tmp := TempPath(login);
    AppendTempPath(prefix, login, Shell.Scanner("", false, words));
    assert "" + tmp == tmp;
    var p1 := prefix + ShadowFile + "." + login;
    Shell.AppendSpaceWord(p1, "&&", Shell.Scanner(tmp, false, words));
    var p2 := p1 + (" " + "&&");
    Shell.AppendSpaceWord(p2, "mv", Shell.Scanner("&&", false, words + [tmp]));
    var p3 := p2 + (" " + "mv");
    Shell.AppendSpace(p3, Shell.Scanner("mv", false, words + [tmp, "&&"]));
    assert words + [tmp, "&&"] + ["mv"] == words + [tmp, "&&", "mv"];
  }

  /** Reading the moved temp file and the target. */
  lemma {:induction false} ScanMoveOperands(prefix: string, login: string, words: seq<string>)
    requires Shell.Scan(prefix, Shell.Start) == Shell.Scanner("", false, words) && ShellSafeLogin(login)
    ensures Shell.Scan(prefix + ShadowFile + "." + login + (" " + ShadowFile), Shell.Start)
            == Shell.Scanner(ShadowFile, false, words + [TempPath(login)])
  {
    var tmp := TempPath(login);
    AppendTempPath(prefix, login, Shell.Scanner("", false, words));
    assert "" + tmp == tmp;
    Shell.AppendSpaceWord(prefix + ShadowFile + "." + login, ShadowFile, Shell.Scanner(tmp, false, words));
  }

  /** Reading `test -f `: two words and nothing open. */
  lemma {:induction false} ScanCommitHead()
    ensures Shell.Scan("test" + (" " + "-f") + " ", Shell.Start) == Shell.Scanner("", false, ["test", "-f"])
  {
    Shell.AppendChunk("", "test", Shell.Start);
    assert "" + "test" == "test";
    Shell.AppendSpaceWord("test", "-f", Shell.Scanner("test", false, []));
    Shell.AppendSpace("test" + (" " + "-f"), Shell.Scanner("-f", false, ["test"]));
  }

  /** The shell splits the commit command into `test -f tmp && mv tmp /etc/shadow`, with
      the same temp path tested and moved. */
  lemma {:induction false} CommitCommandWords(login: string)
    requires ShellSafeLogin(login)
    ensures Shell.Words(CommitCommand(login, ShadowFile))
            == Some(["test", "-f", TempPath(login), "&&", "mv", TempPath(login), ShadowFile])
  {
    var file, tmp := ShadowFile, TempPath(login);
    ScanCommitHead();
    var p1 := "test" + (" " + "-f") + " ";
    ScanTestOperand(p1, login, ["test", "-f"]);
    var p2 := p1 + file + "." + login + (" " + "&&") + (" " + "mv") + " ";
    var w2 := ["test", "-f", tmp, "&&", "mv"];
    ScanMoveOperands(p2, login, w2);
    var p3 := p2 + file + "." + login + (" " + file);
    CommitCommandLayout(login, file);
    assert CommitCommand(login, file) == p3;
    assert w2 + [tmp] + [file] == ["test", "-f", tmp, "&&", "mv", tmp, file];
  }
}
