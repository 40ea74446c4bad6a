/** The shell as far as the two generated commands need it: word splitting at spaces
    with single quotes, the `>` redirection, `test -f … && mv …`, and a filesystem
    that maps paths to file contents. */
module Shell {
  import opened Results
  import opened Text
  import Awk

  /** Regular files by absolute path. */
  type FileSystem = map<string, string>

  /** Characters the shell gives no special meaning inside an unquoted word. */
  predicate ShellInert(c: char) {
    c !in {' ', '\t', '\n', '\'', '"', '\\', '$', '`', ';', '&', '|', '<', '>', '(', ')', '*', '?', '[', ']', '#', '~', '{', '}', '!'}
  }

  function Flush(words: seq<string>, word: string): seq<string> {
    if word == "" then words else words + [word]
  }

  /** The lexer's state: the word being read, whether a single quote is open, and the
      words completed so far. */
  datatype Scanner = Scanner(word: string, quoted: bool, words: seq<string>)

  const Start: Scanner := Scanner("", false, [])

  /** One character of a command line: a single quote opens or closes quoting and
      disappears, an unquoted space ends the current word, anything else joins it. */
  function Step(st: Scanner, c: char): Scanner {
    if c == '\'' then st.(quoted := !st.quoted)
    else if c == ' ' && !st.quoted then Scanner("", false, Flush(st.words, st.word))
    else st.(word := st.word + [c])
  }

  /** Reads `s` from state `st`. */
  function Scan(s: string, st: Scanner): Scanner
    decreases |s|
  {
    if s == [] then st else Scan(s[1..], Step(st, s[0]))
  }

  /** The words of a command line, or None when a single quote is left open. */
  function Words(command: string): (r: Option<seq<string>>)
  {
    var st := Scan(command, Start);
    if st.quoted then None else Some(Flush(st.words, st.word))
  }

  /** Text the lexer copies into the current word unchanged. */
  predicate Plain(w: string) {
    forall i :: 0 <= i < |w| ==> w[i] != ' ' && w[i] != '\''
  }

  /** Reading a concatenation is reading its parts one after the other. */
  lemma {:induction false} ScanConcat(a: string, b: string, st: Scanner)
    ensures Scan(a + b, st) == Scan(b, Scan(a, st))
    decreases |a|
  {
    if a != [] {
      assert (a + b)[0] == a[0] && (a + b)[1..] == a[1..] + b;
      ScanConcat(a[1..], b, Step(st, a[0]));
    } else {
      assert a + b == b;
    }
  }

  /** Text without quotes (and, outside quotes, without spaces) extends the current word. */
  lemma {:induction false} ScanChunk(w: string, st: Scanner)
    requires forall i :: 0 <= i < |w| ==> w[i] != '\'' && (st.quoted || w[i] != ' ')
    ensures Scan(w, st) == st.(word := st.word + w)
    decreases |w|
  {
    if w == [] {
      assert st.word + w == st.word;
    } else {
      ScanChunk(w[1..], Step(st, w[0]));
      assert st.word + [w[0]] + w[1..] == st.word + w;
    }
  }

  /** An unquoted space ends the current word. */
  lemma {:induction false} ScanSpace(st: Scanner)
    requires !st.quoted
    ensures Scan(" ", st) == Scanner("", false, Flush(st.words, st.word))
  {
    assert " "[1..] == [];
  }

  /** A single quote toggles quoting. */
  lemma {:induction false} ScanQuote(st: Scanner)
    ensures Scan("'", st) == st.(quoted := !st.quoted)
  {
    assert "'"[1..] == [];
  }

  /** An unquoted space followed by plain text starts a new word with that text. */
  lemma {:induction false} ScanSpaceWord(w: string, st: Scanner)
    requires !st.quoted && Plain(w)
    ensures Scan(" " + w, st) == Scanner(w, false, Flush(st.words, st.word))
  {
    ScanConcat(" ", w, st);
    ScanSpace(st);
    ScanChunk(w, Scanner("", false, Flush(st.words, st.word)));
    assert "" + w == w;
  }

  /** Extending a command line read from the start by plain text. */
  lemma {:induction false} AppendChunk(prefix: string, w: string, st: Scanner)
    requires Scan(prefix, Start) == st
    requires forall i :: 0 <= i < |w| ==> w[i] != '\'' && (st.quoted || w[i] != ' ')
    ensures Scan(prefix + w, Start) == st.(word := st.word + w)
  {
    ScanConcat(prefix, w, Start);
    ScanChunk(w, st);
  }

  /** Extending a command line read from the start by a space and a plain word. */
  lemma {:induction false} AppendSpaceWord(prefix: string, w: string, st: Scanner)
    requires Scan(prefix, Start) == st && !st.quoted && Plain(w)
    ensures Scan(prefix + (" " + w), Start) == Scanner(w, false, Flush(st.words, st.word))
  {
    ScanConcat(prefix, " " + w, Start);
    ScanSpaceWord(w, st);
  }

  /** Extending a command line read from the start by an unquoted space. */
  lemma {:induction false} AppendSpace(prefix: string, st: Scanner)
    requires Scan(prefix, Start) == st && !st.quoted
    ensures Scan(prefix + " ", Start) == Scanner("", false, Flush(st.words, st.word))
  {
    ScanConcat(prefix, " ", Start);
    ScanSpace(st);
  }

  /** Extending a command line read from the start by a single quote. */
  lemma {:induction false} AppendQuote(prefix: string, st: Scanner)
    requires Scan(prefix, Start) == st
    ensures Scan(prefix + "'", Start) == st.(quoted := !st.quoted)
  {
    ScanConcat(prefix, "'", Start);
    ScanQuote(st);
  }

  /** Splits a `-v` operand `name=value` at its first `=`. */
  function Assignment(w: string): (r: Option<(string, string)>)
    ensures r.Some? <==> '=' in w
    ensures r.Some? ==> '=' !in r.value.0 && w == r.value.0 + "=" + r.value.1
  {
    if '=' !in w then None
    else
      var k := IndexOf(w, '=');
      assert w == w[..k] + "=" + w[k + 1..];
      Some((w[..k], w[k + 1..]))
  }

  /** An operand `name=value` whose name holds no `=` is split back into that name and value. */
  lemma {:induction false} AssignmentOf(name: string, value: string)
    requires '=' !in name
    ensures Assignment(name + "=" + value) == Some((name, value))
  {
    var w := name + "=" + value;
    assert w[|name|] == '=';
    var k := IndexOf(w, '=');
    assert w[..k] == name && w[k + 1..] == value;
  }

  /** The redirection `>path` as a word. */
  predicate IsRedirect(w: string) {
    |w| >= 2 && w[0] == '>'
  }

  /** The cleanup words `|| rm -f path` that may follow a stage command. */
  predicate IsCleanup(words: seq<string>) {
    |words| == 4 && words[0] == "||" && words[1] == "rm" && words[2] == "-f"
  }

  /** The effect of `awk -v … program input >output`, followed by `|| rm -f path` when
      `cleanup` holds a path. The shell creates or truncates the output before awk starts,
      so the output exists, empty, even when awk cannot run (`awkPresent` false) or the
      input is missing; only the cleanup, which runs exactly in those cases, deletes it
      again. None for an awk run outside the awk model. */
  function AwkEffect(vars: map<string, string>, program: string, input: string, output: string,
                     cleanup: Option<string>, fs: FileSystem, awkPresent: bool): (r: Option<FileSystem>)
    ensures r.Some? && cleanup.None? ==> output in r.value
    ensures r.Some? ==> forall p :: p in fs && p != output && (cleanup.None? || p != cleanup.value) ==>
                          p in r.value && r.value[p] == fs[p]
  {
    var created := fs[output := ""];
    if !awkPresent || input !in created then
      if cleanup.Some? then Some(created - {cleanup.value}) else Some(created)
    else (match Awk.Run(program, vars, created[input])
      case None => None
      case Some(text) => Some(created[output := text]))
  }

  /** `awk -v n1=v1 -v n2=v2 'program' input >output`, optionally followed by
      `|| rm -f path`. None for a command outside this shape. */
  function StageEffect(words: seq<string>, fs: FileSystem, awkPresent: bool): (r: Option<FileSystem>)
    ensures r.Some? ==> (|words| == 8 || (|words| == 12 && IsCleanup(words[8..]))) && IsRedirect(words[7])
    ensures r.Some? && |words| == 8 ==> words[7][1..] in r.value
    ensures r.Some? ==> forall p :: p in fs && p != words[7][1..] && (|words| == 8 || p != words[11]) ==>
                          p in r.value && r.value[p] == fs[p]
  {
    if !(|words| == 8 || (|words| == 12 && IsCleanup(words[8..]))) then None
    else if words[0] != "awk" || words[1] != "-v" || words[3] != "-v" || !IsRedirect(words[7]) then None
    else match (Assignment(words[2]), Assignment(words[4]))
      case (Some(a), Some(b)) =>
        AwkEffect(map[a.0 := a.1, b.0 := b.1], words[5], words[6], words[7][1..],
                  if |words| == 12 then Some(words[11]) else None, fs, awkPresent)
      case _ => None
  }

  /** `test -f tested && mv from to`: the move happens only if `tested` exists; `mv`
      fails without effect when `from` is missing or is `to` itself. */
  function CommitEffect(words: seq<string>, fs: FileSystem): (r: Option<FileSystem>)
    ensures r.Some? ==> |words| == 7 && words[3] == "&&"
    ensures r.Some? && words[2] !in fs ==> r.value == fs
    ensures r.Some? && words[2] in fs && words[5] in fs && words[5] != words[6] ==>
              && words[5] !in r.value && words[6] in r.value && r.value[words[6]] == fs[words[5]]
              && forall p :: p in fs && p != words[5] && p != words[6] ==> p in r.value && r.value[p] == fs[p]
  {
    if |words| != 7 || words[0] != "test" || words[1] != "-f" || words[3] != "&&" || words[4] != "mv" then None
    else
      var tested, from, to := words[2], words[5], words[6];
      if tested !in fs || from !in fs || from == to then Some(fs)
      else Some((fs - {from})[to := fs[from]])
  }

  /** Runs one generated command line; None for a line outside the two modelled shapes. */
  function Run(command: string, fs: FileSystem, awkPresent: bool): Option<FileSystem>
  {
    match Words(command)
    case None => None
    case Some(words) =>
      if |words| >= 1 && words[0] == "awk" then StageEffect(words, fs, awkPresent)
      else if |words| >= 1 && words[0] == "test" then CommitEffect(words, fs)
      else None
  }

  /** Runs command lines one after another, as a script without `set -e` does: a failing
      command does not stop the ones after it. */
  function Execute(commands: seq<string>, fs: FileSystem, awkPresent: bool): Option<FileSystem>
    decreases |commands|
  {
    if commands == [] then Some(fs)
    else match Run(commands[0], fs, awkPresent)
      case None => None
      case Some(next) => Execute(commands[1..], next, awkPresent)
  }

  /** The words of a stage command: two `-v` assignments, a program, an input file and a
      redirection, optionally followed by a cleanup. */
  function StageWords(n1: string, v1: string, n2: string, v2: string, program: string,
                      input: string, output: string, cleanup: seq<string>): seq<string>
  {
    ["awk", "-v", n1 + "=" + v1, "-v", n2 + "=" + v2, program, input, ">" + output] + cleanup
  }

  /** The words of a stage command are read back as its assignments, program, input,
      output and cleanup path. */
  lemma {:induction false} StageEffectOfWords(n1: string, v1: string, n2: string, v2: string, program: string,
                           input: string, output: string, cleanup: seq<string>,
                           fs: FileSystem, awkPresent: bool)
    requires '=' !in n1 && '=' !in n2 && output != ""
    requires cleanup == [] || IsCleanup(cleanup)
    ensures StageEffect(StageWords(n1, v1, n2, v2, program, input, output, cleanup), fs, awkPresent)
            == AwkEffect(map[n1 := v1, n2 := v2], program, input, output,
                         if cleanup == [] then None else Some(cleanup[3]), fs, awkPresent)
  {
    var words := StageWords(n1, v1, n2, v2, program, input, output, cleanup);
    AssignmentOf(n1, v1);
    AssignmentOf(n2, v2);
    assert words[2] == n1 + "=" + v1 && words[4] == n2 + "=" + v2;
    assert words[7][1..] == output && words[6] == input && words[5] == program;
    assert cleanup != [] ==> words[8..] == cleanup && words[11] == cleanup[3];
  }

  /** A stage command that cannot run awk leaves the redirection target empty, unless the
      cleanup deletes it again. */
  lemma {:induction false} StageEffectFails(n1: string, v1: string, n2: string, v2: string, program: string,
                         input: string, output: string, cleanup: seq<string>,
                         fs: FileSystem, awkPresent: bool)
    requires '=' !in n1 && '=' !in n2 && output != ""
    requires cleanup == [] || IsCleanup(cleanup)
    requires !awkPresent || (input != output && input !in fs)
    ensures StageEffect(StageWords(n1, v1, n2, v2, program, input, output, cleanup), fs, awkPresent)
            == Some(if cleanup == [] then fs[output := ""] else fs[output := ""] - {cleanup[3]})
  {
    StageEffectOfWords(n1, v1, n2, v2, program, input, output, cleanup, fs, awkPresent);
  }

  /** A stage command whose awk run succeeds writes awk's output to the redirection target. */
  lemma {:induction false} StageEffectRuns(n1: string, v1: string, n2: string, v2: string, program: string,
                        input: string, output: string, cleanup: seq<string>,
                        fs: FileSystem, text: string)
    requires '=' !in n1 && '=' !in n2 && output != ""
    requires cleanup == [] || IsCleanup(cleanup)
    requires input != output && input in fs
    requires Awk.Run(program, map[n1 := v1, n2 := v2], fs[input]) == Some(text)
    ensures StageEffect(StageWords(n1, v1, n2, v2, program, input, output, cleanup), fs, true)
            == Some(fs[output := text])
  {
    StageEffectOfWords(n1, v1, n2, v2, program, input, output, cleanup, fs, true);
    AwkEffectRuns(map[n1 := v1, n2 := v2], program, input, output,
                  if cleanup == [] then None else Some(cleanup[3]), fs, text);
  }

  /** An awk run that succeeds replaces the output file's content by awk's output. */
  lemma {:induction false} AwkEffectRuns(vars: map<string, string>, program: string, input: string, output: string,
                      cleanup: Option<string>, fs: FileSystem, text: string)
    requires input != output && input in fs
    requires Awk.Run(program, vars, fs[input]) == Some(text)
    ensures AwkEffect(vars, program, input, output, cleanup, fs, true) == Some(fs[output := text])
  {
    var created := fs[output := ""];
    assert input in created && created[input] == fs[input];
    assert created[output := text] == fs[output := text];
  }

  /** Two command lines run in order: the second sees the filesystem the first left. */
  lemma {:induction false} ExecutePair(first: string, second: string, fs: FileSystem, awkPresent: bool, mid: FileSystem)
    requires Run(first, fs, awkPresent) == Some(mid)
    ensures Execute([first, second], fs, awkPresent) == Run(second, mid, awkPresent)
  {
    assert [first, second][1..] == [second];
    assert [second][1..] == [];
    match Run(second, mid, awkPresent)
    case None =>
    case Some(last) =>
      assert Execute([second][1..], last, awkPresent) == Some(last);
  }

  /** A command line the shell reads as words starting with `awk` has the stage effect of
      those words. */
  lemma {:induction false} RunStage(command: string, words: seq<string>, fs: FileSystem, awkPresent: bool)
    requires Words(command) == Some(words) && |words| >= 1 && words[0] == "awk"
    ensures Run(command, fs, awkPresent) == StageEffect(words, fs, awkPresent)
  {
  }
}
