/** The part of awk the stage command relies on: records split at RS = "\n" and printed
    with ORS = "\n", fields split and rebuilt with FS = OFS = ":", assignment to `$2`,
    the dynamic regular-expression match `$0 ~ user` and the built-in `index`. */
module Awk {
  import opened Results
  import opened Text
  import opened Shadow

  /** The BEGIN block setting both field separators to a colon. */
  const Separators: string := "BEGIN { FS=OFS=\":\" }"

  /** The rule of the stage command as written: records matching the regular expression
      in `user` get `password` as field 2. */
  const RegexRule: string := "$0 ~ user { $2 = password }"

  /** The rule with the regular-expression match replaced by a literal prefix test. */
  const IndexRule: string := "index($0, user) == 1 { $2 = password }"

  /** The rule that prints every record. */
  const PrintAll: string := "1"

  /** The awk program of the stage command as written. */
  const RewriteProgram: string := Separators + " " + RegexRule + " " + PrintAll

  /** The same program with the prefix test in place of the regular expression. */
  const IndexRewriteProgram: string := Separators + " " + IndexRule + " " + PrintAll

  /** Characters with a special meaning in a POSIX extended regular expression. */
  predicate RegexMeta(c: char) {
    c in {'\\', '^', '$', '.', '[', ']', '|', '(', ')', '*', '+', '?', '{', '}'}
  }

  /** A login made only of characters that stand for themselves in a regular expression
      and are not the field separator. */
  predicate RegexLiteral(login: string) {
    forall i :: 0 <= i < |login| ==> login[i] != ':' && !RegexMeta(login[i])
  }

  /** The dynamic regular expressions this model gives a meaning to: `^`, then ordinary
      characters and `.` wildcards. */
  predicate Modelled(re: string) {
    |re| >= 1 && re[0] == '^' && forall i :: 1 <= i < |re| ==> re[i] == '.' || !RegexMeta(re[i])
  }

  /** `s ~ re` for a modelled expression: the pattern after `^` matches a prefix of `s`,
      a `.` matching any one character. None for an expression outside the model. */
  function Match(re: string, s: string): (m: Option<bool>)
    ensures m.Some? <==> Modelled(re)
    ensures Modelled(re) && '.' !in re ==> (m.value <==> StartsWith(s, re[1..]))
  {
    if !Modelled(re) then None
    else
      var p := re[1..];
      Some(|p| <= |s| && forall i :: 0 <= i < |p| ==> p[i] == '.' || p[i] == s[i])
  }

  /** Field splitting with FS = ":"; an empty record has no fields at all. */
  function FieldsOf(record: string): (fields: seq<string>)
    ensures record == "" ==> fields == []
    ensures record != "" ==> |fields| >= 1 && Join(fields, ':') == record
  {
    if record == "" then [] else JoinSplit(record, ':'); Split(record, ':')
  }

  /** Assignment to field `n` (counted from 1). Past the last field the record first
      grows with empty fields, so the assigned field is always the n-th. */
  function SetField(fields: seq<string>, n: nat, v: string): (r: seq<string>)
    requires n >= 1
    ensures |r| == if n <= |fields| then |fields| else n
    ensures r[n - 1] == v
    ensures forall i :: 0 <= i < |fields| && i != n - 1 ==> r[i] == fields[i]
    ensures forall i :: |fields| <= i < n - 1 ==> r[i] == ""
  {
    if n <= |fields| then fields[n - 1 := v]
    else fields + seq(n - 1 - |fields|, _ => "") + [v]
  }

  /** `t` occurs in `s` starting at position `j` (counted from 0). */
  predicate OccursAt(s: string, t: string, j: nat) {
    j + |t| <= |s| && s[j..j + |t|] == t
  }

  /** First occurrence of `t` in `s` at or after `from`, as a 1-based position; 0 if none. */
  function Find(s: string, t: string, from: nat): (k: nat)
    ensures k == 0 ==> forall j: nat :: from <= j ==> !OccursAt(s, t, j)
    ensures k != 0 ==> from < k && OccursAt(s, t, k - 1)
    ensures k != 0 ==> forall j: nat :: from <= j < k - 1 ==> !OccursAt(s, t, j)
    decreases |s| - from
  {
    if from + |t| > |s| then 0
    else if s[from..from + |t|] == t then from + 1
    else Find(s, t, from + 1)
  }

  /** awk's `index(s, t)`: the 1-based position of the first occurrence of `t`, 0 when
      there is none or `t` is empty. */
  function Index(s: string, t: string): (k: nat)
    ensures k == 0 ==> t == "" || forall j: nat :: !OccursAt(s, t, j)
    ensures k != 0 ==> t != "" && OccursAt(s, t, k - 1)
    ensures k != 0 ==> forall j: nat :: j < k - 1 ==> !OccursAt(s, t, j)
  {
    if t == "" then 0 else Find(s, t, 0)
  }

  /** `index(s, t) == 1` is exactly the prefix test for a non-empty `t`. */
  lemma {:induction false} IndexOneIffPrefix(s: string, t: string)
    requires t != ""
    ensures Index(s, t) == 1 <==> StartsWith(s, t)
  {
    if StartsWith(s, t) {
      assert s[0..|t|] == t;
    }
  }

  /** One record through `$0 ~ user { $2 = password } 1`. */
  function ProcessRecord(user: string, password: string, record: string): string
    requires Modelled(user)
  {
    if Match(user, record).value then Join(SetField(FieldsOf(record), 2, password), ':')
    else record
  }

  /** One record through `index($0, user) == 1 { $2 = password } 1`. */
  function ProcessRecordByIndex(user: string, password: string, record: string): string
  {
    if Index(record, user) == 1 then Join(SetField(FieldsOf(record), 2, password), ':')
    else record
  }

  /** Runs one of the two modelled programs over `input` with the `-v` variables `vars`.
      None for any other program, for a missing variable, for a value that `-v` would
      put through escape processing, or for a regular expression outside the model. */
  function Run(program: string, vars: map<string, string>, input: string): (out: Option<string>)
    ensures out.Some? ==> program == RewriteProgram || program == IndexRewriteProgram
    ensures out.Some? ==> "user" in vars && "password" in vars && '\\' !in vars["user"] && '\\' !in vars["password"]
    ensures (&& program == RewriteProgram && "user" in vars && "password" in vars
             && '\\' !in vars["user"] && '\\' !in vars["password"])
            ==> (out.Some? <==> Modelled(vars["user"]))
  {
    if "user" !in vars || "password" !in vars then None
    else
      var user, password := vars["user"], vars["password"];
      var records := Records(input);
      if '\\' in user || '\\' in password then None
      else if program == RewriteProgram && Modelled(user) then
        Some(Unlines(seq(|records|, i requires 0 <= i < |records| => ProcessRecord(user, password, records[i]))))
      else if program == IndexRewriteProgram then
        Some(Unlines(seq(|records|, i requires 0 <= i < |records| => ProcessRecordByIndex(user, password, records[i]))))
      else None
  }

  /** Once a record is known to belong to `login`, awk's `$2 = hash` replaces exactly the
      second field of its colon split. */
  lemma {:induction false} AssignSecondField(login: string, hash: string, record: string)
    requires ':' !in login && ':' !in hash && IsEntryFor(login, record)
    ensures Join(SetField(FieldsOf(record), 2, hash), ':') == ReplaceHash(login, hash, record)
  {
    SplitAfterPrefix(record, login, ':');
  }

  /** For a regex-literal login, `$0 ~ "^" login ":"` holds exactly for the login's own records. */
  lemma {:induction false} MatchIsEntryFor(login: string, record: string)
    requires RegexLiteral(login)
    ensures Modelled("^" + login + ":")
    ensures Match("^" + login + ":", record) == Some(IsEntryFor(login, record))
  {
    var re := "^" + login + ":";
    assert re[1..] == login + [':'];
    forall i | 1 <= i < |re|
      ensures re[i] != '.' && !RegexMeta(re[i])
    {
      if i <= |login| { assert re[i] == login[i - 1]; }
    }
  }

  /** The stage program as written performs the intended rewrite on every record of a
      regex-literal login. */
  lemma {:induction false} ProcessRecordMeaning(login: string, hash: string, record: string)
    requires RegexLiteral(login) && ':' !in hash
    ensures Modelled("^" + login + ":")
    ensures ProcessRecord("^" + login + ":", hash, record) == ReplaceHash(login, hash, record)
  {
    MatchIsEntryFor(login, record);
    if IsEntryFor(login, record) {
      AssignSecondField(login, hash, record);
    }
  }

  /** The prefix-test program performs the intended rewrite for every colon-free login,
      whatever regular-expression characters it contains. */
  lemma {:induction false} ProcessRecordByIndexMeaning(login: string, hash: string, record: string)
    requires ':' !in login && ':' !in hash
    ensures ProcessRecordByIndex(login + ":", hash, record) == ReplaceHash(login, hash, record)
  {
    IndexOneIffPrefix(record, login + ":");
    if IsEntryFor(login, record) {
      AssignSecondField(login, hash, record);
    }
  }

  /** Running the stage program as written on a shadow file writes the intended staged copy. */
  lemma {:induction false} RunRewriteMeaning(login: string, hash: string, input: string)
    requires RegexLiteral(login) && ':' !in hash && '\\' !in hash
    ensures ':' !in login
    ensures Run(RewriteProgram, map["user" := "^" + login + ":", "password" := hash], input)
            == Some(Staged(login, hash, input))
  {
    var user := "^" + login + ":";
    var records := Records(input);
    forall i | 0 <= i < |records|
      ensures ProcessRecord(user, hash, records[i]) == ReplaceHash(login, hash, records[i])
    {
      ProcessRecordMeaning(login, hash, records[i]);
    }
    MatchIsEntryFor(login, "");
    assert seq(|records|, i requires 0 <= i < |records| => ProcessRecord(user, hash, records[i]))
        == RewriteRecords(login, hash, records);
  }

  /** Running the prefix-test program writes the intended staged copy for every login free
      of colons and backslashes. */
  lemma {:induction false} RunIndexRewriteMeaning(login: string, hash: string, input: string)
    requires ':' !in login && '\\' !in login && ':' !in hash && '\\' !in hash
    ensures Run(IndexRewriteProgram, map["user" := login + ":", "password" := hash], input)
            == Some(Staged(login, hash, input))
  {
    var user := login + ":";
    assert IndexRewriteProgram != RewriteProgram by {
      assert IndexRewriteProgram[|Separators| + 1] == IndexRule[0];
      assert RewriteProgram[|Separators| + 1] == RegexRule[0];
    }
    var records := Records(input);
    forall i | 0 <= i < |records|
      ensures ProcessRecordByIndex(user, hash, records[i]) == ReplaceHash(login, hash, records[i])
    {
      ProcessRecordByIndexMeaning(login, hash, records[i]);
    }
    assert seq(|records|, i requires 0 <= i < |records| => ProcessRecordByIndex(user, hash, records[i]))
        == RewriteRecords(login, hash, records);
  }

  /** A `.` in the login is a wildcard in the regular expression as written: rewriting the
      login `x.y` also rewrites the record of `xcy` for any other character `c` (for
      instance `a.b` rewrites `axb`), although that record does not belong to `x.y`. */
  lemma {:induction false} DotLoginRewritesOtherRecord(x: string, y: string, c: char, rest: string, hash: string)
    requires RegexLiteral(x) && RegexLiteral(y) && c != '.' && c != ':' && ':' !in hash
    ensures Modelled("^" + (x + "." + y) + ":")
    ensures !IsEntryFor(x + "." + y, x + [c] + y + ":" + rest)
    ensures Match("^" + (x + "." + y) + ":", x + [c] + y + ":" + rest) == Some(true)
    ensures |Split(x + [c] + y + ":" + rest, ':')| >= 2
    ensures Split(ProcessRecord("^" + (x + "." + y) + ":", hash, x + [c] + y + ":" + rest), ':')
            == Split(x + [c] + y + ":" + rest, ':')[1 := hash]
  {
    var login, other := x + "." + y, x + [c] + y;
    var record := other + ":" + rest;
    var re := "^" + login + ":";
    forall i | 1 <= i < |re|
      ensures re[i] == '.' || !RegexMeta(re[i])
    {
      if i <= |x| { assert re[i] == x[i - 1]; }
      else if i == |x| + 1 { assert re[i] == '.'; }
      else if i <= |login| { assert re[i] == y[i - |x| - 2]; }
    }
    var p := re[1..];
    forall i | 0 <= i < |p|
      ensures p[i] == '.' || p[i] == record[i]
    {
      if i < |x| { assert p[i] == x[i] == record[i]; }
      else if i > |x| && i < |login| { assert p[i] == y[i - |x| - 1] == record[i]; }
      else if i == |login| { assert p[i] == ':' == record[i]; }
    }
    assert record[|x|] == c && (login + ":")[|x|] == '.';
    assert ':' !in other by {
      forall i | 0 <= i < |other| ensures other[i] != ':' {
        if i < |x| { assert other[i] == x[i]; }
        else if i > |x| { assert other[i] == y[i - |x| - 1]; }
      }
    }
    assert StartsWith(record, other + [':']) by { assert record[..|other| + 1] == other + [':']; }
    SplitAfterPrefix(record, other, ':');
    var fields := Split(record, ':')[1 := hash];
    SplitJoin(fields, ':');
  }

  /** The prefix-test program never rewrites a record that does not belong to the login. */
  lemma {:induction false} ByIndexKeepsOtherRecords(login: string, hash: string, record: string)
    requires ':' !in login && ':' !in hash && !IsEntryFor(login, record)
    ensures ProcessRecordByIndex(login + ":", hash, record) == record
  {
    ProcessRecordByIndexMeaning(login, hash, record);
  }
}
