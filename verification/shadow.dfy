/** The shadow-password file format and the intended meaning of the password rewrite:
    newline-terminated records of colon-separated fields, field 1 the login name and
    field 2 the password hash. */
module Shadow {
  import opened Text

  /** A record belongs to `login` when it starts with the login name and a colon. */
  predicate IsEntryFor(login: string, record: string) {
    StartsWith(record, login + [':'])
  }

  /** The rewrite of one record: the record of `login` gets `hash` as its second field,
      every other field keeps its text and position; any other record is untouched. */
  function ReplaceHash(login: string, hash: string, record: string): (r: string)
    requires ':' !in login && ':' !in hash
    ensures !IsEntryFor(login, record) ==> r == record
    ensures IsEntryFor(login, record) ==>
              && |Split(record, ':')| >= 2
              && Split(r, ':') == Split(record, ':')[1 := hash]
              && IsEntryFor(login, r)
  {
    if IsEntryFor(login, record) then
      SplitAfterPrefix(record, login, ':');
      var fields := Split(record, ':')[1 := hash];
      SplitJoin(fields, ':');
      var r := Join(fields, ':');
      assert IsEntryFor(login, r) by {
        JoinCons(login, fields[1..], ':');
        assert fields == [login] + fields[1..];
      }
      r
    else record
  }

  /** The colon anchors the match: a record of a longer login that extends `login` (as
      `alice2` extends `alice`) is not the login's record and the rewrite leaves it as is. */
  lemma {:induction false} LongerLoginIsKept(login: string, c: char, rest: string, hash: string)
    requires ':' !in login && ':' !in hash && c != ':'
    ensures !IsEntryFor(login, login + [c] + ":" + rest)
    ensures ReplaceHash(login, hash, login + [c] + ":" + rest) == login + [c] + ":" + rest
  {
    var record := login + [c] + ":" + rest;
    assert record[|login|] == c;
  }

  /** The rewrite of a whole file's records, one record at a time. */
  function RewriteRecords(login: string, hash: string, records: seq<string>): (out: seq<string>)
    requires ':' !in login && ':' !in hash
    ensures |out| == |records|
    ensures forall i :: 0 <= i < |records| && !IsEntryFor(login, records[i]) ==> out[i] == records[i]
    ensures forall i :: 0 <= i < |records| && IsEntryFor(login, records[i]) ==>
              && |Split(records[i], ':')| >= 2
              && Split(out[i], ':') == Split(records[i], ':')[1 := hash]
              && IsEntryFor(login, out[i])
  {
    var out := seq(|records|, i requires 0 <= i < |records| => ReplaceHash(login, hash, records[i]));
    assert forall i :: 0 <= i < |records| ==> out[i] == ReplaceHash(login, hash, records[i]);
    out
  }

  /** With no record belonging to `login`, the rewrite changes nothing. */
  lemma {:induction false} RewriteWithoutEntryIsIdentity(login: string, hash: string, records: seq<string>)
    requires ':' !in login && ':' !in hash
    requires forall i :: 0 <= i < |records| ==> !IsEntryFor(login, records[i])
    ensures RewriteRecords(login, hash, records) == records
  {
  }

  /** Rewriting twice keeps only the last hash; with the same hash the rewrite is idempotent. */
  lemma {:induction false} RewriteLastWins(login: string, h1: string, h2: string, records: seq<string>)
    requires ':' !in login && ':' !in h1 && ':' !in h2
    ensures RewriteRecords(login, h2, RewriteRecords(login, h1, records)) == RewriteRecords(login, h2, records)
  {
    var once := RewriteRecords(login, h1, records);
    var twice := RewriteRecords(login, h2, once);
    var direct := RewriteRecords(login, h2, records);
    forall i | 0 <= i < |records|
      ensures twice[i] == direct[i]
    {
      if IsEntryFor(login, records[i]) {
        var fields := Split(records[i], ':');
        assert Split(once[i], ':') == fields[1 := h1];
        assert fields[1 := h1][1 := h2] == fields[1 := h2];
      }
    }
  }

  /** Splits file content into records the way awk does with RS = "\n": a final newline
      terminates the last record rather than starting an empty one. */
  function Records(content: string): (records: seq<string>)
    ensures forall i :: 0 <= i < |records| ==> '\n' !in records[i]
  {
    if content == [] then []
    else if content[|content| - 1] == '\n' then Split(content[..|content| - 1], '\n')
    else Split(content, '\n')
  }

  /** Writes records back the way awk prints them, each followed by ORS = "\n". */
  function Unlines(records: seq<string>): string
  {
    if records == [] then "" else records[0] + "\n" + Unlines(records[1..])
  }

  /** Content that is empty or ends in a newline: every record is terminated. */
  predicate Terminated(content: string) {
    content == [] || content[|content| - 1] == '\n'
  }

  lemma {:induction false} UnlinesIsJoin(records: seq<string>)
    requires |records| >= 1
    ensures Unlines(records) == Join(records, '\n') + "\n"
    decreases |records|
  {
    if |records| > 1 {
      UnlinesIsJoin(records[1..]);
    }
  }

  /** Reading records and writing them back reproduces terminated content exactly, and
      adds the one missing final newline otherwise. */
  lemma {:induction false} UnlinesRecords(content: string)
    ensures Unlines(Records(content)) == if Terminated(content) then content else content + "\n"
  {
    if content != [] {
      var body := if content[|content| - 1] == '\n' then content[..|content| - 1] else content;
      UnlinesIsJoin(Split(body, '\n'));
      JoinSplit(body, '\n');
      if content[|content| - 1] == '\n' {
        assert content == body + "\n";
      }
    }
  }

  /** Writing newline-free records and reading them back gives the same records. */
  lemma {:induction false} RecordsUnlines(records: seq<string>)
    requires forall i :: 0 <= i < |records| ==> '\n' !in records[i]
    ensures Records(Unlines(records)) == records
  {
    if records != [] {
      UnlinesIsJoin(records);
      var s := Join(records, '\n') + "\n";
      assert s[..|s| - 1] == Join(records, '\n');
      SplitJoin(records, '\n');
    }
  }

  /** The content the stage step is meant to write: the rewrite applied to every record. */
  function Staged(login: string, hash: string, content: string): string
    requires ':' !in login && ':' !in hash
  {
    Unlines(RewriteRecords(login, hash, Records(content)))
  }

  /** A rewritten record holds no newline when the hash holds none. */
  lemma {:induction false} RewrittenRecordsStayLines(login: string, hash: string, records: seq<string>)
    requires ':' !in login && ':' !in hash && '\n' !in hash
    requires forall i :: 0 <= i < |records| ==> '\n' !in records[i]
    ensures forall i :: 0 <= i < |records| ==> '\n' !in RewriteRecords(login, hash, records)[i]
  {
    var out := RewriteRecords(login, hash, records);
    forall i | 0 <= i < |records|
      ensures '\n' !in out[i]
    {
      if IsEntryFor(login, records[i]) {
        SplitAvoids(records[i], ':', '\n');
        var fields := Split(records[i], ':')[1 := hash];
        assert forall j :: 0 <= j < |fields| ==> '\n' !in fields[j];
        JoinAvoids(fields, ':', '\n');
        SplitJoin(fields, ':');
        JoinSplit(out[i], ':');
      }
    }
  }

  /** Reading the staged file back gives exactly the rewritten records: the same number
      of records, in the same order. */
  lemma {:induction false} StagedRecords(login: string, hash: string, content: string)
    requires ':' !in login && ':' !in hash && '\n' !in hash
    ensures Records(Staged(login, hash, content)) == RewriteRecords(login, hash, Records(content))
    ensures |Records(Staged(login, hash, content))| == |Records(content)|
  {
    RewrittenRecordsStayLines(login, hash, Records(content));
    RecordsUnlines(RewriteRecords(login, hash, Records(content)));
  }

  /** When no record belongs to `login`, the staged copy of terminated content is
      identical to the original. */
  lemma {:induction false} StagedWithoutEntryIsIdentity(login: string, hash: string, content: string)
    requires ':' !in login && ':' !in hash
    requires Terminated(content)
    requires forall i :: 0 <= i < |Records(content)| ==> !IsEntryFor(login, Records(content)[i])
    ensures Staged(login, hash, content) == content
  {
    RewriteWithoutEntryIsIdentity(login, hash, Records(content));
    UnlinesRecords(content);
  }
}
