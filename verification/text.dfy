/** Character-separated text: splitting a string into fields at a one-character
    separator, joining fields back, and prefix tests. */
module Text {

  /** True when `prefix` is an initial segment of `s`. */
  predicate StartsWith(s: string, prefix: string) {
    |prefix| <= |s| && s[..|prefix|] == prefix
  }

  /** Splits `s` at every occurrence of `sep`, keeping empty fields, the way awk
      splits a non-empty record with a one-character FS. */
  function Split(s: string, sep: char): (fields: seq<string>)
    ensures |fields| >= 1
    ensures forall i :: 0 <= i < |fields| ==> sep !in fields[i]
    decreases |s|
  {
    if s == [] then [""]
    else
      var rest := Split(s[1..], sep);
      if s[0] == sep then [""] + rest
      else [[s[0]] + rest[0]] + rest[1..]
  }

  /** Concatenates `fields` with `sep` between neighbours (awk's OFS when a record is rebuilt). */
  function Join(fields: seq<string>, sep: char): string
  {
    if |fields| == 0 then ""
    else if |fields| == 1 then fields[0]
    else fields[0] + [sep] + Join(fields[1..], sep)
  }

  /** Index of the first occurrence of `c` in `s`. */
  function IndexOf(s: string, c: char): (k: nat)
    requires c in s
    ensures k < |s| && s[k] == c && c !in s[..k]
  {
    if s[0] == c then 0
    else
      assert c in s[1..] by { var j :| 0 <= j < |s| && s[j] == c; assert s[1..][j - 1] == c; }
      var k := 1 + IndexOf(s[1..], c);
      assert s[..k] == [s[0]] + s[1..][..k - 1];
      k
  }

  lemma {:induction false} JoinCons(w: string, rest: seq<string>, sep: char)
    requires |rest| >= 1
    ensures Join([w] + rest, sep) == w + [sep] + Join(rest, sep)
  {
    assert ([w] + rest)[1..] == rest;
  }

  /** Joining the fields of a split gives back the original text. */
  lemma {:induction false} JoinSplit(s: string, sep: char)
    ensures Join(Split(s, sep), sep) == s
    decreases |s|
  {
    if s != [] {
      var rest := Split(s[1..], sep);
      JoinSplit(s[1..], sep);
      if s[0] == sep {
        JoinCons("", rest, sep);
        assert s == [sep] + s[1..];
      } else if |rest| == 1 {
        assert s == [s[0]] + s[1..];
      } else {
        assert rest == [rest[0]] + rest[1..];
        JoinCons(rest[0], rest[1..], sep);
        JoinCons([s[0]] + rest[0], rest[1..], sep);
        assert s == [s[0]] + s[1..];
      }
    }
  }

  /** A separator-free string is a single field. */
  lemma {:induction false} SplitOfField(w: string, sep: char)
    requires sep !in w
    ensures Split(w, sep) == [w]
    decreases |w|
  {
    if w != [] {
      SplitOfField(w[1..], sep);
      assert w == [w[0]] + w[1..];
    }
  }

  /** A separator-free field followed by the separator splits off as the first field. */
  lemma {:induction false} SplitOfFieldThenSep(w: string, t: string, sep: char)
    requires sep !in w
    ensures Split(w + [sep] + t, sep) == [w] + Split(t, sep)
    decreases |w|
  {
    var s := w + [sep] + t;
    if w == [] {
      assert s == [sep] + t;
      assert s[1..] == t;
    } else {
      SplitOfFieldThenSep(w[1..], t, sep);
      assert s[0] == w[0];
      assert s[1..] == w[1..] + [sep] + t;
      assert w == [w[0]] + w[1..];
    }
  }

  /** Splitting joined separator-free fields gives back exactly those fields. */
  lemma {:induction false} SplitJoin(fields: seq<string>, sep: char)
    requires |fields| >= 1
    requires forall i :: 0 <= i < |fields| ==> sep !in fields[i]
    ensures Split(Join(fields, sep), sep) == fields
    decreases |fields|
  {
    if |fields| == 1 {
      SplitOfField(fields[0], sep);
    } else {
      SplitJoin(fields[1..], sep);
      SplitOfFieldThenSep(fields[0], Join(fields[1..], sep), sep);
      assert fields == [fields[0]] + fields[1..];
    }
  }

  /** A string that starts with a separator-free `w` and the separator splits into `w`
      followed by the fields of the remainder. */
  lemma {:induction false} SplitAfterPrefix(s: string, w: string, sep: char)
    requires sep !in w && StartsWith(s, w + [sep])
    ensures Split(s, sep) == [w] + Split(s[|w| + 1..], sep)
    ensures |Split(s, sep)| >= 2 && Split(s, sep)[0] == w
  {
    assert s == w + [sep] + s[|w| + 1..];
    SplitOfFieldThenSep(w, s[|w| + 1..], sep);
  }

  /** A character that is neither the separator nor in any field is not in the joined text. */
  lemma {:induction false} JoinAvoids(fields: seq<string>, sep: char, c: char)
    requires c != sep
    requires forall i :: 0 <= i < |fields| ==> c !in fields[i]
    ensures c !in Join(fields, sep)
    decreases |fields|
  {
    if |fields| > 1 {
      JoinAvoids(fields[1..], sep, c);
    }
  }

  /** A character absent from `s` is absent from every field of its split. */
  lemma {:induction false} SplitAvoids(s: string, sep: char, c: char)
    requires c !in s
    ensures forall i :: 0 <= i < |Split(s, sep)| ==> c !in Split(s, sep)[i]
    decreases |s|
  {
    if s != [] {
      SplitAvoids(s[1..], sep, c);
    }
  }
}
