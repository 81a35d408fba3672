/**
 Splitting a string at a separator, and its inverse.  The wildcard compiler cuts both the pattern and,
 in the meaning given to it here, the candidate into pieces with these functions.
 */
module Strings {

  /** The pieces of `s` between consecutive occurrences of `sep`; always at least one piece. */
  function Split(s: string, sep: char): (pieces: seq<string>)
    ensures |pieces| >= 1
  {
    if s == "" then [""]
    else
      var tail := Split(s[1..], sep);
      if s[0] == sep then [""] + tail else [[s[0]] + tail[0]] + tail[1..]
  }

  function Join(pieces: seq<string>, sep: char): string
    requires |pieces| >= 1
  {
    if |pieces| == 1 then pieces[0] else pieces[0] + [sep] + Join(pieces[1..], sep)
  }

  predicate SeparatorFree(pieces: seq<string>, sep: char) {
    forall i :: 0 <= i < |pieces| ==> sep !in pieces[i]
  }

  /** Splitting loses nothing, and no piece contains the separator. */
  lemma {:induction false} JoinSplit(s: string, sep: char)
    ensures Join(Split(s, sep), sep) == s
    ensures SeparatorFree(Split(s, sep), sep)
  {
    if s != "" {
      JoinSplit(s[1..], sep);
      var tail := Split(s[1..], sep);
      assert Split(s, sep)[1..] == if s[0] == sep then tail else tail[1..];
      assert s == [s[0]] + s[1..];
    }
  }

  /** A separator-free head, a separator and anything: the head is the first piece. */
  lemma {:induction false} SplitCons(head: string, rest: string, sep: char)
    requires sep !in head
    ensures Split(head + [sep] + rest, sep) == [head] + Split(rest, sep)
  {
    var s := head + [sep] + rest;
    if head == "" {
      assert s[1..] == rest;
    } else {
      assert s[1..] == head[1..] + [sep] + rest;
      SplitCons(head[1..], rest, sep);
      assert head == [head[0]] + head[1..];
    }
  }

  lemma {:induction false} SplitWhole(s: string, sep: char)
    requires sep !in s
    ensures Split(s, sep) == [s]
  {
    if s != "" {
      SplitWhole(s[1..], sep);
      assert s == [s[0]] + s[1..];
    }
  }

  /** Split is the inverse of Join on separator-free pieces, so the decomposition is unique. */
  lemma {:induction false} SplitJoin(pieces: seq<string>, sep: char)
    requires |pieces| >= 1 && SeparatorFree(pieces, sep)
    ensures Split(Join(pieces, sep), sep) == pieces
  {
    if |pieces| == 1 {
      SplitWhole(pieces[0], sep);
    } else {
      SplitJoin(pieces[1..], sep);
      SplitCons(pieces[0], Join(pieces[1..], sep), sep);
    }
  }

  /** A string with several pieces is its first piece, a separator, and the join of the others. */
  lemma SplitHead(s: string, sep: char)
    requires |Split(s, sep)| > 1
    ensures var pieces := Split(s, sep);
            s == pieces[0] + [sep] + Join(pieces[1..], sep)
            && sep !in pieces[0]
            && Split(Join(pieces[1..], sep), sep) == pieces[1..]
  {
    JoinSplit(s, sep);
    SplitJoin(Split(s, sep)[1..], sep);
  }

  lemma {:induction false} JoinAppend(left: seq<string>, right: seq<string>, sep: char)
    requires |left| >= 1 && |right| >= 1
    ensures Join(left + right, sep) == Join(left, sep) + [sep] + Join(right, sep)
  {
    if |left| == 1 {
      assert (left + right)[1..] == right;
    } else {
      assert (left + right)[1..] == left[1..] + right;
      JoinAppend(left[1..], right, sep);
    }
  }

  /** Appending a separator appends one empty piece. */
  lemma SplitTrailing(s: string, sep: char)
    ensures Split(s + [sep], sep) == Split(s, sep) + [""]
  {
    var pieces := Split(s, sep);
    JoinSplit(s, sep);
    JoinAppend(pieces, [""], sep);
    assert s + [sep] == Join(pieces + [""], sep);
    SplitJoin(pieces + [""], sep);
  }

  predicate NoNewline(s: string) {
    '\n' !in s
  }
}
