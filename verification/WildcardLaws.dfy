/**
 Laws of compiled patterns, on every pattern and input: for which separators the compiler is right, what a
 pattern without wildcards accepts, when a trailing separator makes no difference, and that replacing
 pieces by wildcards never loses a match.
 */
module WildcardLaws {
  import opened Strings
  import opened Regex
  import opened Wildcard

  /** The compiler takes the pattern and the matcher takes the input. */
  predicate Accepts(pattern: string, sep: char, input: string) {
    pattern != "" && Valid(Split(pattern, sep))
    && var r := Engine(Emitted(Split(pattern, sep), sep));
       r.Success? && r.value.Matches(input)
  }

  lemma AcceptsMeaning(pattern: string, sep: char, input: string)
    requires Safe(sep)
    ensures Accepts(pattern, sep, input)
        <==> pattern != "" && Valid(Split(pattern, sep)) && Meaning(pattern, sep, input)
  {
    EmittedParses(Split(pattern, sep), sep);
    IntendedMeaning(pattern, sep, input);
  }

  // ----- Exactly which separators work -----

  predicate FaithfulOn(pattern: string, sep: char, input: string) {
    pattern == "" || !Valid(Split(pattern, sep))
    || var r := Engine(Emitted(Split(pattern, sep), sep));
       r.Success? && (r.value.Matches(input) <==> Meaning(pattern, sep, input))
  }

  /** Every well-formed pattern compiles, and the matcher decides the comparison of pieces. */
  ghost predicate Faithful(sep: char) {
    forall pattern: string, input: string :: FaithfulOn(pattern, sep, input)
  }

  /** The compiler writes the separator unquoted.  That is right for every separator except the eleven
      characters excluded by `Safe`; `]`, `{` and `}` are metacharacters and yet work. */
  lemma SeparatorExact(sep: char)
    ensures Faithful(sep) <==> Safe(sep)
  {
    if Safe(sep) {
      forall pattern: string, input: string
        ensures FaithfulOn(pattern, sep, input)
      {
        EmittedParses(Split(pattern, sep), sep);
        IntendedMeaning(pattern, sep, input);
      }
    } else {
      var pattern, input := UnsafeSeparator(sep);
      assert !FaithfulOn(pattern, sep, input);
    }
  }

  /** A pattern and an input on which each excluded separator goes wrong. */
  lemma UnsafeSeparator(sep: char) returns (pattern: string, input: string)
    requires !Safe(sep)
    ensures !FaithfulOn(pattern, sep, input)
  {
    if sep in "([)" {
      pattern, input := "**", "";
      Unbalanced(sep);
    } else {
      pattern := "a";
      input := if sep == '.' then "ab" else if sep == '+' then "aa" else if sep == '\\' then "a?"
               else if sep in "^$" then ['a', sep] else "";
      SingleText(sep);
      if sep == '|' {
        DanglingRepetition();
      } else if sep in "+*?" {
        RepetitionSeparator(sep);
      } else if sep == '.' {
        DotSeparator();
      } else if sep == '\\' {
        BackslashSeparator();
      } else {
        AnchorSeparator(sep);
      }
      MeaningOfA(sep, input);
    }
  }

  /** The text emitted for the pattern `a`. */
  lemma SingleText(sep: char)
    requires sep != 'a'
    ensures Split("a", sep) == ["a"] && Valid(["a"]) && !HasDouble(["a"])
    ensures Emitted(["a"], sep) == "^" + ['a', sep] + "?$"
  {
    SplitWhole("a", sep);
    assert QuoteMeta("a"[1..]) == "";
    assert QuoteMeta("a") == "a";
    assert PlainText(["a"][1..], sep) == "";
    assert PlainText(["a"], sep) == "a" + [sep];
  }

  lemma MeaningOfA(sep: char, input: string)
    requires sep != 'a'
    ensures sep !in input ==> (Meaning("a", sep, input) <==> input == "a")
    ensures input == ['a', sep] ==> Meaning("a", sep, input)
  {
    SplitWhole("a", sep);
    if sep !in input {
      SplitWhole(input, sep);
    }
    if input == ['a', sep] {
      SplitTrailing("a", sep);
      assert input == "a" + [sep];
      assert Split(input, sep) == ["a", ""] && ["a", ""][..1] == ["a"];
    }
  }

  /** The leading `^` of any emitted text. */
  lemma ParseAnchored(body: string, re: Re)
    requires body != "" && !IsRepetition(body[0]) && ParseSequence(body) == Ok(re, "")
    ensures Engine("^" + body) == Success(Matcher(Cat(Begin, re)))
  {
    assert ("^" + body)[1..] == body;
    ParseItem("^" + body, Begin, body);
  }

  lemma SearchAnchored(re: Re, s: string)
    requires At(re, s, 0, |s|)
    ensures Search(Cat(Begin, re), s)
  {
    CatMatches(Begin, re, s, 0, 0, |s|);
  }

  function Repeated(mark: char): Re {
    if mark == '*' then Star(Chr('a')) else if mark == '+' then Plus(Chr('a')) else Opt(Chr('a'))
  }

  /** A repetition mark binds to the `a` before it: `aa` or the empty input gets in. */
  lemma RepetitionSeparator(sep: char)
    requires sep in "+*?"
    ensures var r := Engine("^" + ['a', sep] + "?$");
            r.Success? && r.value.Matches(if sep == '+' then "aa" else "")
  {
    var body, marks := ['a', sep] + "?$", [sep] + "?$";
    var re := Cat(Repeated(sep), Cat(End, Empty));
    assert body[1..] == marks && marks[2..] == "$";
    ParseEnd();
    assert ParseRepetition(Chr('a'), marks) == Ok(Repeated(sep), "$");
    assert ParseAtom(body) == Ok(Chr('a'), marks);
    assert ParseSequence(body) == Ok(re, "");
    ParseAnchored(body, re);
    assert "^" + ['a', sep] + "?$" == "^" + body;
    RepetitionMatches(sep);
  }

  lemma RepetitionMatches(mark: char)
    ensures var s := if mark == '+' then "aa" else "";
            mark in "+*?" ==> Search(Cat(Begin, Cat(Repeated(mark), Cat(End, Empty))), s)
  {
    var s := if mark == '+' then "aa" else "";
    var item, end := Repeated(mark), Cat(End, Empty);
    if mark in "+*?" {
      assert At(item, s, 0, |s|) by {
        if mark == '+' {
          assert At(Chr('a'), s, 0, 1) && At(Chr('a'), s, 1, 2) && Iterates(Chr('a'), s, 2, 2);
          assert Iterates(Chr('a'), s, 1, 2);
        }
      }
      AtEnd(s, |s|, |s|);
      CatMatches(item, end, s, 0, |s|, |s|);
      SearchAnchored(Cat(item, end), s);
    }
  }

  /** An operator that stands for an item of its own is what the question mark makes optional. */
  lemma OptionalItem(sep: char, item: Re)
    requires sep in ".^$" && item == (if sep == '.' then Dot else if sep == '^' then Begin else End)
    ensures Engine("^" + ['a', sep] + "?$")
         == Success(Matcher(Cat(Begin, Cat(Chr('a'), Cat(Opt(item), Cat(End, Empty))))))
  {
    var body, mark := ['a', sep] + "?$", [sep] + "?$";
    assert body[1..] == mark && mark[1..] == ['?'] + "$";
    ParseEnd();
    ParseRepeated(mark, item, '?', "$");
    ParseItem(body, Chr('a'), mark);
    ParseAnchored(body, Cat(Chr('a'), Cat(Opt(item), Cat(End, Empty))));
    assert "^" + ['a', sep] + "?$" == "^" + body;
  }

  /** A dot stands for any character: `ab` gets in. */
  lemma DotSeparator()
    ensures var r := Engine("^" + ['a', '.'] + "?$"); r.Success? && r.value.Matches("ab")
  {
    OptionalItem('.', Dot);
    PairMatches("ab", Opt(Dot));
  }

  /** An `a` and one more item, each matching one character of a two-character input. */
  lemma PairMatches(s: string, item: Re)
    requires |s| == 2 && s[0] == 'a' && At(item, s, 1, 2)
    ensures Search(Cat(Begin, Cat(Chr('a'), Cat(item, Cat(End, Empty)))), s)
  {
    var end := Cat(End, Empty);
    AtEnd(s, 2, 2);
    CatMatches(item, end, s, 1, 2, 2);
    CatMatches(Chr('a'), Cat(item, end), s, 0, 1, 2);
    SearchAnchored(Cat(Chr('a'), Cat(item, end)), s);
  }

  /** A backslash quotes the question mark: `a?` gets in. */
  lemma BackslashSeparator()
    ensures var r := Engine("^" + ['a', '\\'] + "?$"); r.Success? && r.value.Matches("a?")
  {
    var body, end := "a\\?$", Cat(End, Empty);
    var escaped := "\\?$";
    assert body[1..] == escaped && escaped[2..] == "$";
    ParseEnd();
    ParseItem(escaped, Chr('?'), "$");
    ParseItem(body, Chr('a'), escaped);
    ParseAnchored(body, Cat(Chr('a'), Cat(Chr('?'), end)));
    assert "^" + ['a', '\\'] + "?$" == "^" + body;
    PairMatches("a?", Chr('?'));
  }

  /** An anchor is not the character: `a` followed by the separator is refused. */
  lemma AnchorSeparator(sep: char)
    requires sep in "^$"
    ensures var r := Engine("^" + ['a', sep] + "?$"); r.Success? && !r.value.Matches(['a', sep])
  {
    var anchor := if sep == '^' then Begin else End;
    OptionalItem(sep, anchor);
    AnchorStuck(anchor, ['a', sep]);
  }

  lemma AnchorStuck(anchor: Re, s: string)
    requires |s| == 2 && anchor in {Begin, End}
    ensures !Search(Cat(Begin, Cat(Chr('a'), Cat(Opt(anchor), Cat(End, Empty)))), s)
  {
    var end := Cat(End, Empty);
    var middle := Cat(Opt(anchor), end);
    var re := Cat(Begin, Cat(Chr('a'), middle));
    if Search(re, s) {
      var i: nat, j: nat :| i <= j <= |s| && At(re, s, i, j);
      var k := CatSplits(Begin, Cat(Chr('a'), middle), s, i, j);
      var l := CatSplits(Chr('a'), middle, s, k, j);
      var m := CatSplits(Opt(anchor), end, s, l, j);
      AtEnd(s, m, j);
      assert false;
    }
  }

  /** `|` leaves the question mark with nothing to repeat. */
  lemma DanglingRepetition()
    ensures Engine("^" + ['a', '|'] + "?$") == Failure(RegexpCompile)
  {
    var text := "^a|?$";
    assert "^" + ['a', '|'] + "?$" == text;
    assert text[1..] == "a|?$" && "a|?$"[1..] == "|?$" && "|?$"[1..] == "?$";
    assert ParseSequence("|?$") == Ok(Empty, "|?$");
    ParseItem("a|?$", Chr('a'), "|?$");
    ParseItem(text, Begin, "a|?$");
    assert ParseAlternatives("?$") == Fail(Malformed);
  }

  /** `**` with an unbalanced bracket for a separator: the engine rejects the text. */
  lemma Unbalanced(sep: char)
    requires sep in "([)"
    ensures !FaithfulOn("**", sep, "")
  {
    SplitWhole("**", sep);
    var group := "(|" + [sep] + ".*)$";
    LoneText(sep);
    UnbalancedGroup(sep);
    ParseLone(group);
  }

  lemma LoneText(sep: char)
    ensures Emitted(["**"], sep) == "^?" + ("(|" + [sep] + ".*)$")
  {
    assert Plain(["**"]) == [];
    assert TailText(true, sep) == "?" + ("(|" + [sep] + ".*)$");
  }

  lemma ParseLone(group: string)
    requires group != "" && !IsRepetition(group[0])
    requires var p := ParseSequence(group); p == Fail(Malformed) || (p.Ok? && p.rest == ")$")
    ensures Engine("^?" + group) == Failure(RegexpCompile)
  {
    var text := "^?" + group;
    assert text[1..] == ['?'] + group;
    ParseRepeated(text, Begin, '?', group);
  }

  lemma UnbalancedGroup(sep: char)
    requires sep in "([)"
    ensures var p := ParseSequence("(|" + [sep] + ".*)$");
            if sep == ')' then p.Ok? && p.rest == ")$" else p == Fail(Malformed)
  {
    var group, inner, body := "(|" + [sep] + ".*)$", "|" + [sep] + ".*)$", [sep] + ".*)$";
    assert group[1..] == inner && inner[1..] == body && body[1..] == ".*)$";
    assert ParseSequence(inner) == Ok(Empty, inner);
    UnbalancedBody(sep);
    if sep == ')' {
      assert ParseAtom(group) == Ok(Alt(Empty, Empty), ".*)$");
      ParseItem(group, Alt(Empty, Empty), ".*)$");
      RunThenClose();
    } else {
      assert ParseAtom(group) == Fail(Malformed);
    }
  }

  /** A bracket and the rest of the group, read as an alternative. */
  lemma UnbalancedBody(sep: char)
    requires sep in "([)"
    ensures var body := [sep] + ".*)$";
            var p := ParseAlternatives(body);
            if sep == ')' then p == Ok(Empty, body) else if sep == '[' then p == Fail(Malformed)
            else p.Ok? && p.rest == ""
  {
    var body := [sep] + ".*)$";
    assert body[1..] == ".*)$";
    if sep == '[' {
      assert ']' !in body && ParseAtom(body) == Fail(Malformed);
    } else if sep == '(' {
      RunThenClose();
      assert ")$"[1..] == "$";
      ParseEnd();
      assert ParseAtom(body) == Ok(Cat(Star(Dot), Empty), "$");
      ParseItem(body, Cat(Star(Dot), Empty), "$");
    }
  }

  lemma RunThenClose()
    ensures ParseSequence(".*)$") == Ok(Cat(Star(Dot), Empty), ")$")
  {
    assert ".*)$"[1..] == ['*'] + ")$";
    ParseRepeated(".*)$", Dot, '*', ")$");
  }

  // ----- Patterns without wildcards -----

  /** Such a pattern accepts itself, itself with one more separator, and nothing else. */
  lemma LiteralLanguage(pattern: string, sep: char, input: string)
    requires Safe(sep) && pattern != "" && '*' !in pattern
    ensures Accepts(pattern, sep, input) <==> input == pattern || input == pattern + [sep]
  {
    var ps := Split(pattern, sep);
    StarFreePieces(pattern, sep);
    AcceptsMeaning(pattern, sep, input);
    assert Valid(ps) && !HasDouble(ps);
    LiteralPieces(ps, Split(input, sep), sep);
    SplitTrailing(pattern, sep);
    SplitInjective(input, pattern, sep);
    SplitInjective(input, pattern + [sep], sep);
  }

  lemma SplitInjective(s: string, t: string, sep: char)
    ensures s == t <==> Split(s, sep) == Split(t, sep)
  {
    JoinSplit(s, sep);
    JoinSplit(t, sep);
  }

  lemma LiteralPieces(ps: seq<string>, xs: seq<string>, sep: char)
    requires forall i :: 0 <= i < |ps| ==> '*' !in ps[i]
    ensures PiecesMatch(ps, false, xs, sep) <==> xs == ps || xs == ps + [""]
  {
    StarFreeAgrees(ps, xs);
    if xs != [] {
      StarFreeAgrees(ps, xs[..|xs| - 1]);
      assert xs[|xs| - 1] == "" ==> xs == xs[..|xs| - 1] + [""];
      assert xs == ps + [""] ==> xs[..|xs| - 1] == ps;
    }
  }

  lemma StarFreeAgrees(ps: seq<string>, xs: seq<string>)
    requires forall i :: 0 <= i < |ps| ==> '*' !in ps[i]
    ensures AgreesAll(ps, xs) <==> ps == xs
  {
    if AgreesAll(ps, xs) {
      assert forall i :: 0 <= i < |ps| ==> ps[i] == xs[i];
    }
  }

  lemma {:induction false} StarFreePieces(s: string, sep: char)
    requires '*' !in s
    ensures forall i :: 0 <= i < |Split(s, sep)| ==> '*' !in Split(s, sep)[i]
  {
    if s != "" {
      StarFreePieces(s[1..], sep);
    }
  }

  // ----- The optional trailing separator -----

  predicate EndsWith(s: string, sep: char) {
    s != "" && s[|s| - 1] == sep
  }

  ghost predicate TrailingOptional(pattern: string, sep: char) {
    forall input: string | !EndsWith(input, sep) ::
      Accepts(pattern, sep, input) <==> Accepts(pattern, sep, input + [sep])
  }

  /** The last plain piece is not empty, or the last two are (then no candidate outside the law matters). */
  predicate Settled(qs: seq<string>)
    requires qs != []
  {
    qs[|qs| - 1] != "" || (|qs| >= 3 && qs[|qs| - 2] == "")
  }

  /** What to look at in a pattern to know that a trailing separator makes no difference. */
  predicate TrailingSafe(ps: seq<string>, sep: char) {
    var qs := Plain(ps);
    if HasDouble(ps) then qs == [] || (sep != '\n' && (|qs| == 1 || Settled(qs)))
    else qs != [] && Settled(qs)
  }

  /** "path" and "path/" are equivalent candidates exactly for these patterns; a pattern that itself ends
      in the separator, such as `a/`, tells them apart. */
  lemma TrailingExact(pattern: string, sep: char)
    requires Safe(sep) && pattern != "" && Valid(Split(pattern, sep))
    ensures TrailingOptional(pattern, sep) <==> TrailingSafe(Split(pattern, sep), sep)
  {
    if TrailingSafe(Split(pattern, sep), sep) {
      forall input: string | !EndsWith(input, sep)
        ensures Accepts(pattern, sep, input) <==> Accepts(pattern, sep, input + [sep])
      {
        TrailingHolds(pattern, sep, input);
      }
    } else {
      TrailingFails(pattern, sep);
    }
  }

  lemma LastPiece(s: string, sep: char)
    ensures var xs := Split(s, sep); xs[|xs| - 1] == "" <==> s == "" || EndsWith(s, sep)
  {
    var xs := Split(s, sep);
    JoinSplit(s, sep);
    if |xs| > 1 {
      var init, last := xs[..|xs| - 1], xs[|xs| - 1];
      JoinAppend(init, [last], sep);
      assert xs == init + [last];
      assert s == Join(init, sep) + [sep] + last;
    }
  }

  /** An input that does not end in the separator cannot fill the last piece by growing one. */
  lemma CannotFill(qs: seq<string>, input: string, sep: char)
    requires qs != [] && Settled(qs) && !EndsWith(input, sep)
    ensures !AgreesAll(qs, Split(input, sep) + [""])
  {
    var xs := Split(input, sep);
    LastPiece(input, sep);
    if AgreesAll(qs, xs + [""]) {
      SplitWhole("", sep);
      assert false;
    }
  }

  lemma TrailingHolds(pattern: string, sep: char, input: string)
    requires Safe(sep) && pattern != "" && Valid(Split(pattern, sep))
    requires TrailingSafe(Split(pattern, sep), sep) && !EndsWith(input, sep)
    ensures Accepts(pattern, sep, input) <==> Accepts(pattern, sep, input + [sep])
  {
    var ps := Split(pattern, sep);
    var qs := Plain(ps);
    if qs == [] {
      AcceptsMeaning(pattern, sep, input);
      AcceptsMeaning(pattern, sep, input + [sep]);
    } else {
      MeaningPieces(pattern, sep, input);
      MeaningPieces(pattern, sep, input + [sep]);
      SplitTrailing(input, sep);
      if HasDouble(ps) {
        TrailingDouble(qs, input, sep);
      } else {
        TrailingPlain(qs, input, sep);
      }
    }
  }

  lemma TrailingPlain(qs: seq<string>, input: string, sep: char)
    requires qs != [] && Settled(qs) && !EndsWith(input, sep)
    ensures var xs := Split(input, sep); PiecesMatch(qs, false, xs, sep) <==> PiecesMatch(qs, false, xs + [""], sep)
  {
    var xs := Split(input, sep);
    CannotFill(qs, input, sep);
    LastPiece(input, sep);
    assert (xs + [""])[..|xs|] == xs;
    if xs[|xs| - 1] == "" {
      SplitWhole("", sep);
      assert !AgreesAll(qs, xs[..|xs| - 1]);
    }
  }

  lemma TrailingDouble(qs: seq<string>, input: string, sep: char)
    requires qs != [] && sep != '\n' && (|qs| == 1 || Settled(qs)) && !EndsWith(input, sep)
    ensures var xs := Split(input, sep); PiecesMatch(qs, true, xs, sep) <==> PiecesMatch(qs, true, xs + [""], sep)
  {
    var xs := Split(input, sep);
    var ys := xs + [""];
    if |qs| <= |xs| {
      assert ys[..|qs|] == xs[..|qs|] && ys[|qs|..] == xs[|qs|..] + [""];
      TailGrows(xs[|qs|..], sep);
    } else if |qs| == |ys| {
      CannotFill(qs, input, sep);
      assert ys[..|qs|] == ys;
    }
  }

  /** With a separator that is not the newline only the newlines of the text count. */
  lemma TailGrows(rest: seq<string>, sep: char)
    requires sep != '\n'
    ensures TailAllowed(rest, sep) <==> TailAllowed(rest + [""], sep)
  {
    TailNewlines(rest, sep);
    TailNewlines(rest + [""], sep);
    if rest != [] {
      JoinAppend(rest, [""], sep);
    }
  }

  lemma TailNewlines(rest: seq<string>, sep: char)
    requires sep != '\n'
    ensures TailAllowed(rest, sep) <==> rest == [] || NoNewline(Join(rest, sep))
  {
    if |rest| > 1 && rest[0] == "" {
      assert Join(rest, sep) == [sep] + Join(rest[1..], sep);
    }
  }

  function Filler(sep: char): string {
    if sep == 'x' then "y" else "x"
  }

  /** Candidate pieces that agree with the pattern pieces. */
  function Instance(qs: seq<string>, sep: char): (xs: seq<string>)
    ensures |xs| == |qs|
    ensures forall i :: 0 <= i < |qs| ==> Agrees(qs[i], xs[i])
    ensures SeparatorFree(qs, sep) ==> SeparatorFree(xs, sep)
  {
    seq(|qs|, i requires 0 <= i < |qs| => if qs[i] == "*" then Filler(sep) else qs[i])
  }

  lemma TrailingFails(pattern: string, sep: char)
    requires Safe(sep) && pattern != "" && Valid(Split(pattern, sep))
    requires !TrailingSafe(Split(pattern, sep), sep)
    ensures !TrailingOptional(pattern, sep)
  {
    var ps := Split(pattern, sep);
    var qs := Plain(ps);
    JoinSplit(pattern, sep);
    if HasDouble(ps) && sep == '\n' {
      NewlineFails(pattern);
    } else {
      OneShortFails(pattern, sep);
    }
  }

  lemma MeaningPieces(pattern: string, sep: char, input: string)
    requires Safe(sep) && pattern != "" && Valid(Split(pattern, sep)) && Plain(Split(pattern, sep)) != []
    ensures var ps := Split(pattern, sep);
            Accepts(pattern, sep, input) <==> PiecesMatch(Plain(ps), HasDouble(ps), Split(input, sep), sep)
  {
    AcceptsMeaning(pattern, sep, input);
  }

  lemma ExactPieces(qs: seq<string>, double: bool, xs: seq<string>, sep: char)
    ensures AgreesAll(qs, xs) ==> PiecesMatch(qs, double, xs, sep)
    ensures |xs| < |qs| ==> !PiecesMatch(qs, double, xs, sep)
  {
    if AgreesAll(qs, xs) {
      assert xs[..|qs|] == xs;
    }
  }

  /** A pattern ending in one separator: the candidate one piece short is refused, its extension is not. */
  lemma OneShortFails(pattern: string, sep: char)
    requires Safe(sep) && pattern != "" && Valid(Split(pattern, sep))
    requires var qs := Plain(Split(pattern, sep)); |qs| >= 2 && !Settled(qs)
    ensures !TrailingOptional(pattern, sep)
  {
    var ps := Split(pattern, sep);
    var qs := Plain(ps);
    JoinSplit(pattern, sep);
    var input := OneShort(qs, sep);
    SplitTrailing(input, sep);
    MeaningPieces(pattern, sep, input);
    MeaningPieces(pattern, sep, input + [sep]);
    ExactPieces(qs, HasDouble(ps), Split(input, sep), sep);
    ExactPieces(qs, HasDouble(ps), Split(input, sep) + [""], sep);
  }

  /** A candidate for all pieces but the last, which is empty. */
  lemma OneShort(qs: seq<string>, sep: char) returns (input: string)
    requires |qs| >= 2 && !Settled(qs) && SeparatorFree(qs, sep)
    ensures !EndsWith(input, sep)
    ensures |Split(input, sep)| < |qs| && AgreesAll(qs, Split(input, sep) + [""])
  {
    var xs := AllButLast(qs, sep);
    input := Join(xs, sep);
    SplitJoin(xs, sep);
    LastPiece(input, sep);
    NotEndedBySeparator(qs, xs, input, sep);
  }

  lemma AllButLast(qs: seq<string>, sep: char) returns (xs: seq<string>)
    requires |qs| >= 2 && !Settled(qs) && SeparatorFree(qs, sep)
    ensures |xs| == |qs| - 1 && SeparatorFree(xs, sep)
    ensures AgreesAll(qs, xs + [""]) && Agrees(qs[|qs| - 2], xs[|xs| - 1])
  {
    var n := |qs| - 1;
    assert SeparatorFree(qs[..n], sep);
    xs := Instance(qs[..n], sep);
    AgreesSnoc(qs, xs);
    assert Agrees(qs[..n][n - 1], xs[n - 1]);
  }

  lemma NotEndedBySeparator(qs: seq<string>, xs: seq<string>, input: string, sep: char)
    requires |qs| >= 2 && !Settled(qs) && |xs| == |qs| - 1 && input == Join(xs, sep)
    requires xs[|xs| - 1] == "" <==> input == "" || EndsWith(input, sep)
    requires Agrees(qs[|qs| - 2], xs[|xs| - 1])
    ensures !EndsWith(input, sep)
  {
  }

  lemma AgreesSnoc(qs: seq<string>, xs: seq<string>)
    requires |qs| >= 1 && qs[|qs| - 1] == "" && AgreesAll(qs[..|qs| - 1], xs)
    ensures AgreesAll(qs, xs + [""])
  {
    var n := |qs| - 1;
    forall i | 0 <= i < |qs|
      ensures Agrees(qs[i], (xs + [""])[i])
    {
      if i < n {
        assert Agrees(qs[..n][i], xs[i]);
      }
    }
  }

  /** The newline as separator: text after it is refused once another newline follows. */
  lemma NewlineFails(pattern: string)
    requires pattern != "" && Valid(Split(pattern, '\n'))
    requires HasDouble(Split(pattern, '\n')) && Plain(Split(pattern, '\n')) != []
    ensures !TrailingOptional(pattern, '\n')
  {
    var sep := '\n';
    var qs := Plain(Split(pattern, sep));
    JoinSplit(pattern, sep);
    var xs := Instance(qs, sep);
    var input := Join(xs + ["t"], sep);
    SplitJoin(xs + ["t"], sep);
    SplitTrailing(input, sep);
    MeaningPieces(pattern, sep, input);
    MeaningPieces(pattern, sep, input + [sep]);
    var ys := xs + ["t"];
    assert ys[..|qs|] == xs && ys[|qs|..] == ["t"];
    assert (ys + [""])[..|qs|] == xs && (ys + [""])[|qs|..] == ["t", ""];
    assert Join(["t", ""], sep) == "t" + [sep] + Join(["t", ""][1..], sep);
    assert !TailAllowed(["t", ""], sep);
    LastPiece(input, sep);
    assert !EndsWith(input, sep);
  }

  // ----- Generalising a pattern -----

  lemma NonemptyJoin(pieces: seq<string>, sep: char)
    requires |pieces| > 1 || (|pieces| == 1 && pieces[0] != "")
    ensures Join(pieces, sep) != ""
  {
  }

  lemma StarAgrees(qs: seq<string>, xs: seq<string>, i: nat)
    requires i < |qs| && qs[i] != "" && AgreesAll(qs, xs)
    ensures AgreesAll(qs[i := "*"], xs)
  {
  }

  lemma StarMatches(qs: seq<string>, double: bool, xs: seq<string>, sep: char, i: nat)
    requires i < |qs| && qs[i] != "" && PiecesMatch(qs, double, xs, sep)
    ensures PiecesMatch(qs[i := "*"], double, xs, sep)
  {
    if double {
      StarAgrees(qs, xs[..|qs|], i);
    } else if AgreesAll(qs, xs) {
      StarAgrees(qs, xs, i);
    } else {
      StarAgrees(qs, xs[..|xs| - 1], i);
    }
  }

  lemma ValidStar(ps: seq<string>, i: nat)
    requires Valid(ps) && i < |Plain(ps)|
    ensures Valid(ps[i := "*"])
    ensures Plain(ps[i := "*"]) == Plain(ps)[i := "*"] && HasDouble(ps[i := "*"]) == HasDouble(ps)
  {
    var ps' := ps[i := "*"];
    forall j | 0 <= j < |ps'|
      ensures !Offends(ps', j)
    {
      assert !Offends(ps, j);
    }
  }

  /** Replacing a nonempty plain piece by `*` never loses a match. */
  lemma StarGeneralises(pattern: string, sep: char, i: nat, input: string)
    requires Safe(sep) && Accepts(pattern, sep, input)
    requires i < |Plain(Split(pattern, sep))| && Split(pattern, sep)[i] != ""
    ensures Accepts(Join(Split(pattern, sep)[i := "*"], sep), sep, input)
  {
    var ps := Split(pattern, sep);
    var ps' := ps[i := "*"];
    JoinSplit(pattern, sep);
    SplitJoin(ps', sep);
    NonemptyJoin(ps', sep);
    ValidStar(ps, i);
    MeaningPieces(pattern, sep, input);
    StarMatches(Plain(ps), HasDouble(ps), Split(input, sep), sep, i);
    MeaningPieces(Join(ps', sep), sep, input);
  }

  lemma ValidDouble(ps: seq<string>, k: nat)
    requires Valid(ps) && 1 <= k < |ps|
    ensures Valid(ps[..k] + ["**"])
    ensures Plain(ps[..k] + ["**"]) == ps[..k] && HasDouble(ps[..k] + ["**"])
  {
    var ps' := ps[..k] + ["**"];
    forall j | 0 <= j < |ps'|
      ensures !Offends(ps', j)
    {
      assert j < k ==> !Offends(ps, j);
    }
  }

  lemma DoubleMatches(ps: seq<string>, xs: seq<string>, sep: char, k: nat)
    requires 1 <= k < |ps| && PiecesMatch(Plain(ps), HasDouble(ps), xs, sep)
    requires xs != [] && NoNewline(Join(xs, sep))
    ensures PiecesMatch(ps[..k], true, xs, sep)
  {
    PrefixAgrees(ps, xs, sep, k);
    TailWithoutNewline(xs, sep, k);
    assert |ps[..k]| == k;
  }

  lemma TailWithoutNewline(xs: seq<string>, sep: char, k: nat)
    requires 1 <= k <= |xs| && NoNewline(Join(xs, sep))
    ensures TailAllowed(xs[k..], sep)
  {
    if k < |xs| {
      JoinAppend(xs[..k], xs[k..], sep);
      assert xs == xs[..k] + xs[k..];
    }
  }

  /** Replacing a nonempty tail by `**` never loses a match without newlines. */
  lemma DoubleGeneralises(pattern: string, sep: char, k: nat, input: string)
    requires Safe(sep) && Accepts(pattern, sep, input) && NoNewline(input)
    requires 1 <= k < |Split(pattern, sep)|
    ensures Accepts(Join(Split(pattern, sep)[..k] + ["**"], sep), sep, input)
  {
    var ps := Split(pattern, sep);
    var ps' := ps[..k] + ["**"];
    JoinSplit(pattern, sep);
    JoinSplit(input, sep);
    SplitJoin(ps', sep);
    NonemptyJoin(ps', sep);
    ValidDouble(ps, k);
    MeaningPieces(pattern, sep, input);
    DoubleMatches(ps, Split(input, sep), sep, k);
    MeaningPieces(Join(ps', sep), sep, input);
  }

  lemma PrefixAgrees(ps: seq<string>, xs: seq<string>, sep: char, k: nat)
    requires 1 <= k < |ps| && PiecesMatch(Plain(ps), HasDouble(ps), xs, sep)
    ensures k <= |xs| && AgreesAll(ps[..k], xs[..k])
  {
    var qs := Plain(ps);
    assert forall j :: 0 <= j < k ==> qs[j] == ps[j];
  }
}
