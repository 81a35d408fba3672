/**
 The wildcard compiler: a pattern is cut at a separator, each piece is written out as regular-expression
 text, and the text is handed to the regular-expression engine.

 `Meaning` is the reading that does not mention regular expressions at all: compare the pieces of the
 candidate with the pieces of the pattern.  The theorems say that the emitted text parses to the intended
 tree, that the tree means `Meaning`, and for exactly which separators this is so.
 */
module Wildcard {
  import opened Strings
  import opened Regex

  const DEFAULT_SEPARATOR := '/'

  datatype Matcher = Matcher(re: Re) {
    predicate Matches(input: string) {
      Search(re, input)
    }
  }

  /** `OutsideFragment`: the emitted text uses syntax that the parser of this model does not cover. */
  datatype CompileError = EmptyPattern | InvalidWildcard | InvalidDoubleWildcard | RegexpCompile | OutsideFragment

  datatype Result<+T> = Success(value: T) | Failure(error: CompileError)

  // ----- Meaning of a pattern -----

  /** A pattern piece against a candidate piece. */
  predicate Agrees(p: string, x: string) {
    if p == "*" then x != "" else x == p
  }

  predicate AgreesAll(ps: seq<string>, xs: seq<string>) {
    |ps| == |xs| && forall i :: 0 <= i < |ps| ==> Agrees(ps[i], xs[i])
  }

  /** The pieces left over for a final `**`: free of newlines once joined.  The second way only adds
      something when the separator is itself the newline. */
  predicate TailAllowed(rest: seq<string>, sep: char) {
    rest == []
    || NoNewline(Join(rest, sep))
    || (|rest| > 1 && rest[0] == "" && NoNewline(Join(rest[1..], sep)))
  }

  predicate HasDouble(ps: seq<string>) {
    ps != [] && ps[|ps| - 1] == "**"
  }

  /** The pieces before a final `**`. */
  function Plain(ps: seq<string>): seq<string> {
    if HasDouble(ps) then ps[..|ps| - 1] else ps
  }

  predicate PiecesMatch(qs: seq<string>, double: bool, xs: seq<string>, sep: char) {
    if double then |qs| <= |xs| && AgreesAll(qs, xs[..|qs|]) && TailAllowed(xs[|qs|..], sep)
    else AgreesAll(qs, xs) || (xs != [] && xs[|xs| - 1] == "" && AgreesAll(qs, xs[..|xs| - 1]))
  }

  predicate Meaning(pattern: string, sep: char, input: string) {
    var ps := Split(pattern, sep);
    if ps == ["**"] then true
    else PiecesMatch(Plain(ps), HasDouble(ps), Split(input, sep), sep)
  }

  // ----- Which patterns are accepted -----

  /** The i-th piece makes the compiler give up. */
  predicate Offends(ps: seq<string>, i: nat)
    requires i < |ps|
  {
    '*' in ps[i] && ps[i] != "*" && !(ps[i] == "**" && i == |ps| - 1)
  }

  predicate Valid(ps: seq<string>) {
    ps != [] && forall i :: 0 <= i < |ps| ==> !Offends(ps, i)
  }

  function OffenceError(p: string): CompileError {
    if p == "**" then InvalidDoubleWildcard else InvalidWildcard
  }

  // ----- Emitted text and intended tree -----

  function RunText(sep: char): string {
    "[^" + [sep] + "]+"
  }

  function PieceText(p: string, sep: char): string {
    if p == "*" then RunText(sep) else QuoteMeta(p)
  }

  /** Every plain piece is followed by a separator. */
  function PlainText(qs: seq<string>, sep: char): string {
    if qs == [] then "" else PieceText(qs[0], sep) + [sep] + PlainText(qs[1..], sep)
  }

  function DoubleText(sep: char): string {
    "?(|" + [sep] + ".*)$"
  }

  function TailText(double: bool, sep: char): string {
    if double then DoubleText(sep) else "?$"
  }

  function Emitted(ps: seq<string>, sep: char): string {
    "^" + PlainText(Plain(ps), sep) + TailText(HasDouble(ps), sep)
  }

  function TailRe(double: bool, sep: char): Re {
    var end := Cat(End, Empty);
    if double then Cat(Alt(Empty, Cat(Chr(sep), Cat(Star(Dot), Empty))), end) else end
  }

  function PieceRe(p: string, sep: char, next: Re): Re {
    if p == "*" then Cat(Plus(NotChr(sep)), next) else Literal(p, next)
  }

  /** Only the last separator is optional. */
  function PlainRe(qs: seq<string>, double: bool, sep: char): Re
    requires qs != []
  {
    PieceRe(qs[0], sep,
            if |qs| == 1 then Cat(Opt(Chr(sep)), TailRe(double, sep))
            else Cat(Chr(sep), PlainRe(qs[1..], double, sep)))
  }

  /** With a lone `**` the question mark lands on `^`. */
  function IntendedRe(ps: seq<string>, sep: char): Re
    requires ps != []
  {
    var qs, double := Plain(ps), HasDouble(ps);
    if qs == [] then Cat(Opt(Begin), TailRe(double, sep)) else Cat(Begin, PlainRe(qs, double, sep))
  }

  // ----- The compiler -----

  /** The verdict of the engine on the text, once the pattern itself has been accepted. */
  function Engine(text: string): Result<Matcher> {
    match Parse(text)
    case Ok(re, _) => Success(Matcher(re))
    case Fail(Malformed) => Failure(RegexpCompile)
    case Fail(Unsupported) => Failure(OutsideFragment)
  }

  /** The first offence, in reading order, decides the error. */
  ghost predicate RejectedFor(ps: seq<string>, e: CompileError) {
    exists i :: 0 <= i < |ps| && Offends(ps, i) && e == OffenceError(ps[i])
                && forall j :: 0 <= j < i ==> !Offends(ps, j)
  }

  /** What compiling a pattern amounts to, for any separator. */
  ghost predicate CompilesTo(pattern: string, sep: char, r: Result<Matcher>) {
    if pattern == "" then r == Failure(EmptyPattern)
    else
      var ps := Split(pattern, sep);
      if Valid(ps) then r == Engine(Emitted(ps, sep))
      else r.Failure? && RejectedFor(ps, r.error)
  }

  /** Any result of compiling with a safe separator: which patterns succeed, and what they accept. */
  lemma CompiledMeaning(pattern: string, sep: char, r: Result<Matcher>)
    requires CompilesTo(pattern, sep, r)
    ensures Safe(sep) ==> (r.Success? <==> pattern != "" && Valid(Split(pattern, sep)))
    ensures Safe(sep) && r.Success? ==> forall input :: r.value.Matches(input) <==> Meaning(pattern, sep, input)
  {
    if Safe(sep) && pattern != "" && Valid(Split(pattern, sep)) {
      EmittedParses(Split(pattern, sep), sep);
      forall input
        ensures r.value.Matches(input) <==> Meaning(pattern, sep, input)
      {
        IntendedMeaning(pattern, sep, input);
      }
    }
  }

  /** The i-th piece is the first that offends. */
  predicate FirstOffence(ps: seq<string>, i: int) {
    0 <= i < |ps| && Offends(ps, i) && forall j :: 0 <= j < i ==> !Offends(ps, j)
  }

  /** Which error a pattern gets: a `**` that is not last has its own, as has the empty pattern. */
  lemma ErrorMeaning(pattern: string, sep: char, r: Result<Matcher>)
    requires CompilesTo(pattern, sep, r)
    ensures r == Failure(EmptyPattern) <==> pattern == ""
    ensures var ps := Split(pattern, sep);
            pattern != "" ==>
              && (r == Failure(InvalidDoubleWildcard) <==>
                    exists i :: FirstOffence(ps, i) && ps[i] == "**" && i < |ps| - 1)
              && (r == Failure(InvalidWildcard) <==>
                    exists i :: FirstOffence(ps, i) && '*' in ps[i] && ps[i] != "*" && ps[i] != "**")
  {
    if pattern != "" && !Valid(Split(pattern, sep)) {
      var ps := Split(pattern, sep);
      var i :| 0 <= i < |ps| && Offends(ps, i) && r.error == OffenceError(ps[i])
               && forall j :: 0 <= j < i ==> !Offends(ps, j);
      assert FirstOffence(ps, i);
      assert forall k :: FirstOffence(ps, k) ==> k == i;
    }
  }

  /** No offence among the first i pieces. */
  predicate CleanUpTo(ps: seq<string>, i: nat)
    requires i <= |ps|
  {
    i == 0 || (CleanUpTo(ps, i - 1) && !Offends(ps, i - 1))
  }

  lemma {:induction false} CleanIsValid(ps: seq<string>, i: nat)
    requires i <= |ps|
    ensures CleanUpTo(ps, i) <==> forall j :: 0 <= j < i ==> !Offends(ps, j)
  {
    if i > 0 {
      CleanIsValid(ps, i - 1);
    }
  }

  lemma Offence(ps: seq<string>, i: nat)
    requires i < |ps| && Offends(ps, i) && CleanUpTo(ps, i)
    ensures !Valid(ps) && RejectedFor(ps, OffenceError(ps[i]))
  {
    CleanIsValid(ps, i);
  }

  /** What one turn of the loop writes into the buffer. */
  function SegmentText(ps: seq<string>, i: nat, sep: char): string
    requires i < |ps|
  {
    if ps[i] == "**" then DoubleText(sep)
    else
      var text := PieceText(ps[i], sep) + [sep];
      if i == |ps| - 1 then text + "?$" else text
  }

  function BufferText(ps: seq<string>, i: nat, sep: char): string
    requires i <= |ps|
  {
    if i == 0 then "^" else BufferText(ps, i - 1, sep) + SegmentText(ps, i - 1, sep)
  }

  method WriteSegment(segments: seq<string>, i: nat, separator: char) returns (r: Result<string>)
    requires i < |segments|
    ensures r == if Offends(segments, i) then Failure(OffenceError(segments[i]))
                 else Success(SegmentText(segments, i, separator))
  {
    var segment := segments[i];
    var text := "";
    if segment == "*" {
      text := RunText(separator);
    } else if segment == "**" {
      if i != |segments| - 1 {
        return Failure(InvalidDoubleWildcard);
      }
      return Success(DoubleText(separator));
    } else {
      if '*' in segment {
        return Failure(InvalidWildcard);
      }
      text := QuoteMeta(segment);
    }
    text := text + [separator];
    if i == |segments| - 1 {
      text := text + "?$";
    }
    return Success(text);
  }

  /** The loop that fills the buffer; a `**` that is not refused is the last segment. */
  method EmitSegments(segments: seq<string>, separator: char) returns (r: Result<string>)
    requires segments != []
    ensures Valid(segments) ==> r == Success(BufferText(segments, |segments|, separator))
    ensures !Valid(segments) ==> r.Failure? && RejectedFor(segments, r.error)
  {
    var regex := "^";
    for i := 0 to |segments|
      invariant CleanUpTo(segments, i)
      invariant regex == BufferText(segments, i, separator)
    {
      var text := WriteSegment(segments, i, separator);
      if text.Failure? {
        Offence(segments, i);
        return Failure(text.error);
      }
      regex := regex + text.value;
    }
    CleanIsValid(segments, |segments|);
    return Success(regex);
  }

  /** The buffer holds nothing but the text of the first i pieces, taken as plain ones. */
  predicate HoldsPlain(ps: seq<string>, i: nat, sep: char)
    requires i <= |ps|
  {
    BufferText(ps, i, sep) == "^" + PlainText(ps[..i], sep)
  }

  /** So it is before the last segment. */
  lemma {:induction false} BufferPlain(ps: seq<string>, i: nat, sep: char)
    requires i < |ps| && forall j :: 0 <= j < |ps| ==> !Offends(ps, j)
    ensures HoldsPlain(ps, i, sep)
  {
    if i == 0 {
      BufferStart(ps, sep);
    } else {
      BufferPlain(ps, i - 1, sep);
      BufferStep(ps, i, sep);
    }
  }

  lemma BufferStart(ps: seq<string>, sep: char)
    ensures HoldsPlain(ps, 0, sep)
  {
    assert ps[..0] == [] && PlainText([], sep) == "";
  }

  lemma BufferStep(ps: seq<string>, i: nat, sep: char)
    requires 0 < i < |ps| && !Offends(ps, i - 1) && HoldsPlain(ps, i - 1, sep)
    ensures HoldsPlain(ps, i, sep)
  {
    PlainSegment(ps, i - 1, sep);
    BufferSnoc(ps, i - 1, sep);
    Glued(BufferText(ps, i, sep), BufferText(ps, i - 1, sep), "^" + PlainText(ps[..i - 1], sep),
          "^" + PlainText(ps[..i], sep), PieceText(ps[i - 1], sep) + [sep]);
  }

  lemma Glued(after: string, before: string, text: string, longer: string, piece: string)
    requires after == before + piece && before == text && text + piece == longer
    ensures after == longer
  {
  }

  lemma PlainSegment(ps: seq<string>, i: nat, sep: char)
    requires i + 1 < |ps| && !Offends(ps, i)
    ensures BufferText(ps, i + 1, sep) == BufferText(ps, i, sep) + (PieceText(ps[i], sep) + [sep])
  {
    assert ps[i] != "**";
    assert SegmentText(ps, i, sep) == PieceText(ps[i], sep) + [sep];
  }

  lemma BufferSnoc(ps: seq<string>, i: nat, sep: char)
    requires i < |ps|
    ensures "^" + PlainText(ps[..i], sep) + (PieceText(ps[i], sep) + [sep]) == "^" + PlainText(ps[..i + 1], sep)
  {
    var text, piece := PlainText(ps[..i], sep), PieceText(ps[i], sep) + [sep];
    assert PlainText(ps[..i + 1], sep) == text + piece by {
      assert ps[..i + 1] == ps[..i] + [ps[i]];
      PlainTextSnoc(ps[..i], ps[i], sep);
    }
    Associative("^", text, piece);
  }

  lemma BufferComplete(ps: seq<string>, sep: char)
    requires ps != [] && forall j :: 0 <= j < |ps| ==> !Offends(ps, j)
    ensures BufferText(ps, |ps|, sep) == Emitted(ps, sep)
  {
    var n := |ps| - 1;
    BufferPlain(ps, n, sep);
    BufferLast(ps, sep);
  }

  lemma BufferLast(ps: seq<string>, sep: char)
    requires ps != []
    ensures var n := |ps| - 1; "^" + PlainText(ps[..n], sep) + SegmentText(ps, n, sep) == Emitted(ps, sep)
  {
    var n := |ps| - 1;
    var before, piece := "^" + PlainText(ps[..n], sep), PieceText(ps[n], sep) + [sep];
    if ps[n] == "**" {
      assert Emitted(ps, sep) == before + DoubleText(sep);
    } else {
      BufferSnoc(ps, n, sep);
      assert ps[..n + 1] == ps;
      Associative(before, piece, "?$");
      assert Emitted(ps, sep) == before + piece + "?$";
    }
  }

  method CompileWithSeparator(pattern: string, separator: char) returns (r: Result<Matcher>)
    ensures CompilesTo(pattern, separator, r)
    ensures Safe(separator) ==> (r.Success? <==> pattern != "" && Valid(Split(pattern, separator)))
    ensures Safe(separator) && r.Success?
        ==> forall input :: r.value.Matches(input) <==> Meaning(pattern, separator, input)
    ensures r == Failure(EmptyPattern) <==> pattern == ""
    ensures var ps := Split(pattern, separator);
            pattern != "" ==>
              && (r == Failure(InvalidDoubleWildcard) <==>
                    exists i :: FirstOffence(ps, i) && ps[i] == "**" && i < |ps| - 1)
              && (r == Failure(InvalidWildcard) <==>
                    exists i :: FirstOffence(ps, i) && '*' in ps[i] && ps[i] != "*" && ps[i] != "**")
  {
    if pattern == "" {
      r := Failure(EmptyPattern);
      ErrorMeaning(pattern, separator, r);
      return;
    }
    var segments := Split(pattern, separator);
    var text := EmitSegments(segments, separator);
    if Valid(segments) {
      BufferComplete(segments, separator);
    }
    r := if text.Success? then Engine(text.value) else Failure(text.error);
    CompiledMeaning(pattern, separator, r);
    ErrorMeaning(pattern, separator, r);
  }

  /** The patterns that compile with the default separator. */
  predicate Compilable(pattern: string) {
    pattern != "" && Valid(Split(pattern, DEFAULT_SEPARATOR))
  }

  ghost predicate Rejection(pattern: string, e: CompileError) {
    if pattern == "" then e == EmptyPattern else RejectedFor(Split(pattern, DEFAULT_SEPARATOR), e)
  }

  ghost predicate Decides(m: Matcher, pattern: string) {
    forall input :: m.Matches(input) <==> Meaning(pattern, DEFAULT_SEPARATOR, input)
  }

  method Compile(pattern: string) returns (r: Result<Matcher>)
    ensures r.Success? <==> Compilable(pattern)
    ensures r.Success? ==> Decides(r.value, pattern)
    ensures r.Success? ==> forall input :: r.value.Matches(input) <==> Meaning(pattern, '/', input)
    ensures r.Failure? ==> Rejection(pattern, r.error)
  {
    r := CompileWithSeparator(pattern, DEFAULT_SEPARATOR);
  }

  /** All patterns or none: the error is that of the first pattern rejected. */
  method CompileList(patterns: seq<string>) returns (r: Result<seq<Matcher>>)
    ensures r.Success? <==> forall i :: 0 <= i < |patterns| ==> Compilable(patterns[i])
    ensures r.Success?
        ==> |r.value| == |patterns| && forall i :: 0 <= i < |patterns| ==> Decides(r.value[i], patterns[i])
    ensures r.Failure?
        ==> exists i :: 0 <= i < |patterns| && Rejection(patterns[i], r.error)
                        && forall j :: 0 <= j < i ==> Compilable(patterns[j])
  {
    var ms: seq<Matcher> := [];
    for i := 0 to |patterns|
      invariant |ms| == i
      invariant forall j :: 0 <= j < i ==> Compilable(patterns[j])
      invariant forall j :: 0 <= j < i ==> Decides(ms[j], patterns[j])
    {
      var m := Compile(patterns[i]);
      if m.Failure? {
        return Failure(m.error);
      }
      ms := ms + [m.value];
    }
    return Success(ms);
  }

  lemma {:induction false} PlainTextSnoc(qs: seq<string>, q: string, sep: char)
    ensures PlainText(qs + [q], sep) == PlainText(qs, sep) + (PieceText(q, sep) + [sep])
  {
    if qs == [] {
      assert [q][1..] == [];
    } else {
      assert (qs + [q])[1..] == qs[1..] + [q];
      PlainTextSnoc(qs[1..], q, sep);
      Associative(PieceText(qs[0], sep) + [sep], PlainText(qs[1..], sep), PieceText(q, sep) + [sep]);
    }
  }

  lemma Associative(a: string, b: string, c: string)
    ensures a + b + c == a + (b + c)
  {
  }

  // ----- The text reads back as the intended tree -----

  /** The separator is written unquoted; these are the characters that survive that. */
  predicate Safe(sep: char) {
    sep !in "\\.+*?()|[^$"
  }

  lemma PlainTextHead(qs: seq<string>, sep: char, tail: string)
    requires qs != []
    ensures PlainText(qs, sep) + tail == PieceText(qs[0], sep) + ([sep] + (PlainText(qs[1..], sep) + tail))
  {
    var piece, later := PieceText(qs[0], sep), PlainText(qs[1..], sep);
    Associative(piece + [sep], later, tail);
    Associative(piece, [sep], later + tail);
  }

  lemma NoBoundsChar(c: char, later: string)
    requires !LooksLikeBounds(later)
    ensures !LooksLikeBounds(QuoteChar(c) + later)
  {
    var text := QuoteChar(c) + later;
    if c in METACHARACTERS {
      assert text[0] == '\\';
    } else {
      assert text[0] == c && text[1..] == later;
    }
  }

  /** What follows a separator in the emitted text never turns an opening brace into a bound. */
  lemma {:induction false} NoBounds(p: string, rest: string)
    requires !LooksLikeBounds(rest)
    ensures !LooksLikeBounds(QuoteMeta(p) + rest)
  {
    if p == "" {
      assert QuoteMeta(p) + rest == rest;
    } else {
      NoBounds(p[1..], rest);
      NoBoundsChar(p[0], QuoteMeta(p[1..]) + rest);
      assert QuoteMeta(p) + rest == QuoteChar(p[0]) + (QuoteMeta(p[1..]) + rest);
    }
  }

  lemma NoBoundsAfterSeparator(qs: seq<string>, double: bool)
    ensures !LooksLikeBounds(PlainText(qs, '{') + TailText(double, '{'))
  {
    var text := PlainText(qs, '{') + TailText(double, '{');
    if qs == [] {
      assert text[0] == '?';
    } else {
      var rest := ['{'] + (PlainText(qs[1..], '{') + TailText(double, '{'));
      PlainTextHead(qs, '{', TailText(double, '{'));
      if qs[0] == "*" {
        assert text[0] == '[';
      } else {
        assert rest[0] == '{';
        NoBounds(qs[0], rest);
      }
    }
  }

  lemma TailShape(double: bool, sep: char)
    ensures var tail := TailText(double, sep);
            |tail| > 1 && tail == ['?'] + tail[1..] && (tail[1] == '(' || tail[1] == '$')
  {
    assert TailText(double, sep)[0] == '?';
  }

  lemma ParseEnd()
    ensures ParseSequence("$") == Ok(Cat(End, Empty), "")
  {
    assert ParseSequence("") == Ok(Empty, "");
    assert "$"[1..] == "";
  }

  lemma ParseTail(double: bool, sep: char)
    requires Safe(sep)
    ensures ParseSequence(TailText(double, sep)[1..]) == Ok(TailRe(double, sep), "")
  {
    ParseEnd();
    if double {
      var text := TailText(true, sep)[1..];
      assert text == "(|" + ([sep] + ".*)$");
      ParseDoubleAtom(sep);
      assert ParseSequence(text) == Ok(TailRe(true, sep), "");
    }
  }

  /** The group that a final `**` becomes. */
  lemma ParseDoubleAtom(sep: char)
    requires Safe(sep)
    ensures ParseAtom("(|" + ([sep] + ".*)$")) == Ok(Alt(Empty, Cat(Chr(sep), Cat(Star(Dot), Empty))), "$")
  {
    var group := [sep] + ".*)$";
    var text := "(|" + group;
    assert text[1..] == "|" + group && text[1..][1..] == group;
    ParseGroup(sep);
    assert ParseSequence(text[1..]) == Ok(Empty, text[1..]);
    assert ParseAlternatives(text[1..]) == Ok(Alt(Empty, Cat(Chr(sep), Cat(Star(Dot), Empty))), ")$");
    assert ")$"[1..] == "$";
  }

  lemma ParseGroup(sep: char)
    requires Safe(sep)
    ensures ParseAlternatives([sep] + ".*)$") == Ok(Cat(Chr(sep), Cat(Star(Dot), Empty)), ")$")
  {
    var text := [sep] + ".*)$";
    assert text[1..] == ".*)$" && ".*)$"[1..] == "*)$" && "*)$"[1..] == ")$";
    assert ParseSequence(")$") == Ok(Empty, ")$");
    assert ParseRepetition(Dot, "*)$") == Ok(Star(Dot), ")$");
    assert ParseSequence(".*)$") == Ok(Cat(Star(Dot), Empty), ")$");
    assert ParseAtom(text) == Ok(Chr(sep), ".*)$");
  }

  lemma SeparatorAtom(sep: char, rest: string)
    requires Safe(sep) && (sep == '{' ==> !LooksLikeBounds(rest))
    ensures ParseAtom([sep] + rest) == Ok(Chr(sep), rest)
  {
    assert ([sep] + rest)[1..] == rest;
  }

  /** The last separator: the question mark of the tail makes it optional. */
  lemma ParseLastSeparator(sep: char, double: bool)
    requires Safe(sep)
    ensures ParseSequence([sep] + TailText(double, sep)) == Ok(Cat(Opt(Chr(sep)), TailRe(double, sep)), "")
  {
    var tail := TailText(double, sep);
    TailShape(double, sep);
    SeparatorAtom(sep, tail);
    ParseTail(double, sep);
    ParseRepeated([sep] + tail, Chr(sep), '?', tail[1..]);
  }

  /** A separator between two pieces. */
  lemma ParseInnerSeparator(sep: char, qs: seq<string>, double: bool)
    requires Safe(sep) && qs != []
    ensures var rest := PlainText(qs, sep) + TailText(double, sep);
            ParseSequence([sep] + rest) == Prepend(Chr(sep), ParseSequence(rest))
  {
    var rest := PlainText(qs, sep) + TailText(double, sep);
    if sep == '{' {
      NoBoundsAfterSeparator(qs, double);
    }
    SeparatorAtom(sep, rest);
    StartsPlain(qs, sep, TailText(double, sep));
    ParseItem([sep] + rest, Chr(sep), rest);
  }

  /** The text of a plain piece does not begin with a repetition mark. */
  lemma StartsPlain(qs: seq<string>, sep: char, tail: string)
    requires Safe(sep) && qs != []
    ensures var rest := PlainText(qs, sep) + tail; rest != "" && !IsRepetition(rest[0])
  {
    var rest := PlainText(qs, sep) + tail;
    if qs[0] == "*" {
      assert rest[0] == '[';
    } else if qs[0] == "" {
      assert rest[0] == sep;
    } else {
      assert rest[0] == QuoteChar(qs[0][0])[0];
    }
  }

  lemma {:induction false} ParsePlain(qs: seq<string>, double: bool, sep: char)
    requires Safe(sep) && qs != []
    ensures ParseSequence(PlainText(qs, sep) + TailText(double, sep)) == Ok(PlainRe(qs, double, sep), "")
  {
    var rest := [sep] + (PlainText(qs[1..], sep) + TailText(double, sep));
    PlainTextHead(qs, sep, TailText(double, sep));
    if |qs| > 1 {
      ParsePlain(qs[1..], double, sep);
      ParseInnerSeparator(sep, qs[1..], double);
    } else {
      assert PlainText(qs[1..], sep) + TailText(double, sep) == TailText(double, sep);
      ParseLastSeparator(sep, double);
    }
    if qs[0] == "*" {
      ParseRun(sep, rest);
    } else {
      ParseQuoted(qs[0], rest);
    }
  }

  lemma ParseRun(sep: char, rest: string)
    requires Safe(sep) && rest != "" && rest[0] == sep
    ensures ParseSequence("[^" + [sep] + "]+" + rest) == Prepend(Plus(NotChr(sep)), ParseSequence(rest))
  {
    var text := "[^" + [sep] + "]+" + rest;
    assert text[0] == '[' && text[1] == '^' && text[2] == sep && text[3] == ']' && text[4..] == "+" + rest;
    assert ParseAtom(text) == Ok(NotChr(sep), ['+'] + rest);
    ParseRepeated(text, NotChr(sep), '+', rest);
  }

  /** With nothing before it, the tail's question mark is applied to `^`. */
  lemma ParseLoneTail(double: bool, sep: char)
    requires Safe(sep)
    ensures ParseSequence("^" + TailText(double, sep)) == Ok(Cat(Opt(Begin), TailRe(double, sep)), "")
  {
    var tail := TailText(double, sep);
    var text := "^" + tail;
    TailShape(double, sep);
    assert text[1..] == tail;
    ParseTail(double, sep);
    ParseRepeated(text, Begin, '?', tail[1..]);
  }

  lemma ParseAfterBegin(qs: seq<string>, double: bool, sep: char)
    requires Safe(sep) && qs != []
    ensures ParseSequence("^" + (PlainText(qs, sep) + TailText(double, sep)))
         == Ok(Cat(Begin, PlainRe(qs, double, sep)), "")
  {
    var rest := PlainText(qs, sep) + TailText(double, sep);
    assert ("^" + rest)[1..] == rest;
    StartsPlain(qs, sep, TailText(double, sep));
    ParsePlain(qs, double, sep);
    ParseItem("^" + rest, Begin, rest);
  }

  /** Every accepted pattern, whatever metacharacters it holds, is emitted as text that the engine accepts
      and reads as the intended tree: the internal-bug error cannot occur. */
  lemma EmittedParses(ps: seq<string>, sep: char)
    requires Safe(sep) && ps != []
    ensures Engine(Emitted(ps, sep)) == Success(Matcher(IntendedRe(ps, sep)))
  {
    var qs, double := Plain(ps), HasDouble(ps);
    Associative("^", PlainText(qs, sep), TailText(double, sep));
    if qs == [] {
      assert PlainText(qs, sep) + TailText(double, sep) == TailText(double, sep);
      ParseLoneTail(double, sep);
    } else {
      ParseAfterBegin(qs, double, sep);
    }
  }

  // ----- The intended tree means the comparison of pieces -----

  lemma TailAnchored(double: bool, sep: char)
    ensures Anchored(TailRe(double, sep))
  {
  }

  lemma {:induction false} LiteralAnchored(lit: string, next: Re)
    requires Anchored(next)
    ensures Anchored(Literal(lit, next))
  {
    if lit != "" {
      LiteralAnchored(lit[1..], next);
    }
  }

  lemma {:induction false} PlainAnchored(qs: seq<string>, double: bool, sep: char)
    requires qs != []
    ensures Anchored(PlainRe(qs, double, sep))
  {
    TailAnchored(double, sep);
    var next := if |qs| == 1 then Cat(Opt(Chr(sep)), TailRe(double, sep))
                else Cat(Chr(sep), PlainRe(qs[1..], double, sep));
    if |qs| > 1 {
      PlainAnchored(qs[1..], double, sep);
    }
    LiteralAnchored(qs[0], next);
  }

  /** What may follow the last plain piece. */
  predicate EndingAllowed(u: string, double: bool, sep: char) {
    u == "" || u == [sep]
    || (double && u[0] == sep
        && (NoNewline(u[1..]) || (|u| > 1 && u[1] == sep && NoNewline(u[2..]))))
  }

  lemma AtEnd(s: string, i: nat, j: nat)
    requires i <= j <= |s|
    ensures At(Cat(End, Empty), s, i, j) <==> i == |s| && j == |s|
  {
    if i == |s| {
      assert At(End, s, i, i) && At(Empty, s, i, i);
    }
  }

  lemma AtSeparator(sep: char, rest: Re, s: string, k: nat)
    requires k < |s|
    ensures At(Cat(Chr(sep), rest), s, k, |s|) <==> s[k] == sep && At(rest, s, k + 1, |s|)
  {
    if s[k] == sep && At(rest, s, k + 1, |s|) {
      CatMatches(Chr(sep), rest, s, k, k + 1, |s|);
    }
    if At(Cat(Chr(sep), rest), s, k, |s|) {
      var m := CatSplits(Chr(sep), rest, s, k, |s|);
    }
  }

  /** The optional group of a final `**`, in front of the end. */
  lemma AtGroup(sep: char, s: string, i: nat)
    requires i < |s|
    ensures At(Cat(Chr(sep), Cat(Star(Dot), Empty)), s, i, |s|) <==> s[i] == sep && NoNewline(s[i + 1..])
  {
    var run := Cat(Star(Dot), Empty);
    IteratesDot(s, i + 1, |s|);
    assert s[i + 1..|s|] == s[i + 1..];
    assert At(run, s, i + 1, |s|) <==> NoNewline(s[i + 1..]) by {
      if NoNewline(s[i + 1..]) {
        CatMatches(Star(Dot), Empty, s, i + 1, |s|, |s|);
      }
      if At(run, s, i + 1, |s|) {
        var k := CatSplits(Star(Dot), Empty, s, i + 1, |s|);
      }
    }
    AtSeparator(sep, run, s, i);
  }

  lemma AtTail(double: bool, sep: char, s: string, i: nat)
    requires i <= |s|
    ensures At(TailRe(double, sep), s, i, |s|)
        <==> i == |s| || (double && s[i] == sep && NoNewline(s[i + 1..]))
  {
    var end := Cat(End, Empty);
    AtEnd(s, i, |s|);
    AtEnd(s, |s|, |s|);
    if double {
      var text := Cat(Chr(sep), Cat(Star(Dot), Empty));
      var group := Alt(Empty, text);
      if i < |s| {
        AtGroup(sep, s, i);
      }
      if At(group, s, i, |s|) {
        CatMatches(group, end, s, i, |s|, |s|);
      }
      if At(Cat(group, end), s, i, |s|) {
        var k := CatSplits(group, end, s, i, |s|);
        AtEnd(s, k, |s|);
      }
    }
  }

  /** An optional separator is taken or not. */
  lemma AtOptional(sep: char, rest: Re, s: string, i: nat)
    requires i <= |s|
    ensures At(Cat(Opt(Chr(sep)), rest), s, i, |s|)
        <==> At(rest, s, i, |s|) || (i < |s| && s[i] == sep && At(rest, s, i + 1, |s|))
  {
    var optional := Opt(Chr(sep));
    if At(Cat(optional, rest), s, i, |s|) {
      var k := CatSplits(optional, rest, s, i, |s|);
      assert k == i || k == i + 1;
    }
    if At(rest, s, i, |s|) {
      CatMatches(optional, rest, s, i, i, |s|);
    } else if i < |s| && s[i] == sep && At(rest, s, i + 1, |s|) {
      CatMatches(optional, rest, s, i, i + 1, |s|);
    }
  }

  lemma AtEnding(double: bool, sep: char, s: string, i: nat)
    requires i <= |s|
    ensures At(Cat(Opt(Chr(sep)), TailRe(double, sep)), s, i, |s|) <==> EndingAllowed(s[i..], double, sep)
  {
    AtOptional(sep, TailRe(double, sep), s, i);
    AtTail(double, sep, s, i);
    var u := s[i..];
    if i < |s| {
      AtTail(double, sep, s, i + 1);
      assert u[0] == s[i] && u[1..] == s[i + 1..];
    }
    if i + 1 < |s| {
      assert u[1] == s[i + 1] && u[2..] == s[i + 2..];
    }
  }

  /** A single plain piece and its ending, read off the pieces of the candidate. */
  lemma EndingPieces(y: string, u: string, double: bool, sep: char)
    requires sep !in y && EndingAllowed(u, double, sep)
    ensures var xs := Split(y + u, sep);
            xs[0] == y && (if double then TailAllowed(xs[1..], sep) else xs == [y] || xs == [y, ""])
  {
    if u == "" {
      SplitWhole(y, sep);
      assert y + u == y;
    } else {
      assert y + u == y + [sep] + u[1..];
      SplitCons(y, u[1..], sep);
      var xs := Split(y + u, sep);
      assert xs[1..] == Split(u[1..], sep);
      JoinSplit(u[1..], sep);
      if double && !NoNewline(u[1..]) && u != [sep] {
        assert u[1..] == "" + [sep] + u[2..];
        SplitCons("", u[2..], sep);
        assert xs[1..][1..] == Split(u[2..], sep);
        JoinSplit(u[2..], sep);
      }
    }
  }

  /** And conversely. */
  lemma PiecesEnding(x: string, double: bool, sep: char)
    requires var xs := Split(x, sep);
             if double then TailAllowed(xs[1..], sep) else |xs| == 1 || (|xs| == 2 && xs[1] == "")
    ensures var y := Split(x, sep)[0];
            sep !in y && |y| <= |x| && x[..|y|] == y && EndingAllowed(x[|y|..], double, sep)
  {
    var xs := Split(x, sep);
    var y := xs[0];
    JoinSplit(x, sep);
    if |xs| == 1 {
      assert x == y;
    } else {
      SplitHead(x, sep);
      var u := x[|y|..];
      assert u == [sep] + Join(xs[1..], sep);
      assert u[1..] == Join(xs[1..], sep);
      if double && !NoNewline(u[1..]) {
        assert u[1..] == [sep] + Join(xs[1..][1..], sep);
        assert u[2..] == u[1..][1..] == Join(xs[1..][1..], sep);
      }
    }
  }

  /** A piece of the pattern in front of `next`: some separator-free stretch agrees with it. */
  lemma PieceSplits(p: string, sep: char, next: Re, s: string, i: nat) returns (k: nat)
    requires i <= |s| && sep !in p && At(PieceRe(p, sep, next), s, i, |s|)
    ensures i <= k <= |s| && Agrees(p, s[i..k]) && sep !in s[i..k] && At(next, s, k, |s|)
  {
    if p == "*" {
      AtRun(sep, next, s, i, |s|);
      k :| i < k <= |s| && sep !in s[i..k] && At(next, s, k, |s|);
    } else {
      AtLiteral(p, next, s, i, |s|);
      k := i + |p|;
    }
  }

  lemma PieceMatches(p: string, sep: char, next: Re, s: string, i: nat, k: nat)
    requires i <= k <= |s| && Agrees(p, s[i..k]) && sep !in s[i..k] && At(next, s, k, |s|)
    ensures At(PieceRe(p, sep, next), s, i, |s|)
  {
    if p == "*" {
      AtRun(sep, next, s, i, |s|);
    } else {
      AtLiteral(p, next, s, i, |s|);
    }
  }

  /** The comparison, one piece at a time. */
  lemma PiecesMatchStep(qs: seq<string>, double: bool, xs: seq<string>, sep: char)
    requires |qs| >= 2 && xs != []
    ensures PiecesMatch(qs, double, xs, sep)
        <==> |xs| > 1 && Agrees(qs[0], xs[0]) && PiecesMatch(qs[1..], double, xs[1..], sep)
  {
    if |xs| > 1 {
      AgreesAllStep(qs, xs);
      AgreesAllStep(qs, xs[..|xs| - 1]);
      assert xs[..|xs| - 1][1..] == xs[1..][..|xs[1..]| - 1];
      if |qs| <= |xs| {
        AgreesAllStep(qs, xs[..|qs|]);
        assert xs[..|qs|][1..] == xs[1..][..|qs[1..]|];
        assert xs[|qs|..] == xs[1..][|qs[1..]|..];
      }
    }
  }

  lemma AgreesAllStep(qs: seq<string>, xs: seq<string>)
    requires qs != [] && xs != []
    ensures AgreesAll(qs, xs) <==> Agrees(qs[0], xs[0]) && AgreesAll(qs[1..], xs[1..])
  {
    if Agrees(qs[0], xs[0]) && AgreesAll(qs[1..], xs[1..]) {
      forall i | 0 <= i < |qs|
        ensures Agrees(qs[i], xs[i])
      {
        if i > 0 {
          assert Agrees(qs[1..][i - 1], xs[1..][i - 1]);
        }
      }
    }
  }

  lemma PiecesMatchOne(q: string, double: bool, xs: seq<string>, sep: char)
    requires xs != []
    ensures PiecesMatch([q], double, xs, sep)
        <==> Agrees(q, xs[0])
             && (if double then TailAllowed(xs[1..], sep) else |xs| == 1 || (|xs| == 2 && xs[1] == ""))
  {
    assert xs[..1] == [xs[0]];
  }

  /** A single plain piece, from any position to the end of the input. */
  lemma OnePieceSound(q: string, double: bool, sep: char, s: string, i: nat)
    requires sep !in q && i <= |s|
    requires At(PieceRe(q, sep, Cat(Opt(Chr(sep)), TailRe(double, sep))), s, i, |s|)
    ensures PiecesMatch([q], double, Split(s[i..], sep), sep)
  {
    var next := Cat(Opt(Chr(sep)), TailRe(double, sep));
    var k := PieceSplits(q, sep, next, s, i);
    AtEnding(double, sep, s, k);
    var y, u := s[i..k], s[k..];
    assert s[i..] == y + u;
    PieceAndEnding(q, y, u, double, sep);
  }

  lemma PieceAndEnding(q: string, y: string, u: string, double: bool, sep: char)
    requires sep !in y && Agrees(q, y) && EndingAllowed(u, double, sep)
    ensures PiecesMatch([q], double, Split(y + u, sep), sep)
  {
    EndingPieces(y, u, double, sep);
    PiecesMatchOne(q, double, Split(y + u, sep), sep);
  }

  lemma OnePieceComplete(q: string, double: bool, sep: char, s: string, i: nat)
    requires i <= |s| && PiecesMatch([q], double, Split(s[i..], sep), sep)
    ensures At(PieceRe(q, sep, Cat(Opt(Chr(sep)), TailRe(double, sep))), s, i, |s|)
  {
    var x := s[i..];
    var y := Split(x, sep)[0];
    PiecesMatchOne(q, double, Split(x, sep), sep);
    PiecesEnding(x, double, sep);
    var k := i + |y|;
    assert s[i..k] == y && s[k..] == x[|y|..];
    AtEnding(double, sep, s, k);
    PieceMatches(q, sep, Cat(Opt(Chr(sep)), TailRe(double, sep)), s, i, k);
  }

  /** Where the second piece of a candidate begins. */
  lemma SecondPiece(s: string, sep: char, i: nat) returns (k: nat)
    requires i <= |s| && |Split(s[i..], sep)| > 1
    ensures var xs := Split(s[i..], sep);
            i <= k < |s| && s[i..k] == xs[0] && s[k] == sep && sep !in xs[0]
            && Split(s[k + 1..], sep) == xs[1..]
  {
    var x := s[i..];
    var xs := Split(x, sep);
    SplitHead(x, sep);
    k := i + |xs[0]|;
    assert s[i..k] == x[..|xs[0]|] == xs[0];
    assert s[k + 1..] == x[|xs[0]| + 1..] == Join(xs[1..], sep);
    assert s[k] == x[|xs[0]|];
  }

  lemma NoSecondPiece(q: string, sep: char, rest: Re, s: string, i: nat)
    requires sep !in q && i <= |s| && |Split(s[i..], sep)| == 1
    ensures !At(PieceRe(q, sep, Cat(Chr(sep), rest)), s, i, |s|)
  {
    if At(PieceRe(q, sep, Cat(Chr(sep), rest)), s, i, |s|) {
      var k := PieceSplits(q, sep, Cat(Chr(sep), rest), s, i);
      var m := CatSplits(Chr(sep), rest, s, k, |s|);
      assert s[i..][k - i] == sep;
      JoinSplit(s[i..], sep);
      assert false;
    }
  }

  /** A plain piece and a separator in front of `rest` take up exactly the first piece of the candidate. */
  lemma FirstPieceMeaning(q: string, sep: char, rest: Re, s: string, i: nat, k: nat)
    requires sep !in q && i <= k < |s| && sep !in s[i..k] && s[k] == sep
    ensures At(PieceRe(q, sep, Cat(Chr(sep), rest)), s, i, |s|) <==> Agrees(q, s[i..k]) && At(rest, s, k + 1, |s|)
  {
    var next := Cat(Chr(sep), rest);
    AtSeparator(sep, rest, s, k);
    if Agrees(q, s[i..k]) && At(rest, s, k + 1, |s|) {
      PieceMatches(q, sep, next, s, i, k);
    }
    if At(PieceRe(q, sep, next), s, i, |s|) {
      var j := PieceSplits(q, sep, next, s, i);
      var m := CatSplits(Chr(sep), rest, s, j, |s|);
      FirstOccurrence(s, sep, i, j, k);
    }
  }

  lemma FirstOccurrence(s: string, c: char, i: nat, j: nat, k: nat)
    requires i <= j < |s| && i <= k < |s| && s[j] == c && s[k] == c && c !in s[i..j] && c !in s[i..k]
    ensures j == k
  {
    assert forall m :: i <= m < j ==> s[m] == s[i..j][m - i];
    assert forall m :: i <= m < k ==> s[m] == s[i..k][m - i];
  }

  lemma OnePieceMeaning(q: string, double: bool, sep: char, s: string, i: nat)
    requires Safe(sep) && sep !in q && i <= |s|
    ensures At(PlainRe([q], double, sep), s, i, |s|) <==> PiecesMatch([q], double, Split(s[i..], sep), sep)
  {
    if At(PlainRe([q], double, sep), s, i, |s|) {
      OnePieceSound(q, double, sep, s, i);
    }
    if PiecesMatch([q], double, Split(s[i..], sep), sep) {
      OnePieceComplete(q, double, sep, s, i);
    }
  }

  /** The plain part, from any position to the end of the input. */
  lemma {:induction false} PlainMeaning(qs: seq<string>, double: bool, sep: char, s: string, i: nat)
    requires Safe(sep) && qs != [] && SeparatorFree(qs, sep) && i <= |s|
    ensures At(PlainRe(qs, double, sep), s, i, |s|) <==> PiecesMatch(qs, double, Split(s[i..], sep), sep)
    decreases |qs|
  {
    var xs := Split(s[i..], sep);
    if |qs| == 1 {
      OnePieceMeaning(qs[0], double, sep, s, i);
      assert qs == [qs[0]];
    } else if |xs| == 1 {
      PiecesMatchStep(qs, double, xs, sep);
      NoSecondPiece(qs[0], sep, PlainRe(qs[1..], double, sep), s, i);
    } else {
      var k := SecondPiece(s, sep, i);
      PlainMeaning(qs[1..], double, sep, s, k + 1);
      MorePieces(qs, double, sep, s, i, k);
    }
  }

  lemma MorePieces(qs: seq<string>, double: bool, sep: char, s: string, i: nat, k: nat)
    requires |qs| >= 2 && sep !in qs[0] && i <= k < |s|
    requires var xs := Split(s[i..], sep);
             |xs| > 1 && s[i..k] == xs[0] && s[k] == sep && sep !in xs[0] && Split(s[k + 1..], sep) == xs[1..]
    requires At(PlainRe(qs[1..], double, sep), s, k + 1, |s|)
         <==> PiecesMatch(qs[1..], double, Split(s[k + 1..], sep), sep)
    ensures At(PlainRe(qs, double, sep), s, i, |s|) <==> PiecesMatch(qs, double, Split(s[i..], sep), sep)
  {
    var rest := PlainRe(qs[1..], double, sep);
    assert PlainRe(qs, double, sep) == PieceRe(qs[0], sep, Cat(Chr(sep), rest));
    FirstPieceMeaning(qs[0], sep, rest, s, i, k);
    PiecesMatchStep(qs, double, Split(s[i..], sep), sep);
  }

  /** The tree searched anywhere in the input decides exactly the comparison of pieces. */
  lemma IntendedMeaning(pattern: string, sep: char, input: string)
    requires Safe(sep)
    ensures Search(IntendedRe(Split(pattern, sep), sep), input) <==> Meaning(pattern, sep, input)
  {
    var ps := Split(pattern, sep);
    var qs, double := Plain(ps), HasDouble(ps);
    var re := IntendedRe(ps, sep);
    JoinSplit(pattern, sep);
    if qs == [] {
      assert ps == ["**"];
      AtTail(double, sep, input, |input|);
      assert At(Opt(Begin), input, |input|, |input|);
      assert At(re, input, |input|, |input|);
    } else {
      var plain := PlainRe(qs, double, sep);
      PlainMeaning(qs, double, sep, input, 0);
      assert input[0..] == input;
      if Search(re, input) {
        var i: nat, j: nat :| i <= j <= |input| && At(re, input, i, j);
        var k := CatSplits(Begin, plain, input, i, j);
        PlainAnchored(qs, double, sep);
        AnchoredReachesEnd(plain, input, 0, j);
      }
      if At(plain, input, 0, |input|) {
        CatMatches(Begin, plain, input, 0, 0, |input|);
      }
    }
  }
}
