/**
 The fragment of Go's regular expressions that the wildcard compiler relies on: a syntax tree, a parser
 for the textual form (flags as in `regexp.Compile`: one-line `^` and `$`, `.` without newline, negated
 classes with newline) and a denotational reading of "matches somewhere in the input".
 */
module Regex {

  datatype Re =
    | Empty
    | Begin
    | End
    | Chr(c: char)
    | NotChr(c: char)
    | Dot
    | Cat(left: Re, right: Re)
    | Alt(left: Re, right: Re)
    | Opt(body: Re)
    | Plus(body: Re)
    | Star(body: Re)

  // ----- Meaning -----

  /** `re` matches exactly the stretch of `s` from i to j. */
  predicate At(re: Re, s: string, i: nat, j: nat)
    requires i <= j <= |s|
    decreases re, 0, 0
  {
    match re
    case Empty => i == j
    case Begin => i == 0 && j == 0
    case End => i == |s| && j == |s|
    case Chr(c) => j == i + 1 && s[i] == c
    case NotChr(c) => j == i + 1 && s[i] != c
    case Dot => j == i + 1 && s[i] != '\n'
    case Cat(left, right) => exists k: nat | i <= k <= j :: At(left, s, i, k) && At(right, s, k, j)
    case Alt(left, right) => At(left, s, i, j) || At(right, s, i, j)
    case Opt(body) => i == j || At(body, s, i, j)
    case Plus(body) => exists k: nat | i <= k <= j :: At(body, s, i, k) && Iterates(body, s, k, j)
    case Star(body) => Iterates(body, s, i, j)
  }

  /** Zero or more consecutive matches of `re`; an empty repetition adds nothing, so none is needed. */
  predicate Iterates(re: Re, s: string, i: nat, j: nat)
    requires i <= j <= |s|
    decreases re, 1, j - i
  {
    i == j || exists k: nat | i < k <= j :: At(re, s, i, k) && Iterates(re, s, k, j)
  }

  /** An unanchored search, as `Regexp.Match` performs it. */
  predicate Search(re: Re, s: string) {
    exists i: nat, j: nat | i <= j <= |s| :: At(re, s, i, j)
  }

  // ----- Syntax -----

  /** `Malformed`: Go rejects the text.  `Unsupported`: legal or illegal, but outside this fragment. */
  datatype ParseError = Malformed | Unsupported

  datatype Parsed =
    | Fail(error: ParseError)
    | Ok(re: Re, rest: string)

  predicate IsRepetition(c: char) {
    c in "*+?"
  }

  /** Characters after which a backslash yields the character itself. */
  predicate IsPunctuation(c: char) {
    c < '\U{80}' && !('0' <= c <= '9' || 'a' <= c <= 'z' || 'A' <= c <= 'Z')
  }

  /** The text after an opening brace that could make it a bounded repetition. */
  predicate LooksLikeBounds(s: string) {
    s != "" && (s[0] == '}' || (('0' <= s[0] <= '9' || s[0] == ',') && LooksLikeBounds(s[1..])))
  }

  function ParseAlternatives(s: string): (p: Parsed)
    ensures p.Ok? ==> |p.rest| <= |s| && (p.rest == "" || p.rest[0] == ')')
    decreases |s|, 2
  {
    match ParseSequence(s)
    case Fail(e) => Fail(e)
    case Ok(left, rest) =>
      if rest != "" && rest[0] == '|' then
        match ParseAlternatives(rest[1..])
        case Fail(e) => Fail(e)
        case Ok(right, rest') => Ok(Alt(left, right), rest')
      else Ok(left, rest)
  }

  function ParseSequence(s: string): (p: Parsed)
    ensures p.Ok? ==> |p.rest| <= |s| && (p.rest == "" || p.rest[0] in "|)")
    decreases |s|, 1
  {
    if s == "" || s[0] in "|)" then Ok(Empty, s)
    else
      match ParseAtom(s)
      case Fail(e) => Fail(e)
      case Ok(atom, rest) =>
        match ParseRepetition(atom, rest)
        case Fail(e) => Fail(e)
        case Ok(item, rest') =>
          match ParseSequence(rest')
          case Fail(e) => Fail(e)
          case Ok(items, rest'') => Ok(Cat(item, items), rest'')
  }

  function ParseAtom(s: string): (p: Parsed)
    requires s != ""
    ensures p.Ok? ==> |p.rest| < |s|
    decreases |s|, 0
  {
    if IsRepetition(s[0]) then Fail(Malformed)
    else if s[0] == '(' then
      if |s| > 1 && s[1] == '?' then Fail(Unsupported)
      else
        match ParseAlternatives(s[1..])
        case Fail(e) => Fail(e)
        case Ok(re, rest) => if rest == "" then Fail(Malformed) else Ok(re, rest[1..])
    else if s[0] == '^' then Ok(Begin, s[1..])
    else if s[0] == '$' then Ok(End, s[1..])
    else if s[0] == '.' then Ok(Dot, s[1..])
    else if s[0] == '[' then ParseClass(s)
    else if s[0] == '\\' then
      if |s| == 1 then Fail(Malformed)
      else if IsPunctuation(s[1]) then Ok(Chr(s[1]), s[2..])
      else Fail(Unsupported)
    else if s[0] == '{' && LooksLikeBounds(s[1..]) then Fail(Unsupported)
    else Ok(Chr(s[0]), s[1..])
  }

  /** Only the negated one-character class is in the fragment; a class never closed is malformed. */
  function ParseClass(s: string): (p: Parsed)
    requires s != "" && s[0] == '['
    ensures p.Ok? ==> |p.rest| < |s|
  {
    if ']' !in s then Fail(Malformed)
    else if |s| >= 4 && s[1] == '^' && s[2] != '\\' && s[3] == ']' then Ok(NotChr(s[2]), s[4..])
    else Fail(Unsupported)
  }

  /** A repetition binds to the atom just read; a lazy mark does not change what matches. */
  function ParseRepetition(atom: Re, s: string): (p: Parsed)
    ensures p.Ok? ==> |p.rest| <= |s|
  {
    if s == "" || !IsRepetition(s[0]) then Ok(atom, s)
    else
      var rest := if |s| > 1 && s[1] == '?' then s[2..] else s[1..];
      if rest != "" && IsRepetition(rest[0]) then Fail(Malformed)
      else Ok(if s[0] == '*' then Star(atom) else if s[0] == '+' then Plus(atom) else Opt(atom), rest)
  }

  /** The whole text must be consumed: what remains can only be an unmatched closing parenthesis. */
  function Parse(s: string): (p: Parsed) {
    match ParseAlternatives(s)
    case Fail(e) => Fail(e)
    case Ok(re, rest) => if rest == "" then Ok(re, rest) else Fail(Malformed)
  }

  // ----- Quoting -----

  const METACHARACTERS := "\\.+*?()|[]{}^$"

  function QuoteChar(c: char): string {
    if c in METACHARACTERS then ['\\', c] else [c]
  }

  function QuoteMeta(s: string): string {
    if s == "" then "" else QuoteChar(s[0]) + QuoteMeta(s[1..])
  }

  /** A literal, character by character, in front of `next`. */
  function Literal(s: string, next: Re): Re {
    if s == "" then next else Cat(Chr(s[0]), Literal(s[1..], next))
  }

  function Prepend(item: Re, p: Parsed): Parsed {
    if p.Ok? then Ok(Cat(item, p.re), p.rest) else p
  }

  /** Quoted text, whatever characters it holds, reads back as that literal. */
  lemma {:induction false} ParseQuoted(s: string, rest: string)
    requires rest == "" || !IsRepetition(rest[0])
    ensures var p := ParseSequence(rest);
            ParseSequence(QuoteMeta(s) + rest) == if p.Ok? then Ok(Literal(s, p.re), p.rest) else p
  {
    if s == "" {
      assert QuoteMeta(s) + rest == rest;
    } else {
      var later := QuoteMeta(s[1..]) + rest;
      assert QuoteMeta(s) + rest == QuoteChar(s[0]) + later;
      assert later == "" || !IsRepetition(later[0]) by {
        if |s| == 1 {
          assert later == rest;
        } else {
          assert later[0] == QuoteChar(s[1])[0];
        }
      }
      ParseQuoted(s[1..], rest);
      ParseQuotedChar(s[0], later);
    }
  }

  lemma ParseQuotedChar(c: char, later: string)
    requires later == "" || !IsRepetition(later[0])
    ensures ParseSequence(QuoteChar(c) + later) == Prepend(Chr(c), ParseSequence(later))
  {
    var text := QuoteChar(c) + later;
    if c in METACHARACTERS {
      assert text[0] == '\\' && text[1] == c && text[2..] == later;
      assert IsPunctuation(c);
    } else {
      assert text[0] == c && text[1..] == later;
    }
    assert ParseAtom(text) == Ok(Chr(c), later);
  }

  /** An atom with no repetition mark after it. */
  lemma ParseItem(text: string, atom: Re, rest: string)
    requires text != "" && text[0] !in "|)" && ParseAtom(text) == Ok(atom, rest)
    requires rest == "" || !IsRepetition(rest[0])
    ensures ParseSequence(text) == Prepend(atom, ParseSequence(rest))
  {
  }

  /** An atom, one repetition mark, and no further one. */
  lemma ParseRepeated(text: string, atom: Re, mark: char, rest: string)
    requires text != "" && text[0] !in "|)" && ParseAtom(text) == Ok(atom, [mark] + rest)
    requires IsRepetition(mark) && (rest == "" || !IsRepetition(rest[0]))
    ensures var item := if mark == '*' then Star(atom) else if mark == '+' then Plus(atom) else Opt(atom);
            ParseSequence(text) == Prepend(item, ParseSequence(rest))
  {
    assert ([mark] + rest)[1..] == rest;
  }

  // ----- What the emitted shapes match -----

  lemma CatMatches(left: Re, right: Re, s: string, i: nat, k: nat, j: nat)
    requires i <= k <= j <= |s| && At(left, s, i, k) && At(right, s, k, j)
    ensures At(Cat(left, right), s, i, j)
  {
  }

  lemma CatSplits(left: Re, right: Re, s: string, i: nat, j: nat) returns (k: nat)
    requires i <= j <= |s| && At(Cat(left, right), s, i, j)
    ensures i <= k <= j && At(left, s, i, k) && At(right, s, k, j)
  {
    k :| i <= k <= j && At(left, s, i, k) && At(right, s, k, j);
  }

  lemma {:induction false} AtLiteral(lit: string, next: Re, s: string, i: nat, j: nat)
    requires i <= j <= |s|
    ensures At(Literal(lit, next), s, i, j)
        <==> i + |lit| <= j && s[i..i + |lit|] == lit && At(next, s, i + |lit|, j)
  {
    if lit != "" {
      if i < j {
        AtLiteral(lit[1..], next, s, i + 1, j);
        assert At(Literal(lit, next), s, i, j)
          <==> At(Chr(lit[0]), s, i, i + 1) && At(Literal(lit[1..], next), s, i + 1, j);
        if i + |lit| <= j {
          assert s[i..i + |lit|] == [s[i]] + s[i + 1..i + |lit|];
          assert lit == [lit[0]] + lit[1..];
          assert i + 1 + |lit[1..]| == i + |lit|;
        }
      }
    }
  }

  lemma {:induction false} IteratesNotChr(c: char, s: string, i: nat, j: nat)
    requires i <= j <= |s|
    ensures Iterates(NotChr(c), s, i, j) <==> c !in s[i..j]
    decreases j - i
  {
    if i < j {
      IteratesNotChr(c, s, i + 1, j);
      assert s[i..j] == [s[i]] + s[i + 1..j];
      if c !in s[i..j] {
        assert At(NotChr(c), s, i, i + 1);
      }
    }
  }

  lemma {:induction false} IteratesDot(s: string, i: nat, j: nat)
    requires i <= j <= |s|
    ensures Iterates(Dot, s, i, j) <==> '\n' !in s[i..j]
    decreases j - i
  {
    if i < j {
      IteratesDot(s, i + 1, j);
      assert s[i..j] == [s[i]] + s[i + 1..j];
      if '\n' !in s[i..j] {
        assert At(Dot, s, i, i + 1);
      }
    }
  }

  /** One or more characters other than c, then `next`. */
  lemma AtRun(c: char, next: Re, s: string, i: nat, j: nat)
    requires i <= j <= |s|
    ensures At(Cat(Plus(NotChr(c)), next), s, i, j)
        <==> exists k: nat | i < k <= j :: c !in s[i..k] && At(next, s, k, j)
  {
    forall k: nat | i <= k <= j
      ensures At(Plus(NotChr(c)), s, i, k) <==> i < k && c !in s[i..k]
    {
      if i < k {
        IteratesNotChr(c, s, i + 1, k);
        assert s[i..k] == [s[i]] + s[i + 1..k];
        if c !in s[i..k] {
          assert At(NotChr(c), s, i, i + 1);
        }
      }
    }
  }

  /** An expression that ends with `$`. */
  predicate Anchored(re: Re) {
    re.Cat? && (re == Cat(End, Empty) || Anchored(re.right))
  }

  /** Such an expression only ever matches up to the end of the input. */
  lemma {:induction false} AnchoredReachesEnd(re: Re, s: string, i: nat, j: nat)
    requires Anchored(re) && i <= j <= |s| && At(re, s, i, j)
    ensures j == |s|
  {
    if re != Cat(End, Empty) {
      var k: nat :| i <= k <= j && At(re.left, s, i, k) && At(re.right, s, k, j);
      AnchoredReachesEnd(re.right, s, k, j);
    }
  }
}
