/** The four left-to-right patterns of app/cleanup/chunks.py, as deterministic scanners.

    In each pattern the character classes that follow one another are disjoint, so the greedy
    match is the only one and a scanner needs no backtracking. */
module Scanner {
  import opened Options

  datatype Span = Span(start: nat, end: nat)

  datatype Pattern = Paragraph | Sentence | Whitespace | Abbreviation

  datatype Class = Space | Closer | Newline

  /** `\s` on a Python string. */
  predicate IsSpace(c: char) {
    || '\t' <= c <= '\r' || '\U{1C}' <= c <= ' ' || c == '\U{85}' || c == '\U{A0}' || c == '\U{1680}'
    || '\U{2000}' <= c <= '\U{200A}' || c == '\U{2028}' || c == '\U{2029}' || c == '\U{202F}'
    || c == '\U{205F}' || c == '\U{3000}'
  }

  predicate IsTerminator(c: char) {
    c in ".!?\U{3002}\U{FF01}\U{FF1F}\U{964}\U{2026}"
  }

  predicate InClass(k: Class, c: char) {
    match k
    case Space => IsSpace(c)
    case Closer => c in "\"'\U{201D}\U{2019})]"
    case Newline => c == '\n'
  }

  /** `[A-Za-z]` under IGNORECASE, which also admits four letters that fold into that range. */
  predicate IsLetter(c: char) {
    'A' <= c <= 'Z' || 'a' <= c <= 'z' || c in "\U{130}\U{131}\U{17F}\U{212A}"
  }

  function Folded(c: char): char {
    if 'A' <= c <= 'Z' then (c as int + 32) as char else if c == '\U{17F}' then 's' else c
  }

  const TITLES: seq<string> := ["mr", "mrs", "ms", "dr", "prof", "sr", "jr", "vs", "etc"]

  const INITIALS := 6

  /** The end of the longest run of one class that starts at `i`. */
  function Skip(k: Class, text: string, i: nat): (r: nat)
    requires i <= |text|
    ensures i <= r <= |text|
    ensures r > i ==> InClass(k, text[r - 1])
    decreases |text| - i
  {
    if i < |text| && InClass(k, text[i]) then Skip(k, text, i + 1) else i
  }

  function InitialsEnd(text: string, i: nat, most: nat): (r: nat)
    requires i <= |text|
    ensures i <= r <= |text|
    decreases most
  {
    if most > 0 && i + 1 < |text| && IsLetter(text[i]) && text[i + 1] == '.'
    then InitialsEnd(text, i + 2, most - 1) else i
  }

  predicate SpellsAt(text: string, i: nat, word: string) {
    i + |word| < |text| && text[i + |word|] == '.' && forall k :: 0 <= k < |word| ==> Folded(text[i + k]) == word[k]
  }

  function TitleEnd(text: string, i: nat, titles: seq<string>): (r: nat)
    requires i <= |text|
    ensures i <= r <= |text|
    decreases |titles|
  {
    if titles == [] then i
    else if SpellsAt(text, i, titles[0]) then i + |titles[0]| + 1
    else TitleEnd(text, i, titles[1..])
  }

  function AbbreviationBody(text: string, i: nat): (r: nat)
    requires i <= |text|
    ensures i <= r <= |text|
  {
    var initials := InitialsEnd(text, i, INITIALS);
    if initials > i then initials else TitleEnd(text, i, TITLES)
  }

  /** Closing quotes and brackets, then at least one space. */
  function TailEnd(text: string, i: nat): (r: Option<nat>)
    requires i <= |text|
    ensures r.Some? ==> i < r.value <= |text| && IsSpace(text[r.value - 1])
  {
    var closed := Skip(Closer, text, i);
    var end := Skip(Space, text, closed);
    if end > closed then Some(end) else None
  }

  /** The end of the match of `p` that starts at `i`, if there is one. */
  function MatchEnd(p: Pattern, text: string, i: nat): (r: Option<nat>)
    requires i < |text|
    ensures r.Some? ==> i < r.value <= |text| && IsSpace(text[r.value - 1])
  {
    match p
    case Whitespace =>
      var end := Skip(Space, text, i);
      if end > i then Some(end) else None
    case Paragraph =>
      var end := Skip(Newline, text, i);
      if end >= i + 2 then Some(end) else None
    case Sentence =>
      if IsTerminator(text[i]) then TailEnd(text, i + 1) else None
    case Abbreviation =>
      var body := AbbreviationBody(text, i);
      if body > i then TailEnd(text, body) else None
  }

  /** The first match of `finditer` at or after `i`. */
  function NextMatch(p: Pattern, text: string, i: nat): (r: Option<Span>)
    requires i <= |text|
    ensures r.Some? ==>
      && i <= r.value.start < r.value.end <= |text|
      && IsSpace(text[r.value.end - 1])
    decreases |text| - i
  {
    if i == |text| then None
    else if MatchEnd(p, text, i).Some? then Some(Span(i, MatchEnd(p, text, i).value))
    else NextMatch(p, text, i + 1)
  }

  lemma SkipIsRun(k: Class, text: string, i: nat)
    requires i <= |text|
    ensures forall j :: i <= j < Skip(k, text, i) ==> InClass(k, text[j])
    decreases |text| - i
  {
    if i < |text| && InClass(k, text[i]) {
      SkipIsRun(k, text, i + 1);
    }
  }

  lemma {:induction false} NextMatchMatches(p: Pattern, text: string, i: nat)
    requires i <= |text| && NextMatch(p, text, i).Some?
    ensures var m := NextMatch(p, text, i).value; MatchEnd(p, text, m.start) == Some(m.end)
    decreases |text| - i
  {
    if MatchEnd(p, text, i).None? {
      NextMatchMatches(p, text, i + 1);
    }
  }

  /** `finditer` passes over a position only if no match starts there. */
  lemma {:induction false} NextMatchIsFirst(p: Pattern, text: string, i: nat, j: nat)
    requires i <= j < |text|
    requires NextMatch(p, text, i).Some? ==> j < NextMatch(p, text, i).value.start
    ensures MatchEnd(p, text, j).None?
    decreases j - i
  {
    if i < j {
      NextMatchIsFirst(p, text, i + 1, j);
    }
  }

  /** A whitespace match is all space, and what `finditer` passes over before it is all token. */
  lemma WhitespaceSplitsTokens(text: string, i: nat)
    requires i <= |text|
    ensures var next := NextMatch(Whitespace, text, i);
      && (forall j :: i <= j < (if next.Some? then next.value.start else |text|) ==> !IsSpace(text[j]))
      && (next.Some? ==> forall j :: next.value.start <= j < next.value.end ==> IsSpace(text[j]))
  {
    var next := NextMatch(Whitespace, text, i);
    if next.Some? {
      NextMatchMatches(Whitespace, text, i);
      SkipIsRun(Space, text, next.value.start);
    }
    forall j | i <= j < (if next.Some? then next.value.start else |text|)
      ensures !IsSpace(text[j])
    {
      NextMatchIsFirst(Whitespace, text, i, j);
      assert Skip(Space, text, j) == j;
    }
  }

  lemma InitialsStart(text: string, i: nat, most: nat)
    requires i <= |text| && InitialsEnd(text, i, most) > i
    ensures i < |text| && IsLetter(text[i])
  {
  }

  lemma {:induction false} TitleSpelled(text: string, i: nat, titles: seq<string>) returns (word: string)
    requires i <= |text| && TitleEnd(text, i, titles) > i
    ensures word in titles && SpellsAt(text, i, word)
    decreases |titles|
  {
    if SpellsAt(text, i, titles[0]) {
      word := titles[0];
    } else {
      word := TitleSpelled(text, i, titles[1..]);
    }
  }

  lemma TitlesAreWords(word: string)
    requires word in TITLES
    ensures |word| > 0 && 'a' <= word[0] <= 'z'
  {
  }

  lemma FoldedIsSolid(c: char)
    requires 'a' <= Folded(c) <= 'z'
    ensures !IsSpace(c)
  {
  }

  /** An abbreviation begins with something other than a space. */
  lemma AbbreviationStartsSolid(text: string, i: nat)
    requires i < |text| && MatchEnd(Abbreviation, text, i).Some?
    ensures !IsSpace(text[i])
  {
    if InitialsEnd(text, i, INITIALS) == i {
      var word := TitleSpelled(text, i, TITLES);
      TitlesAreWords(word);
      assert Folded(text[i + 0]) == word[0];
      FoldedIsSolid(text[i]);
    } else {
      InitialsStart(text, i, INITIALS);
    }
  }
}
