/** Tokens of a text, their n-grams, and what the underscores in an n-gram say. */
module NGrams {
  import opened Text
  import Stemmer

  /** What the Unicode tables, the stop-word list and the stemmer decide. */
  datatype Language = Language(lower: char -> char, letter: char -> bool, stop: string -> bool, stem: string -> string)

  /** An underscore is no letter, and no stem brings one in. */
  ghost predicate LanguageOk(lang: Language) {
    !lang.letter('_') && forall w :: Lacks(w, '_') ==> Lacks(lang.stem(w), '_')
  }

  /** Stems that are beginnings of folded words bring none in if an underscore is the lower case of
      nothing else. */
  lemma RussianBringsNone(lower: char -> char, w: string)
    requires (forall c :: lower(c) == '_' ==> c == '_') && Lacks(w, '_')
    ensures Lacks(Stemmer.Stem(Stemmer.RUSSIAN, lower, w), '_')
  {
    var stem, folded := Stemmer.Stem(Stemmer.RUSSIAN, lower, w), Stemmer.Folded(lower, w);
    Stemmer.StemIsPrefix(Stemmer.RUSSIAN, lower, w);
    FoldedLacks(lower, w);
    assert forall i :: 0 <= i < |stem| ==> stem[i] == folded[i];
  }

  /** So the language of the Russian stemmer is one in which the n-grams can be told apart. */
  lemma RussianIsOk(lang: Language)
    requires !lang.letter('_') && forall c :: lang.lower(c) == '_' ==> c == '_'
    requires forall w :: lang.stem(w) == Stemmer.Stem(Stemmer.RUSSIAN, lang.lower, w)
    ensures LanguageOk(lang)
  {
    forall w | Lacks(w, '_')
      ensures Lacks(lang.stem(w), '_')
    {
      RussianBringsNone(lang.lower, w);
    }
  }

  lemma FoldedLacks(lower: char -> char, w: string)
    requires (forall c :: lower(c) == '_' ==> c == '_') && Lacks(w, '_')
    ensures Lacks(Stemmer.Folded(lower, w), '_')
  {
  }

  // ----- tokens -----

  predicate Kept(lang: Language, c: char) { lang.letter(c) || c == '-' }

  /** The runs of letters and hyphens of a lower-cased text; anything else separates. */
  function Runs(lang: Language, s: string, current: string): seq<string>
    decreases |s|
  {
    var done := if current == "" then [] else [current];
    if s == "" then done
    else if Kept(lang, lang.lower(s[0])) then Runs(lang, s[1..], current + [lang.lower(s[0])])
    else done + Runs(lang, s[1..], "")
  }

  predicate OnlyHyphens(w: string) { forall i :: 0 <= i < |w| ==> w[i] == '-' }

  predicate IsToken(lang: Language, w: string) { |w| > 1 && !lang.stop(w) && !OnlyHyphens(w) }

  function Tokens(lang: Language, words: seq<string>): seq<string> {
    if words == [] then []
    else
      var before, w := Tokens(lang, words[..|words| - 1]), words[|words| - 1];
      if IsToken(lang, w) then before + [w] else before
  }

  method Tokenize(lang: Language, text: string) returns (tokens: seq<string>)
    ensures tokens == Tokens(lang, Runs(lang, text, ""))
  {
    var words := Runs(lang, text, "");
    tokens := [];
    for i := 0 to |words|
      invariant tokens == Tokens(lang, words[..i])
    {
      assert words[..i + 1][..i] == words[..i];
      var w := words[i];
      if |w| <= 1 { continue; }
      if lang.stop(w) { continue; }
      if OnlyHyphens(w) { continue; }
      tokens := tokens + [w];
    }
    assert words[..|words|] == words;
  }

  predicate AllKept(lang: Language, w: string) { forall i :: 0 <= i < |w| ==> Kept(lang, w[i]) }

  lemma {:induction false} RunsAreKept(lang: Language, s: string, current: string)
    requires AllKept(lang, current)
    ensures forall w :: w in Runs(lang, s, current) ==> AllKept(lang, w)
    decreases |s|
  {
    if s != "" {
      if Kept(lang, lang.lower(s[0])) {
        RunsAreKept(lang, s[1..], current + [lang.lower(s[0])]);
      } else {
        RunsAreKept(lang, s[1..], "");
      }
    }
  }

  lemma {:induction false} TokensAreWords(lang: Language, words: seq<string>)
    ensures forall w :: w in Tokens(lang, words) ==> w in words && |w| > 1
  {
    if words != [] {
      TokensAreWords(lang, words[..|words| - 1]);
    }
  }

  // ----- which words of a text are tokens -----

  /** t[a..b] is a run of letters and hyphens that cannot be made longer. */
  ghost predicate RunAt(lang: Language, t: string, a: int, b: int) {
    && 0 <= a < b <= |t|
    && (forall i :: a <= i < b ==> lang.letter(t[i]) || t[i] == '-')
    && (a > 0 ==> !lang.letter(t[a - 1]) && t[a - 1] != '-')
    && (b < |t| ==> !lang.letter(t[b]) && t[b] != '-')
  }

  /** More than one character, no stop word, and not hyphens alone. */
  predicate Significant(lang: Language, w: string) {
    |w| > 1 && !lang.stop(w) && exists i :: 0 <= i < |w| && w[i] != '-'
  }

  datatype Span = Span(from: int, to: int)

  predicate InText(t: string, spans: seq<Span>) { forall k :: 0 <= k < |spans| ==> 0 <= spans[k].from < spans[k].to <= |t| }

  /** One after the other. */
  predicate InOrder(spans: seq<Span>) { forall j, k :: 0 <= j < k < |spans| ==> spans[j].to < spans[k].from }

  function Words(t: string, spans: seq<Span>): seq<string>
    requires InText(t, spans)
  {
    seq(|spans|, k requires 0 <= k < |spans| => t[spans[k].from..spans[k].to])
  }

  /** The spans are the runs that start at or after a. */
  ghost predicate AllRuns(lang: Language, t: string, a: int, spans: seq<Span>) {
    InText(t, spans) && InOrder(spans) && forall x :: x in spans <==> x.from >= a && RunAt(lang, t, x.from, x.to)
  }

  predicate LowerOf(lang: Language, text: string, t: string) {
    |t| == |text| && forall k :: 0 <= k < |t| ==> t[k] == lang.lower(text[k])
  }

  /** A run is open at a, and has come as far as i. */
  predicate OpenRun(lang: Language, t: string, a: nat, i: nat) {
    a <= i <= |t| && (forall k :: a <= k < i ==> Kept(lang, t[k])) && (a > 0 ==> !Kept(lang, t[a - 1]))
  }

  /** The spans are the runs from a on, and their words those still to come. */
  ghost predicate Reads(lang: Language, text: string, t: string, a: nat, i: nat, spans: seq<Span>)
    requires a <= i <= |t| == |text|
  {
    AllRuns(lang, t, a, spans) && Words(t, spans) == Runs(lang, text[i..], t[a..i])
  }

  lemma {:induction false} RunsFrom(lang: Language, text: string, t: string, a: nat, i: nat) returns (spans: seq<Span>)
    requires LowerOf(lang, text, t) && OpenRun(lang, t, a, i)
    ensures Reads(lang, text, t, a, i, spans)
    decreases |t| - i
  {
    if i == |t| {
      spans := if a == i then [] else [Span(a, i)];
      ReadsEnd(lang, text, t, a);
    } else if Kept(lang, t[i]) {
      spans := RunsFrom(lang, text, t, a, i + 1);
      ReadsKept(lang, text, t, a, i, spans);
    } else {
      var rest := RunsFrom(lang, text, t, i + 1, i + 1);
      spans := if a == i then rest else [Span(a, i)] + rest;
      ReadsSeparator(lang, text, t, a, i, rest);
    }
  }

  lemma ReadsEnd(lang: Language, text: string, t: string, a: nat)
    requires LowerOf(lang, text, t) && OpenRun(lang, t, a, |t|)
    ensures Reads(lang, text, t, a, |t|, if a == |t| then [] else [Span(a, |t|)])
  {
    LastRun(lang, t, a);
    assert text[|t|..] == "" && t[a..|t|] == t[a..] && (t[a..] == [] <==> a == |t|);
  }

  lemma ReadsKept(lang: Language, text: string, t: string, a: nat, i: nat, spans: seq<Span>)
    requires LowerOf(lang, text, t) && a <= i < |t| && Kept(lang, t[i]) && Reads(lang, text, t, a, i + 1, spans)
    ensures Reads(lang, text, t, a, i, spans)
  {
    RunsStep(lang, text, i, t[a..i]);
    assert t[a..i] + [t[i]] == t[a..i + 1];
  }

  lemma ReadsSeparator(lang: Language, text: string, t: string, a: nat, i: nat, rest: seq<Span>)
    requires LowerOf(lang, text, t) && OpenRun(lang, t, a, i) && i < |t| && !Kept(lang, t[i])
    requires Reads(lang, text, t, i + 1, i + 1, rest)
    ensures Reads(lang, text, t, a, i, if a == i then rest else [Span(a, i)] + rest)
  {
    RunsStep(lang, text, i, t[a..i]);
    assert t[i + 1..i + 1] == [] && (t[a..i] == [] <==> a == i);
    RunEnds(lang, t, a, i, rest);
    assert [] + Words(t, rest) == Words(t, rest);
  }

  lemma RunsStep(lang: Language, text: string, i: nat, current: string)
    requires i < |text|
    ensures var c := lang.lower(text[i]);
      Runs(lang, text[i..], current) ==
        if Kept(lang, c) then Runs(lang, text[i + 1..], current + [c])
        else (if current == "" then [] else [current]) + Runs(lang, text[i + 1..], "")
  {
    assert text[i..][1..] == text[i + 1..] && text[i..][0] == text[i];
  }

  /** A run open at a that has come to the end of the text is the last. */
  lemma LastRun(lang: Language, t: string, a: nat)
    requires OpenRun(lang, t, a, |t|)
    ensures AllRuns(lang, t, a, if a == |t| then [] else [Span(a, |t|)])
    ensures a < |t| ==> Words(t, [Span(a, |t|)]) == [t[a..]]
  {
    forall x: Span | x.from >= a && RunAt(lang, t, x.from, x.to)
      ensures a < |t| && x == Span(a, |t|)
    {
      OnlyRun(lang, t, a, x.from, x.to);
    }
    assert a < |t| ==> t[a..|t|] == t[a..];
  }

  lemma OnlyRun(lang: Language, t: string, a: nat, x: int, y: int)
    requires a <= |t| && forall k :: a <= k < |t| ==> Kept(lang, t[k])
    requires x >= a && RunAt(lang, t, x, y)
    ensures x == a && y == |t|
  {
    var c, d := if a < x then t[x - 1] else t[x], if y < |t| then t[y] else t[x];
    assert a < x ==> Kept(lang, c);
    assert y < |t| ==> Kept(lang, d);
  }

  /** A separator at i ends the run open at a. */
  lemma RunEnds(lang: Language, t: string, a: nat, i: nat, rest: seq<Span>)
    requires OpenRun(lang, t, a, i) && i < |t| && !Kept(lang, t[i]) && AllRuns(lang, t, i + 1, rest)
    ensures a == i ==> AllRuns(lang, t, a, rest)
    ensures a < i ==> AllRuns(lang, t, a, [Span(a, i)] + rest) && Words(t, [Span(a, i)] + rest) == [t[a..i]] + Words(t, rest)
  {
    forall x: Span | x.from >= a && RunAt(lang, t, x.from, x.to)
      ensures (a < i && x == Span(a, i)) || x.from >= i + 1
    {
      OneRun(lang, t, a, i, x.from, x.to);
    }
    if a < i {
      assert RunAt(lang, t, a, i);
      SpanBefore(t, Span(a, i), rest);
    }
  }

  lemma SpanBefore(t: string, x: Span, rest: seq<Span>)
    requires 0 <= x.from < x.to <= |t| && InText(t, rest) && InOrder(rest) && forall y :: y in rest ==> x.to < y.from
    ensures InText(t, [x] + rest) && InOrder([x] + rest) && Words(t, [x] + rest) == [t[x.from..x.to]] + Words(t, rest)
  {
    assert forall k :: 0 <= k < |rest| ==> rest[k] in rest;
  }

  lemma OneRun(lang: Language, t: string, a: nat, i: nat, x: int, y: int)
    requires a <= i < |t| && !Kept(lang, t[i]) && (forall k :: a <= k < i ==> Kept(lang, t[k]))
    requires x >= a && RunAt(lang, t, x, y)
    ensures (x == a < i && y == i) || x >= i + 1
  {
    var c := if 0 < x <= |t| then t[x - 1] else t[i];
    assert a < x <= i ==> Kept(lang, c);
  }

  lemma TokensSnoc(lang: Language, words: seq<string>, w: string)
    ensures Tokens(lang, words + [w]) == Tokens(lang, words) + (if Significant(lang, w) then [w] else [])
  {
    assert (words + [w])[..|words|] == words;
    assert IsToken(lang, w) <==> Significant(lang, w);
  }

  lemma WordsSnoc(t: string, spans: seq<Span>, x: Span)
    requires InText(t, spans) && 0 <= x.from < x.to <= |t|
    ensures InText(t, spans + [x]) && Words(t, spans + [x]) == Words(t, spans) + [t[x.from..x.to]]
  {
  }

  /** Those of the spans, in order, that hold a good word. */
  ghost predicate Chosen(good: string -> bool, t: string, spans: seq<Span>, chosen: seq<Span>) {
    && InText(t, chosen) && InOrder(chosen)
    && forall x :: x in chosen <==> x in spans && 0 <= x.from <= x.to <= |t| && good(t[x.from..x.to])
  }

  lemma ChosenNext(good: string -> bool, t: string, front: seq<Span>, last: Span, before: seq<Span>)
    requires InText(t, front + [last]) && InOrder(front + [last]) && Chosen(good, t, front, before)
    ensures 0 <= last.from < last.to <= |t|
    ensures Chosen(good, t, front + [last], if good(t[last.from..last.to]) then before + [last] else before)
  {
    assert (front + [last])[|front|] == last;
    forall k | 0 <= k < |before|
      ensures before[k].to < last.from
    {
      assert before[k] in before && before[k] in front;
      var m :| 0 <= m < |front| && front[m] == before[k];
      assert (front + [last])[m] == before[k];
    }
  }

  lemma {:induction false} TokensOfSpans(lang: Language, good: string -> bool, t: string, spans: seq<Span>)
    returns (chosen: seq<Span>)
    requires InText(t, spans) && InOrder(spans) && forall w :: good(w) <==> Significant(lang, w)
    ensures Chosen(good, t, spans, chosen) && Words(t, chosen) == Tokens(lang, Words(t, spans))
    decreases |spans|
  {
    chosen := [];
    if spans != [] {
      var front, last := spans[..|spans| - 1], spans[|spans| - 1];
      assert spans == front + [last];
      var before := TokensOfSpans(lang, good, t, front);
      ChosenNext(good, t, front, last, before);
      WordsSnoc(t, front, last);
      WordsSnoc(t, before, last);
      TokensSnoc(lang, Words(t, front), t[last.from..last.to]);
      chosen := if good(t[last.from..last.to]) then before + [last] else before;
    }
  }

  /** The tokens of a text are, in order, the longest possible runs of letters and hyphens of its lower
      case that are significant: each at its place, and no other. */
  lemma TokensAreRuns(lang: Language, text: string, t: string) returns (spans: seq<Span>)
    requires |t| == |text| && forall k :: 0 <= k < |t| ==> t[k] == lang.lower(text[k])
    ensures InText(t, spans) && InOrder(spans) && Words(t, spans) == Tokens(lang, Runs(lang, text, ""))
    ensures forall x :: x in spans <==> RunAt(lang, t, x.from, x.to) && Significant(lang, t[x.from..x.to])
  {
    var runs := RunsFrom(lang, text, t, 0, 0);
    assert text[0..] == text && t[0..0] == "";
    spans := TokensOfSpans(lang, w => Significant(lang, w), t, runs);
  }

  function Stems(stem: string -> string, tokens: seq<string>): seq<string> {
    seq(|tokens|, i requires 0 <= i < |tokens| => stem(tokens[i]))
  }

  /** The stemmed tokens of a text. */
  function StemmedTokens(lang: Language, text: string): seq<string> {
    Stems(lang.stem, Tokens(lang, Runs(lang, text, "")))
  }

  predicate Smooth(tokens: seq<string>) { forall i :: 0 <= i < |tokens| ==> Lacks(tokens[i], '_') }

  /** Stemmed tokens hold no underscore. */
  lemma StemmedTokensAreSmooth(lang: Language, text: string)
    requires LanguageOk(lang)
    ensures Smooth(StemmedTokens(lang, text))
  {
    var tokens := Tokens(lang, Runs(lang, text, ""));
    RunsAreKept(lang, text, "");
    TokensAreWords(lang, Runs(lang, text, ""));
    forall i | 0 <= i < |tokens|
      ensures Lacks(tokens[i], '_')
    {
      assert tokens[i] in tokens && AllKept(lang, tokens[i]);
    }
  }

  // ----- n-grams -----

  function Bigrams(t: seq<string>): seq<string> {
    seq(if |t| < 2 then 0 else |t| - 1, i requires 0 <= i && i + 1 < |t| => t[i] + "_" + t[i + 1])
  }

  function Trigrams(t: seq<string>): seq<string> {
    seq(if |t| < 3 then 0 else |t| - 2, i requires 0 <= i && i + 2 < |t| => t[i] + "_" + t[i + 1] + "_" + t[i + 2])
  }

  function Grams(t: seq<string>): seq<string> { t + Bigrams(t) + Trigrams(t) }

  method Generate(tokens: seq<string>) returns (ngrams: seq<string>)
    ensures ngrams == Grams(tokens)
  {
    if |tokens| == 0 { return []; }
    ngrams := tokens;
    var i := 0;
    while i < |tokens| - 1
      invariant i <= |tokens| - 1 && ngrams == tokens + Bigrams(tokens)[..i]
    {
      ngrams := ngrams + [tokens[i] + "_" + tokens[i + 1]];
      i := i + 1;
    }
    assert ngrams == tokens + Bigrams(tokens);
    i := 0;
    while i < |tokens| - 2
      invariant i <= |Trigrams(tokens)| && ngrams == tokens + Bigrams(tokens) + Trigrams(tokens)[..i]
    {
      ngrams := ngrams + [tokens[i] + "_" + tokens[i + 1] + "_" + tokens[i + 2]];
      i := i + 1;
    }
    assert Trigrams(tokens)[..i] == Trigrams(tokens);
  }

  method GenerateFromPhrase(lang: Language, phrase: string) returns (ngrams: seq<string>)
    ensures ngrams == Grams(StemmedTokens(lang, phrase))
  {
    var tokens := Tokenize(lang, phrase);
    if |tokens| == 0 { return []; }
    var stemmed: seq<string> := [];
    for i := 0 to |tokens|
      invariant stemmed == Stems(lang.stem, tokens)[..i]
    {
      stemmed := stemmed + [lang.stem(tokens[i])];
    }
    assert Stems(lang.stem, tokens)[..|tokens|] == Stems(lang.stem, tokens);
    ngrams := Generate(stemmed);
  }

  /** The n-grams are the tokens, the pairs and the triples of neighbours, joined by underscores. */
  lemma GramsExactly(t: seq<string>, g: string)
    ensures g in Grams(t) <==>
            || (exists i :: 0 <= i < |t| && g == t[i])
            || (exists i :: 0 <= i < |t| - 1 && g == t[i] + "_" + t[i + 1])
            || (exists i :: 0 <= i < |t| - 2 && g == t[i] + "_" + t[i + 1] + "_" + t[i + 2])
  {
    BigramsExactly(t, g);
    TrigramsExactly(t, g);
    assert g in Grams(t) <==> g in t || g in Bigrams(t) || g in Trigrams(t);
  }

  lemma BigramsExactly(t: seq<string>, g: string)
    ensures g in Bigrams(t) <==> exists i :: 0 <= i < |t| - 1 && g == t[i] + "_" + t[i + 1]
  {
    if i :| 0 <= i < |t| - 1 && g == t[i] + "_" + t[i + 1] {
      assert Bigrams(t)[i] == g;
    }
  }

  lemma TrigramsExactly(t: seq<string>, g: string)
    ensures g in Trigrams(t) <==> exists i :: 0 <= i < |t| - 2 && g == t[i] + "_" + t[i + 1] + "_" + t[i + 2]
  {
    if i :| 0 <= i < |t| - 2 && g == t[i] + "_" + t[i + 1] + "_" + t[i + 2] {
      assert Trigrams(t)[i] == g;
    }
  }

  /** Every n-gram of a stretch of tokens is one of the whole. */
  lemma GramsOfStretch(t: seq<string>, a: nat, b: nat, g: string)
    requires a <= b <= |t| && g in Grams(t[a..b])
    ensures g in Grams(t)
  {
    var u := t[a..b];
    if g in u {
      assert g in t;
    } else if g in Bigrams(u) {
      var i :| 0 <= i < |Bigrams(u)| && Bigrams(u)[i] == g;
      assert g == Bigrams(t)[a + i];
    } else {
      var i :| 0 <= i < |Trigrams(u)| && Trigrams(u)[i] == g;
      assert g == Trigrams(t)[a + i];
    }
  }

  // ----- what the underscores say -----

  function Underscores(s: string): nat {
    if s == "" then 0 else (if s[0] == '_' then 1 else 0) + Underscores(s[1..])
  }

  lemma {:induction false} UnderscoresAppend(a: string, b: string)
    ensures Underscores(a + b) == Underscores(a) + Underscores(b)
  {
    if a == "" {
      assert a + b == b;
    } else {
      assert (a + b)[1..] == a[1..] + b;
      UnderscoresAppend(a[1..], b);
    }
  }

  lemma {:induction false} NoUnderscores(a: string)
    requires Lacks(a, '_')
    ensures Underscores(a) == 0
  {
    if a != "" {
      assert forall i :: 0 <= i < |a[1..]| ==> a[1..][i] == a[i + 1];
      NoUnderscores(a[1..]);
    }
  }

  lemma Joined(a: string, b: string)
    ensures Underscores(a + "_" + b) == Underscores(a) + 1 + Underscores(b)
  {
    UnderscoresAppend(a, "_");
    UnderscoresAppend(a + "_", b);
    assert Underscores("_") == 1 + Underscores("_"[1..]);
  }

  /** The points of an n-gram, by its underscores. */
  function Points(g: string): nat {
    match Underscores(g)
    case 0 => 1
    case 1 => 3
    case 2 => 5
    case _ => 0
  }

  /** Because tokens hold none, the number of underscores is one less than the length of the n-gram:
      one, three and five points go to one, two and three tokens. */
  lemma UnderscoresTellLength(t: seq<string>, i: nat)
    requires Smooth(t) && i < |t|
    ensures Points(t[i]) == 1
    ensures i + 1 < |t| ==> Points(Bigrams(t)[i]) == 3
    ensures i + 2 < |t| ==> Points(Trigrams(t)[i]) == 5
  {
    NoUnderscores(t[i]);
    if i + 1 < |t| {
      NoUnderscores(t[i + 1]);
      Joined(t[i], t[i + 1]);
      if i + 2 < |t| {
        NoUnderscores(t[i + 2]);
        Joined(t[i] + "_" + t[i + 1], t[i + 2]);
      }
    }
  }
}

/** Scoring rules against a text, and filling a classification from the best of them. */
module Matcher {
  import opened Wrappers
  import opened NGrams

  datatype Rule = Rule(keywords: seq<string>, project: string, kind: string, priority: string, weight: int)

  datatype Scored = Scored(rule: Rule, score: int, matches: seq<string>)

  // ----- lists without repetition, and sums of points -----

  function Unique(items: seq<string>): (r: seq<string>)
    ensures forall x :: x in r <==> x in items
    ensures forall i, j :: 0 <= i < j < |r| ==> r[i] != r[j]
  {
    if items == [] then []
    else
      var before, x := Unique(items[..|items| - 1]), items[|items| - 1];
      assert items == items[..|items| - 1] + [x];
      if x in before then before else before + [x]
  }

  method UniqueStrings(items: seq<string>) returns (result: seq<string>)
    ensures result == Unique(items)
  {
    var seen: set<string> := {};
    result := [];
    for i := 0 to |items|
      invariant result == Unique(items[..i]) && forall x :: x in seen <==> x in result
    {
      assert items[..i + 1][..i] == items[..i];
      if items[i] !in seen {
        seen := seen + {items[i]};
        result := result + [items[i]];
      }
    }
    assert items[..|items|] == items;
  }

  /** The rule's n-grams found in the text. */
  function Found(grams: seq<string>, text: set<string>): seq<string> {
    if grams == [] then []
    else
      var before, g := Found(grams[..|grams| - 1], text), grams[|grams| - 1];
      if g in text then before + [g] else before
  }

  function Total(grams: seq<string>): nat {
    if grams == [] then 0 else Total(grams[..|grams| - 1]) + Points(grams[|grams| - 1])
  }

  predicate Distinct(s: seq<string>) { forall i, j :: 0 <= i < j < |s| ==> s[i] != s[j] }

  lemma {:induction false} TotalAppend(a: seq<string>, b: seq<string>)
    ensures Total(a + b) == Total(a) + Total(b)
  {
    if b == [] {
      assert a + b == a;
    } else {
      assert (a + b)[..|a + b| - 1] == a + b[..|b| - 1];
      TotalAppend(a, b[..|b| - 1]);
    }
  }

  /** A list whose distinct members all occur in another has no higher total. */
  lemma {:induction false} TotalOfPart(a: seq<string>, b: seq<string>)
    requires Distinct(a) && forall x :: x in a ==> x in b
    ensures Total(a) <= Total(b)
    decreases |a|
  {
    if a != [] {
      var n := |a| - 1;
      assert a[n] in b;
      var k :| 0 <= k < |b| && b[k] == a[n];
      var rest := b[..k] + b[k + 1..];
      forall x | x in a[..n]
        ensures x in rest
      {
        var i :| 0 <= i < n && a[i] == x;
        assert x in b && x != b[k];
        assert b == b[..k] + [b[k]] + b[k + 1..];
      }
      TotalOfPart(a[..n], rest);
      TotalAppend(b[..k], b[k + 1..]);
      TotalAppend(b[..k], [b[k]]);
      TotalAppend(b[..k] + [b[k]], b[k + 1..]);
      assert b == b[..k] + [b[k]] + b[k + 1..];
      assert [b[k]][..0] == [] && Total([b[k]]) == Points(b[k]);
    }
  }

  lemma {:induction false} FoundIsIntersection(grams: seq<string>, text: set<string>)
    ensures forall g :: g in Found(grams, text) <==> g in grams && g in text
    ensures Distinct(grams) ==> Distinct(Found(grams, text))
  {
    if grams != [] {
      var n := |grams| - 1;
      FoundIsIntersection(grams[..n], text);
      assert grams == grams[..n] + [grams[n]];
    }
  }

  // ----- rules against a text -----

  function Phrases(lang: Language, keywords: seq<string>): seq<string> {
    if keywords == [] then []
    else Phrases(lang, keywords[..|keywords| - 1]) + Grams(StemmedTokens(lang, keywords[|keywords| - 1]))
  }

  /** The distinct n-grams of a rule's keywords. */
  function RuleGrams(lang: Language, rule: Rule): seq<string> { Unique(Phrases(lang, rule.keywords)) }

  function TextGrams(lang: Language, text: string): set<string> { set g | g in Grams(StemmedTokens(lang, text)) }

  /** The rule's match in a text, if any of its n-grams scores. */
  function MatchOf(rule: Rule, grams: seq<string>, text: set<string>): Option<Scored> {
    if Total(Found(grams, text)) == 0 then None
    else Some(Scored(rule, Total(Found(grams, text)) * rule.weight, Found(grams, text)))
  }

  /** What a keyword is worth when the text holds all of it. */
  function FullScore(lang: Language, keyword: string): nat { Total(Unique(Grams(StemmedTokens(lang, keyword)))) }

  lemma {:induction false} PhrasesHold(lang: Language, keywords: seq<string>, k: nat, g: string)
    requires k < |keywords| && g in Grams(StemmedTokens(lang, keywords[k]))
    ensures g in Phrases(lang, keywords)
  {
    var n := |keywords| - 1;
    if k < n {
      PhrasesHold(lang, keywords[..n], k, g);
    }
  }

  /** A single token is worth a point, so no keyword with tokens is worthless. */
  lemma FullScorePositive(lang: Language, keyword: string)
    requires LanguageOk(lang) && StemmedTokens(lang, keyword) != []
    ensures FullScore(lang, keyword) >= 1
  {
    var t := StemmedTokens(lang, keyword);
    StemmedTokensAreSmooth(lang, keyword);
    UnderscoresTellLength(t, 0);
    assert t[0] in Grams(t);
    assert [t[0]][..0] == [] && Total([t[0]]) == 1;
    TotalOfPart([t[0]], Unique(Grams(t)));
  }

  /** If the stemmed tokens of a keyword stand side by side in those of the text, its rule matches,
      and its score is the rule's weight times at least what that keyword is worth. */
  lemma KeywordInTextScores(lang: Language, rule: Rule, k: nat, text: string, a: nat, b: nat)
    requires LanguageOk(lang) && k < |rule.keywords|
    requires a < b <= |StemmedTokens(lang, text)|
    requires StemmedTokens(lang, text)[a..b] == StemmedTokens(lang, rule.keywords[k])
    ensures var m := MatchOf(rule, RuleGrams(lang, rule), TextGrams(lang, text));
      m.Some? && m.value.score == Total(m.value.matches) * rule.weight &&
      Total(m.value.matches) >= FullScore(lang, rule.keywords[k]) &&
      (rule.weight >= 0 ==> m.value.score >= FullScore(lang, rule.keywords[k]) * rule.weight)
  {
    var part := Unique(Grams(StemmedTokens(lang, rule.keywords[k])));
    var grams, all := RuleGrams(lang, rule), TextGrams(lang, text);
    forall g | g in part
      ensures g in Found(grams, all)
    {
      PhrasesHold(lang, rule.keywords, k, g);
      GramsOfStretch(StemmedTokens(lang, text), a, b, g);
      FoundIsIntersection(grams, all);
    }
    TotalOfPart(part, Found(grams, all));
    FullScorePositive(lang, rule.keywords[k]);
    if rule.weight >= 0 {
      Scales(Total(part), Total(Found(grams, all)), rule.weight);
    }
  }

  lemma Scales(x: int, y: int, w: int)
    requires x <= y && w >= 0
    ensures x * w <= y * w
  {
  }

  // ----- ranking -----

  predicate Ranked(ms: seq<Scored>) { forall i, j :: 0 <= i < j < |ms| ==> ms[i].score >= ms[j].score }

  /** The order rules were visited in: each index once. */
  predicate IsOrder(order: seq<nat>, n: nat) {
    && (forall k :: 0 <= k < |order| ==> order[k] < n)
    && (forall j, k :: 0 <= j < k < |order| ==> order[j] != order[k])
    && (forall i :: 0 <= i < n ==> i in order)
  }

  /** Every rule's match, by the rule's index. */
  function Results(lang: Language, rules: seq<Rule>, text: set<string>): seq<Option<Scored>> {
    seq(|rules|, i requires 0 <= i < |rules| => MatchOf(rules[i], RuleGrams(lang, rules[i]), text))
  }

  /** The matches in the order the rules were visited. */
  function Along(results: seq<Option<Scored>>, order: seq<nat>): seq<Scored>
    requires forall k :: 0 <= k < |order| ==> order[k] < |results|
  {
    if order == [] then []
    else Along(results, order[..|order| - 1]) + Listed(results[order[|order| - 1]])
  }

  lemma AlongSnoc(results: seq<Option<Scored>>, order: seq<nat>, i: nat)
    requires i < |results| && forall k :: 0 <= k < |order| ==> order[k] < |results|
    ensures Along(results, order + [i]) == Along(results, order) + Listed(results[i])
  {
    assert (order + [i])[..|order|] == order;
  }

  /** The indexes not left were visited once each. */
  predicate Visited(order: seq<nat>, left: set<nat>, n: nat) {
    && (forall k :: 0 <= k < |order| ==> order[k] < n && order[k] !in left)
    && (forall j, k :: 0 <= j < k < |order| ==> order[j] != order[k])
    && (forall i: nat :: i < n && i !in left ==> i in order)
  }

  lemma VisitOne(order: seq<nat>, left: set<nat>, n: nat, i: nat)
    requires Visited(order, left, n) && i in left && i < n
    ensures Visited(order + [i], left - {i}, n)
  {
  }

  /** Exactly one match for every rule that matches, best first. */
  predicate BestFirst(ms: seq<Scored>, results: seq<Option<Scored>>, order: seq<nat>) {
    IsOrder(order, |results|) && multiset(ms) == multiset(Along(results, order)) && Ranked(ms)
  }

  function Listed<T>(o: Option<T>): seq<T> { if o.Some? then [o.value] else [] }

  /** Puts a match before the first one that scores less. */
  method Place(ms: seq<Scored>, m: Scored) returns (r: seq<Scored>)
    requires Ranked(ms)
    ensures Ranked(r) && multiset(r) == multiset(ms) + multiset{m}
  {
    var i := 0;
    while i < |ms| && ms[i].score >= m.score
      invariant 0 <= i <= |ms| && forall k :: 0 <= k < i ==> ms[k].score >= m.score
    {
      i := i + 1;
    }
    r := ms[..i] + [m] + ms[i..];
    assert ms == ms[..i] + ms[i..];
  }

  /** sort.Slice by descending score; what it does with ties is left open by the contract. */
  method SortByScore(ms: seq<Scored>) returns (r: seq<Scored>)
    ensures Ranked(r) && multiset(r) == multiset(ms)
  {
    r := [];
    for i := 0 to |ms|
      invariant Ranked(r) && multiset(r) == multiset(ms[..i])
    {
      r := Place(r, ms[i]);
      assert ms[..i + 1] == ms[..i] + [ms[i]];
    }
    assert ms[..|ms|] == ms;
  }

  /** The n-grams of a rule's keywords, without repetition. */
  method DistinctNGrams(lang: Language, rule: Rule) returns (distinct: seq<string>)
    ensures distinct == RuleGrams(lang, rule)
  {
    var keywords := rule.keywords;
    var all: seq<string> := [];
    for j := 0 to |keywords|
      invariant all == Phrases(lang, keywords[..j])
    {
      var phraseNGrams := GenerateFromPhrase(lang, keywords[j]);
      all := all + phraseNGrams;
      assert keywords[..j + 1][..j] == keywords[..j];
    }
    assert keywords[..|keywords|] == keywords;
    distinct := UniqueStrings(all);
  }

  class RuleMatcher {
    const lang: Language
    const rules: seq<Rule>
    var normalizedRules: map<nat, seq<string>>

    ghost predicate Valid()
      reads this
    {
      && (forall i: nat :: i in normalizedRules <==> i < |rules|)
      && (forall i: nat :: i < |rules| ==> normalizedRules[i] == RuleGrams(lang, rules[i]))
    }

    constructor (lang: Language, rules: seq<Rule>)
      ensures Valid() && this.lang == lang && this.rules == rules
    {
      this.lang, this.rules, normalizedRules := lang, rules, map[];
      new;
      for i := 0 to |rules|
        invariant forall k: nat :: k in normalizedRules <==> k < i
        invariant forall k: nat :: k < i ==> normalizedRules[k] == RuleGrams(lang, rules[k])
      {
        var distinct := DistinctNGrams(lang, rules[i]);
        normalizedRules := normalizedRules[i := distinct];
      }
    }

    /** The score of one rule, and its n-grams found. */
    method ScoreRule(ruleNGrams: seq<string>, text: set<string>) returns (score: nat, matched: seq<string>)
      ensures matched == Found(ruleNGrams, text) && score == Total(matched)
    {
      score, matched := 0, [];
      for i := 0 to |ruleNGrams|
        invariant matched == Found(ruleNGrams[..i], text) && score == Total(matched)
      {
        assert ruleNGrams[..i + 1][..i] == ruleNGrams[..i];
        if ruleNGrams[i] in text {
          TotalAppend(matched, [ruleNGrams[i]]);
          assert [ruleNGrams[i]][..0] == [];
          score, matched := score + Points(ruleNGrams[i]), matched + [ruleNGrams[i]];
        }
      }
      assert ruleNGrams[..|ruleNGrams|] == ruleNGrams;
    }

    /** The match of one rule, as the results list it. */
    method MatchRule(i: nat, text: set<string>) returns (m: Option<Scored>)
      requires Valid() && i < |rules|
      ensures m == Results(lang, rules, text)[i]
    {
      var score, matched := ScoreRule(normalizedRules[i], text);
      m := if score > 0 then Some(Scored(rules[i], score * rules[i].weight, matched)) else None;
    }

    /** The rules' matches in the order of the map, whatever that is. */
    method CollectMatches(textSet: set<string>, ghost results: seq<Option<Scored>>)
      returns (found: seq<Scored>, ghost order: seq<nat>)
      requires Valid() && results == Results(lang, rules, textSet)
      ensures IsOrder(order, |results|) && found == Along(results, order)
    {
      found, order := [], [];
      var left := normalizedRules.Keys;
      while left != {}
        invariant left <= normalizedRules.Keys
        invariant Visited(order, left, |rules|)
        invariant found == Along(results, order)
        decreases left
      {
        var i :| i in left;
        var m := MatchRule(i, textSet);
        VisitOne(order, left, |rules|, i);
        left := left - {i};
        AlongSnoc(results, order, i);
        found, order := found + Listed(m), order + [i];
      }
    }

    /** The matches of the rules, visited in some order, sorted by descending score; none for a text
        without tokens. */
    method Match(text: string) returns (matches: seq<Scored>, ghost order: seq<nat>)
      requires Valid()
      ensures StemmedTokens(lang, text) == [] ==> matches == []
      ensures StemmedTokens(lang, text) != [] ==> BestFirst(matches, Results(lang, rules, TextGrams(lang, text)), order)
    {
      order := [];
      var tokens := Tokenize(lang, text);
      if |tokens| == 0 { return [], []; }
      var textNGrams := GenerateFromPhrase(lang, text);
      var found;
      var textSet := set g | g in textNGrams;
      found, order := CollectMatches(textSet, Results(lang, rules, textSet));
      matches := SortByScore(found);
    }
  }
}
