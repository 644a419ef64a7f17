/** The Russian stemmer: regions of a word, and the suffixes each step removes. Words are sequences
    of characters; `lower` stands for the lower case of one character. */
module Stemmer {
  import opened Text
  import opened StemmerRules

  const VOWELS := "аеиоуыэюя"

  predicate IsVowel(c: char) { c in VOWELS }

  function FoldedChar(lower: char -> char, c: char): char { if lower(c) == 'ё' then 'е' else lower(c) }

  /** The word in lower case with ё written as е. */
  function Folded(lower: char -> char, word: string): string {
    seq(|word|, i requires 0 <= i < |word| => FoldedChar(lower, word[i]))
  }

  // ----- regions -----

  /** The first vowel at or after i, or the length. */
  function VowelFrom(w: string, i: nat): (k: nat)
    requires i <= |w|
    ensures i <= k <= |w| && (k < |w| ==> IsVowel(w[k]))
    ensures forall j :: i <= j < k ==> !IsVowel(w[j])
    decreases |w| - i
  {
    if i == |w| || IsVowel(w[i]) then i else VowelFrom(w, i + 1)
  }

  predicate Turn(w: string, i: nat) { i + 1 < |w| && IsVowel(w[i]) && !IsVowel(w[i + 1]) }

  /** The first vowel at or after i with a consonant after it, or the length. */
  function TurnFrom(w: string, i: nat): (k: nat)
    requires i <= |w|
    ensures i <= k <= |w| && (k < |w| ==> Turn(w, k))
    ensures forall j :: i <= j < k ==> !Turn(w, j)
    decreases |w| - i
  {
    if i == |w| || Turn(w, i) then i else TurnFrom(w, i + 1)
  }

  /** Where the region after the first vowel starts; 0 without a vowel. */
  function RvStart(w: string): nat { if VowelFrom(w, 0) < |w| then VowelFrom(w, 0) + 1 else 0 }

  function AfterTurn(w: string, from: nat): (r: nat)
    requires from <= |w|
    ensures r == 0 || from + 2 <= r <= |w|
  {
    if TurnFrom(w, from) < |w| then TurnFrom(w, from) + 2 else 0
  }

  /** Where the region after the second such consonant starts; 0 if there is none. */
  function R2Start(w: string): nat { if AfterTurn(w, 0) > 0 then AfterTurn(w, AfterTurn(w, 0)) else 0 }

  function Rv(w: string): string { if RvStart(w) > 0 then w[RvStart(w)..] else "" }

  /** R2 lies inside RV. */
  lemma RegionsNest(w: string)
    ensures RvStart(w) <= |w| && R2Start(w) <= |w|
    ensures R2Start(w) > 0 ==> 0 < RvStart(w) < R2Start(w)
  {
    if AfterTurn(w, 0) > 0 {
      var k := TurnFrom(w, 0);
      assert IsVowel(w[k]) && VowelFrom(w, 0) <= k;
    }
  }

  method FindTurn(w: string, from: nat) returns (after: nat)
    requires from <= |w|
    ensures after == AfterTurn(w, from)
  {
    after := 0;
    var i := from;
    while i + 1 < |w|
      invariant from <= i <= |w| && forall j :: from <= j < i ==> !Turn(w, j)
      decreases |w| - i
    {
      if IsVowel(w[i]) && !IsVowel(w[i + 1]) {
        assert Turn(w, i) && TurnFrom(w, from) == i;
        return i + 2;
      }
      i := i + 1;
    }
    assert forall j :: from <= j < |w| ==> !Turn(w, j);
    assert TurnFrom(w, from) == |w|;
  }

  method MarkRegions(word: string) returns (rv: string, rvStart: nat, r2Start: nat)
    ensures rv == Rv(word) && rvStart == RvStart(word) && r2Start == R2Start(word)
  {
    rv, rvStart, r2Start := "", 0, 0;
    var i := 0;
    while i < |word|
      invariant i <= |word| && VowelFrom(word, 0) == VowelFrom(word, i) && rvStart == 0 && rv == ""
    {
      if IsVowel(word[i]) {
        rvStart := i + 1;
        rv := word[rvStart..];
        break;
      }
      i := i + 1;
    }
    var r1 := FindTurn(word, 0);
    if r1 > 0 { r2Start := FindTurn(word, r1); }
  }

  // ----- suffixes -----

  /** The suffix ends the region; a guarded one must follow а or я inside it. */
  predicate Fits(rv: string, suffix: string, guarded: bool) {
    HasSuffix(rv, suffix) && (!guarded || (|suffix| < |rv| && rv[|rv| - |suffix| - 1] in {'а', 'я'}))
  }

  /** The first of the longest fitting suffixes that beat `best`, else `best`. */
  function Longest(list: seq<string>, rv: string, guarded: bool, best: string): string {
    if list == [] then best
    else
      var b, s := Longest(list[..|list| - 1], rv, guarded, best), list[|list| - 1];
      if Fits(rv, s, guarded) && |s| > |b| then s else b
  }

  /** It is the start value or a fitting suffix of the list, and no fitting suffix is longer. */
  lemma {:induction false} LongestIsLongest(list: seq<string>, rv: string, guarded: bool, best: string)
    ensures var b := Longest(list, rv, guarded, best); b == best || (b in list && Fits(rv, b, guarded))
    ensures forall s :: s in list && Fits(rv, s, guarded) ==> |s| <= |Longest(list, rv, guarded, best)|
    ensures |best| <= |Longest(list, rv, guarded, best)|
  {
    if list != [] {
      var n := |list| - 1;
      LongestIsLongest(list[..n], rv, guarded, best);
      assert list == list[..n] + [list[n]];
    }
  }

  lemma LongestFits(list: seq<string>, rv: string, guarded: bool, best: string)
    requires HasSuffix(rv, best)
    ensures HasSuffix(rv, Longest(list, rv, guarded, best))
  {
    LongestIsLongest(list, rv, guarded, best);
  }

  method LongestSuffix(list: seq<string>, rv: string, guarded: bool, start: string) returns (best: string)
    ensures best == Longest(list, rv, guarded, start)
  {
    best := start;
    for i := 0 to |list|
      invariant best == Longest(list[..i], rv, guarded, start)
    {
      assert list[..i + 1][..i] == list[..i];
      if HasSuffix(rv, list[i]) && |list[i]| > |best| {
        if !guarded || (|list[i]| < |rv| && rv[|rv| - |list[i]| - 1] in {'а', 'я'}) { best := list[i]; }
      }
    }
    assert list[..|list|] == list;
  }

  /** The first fitting suffix of the list, or the empty one. */
  function First(list: seq<string>, rv: string, guarded: bool): (s: string)
    ensures HasSuffix(rv, s)
  {
    if list == [] then "" else if Fits(rv, list[0], guarded) then list[0] else First(list[1..], rv, guarded)
  }

  method FirstSuffix(list: seq<string>, rv: string, guarded: bool) returns (s: string)
    ensures s == First(list, rv, guarded)
  {
    for i := 0 to |list|
      invariant First(list[i..], rv, guarded) == First(list, rv, guarded)
    {
      if Fits(rv, list[i], guarded) { return list[i]; }
      assert list[i..][1..] == list[i + 1..];
    }
    s := "";
  }

  // ----- the steps -----

  const GERUND1 := ["вшись", "вши", "в"]
  const GERUND2 := ["ившись", "ывшись", "ивши", "ывши", "ив", "ыв"]
  const REFLEXIVE := ["ся", "сь"]
  const ADJECTIVE := [
    "ее", "ие", "ые", "ое", "ими", "ыми", "ей", "ий", "ый", "ой", "ем", "им", "ым", "ом", "его", "ого",
    "ему", "ому", "их", "ых", "ую", "юю", "ая", "яя", "ою", "ею"]
  const PARTICIPLE1 := ["ем", "нн", "вш", "ющ", "щ"]
  const PARTICIPLE2 := ["ивш", "ывш", "ующ"]
  const VERB1 := [
    "ла", "на", "ете", "йте", "ли", "й", "л", "ем", "н", "ло", "но", "ет", "ют", "ны", "ть", "ешь", "нно"]
  const VERB2 := [
    "ила", "ыла", "ена", "ейте", "уйте", "ите", "или", "ыли", "ей", "уй", "ил", "ыл", "им", "ым", "ен",
    "ило", "ыло", "ено", "ят", "ует", "уют", "ит", "ыт", "ены", "ить", "ыть", "ишь", "ую", "ю"]
  const NOUN := [
    "а", "ев", "ов", "ие", "ье", "е", "иями", "ями", "ами", "еи", "ии", "и", "ией", "ей", "ой", "ий",
    "й", "иям", "ям", "ием", "ем", "ам", "ом", "о", "у", "ах", "иях", "ях", "ы", "ь", "ию", "ью", "ю",
    "ия", "ья", "я"]

  const RUSSIAN := Endings(
    GERUND1, GERUND2, REFLEXIVE, ADJECTIVE, PARTICIPLE1, PARTICIPLE2, VERB1, VERB2, NOUN, ["ость", "ост"], ["ейше", "ейш"])

  /** What step 1 works on: the word and its region, which is always the word's tail. */
  datatype Split = Split(word: string, rv: string)

  predicate TailOk(p: Split) { HasSuffix(p.word, p.rv) }

  /** Both lose a suffix of the region. */
  function Dropped(p: Split, n: nat): (q: Split)
    requires TailOk(p) && n <= |p.rv|
    ensures TailOk(q) && |q.word| - |q.rv| == |p.word| - |p.rv|
    ensures q.word <= p.word && (n == 0 <==> q.word == p.word)
  {
    var q := Split(p.word[..|p.word| - n], p.rv[..|p.rv| - n]);
    assert p.word[|p.word| - |p.rv|..] == p.rv;
    assert q.word[|p.word| - |p.rv|..] == q.rv;
    q
  }

  /** The length of the gerund's ending; 0 for none. */
  function GerundCut(e: Endings, rv: string): (n: nat)
    ensures n <= |rv|
  {
    if First(e.gerund1, rv, true) != "" then |First(e.gerund1, rv, true)| else |First(e.gerund2, rv, false)|
  }

  function ReflexiveCut(e: Endings, rv: string): (n: nat)
    ensures n <= |rv|
  {
    |First(e.reflexive, rv, false)|
  }

  function AdjectiveCut(e: Endings, rv: string): (n: nat)
    ensures n <= |rv|
  {
    LongestFits(e.adjective, rv, false, "");
    |Longest(e.adjective, rv, false, "")|
  }

  /** After the adjective's ending: the participle's, one of the first kind only after а or я. */
  function ParticipleCut(e: Endings, rv: string): (n: nat)
    ensures n <= |rv|
  {
    LongestFits(e.participle1, rv, false, "");
    var one := Longest(e.participle1, rv, false, "");
    LongestFits(e.participle2, rv, false, one);
    var best := Longest(e.participle2, rv, false, one);
    if best != one || Fits(rv, best, true) then |best| else 0
  }

  function VerbCut(e: Endings, rv: string): (n: nat)
    ensures n <= |rv|
  {
    LongestFits(e.verb1, rv, true, "");
    LongestFits(e.verb2, rv, false, Longest(e.verb1, rv, true, ""));
    |Longest(e.verb2, rv, false, Longest(e.verb1, rv, true, ""))|
  }

  function NounCut(e: Endings, rv: string): (n: nat)
    ensures n <= |rv|
  {
    LongestFits(e.noun, rv, false, "");
    |Longest(e.noun, rv, false, "")|
  }

  /** The adjective's ending, and before it the participle's. */
  function Adjectival(e: Endings, p: Split): (w: string)
    requires TailOk(p)
    ensures w <= p.word && |p.word| - |p.rv| <= |w| && (w == p.word <==> AdjectiveCut(e, p.rv) == 0)
  {
    var q := Dropped(p, AdjectiveCut(e, p.rv));
    if AdjectiveCut(e, p.rv) == 0 then p.word else Dropped(q, ParticipleCut(e, q.rv)).word
  }

  function AfterReflexive(e: Endings, p: Split): (w: string)
    requires TailOk(p)
    ensures w <= p.word && |p.word| - |p.rv| <= |w|
  {
    if AdjectiveCut(e, p.rv) > 0 then Adjectival(e, p)
    else if VerbCut(e, p.rv) > 0 then Dropped(p, VerbCut(e, p.rv)).word
    else Dropped(p, NounCut(e, p.rv)).word
  }

  /** PERFECTIVE GERUND alone, or REFLEXIVE and then the first of ADJECTIVAL, VERB and NOUN that
      applies. Only the region loses characters. */
  function Step1(e: Endings, p: Split): (w: string)
    requires TailOk(p)
    ensures w <= p.word && |p.word| - |p.rv| <= |w|
  {
    if GerundCut(e, p.rv) > 0 then Dropped(p, GerundCut(e, p.rv)).word
    else AfterReflexive(e, Dropped(p, ReflexiveCut(e, p.rv)))
  }

  function Step2(word: string, rvStart: nat): (w: string)
    ensures w <= word && (rvStart <= |word| ==> rvStart <= |w|)
  {
    if HasSuffix(word, "и") && |word| - 1 >= rvStart then word[..|word| - 1] else word
  }

  /** The longest derivational suffix that lies inside R2. */
  function Step3(e: Endings, word: string, r2Start: nat): (w: string)
    ensures w <= word && (r2Start <= |word| ==> r2Start <= |w|)
    ensures r2Start == 0 || r2Start > |word| ==> w == word
  {
    if r2Start == 0 || r2Start > |word| then word
    else
      LongestFits(e.derivational, word[r2Start..], false, "");
      word[..|word| - |Longest(e.derivational, word[r2Start..], false, "")|]
  }

  function Undoubled(word: string): (w: string)
    ensures w <= word
  {
    if HasSuffix(word, "нн") then word[..|word| - 1] else word
  }

  /** Step 4 looks at the whole word, not at a region. */
  function Step4(e: Endings, word: string): (w: string)
    ensures w <= word
  {
    if HasSuffix(word, "нн") then word[..|word| - 1]
    else if First(e.superlative, word, false) != "" then Undoubled(word[..|word| - |First(e.superlative, word, false)|])
    else if HasSuffix(word, "ь") then word[..|word| - 1]
    else word
  }

  /** The word after steps 1 to 3. */
  function Inflected(e: Endings, w: string): string {
    RegionsNest(w);
    Step3(e, Step2(Step1(e, Split(w, Rv(w))), RvStart(w)), R2Start(w))
  }

  function Stem(e: Endings, lower: char -> char, word: string): string {
    var w := Folded(lower, word);
    if |w| <= 2 then w else Step4(e, Inflected(e, w))
  }

  // ----- what the steps leave alone -----

  /** Steps 1 to 3 leave the word up to and including its first vowel. */
  lemma InflectedKeepsFirstVowel(e: Endings, w: string)
    ensures Inflected(e, w) <= w && RvStart(w) <= |Inflected(e, w)|
  {
    RegionsNest(w);
    var one := Step1(e, Split(w, Rv(w)));
    var two := Step2(one, RvStart(w));
    assert one <= w && RvStart(w) <= |one|;
    assert two <= w && RvStart(w) <= |two|;
    var three := Step3(e, two, R2Start(w));
    assert three <= w;
    assert R2Start(w) > |two| || R2Start(w) == 0 ==> three == two;
  }

  lemma Step2NeedsVowel(w: string, rvStart: nat)
    requires Vowelless(w)
    ensures Step2(w, rvStart) == w
  {
    assert IsVowel('и');
    SuffixEnds(w);
  }

  /** And they leave a word without vowels alone. */
  lemma InflectedWithoutVowel(e: Endings, w: string)
    requires Vowelless(w)
    ensures Inflected(e, w) == w
  {
    assert VowelFrom(w, 0) == |w| && RvStart(w) == 0;
    RegionsNest(w);
    Step2NeedsVowel(w, 0);
    assert Step1(e, Split(w, "")) == w;
  }

  /** The stem is a beginning of the folded word. */
  lemma StemIsPrefix(e: Endings, lower: char -> char, word: string)
    ensures Stem(e, lower, word) <= Folded(lower, word)
  {
    InflectedKeepsFirstVowel(e, Folded(lower, word));
  }

  // ----- step 4 is not confined to the region -----

  /** No suffix of the list ends in c. */
  predicate NoneEndsIn(list: seq<string>, c: char) {
    forall k :: 0 <= k < |list| ==> list[k] != "" && list[k][|list[k]| - 1] != c
  }

  lemma SuffixEnds(rv: string)
    ensures forall s :: s != "" && HasSuffix(rv, s) ==> rv != "" && s[|s| - 1] == rv[|rv| - 1]
  {
    forall s | s != "" && HasSuffix(rv, s)
      ensures rv != "" && s[|s| - 1] == rv[|rv| - 1]
    {
      assert rv[|rv| - |s|..][|s| - 1] == rv[|rv| - 1];
    }
  }

  lemma {:induction false} FirstIsIn(list: seq<string>, rv: string, guarded: bool)
    ensures First(list, rv, guarded) == "" || First(list, rv, guarded) in list
  {
    if list != [] && !Fits(rv, list[0], guarded) {
      FirstIsIn(list[1..], rv, guarded);
    }
  }

  lemma NothingFits(list: seq<string>, rv: string, guarded: bool, c: char)
    requires NoneEndsIn(list, c) && (rv != "" ==> rv[|rv| - 1] == c)
    ensures Longest(list, rv, guarded, "") == "" && First(list, rv, guarded) == ""
  {
    SuffixEnds(rv);
    LongestIsLongest(list, rv, guarded, "");
    FirstIsIn(list, rv, guarded);
  }

  predicate NoInflectionEndsIn(e: Endings, c: char) {
    && NoneEndsIn(e.gerund1, c) && NoneEndsIn(e.gerund2, c) && NoneEndsIn(e.reflexive, c) && NoneEndsIn(e.adjective, c)
    && NoneEndsIn(e.verb1, c) && NoneEndsIn(e.verb2, c) && NoneEndsIn(e.noun, c) && NoneEndsIn(e.derivational, c)
  }

  lemma GerundsSpareSh()
    ensures NoneEndsIn(GERUND1, 'ш') && NoneEndsIn(GERUND2, 'ш') && NoneEndsIn(REFLEXIVE, 'ш')
  {
  }

  lemma AdjectivesSpareSh()
    ensures NoneEndsIn(ADJECTIVE, 'ш')
  {
  }

  lemma VerbsSpareSh()
    ensures NoneEndsIn(VERB1, 'ш') && NoneEndsIn(VERB2, 'ш')
  {
  }

  lemma NounsSpareSh()
    ensures NoneEndsIn(NOUN, 'ш')
  {
  }

  lemma RussianSparesSh()
    ensures NoInflectionEndsIn(RUSSIAN, 'ш')
  {
    GerundsSpareSh();
    AdjectivesSpareSh();
    VerbsSpareSh();
    NounsSpareSh();
  }

  lemma CutsVanish(e: Endings, rv: string, c: char)
    requires NoInflectionEndsIn(e, c) && (rv != "" ==> rv[|rv| - 1] == c)
    ensures GerundCut(e, rv) == ReflexiveCut(e, rv) == AdjectiveCut(e, rv) == VerbCut(e, rv) == NounCut(e, rv) == 0
  {
    NothingFits(e.gerund1, rv, true, c);
    NothingFits(e.gerund2, rv, false, c);
    NothingFits(e.reflexive, rv, false, c);
    NothingFits(e.adjective, rv, false, c);
    NothingFits(e.verb1, rv, true, c);
    NothingFits(e.verb2, rv, false, c);
    NothingFits(e.noun, rv, false, c);
  }

  lemma Step1Spares(e: Endings, p: Split, c: char)
    requires TailOk(p) && NoInflectionEndsIn(e, c) && (p.rv != "" ==> p.rv[|p.rv| - 1] == c)
    ensures Step1(e, p) == p.word
  {
    CutsVanish(e, p.rv, c);
    assert Dropped(p, 0) == p;
    assert AfterReflexive(e, p) == Dropped(p, 0).word;
  }

  lemma Step2Spares(w: string, rvStart: nat, c: char)
    requires c != 'и' && w != "" && w[|w| - 1] == c
    ensures Step2(w, rvStart) == w
  {
    SuffixEnds(w);
  }

  lemma Step3Spares(e: Endings, w: string, r2Start: nat, c: char)
    requires NoneEndsIn(e.derivational, c) && w != "" && w[|w| - 1] == c
    ensures Step3(e, w, r2Start) == w
  {
    if 0 < r2Start <= |w| {
      NothingFits(e.derivational, w[r2Start..], false, c);
    }
  }

  lemma InflectedSpares(e: Endings, w: string, c: char)
    requires NoInflectionEndsIn(e, c) && c != 'и' && w != "" && w[|w| - 1] == c
    ensures Inflected(e, w) == w
  {
    RegionsNest(w);
    Step1Spares(e, Split(w, Rv(w)), c);
    Step2Spares(w, RvStart(w), c);
    Step3Spares(e, w, R2Start(w), c);
  }

  lemma SuperlativeEnding(list: seq<string>, w: string)
    requires list == ["ейше", "ейш"] && HasSuffix(w, "ейш")
    ensures First(list, w, false) == "ейш" && !HasSuffix(w, "нн")
  {
    SuffixEnds(w);
    assert "ейш"[2] == 'ш' && "ейше"[3] == 'е' && "нн"[1] == 'н';
    assert list[0] == "ейше" && list[1..] == ["ейш"];
  }

  predicate Vowelless(x: string) { forall i :: 0 <= i < |x| ==> !IsVowel(x[i]) }

  /** The word is consonants and a superlative ending. */
  predicate BareSuperlative(v: string) {
    || (HasSuffix(v, "ейше") && Vowelless(v[..|v| - 4]))
    || (HasSuffix(v, "ейш") && Vowelless(v[..|v| - 3]))
  }

  lemma UndoubledKeeps(x: string, r: nat)
    requires r <= |x| && (r > 0 ==> IsVowel(x[r - 1]))
    ensures r <= |Undoubled(x)|
  {
    SuffixEnds(x);
    assert "нн"[1] == 'н' && !IsVowel('н');
  }

  /** Of a word whose first vowel is at r - 1, step 4 keeps that vowel unless it opens the ending. */
  lemma SuperlativeCut(v: string, s: string, r: nat)
    requires HasSuffix(v, s) && s != "" && IsVowel(s[0])
    requires 0 < r <= |v| && IsVowel(v[r - 1]) && Vowelless(v[..r - 1])
    ensures r <= |Undoubled(v[..|v| - |s|])| <==> !Vowelless(v[..|v| - |s|])
  {
    var x := v[..|v| - |s|];
    assert v[|x|..] == s && v[|x|] == s[0];
    assert forall i :: 0 <= i < r - 1 ==> v[..r - 1][i] == v[i];
    assert r - 1 <= |x|;
    if r <= |x| {
      assert x[r - 1] == v[r - 1];
      UndoubledKeeps(x, r);
    } else {
      assert x == v[..r - 1];
    }
  }

  lemma SuperlativeFirst(list: seq<string>, v: string)
    requires list == ["ейше", "ейш"]
    ensures First(list, v, false) == if HasSuffix(v, "ейше") then "ейше" else if HasSuffix(v, "ейш") then "ейш" else ""
  {
    var rest := list[1..];
    assert list[0] == "ейше" && rest == ["ейш"] && rest[1..] == [];
    assert First(rest, v, false) == if HasSuffix(v, "ейш") then "ейш" else First(rest[1..], v, false);
  }

  /** Step 4 when none of the doubled н is at the end. */
  lemma Step4Undoubles(e: Endings, v: string)
    requires e.superlative == ["ейше", "ейш"] && !HasSuffix(v, "нн")
    ensures HasSuffix(v, "ейше") ==> Step4(e, v) == Undoubled(v[..|v| - 4])
    ensures HasSuffix(v, "ейш") ==> Step4(e, v) == Undoubled(v[..|v| - 3])
    ensures !HasSuffix(v, "ейше") && !HasSuffix(v, "ейш") && HasSuffix(v, "ь") ==> Step4(e, v) == v[..|v| - 1]
    ensures !HasSuffix(v, "ейше") && !HasSuffix(v, "ейш") && !HasSuffix(v, "ь") ==> Step4(e, v) == v
  {
    SuperlativeFirst(e.superlative, v);
    SuperlativeEnds(v);
  }

  lemma Step4KeepsExactly(e: Endings, v: string, r: nat)
    requires e.superlative == ["ейше", "ейш"]
    requires 0 < r <= |v| && IsVowel(v[r - 1]) && Vowelless(v[..r - 1])
    ensures r <= |Step4(e, v)| <==> !BareSuperlative(v)
  {
    SuperlativeEnds(v);
    if HasSuffix(v, "нн") {
      UndoubledKeeps(v, r);
    } else {
      OtherwiseKeepsExactly(e, v, r);
    }
  }

  lemma OtherwiseKeepsExactly(e: Endings, v: string, r: nat)
    requires e.superlative == ["ейше", "ейш"] && !HasSuffix(v, "нн")
    requires 0 < r <= |v| && IsVowel(v[r - 1]) && Vowelless(v[..r - 1])
    ensures r <= |Step4(e, v)| <==> !BareSuperlative(v)
  {
    SuperlativeEnds(v);
    Step4Undoubles(e, v);
    if HasSuffix(v, "ейше") {
      SuperlativeCut(v, "ейше", r);
    } else if HasSuffix(v, "ейш") {
      SuperlativeCut(v, "ейш", r);
    } else if HasSuffix(v, "ь") {
      LastIsConsonant(v, r);
    }
  }

  lemma LastIsConsonant(v: string, r: nat)
    requires 0 < r <= |v| && IsVowel(v[r - 1]) && HasSuffix(v, "ь")
    ensures r < |v|
  {
    SuffixEnds(v);
    SoftSignIsNoVowel();
    assert v[|v| - 1] == "ь"[0];
  }

  lemma SoftSignIsNoVowel()
    ensures !IsVowel("ь"[0])
  {
    assert forall i :: 0 <= i < |VOWELS| ==> VOWELS[i] != 'ь';
  }

  /** No word ends in two of these. */
  lemma SuperlativeEnds(v: string)
    ensures HasSuffix(v, "ейш") ==> !HasSuffix(v, "нн") && !HasSuffix(v, "ейше")
    ensures HasSuffix(v, "ейше") ==> !HasSuffix(v, "нн")
  {
    SuffixEnds(v);
    assert "ейш"[2] == 'ш' && "ейше"[3] == 'е' && "нн"[1] == 'н';
  }

  lemma PrefixHasFirstVowel(w: string, v: string)
    requires RvStart(w) > 0 && v <= w && RvStart(w) <= |v|
    ensures IsVowel(v[RvStart(w) - 1]) && Vowelless(v[..RvStart(w) - 1])
  {
    var k := VowelFrom(w, 0);
    assert v[k] == w[k];
    assert forall i :: 0 <= i < k ==> v[i] == w[i];
  }

  /** The stem of a word with a vowel keeps the word up to its first vowel if and only if steps 1 to 3
      leave anything but consonants and "ейш" or "ейше". */
  lemma StemKeepsFirstVowelExactly(lower: char -> char, word: string)
    requires |Folded(lower, word)| > 2 && RvStart(Folded(lower, word)) > 0
    ensures RvStart(Folded(lower, word)) <= |Stem(RUSSIAN, lower, word)| <==>
            !BareSuperlative(Inflected(RUSSIAN, Folded(lower, word)))
  {
    var w := Folded(lower, word);
    InflectedKeepsFirstVowel(RUSSIAN, w);
    PrefixHasFirstVowel(w, Inflected(RUSSIAN, w));
    Step4KeepsExactly(RUSSIAN, Inflected(RUSSIAN, w), RvStart(w));
  }

  /** For instance, of consonants before "ейш" only the consonants remain, and of the bare ending an
      empty stem. */
  lemma Step4CrossesTheRegion(lower: char -> char, x: string)
    requires Folded(lower, x + "ейш") == x + "ейш"
    requires Vowelless(x) && !HasSuffix(x, "нн")
    ensures RvStart(x + "ейш") == |x| + 1 && Stem(RUSSIAN, lower, x + "ейш") == x
  {
    var w := x + "ейш";
    FirstVowelAfter(x, "ейш");
    RussianSparesSh();
    assert w[|w| - 1] == 'ш' && w[|x|..] == "ейш" && w[..|x|] == x;
    InflectedSpares(RUSSIAN, w, 'ш');
    SuperlativeEnding(RUSSIAN.superlative, w);
  }

  lemma FirstVowelAfter(x: string, y: string)
    requires Vowelless(x) && y != "" && IsVowel(y[0])
    ensures RvStart(x + y) == |x| + 1
  {
    var w := x + y;
    assert w[|x|] == y[0] && forall i :: 0 <= i < |x| ==> w[i] == x[i];
    assert VowelFrom(w, 0) == |x|;
  }

  // ----- the steps do what the rules say -----

  lemma VowelsAgree(c: char)
    ensures IsVowel(c) <==> Vowel(c)
  {
  }

  lemma FitsIsEnding(text: string, s: string, guarded: bool)
    ensures Fits(text, s, guarded) ==> EndsAs(text, text[..|text| - |s|], s, guarded)
    ensures forall x :: EndsAs(text, x, s, guarded) ==> Fits(text, s, guarded) && x == text[..|text| - |s|]
  {
    forall x | EndsAs(text, x, s, guarded)
      ensures Fits(text, s, guarded) && x == text[..|text| - |s|]
    {
      assert text[|text| - |s|..] == s;
    }
  }

  lemma LeftIsFitting(list: seq<string>, text: string, guarded: bool, x: string)
    ensures Leaves(list, text, guarded, x) <==>
            exists s :: s in list && Fits(text, s, guarded) && x == text[..|text| - |s|]
  {
    forall s
      ensures EndsAs(text, x, s, guarded) <==> Fits(text, s, guarded) && x == text[..|text| - |s|]
    {
      FitsIsEnding(text, s, guarded);
    }
  }

  /** The longest suffix found leaves the shortest rest. */
  lemma LongestRule(list: seq<string>, text: string, guarded: bool)
    requires Proper(list)
    ensures var b := Longest(list, text, guarded, "");
      HasSuffix(text, b) && (b == "" <==> NoneFits(list, text, guarded)) &&
      (b != "" ==> LongestGoes(list, text, guarded, text[..|text| - |b|]))
  {
    var b := Longest(list, text, guarded, "");
    LongestIsLongest(list, text, guarded, "");
    forall x
      ensures Leaves(list, text, guarded, x) <==>
              exists s :: s in list && Fits(text, s, guarded) && x == text[..|text| - |s|]
    {
      LeftIsFitting(list, text, guarded, x);
    }
    if b != "" {
      assert Leaves(list, text, guarded, text[..|text| - |b|]);
    }
  }

  lemma {:induction false} FirstRule(list: seq<string>, text: string, guarded: bool)
    requires Proper(list)
    ensures var b := First(list, text, guarded);
      (b == "" <==> NoneFits(list, text, guarded)) &&
      (b != "" ==> FirstGoes(list, text, guarded, text[..|text| - |b|]))
  {
    var i := FirstAt(list, text, guarded, 0);
    forall x, s
      ensures EndsAs(text, x, s, guarded) <==> Fits(text, s, guarded) && x == text[..|text| - |s|]
    {
      FitsIsEnding(text, s, guarded);
    }
    var b := First(list, text, guarded);
    if b == "" {
      assert forall s :: s in list ==> !Fits(text, s, guarded);
    } else {
      assert b == list[i] && EndsAs(text, text[..|text| - |b|], list[i], guarded);
      assert list[i] in list && Leaves(list, text, guarded, text[..|text| - |b|]);
    }
  }

  /** Where the first fitting suffix stands. */
  lemma {:induction false} FirstAt(list: seq<string>, text: string, guarded: bool, from: nat) returns (i: nat)
    requires from <= |list| && Proper(list)
    ensures from <= i <= |list| && forall j :: from <= j < i ==> !Fits(text, list[j], guarded)
    ensures if i == |list| then First(list[from..], text, guarded) == ""
            else Fits(text, list[i], guarded) && First(list[from..], text, guarded) == list[i] != ""
    decreases |list| - from
  {
    i := from;
    if from < |list| {
      assert list[from..][0] == list[from] && list[from..][1..] == list[from + 1..] && list[from] in list;
      if !Fits(text, list[from], guarded) {
        i := FirstAt(list, text, guarded, from + 1);
      }
    }
  }

  /** The longest suffix of two lists leaves the shortest rest of both. */
  lemma TwoListsRule(list: seq<string>, guarded: bool, more: seq<string>, text: string)
    requires Proper(list) && Proper(more)
    ensures var one := Longest(list, text, guarded, "");
      var b := Longest(more, text, false, one);
      HasSuffix(text, b) && var x := text[..|text| - |b|];
      |one| <= |b| && (b == "" <==> NoneFits(list, text, guarded) && NoneFits(more, text, false)) &&
      (b != "" ==> (b == one && Leaves(list, text, guarded, x)) || Leaves(more, text, false, x)) &&
      (forall y :: Leaves(list, text, guarded, y) || Leaves(more, text, false, y) ==> |x| <= |y|)
  {
    var one := Longest(list, text, guarded, "");
    var b := Longest(more, text, false, one);
    LongestRule(list, text, guarded);
    LongestIsLongest(more, text, false, one);
    forall y
      ensures Leaves(more, text, false, y) <==> exists s :: s in more && Fits(text, s, false) && y == text[..|text| - |s|]
    {
      LeftIsFitting(more, text, false, y);
    }
    if b != one {
      assert b in more && Fits(text, b, false);
      if b == "" {
        assert false;
      }
      assert Leaves(more, text, false, text[..|text| - |b|]);
    }
  }

  lemma VerbRule(e: Endings, text: string)
    requires AllProper(e)
    ensures VerbCut(e, text) == 0 <==> NoneFits(e.verb1, text, true) && NoneFits(e.verb2, text, false)
    ensures VerbCut(e, text) > 0 ==> LongestVerb(e, text, text[..|text| - VerbCut(e, text)])
  {
    TwoListsRule(e.verb1, true, e.verb2, text);
  }

  lemma ParticipleRule(e: Endings, text: string)
    requires AllProper(e)
    ensures ParticipleGoes(e, text, text[..|text| - ParticipleCut(e, text)])
  {
    var one := Longest(e.participle1, text, false, "");
    var b := Longest(e.participle2, text, false, one);
    TwoListsRule(e.participle1, false, e.participle2, text);
    var x := text[..|text| - |b|];
    assert text[..|text|] == text;
    if b != "" {
      FirstKind(e.participle1, text, x, b, one);
      ParticipleBy(e, text, x, text[..|text| - ParticipleCut(e, text)]);
    }
  }

  lemma ParticipleBy(e: Endings, text: string, x: string, r: string)
    requires LongestParticiple(e, text, x)
    requires r == if Leaves(e.participle1, text, false, x) && !Leaves(e.participle1, text, true, x) then text else x
    ensures ParticipleGoes(e, text, r)
  {
  }

  /** What is left without the ending b was left by the first list if and only if b is its longest. */
  lemma FirstKind(list: seq<string>, text: string, x: string, b: string, one: string)
    requires Proper(list) && one == Longest(list, text, false, "") && |one| <= |b|
    requires b != "" && HasSuffix(text, b) && x == text[..|text| - |b|]
    ensures Leaves(list, text, false, x) <==> b == one
    ensures Leaves(list, text, true, x) <==> b == one && Fits(text, b, true)
  {
    LongestRule(list, text, false);
    LongestIsLongest(list, text, false, "");
    LeftIsFitting(list, text, false, x);
    LeftIsFitting(list, text, true, x);
    forall s | HasSuffix(text, s) && x == text[..|text| - |s|]
      ensures s == b
    {
      assert |x| == |text| - |s| && s == text[|x|..];
    }
  }

  lemma GerundRule(e: Endings, text: string)
    requires AllProper(e)
    ensures var n := GerundCut(e, text);
      (n == 0 <==> NoneFits(e.gerund1, text, true) && NoneFits(e.gerund2, text, false)) &&
      (!NoneFits(e.gerund1, text, true) ==> FirstGoes(e.gerund1, text, true, text[..|text| - n])) &&
      (NoneFits(e.gerund1, text, true) && !NoneFits(e.gerund2, text, false) ==>
         FirstGoes(e.gerund2, text, false, text[..|text| - n]))
  {
    FirstRule(e.gerund1, text, true);
    FirstRule(e.gerund2, text, false);
  }

  /** The part of the word before its region. */
  function Head(p: Split): string
    requires TailOk(p)
  {
    p.word[..|p.word| - |p.rv|]
  }

  lemma DroppedIs(p: Split, n: nat)
    requires TailOk(p) && n <= |p.rv|
    ensures Head(Dropped(p, n)) == Head(p)
    ensures Dropped(p, n).rv == p.rv[..|p.rv| - n] && Dropped(p, n).word == Head(p) + p.rv[..|p.rv| - n]
  {
    assert p.word == Head(p) + p.rv;
  }

  lemma AdjectivalRule(e: Endings, p: Split) returns (r: string)
    requires AllProper(e) && TailOk(p) && AdjectiveCut(e, p.rv) > 0
    ensures AfterReflexive(e, p) == Head(p) + r
    ensures exists x :: LongestGoes(e.adjective, p.rv, false, x) && ParticipleGoes(e, x, r)
  {
    var n := AdjectiveCut(e, p.rv);
    var q := Dropped(p, n);
    DroppedIs(p, n);
    DroppedIs(q, ParticipleCut(e, q.rv));
    r := q.rv[..|q.rv| - ParticipleCut(e, q.rv)];
    LongestRule(e.adjective, p.rv, false);
    ParticipleRule(e, q.rv);
  }

  lemma VerbalRule(e: Endings, p: Split) returns (r: string)
    requires AllProper(e) && TailOk(p) && AdjectiveCut(e, p.rv) == 0 && VerbCut(e, p.rv) > 0
    ensures AfterReflexive(e, p) == Head(p) + r && LongestVerb(e, p.rv, r)
  {
    r := p.rv[..|p.rv| - VerbCut(e, p.rv)];
    DroppedIs(p, VerbCut(e, p.rv));
    VerbRule(e, p.rv);
  }

  lemma NominalRule(e: Endings, p: Split) returns (r: string)
    requires AllProper(e) && TailOk(p) && AdjectiveCut(e, p.rv) == 0 && VerbCut(e, p.rv) == 0
    ensures AfterReflexive(e, p) == Head(p) + r
    ensures if NoneFits(e.noun, p.rv, false) then r == p.rv else LongestGoes(e.noun, p.rv, false, r)
  {
    r := p.rv[..|p.rv| - NounCut(e, p.rv)];
    DroppedIs(p, NounCut(e, p.rv));
    LongestRule(e.noun, p.rv, false);
    assert p.rv[..|p.rv|] == p.rv;
  }

  /** After the reflexive ending. */
  lemma InflectionRule(e: Endings, p: Split) returns (r: string)
    requires AllProper(e) && TailOk(p)
    ensures AfterReflexive(e, p) == Head(p) + r && InflectionGoes(e, p.rv, r)
  {
    AdjectiveRule(e, p.rv);
    VerbRule(e, p.rv);
    if AdjectiveCut(e, p.rv) > 0 {
      r := AdjectivalRule(e, p);
    } else if VerbCut(e, p.rv) > 0 {
      r := VerbalRule(e, p);
    } else {
      r := NominalRule(e, p);
    }
  }

  lemma AdjectiveRule(e: Endings, text: string)
    requires AllProper(e)
    ensures AdjectiveCut(e, text) == 0 <==> NoneFits(e.adjective, text, false)
  {
    LongestRule(e.adjective, text, false);
  }

  /** Step 1 leaves of the region what the rules leave, and the part before it as it is. */
  lemma Step1Rule(e: Endings, p: Split) returns (r: string)
    requires AllProper(e) && TailOk(p)
    ensures Step1(e, p) == Head(p) + r && Step1Leaves(e, p.rv, r)
  {
    GerundRule(e, p.rv);
    if GerundCut(e, p.rv) > 0 {
      r := p.rv[..|p.rv| - GerundCut(e, p.rv)];
      DroppedIs(p, GerundCut(e, p.rv));
    } else {
      var x;
      x, r := NoGerundRule(e, p);
      AfterGerund(e, p.rv, x, r);
    }
  }

  lemma NoGerundRule(e: Endings, p: Split) returns (x: string, r: string)
    requires AllProper(e) && TailOk(p) && GerundCut(e, p.rv) == 0
    ensures Step1(e, p) == Head(p) + r && ReflexiveLeaves(e, p.rv, x) && InflectionGoes(e, x, r)
  {
    var q := Dropped(p, ReflexiveCut(e, p.rv));
    DroppedIs(p, ReflexiveCut(e, p.rv));
    ReflexiveRule(e, p.rv);
    x := q.rv;
    r := InflectionRule(e, q);
  }

  /** What is left without a reflexive ending, or the text itself. */
  ghost predicate ReflexiveLeaves(e: Endings, text: string, x: string) {
    if NoneFits(e.reflexive, text, false) then x == text else FirstGoes(e.reflexive, text, false, x)
  }

  lemma ReflexiveRule(e: Endings, text: string)
    requires AllProper(e)
    ensures ReflexiveLeaves(e, text, text[..|text| - ReflexiveCut(e, text)])
  {
    FirstRule(e.reflexive, text, false);
    assert text[..|text|] == text;
  }

  lemma AfterGerund(e: Endings, text: string, x: string, r: string)
    requires NoneFits(e.gerund1, text, true) && NoneFits(e.gerund2, text, false)
    requires ReflexiveLeaves(e, text, x) && InflectionGoes(e, x, r)
    ensures Step1Leaves(e, text, r)
  {
  }

  lemma Step2Rule(word: string, rvStart: nat)
    ensures Step2Leaves(word, rvStart, Step2(word, rvStart))
  {
    if HasSuffix(word, "и") {
      assert word == word[..|word| - 1] + "и";
    }
  }

  lemma Step3Rule(e: Endings, word: string, r2: nat)
    requires AllProper(e)
    ensures Step3Leaves(e, word, r2, Step3(e, word, r2))
  {
    if 0 < r2 <= |word| {
      var region := word[r2..];
      var s := Longest(e.derivational, region, false, "");
      LongestRule(e.derivational, region, false);
      Step3By(e, word, r2, region, s);
      assert Step3(e, word, r2) == word[..|word| - |s|];
    }
  }

  lemma Step3By(e: Endings, word: string, r2: nat, region: string, s: string)
    requires 0 < r2 <= |word| && region == word[r2..] && HasSuffix(region, s)
    requires s == "" <==> NoneFits(e.derivational, region, false)
    requires s != "" ==> LongestGoes(e.derivational, region, false, region[..|region| - |s|])
    ensures Step3Leaves(e, word, r2, word[..|word| - |s|])
  {
    var r := word[..|word| - |s|];
    if s == "" {
      assert r == word;
    } else {
      assert r2 <= |r| <= |word|;
      TailOfPrefix(word, r2, |s|);
      assert r[r2..] == region[..|region| - |s|];
    }
  }

  lemma TailOfPrefix(word: string, r2: nat, n: nat)
    requires r2 + n <= |word|
    ensures word[..|word| - n][r2..] == word[r2..][..|word[r2..]| - n]
  {
  }

  lemma LosesLast(word: string, s: string)
    requires s != "" && HasSuffix(word, s)
    ensures word == word[..|word| - 1] + [s[|s| - 1]]
  {
    assert word[|word| - |s|..][|s| - 1] == word[|word| - 1];
  }

  lemma UndoubledRule(word: string)
    ensures UndoubledLeaves(word, Undoubled(word))
  {
    if HasSuffix(word, "нн") {
      LosesLast(word, "нн");
    }
  }

  lemma Step4Rule(e: Endings, word: string)
    requires AllProper(e)
    ensures Step4Leaves(e, word, Step4(e, word))
  {
    FirstRule(e.superlative, word, false);
    if HasSuffix(word, "нн") {
      LosesLast(word, "нн");
    } else if First(e.superlative, word, false) != "" {
      UndoubledRule(word[..|word| - |First(e.superlative, word, false)|]);
    } else if HasSuffix(word, "ь") {
      LosesLast(word, "ь");
    }
  }

  lemma TurnIsPair(w: string, k: int)
    ensures PairStarts(w, k) <==> k >= 0 && Turn(w, k)
  {
    if 0 <= k < |w| - 1 {
      VowelsAgree(w[k]);
      VowelsAgree(w[k + 1]);
    }
  }

  lemma TurnRule(w: string, from: nat)
    requires from <= |w|
    ensures var r := AfterTurn(w, from);
      if r > 0 then forall k :: PairAt(w, from, k) <==> k == r - 2 else forall k :: !PairAt(w, from, k)
  {
    forall k: nat
      ensures PairStarts(w, k) <==> Turn(w, k)
    {
      TurnIsPair(w, k);
    }
    var t := TurnFrom(w, from);
    if t < |w| {
      assert PairStarts(w, t);
    }
  }

  lemma FirstVowelRule(w: string)
    ensures AfterFirstVowel(w, RvStart(w))
  {
    forall i | 0 <= i < |w|
      ensures IsVowel(w[i]) <==> Vowel(w[i])
    {
      VowelsAgree(w[i]);
    }
  }

  lemma SecondPairRule(w: string)
    ensures AfterSecondPair(w, R2Start(w))
  {
    var r1 := AfterTurn(w, 0);
    TurnRule(w, 0);
    if r1 > 0 {
      TurnRule(w, r1);
      if R2Start(w) > 0 {
        assert TwoPairs(w, r1 - 2, R2Start(w));
      }
    }
  }

  lemma WordRule(e: Endings, w: string)
    requires AllProper(e)
    ensures RvStart(w) <= |w| && Step1Word(e, w, if RvStart(w) == 0 then |w| else RvStart(w), Step1(e, Split(w, Rv(w))))
  {
    RegionsNest(w);
    var from := if RvStart(w) == 0 then |w| else RvStart(w);
    assert Rv(w) == w[from..];
    var r := Step1Rule(e, Split(w, Rv(w)));
    Step1At(e, w, from, r);
  }

  lemma Step1At(e: Endings, w: string, from: nat, r: string)
    requires from <= |w| && Step1Leaves(e, w[from..], r)
    ensures Step1Word(e, w, from, w[..from] + r)
  {
    assert (w[..from] + r)[from..] == r && (w[..from] + r)[..from] == w[..from];
  }

  lemma CourseIs(e: Endings, w: string, c: Course, stem: string)
    requires |w| > 2 && c.rvStart <= |w| && AfterFirstVowel(w, c.rvStart) && AfterSecondPair(w, c.r2)
    requires Step1Word(e, w, if c.rvStart == 0 then |w| else c.rvStart, c.one) && Step2Leaves(c.one, c.rvStart, c.two)
    requires Step3Leaves(e, c.two, c.r2, c.three) && Step4Leaves(e, c.three, stem)
    ensures StemLeaves(e, w, stem)
  {
    assert CourseOk(e, w, c, stem);
  }

  lemma FollowsRules(e: Endings, w: string)
    requires AllProper(e) && |w| > 2
    ensures StemLeaves(e, w, Step4(e, Inflected(e, w)))
  {
    var one := Step1(e, Split(w, Rv(w)));
    var two := Step2(one, RvStart(w));
    var three := Step3(e, two, R2Start(w));
    FirstVowelRule(w);
    SecondPairRule(w);
    WordRule(e, w);
    Step2Rule(one, RvStart(w));
    Step3Rule(e, two, R2Start(w));
    Step4Rule(e, three);
    CourseIs(e, w, Course(RvStart(w), R2Start(w), one, two, three), Step4(e, three));
  }

  /** A text is the stem if and only if the rules leave it of the word in lower case, with ё as е. */
  lemma StemIsWhatRulesLeave(e: Endings, lower: char -> char, word: string, w: string, stem: string)
    requires AllProper(e) && IsFolded(lower, word, w)
    ensures stem == Stem(e, lower, word) <==> StemLeaves(e, w, stem)
  {
    assert w == Folded(lower, word);
    if |w| > 2 {
      FollowsRules(e, w);
      if StemLeaves(e, w, stem) {
        StemIsOne(e, w, stem, Stem(e, lower, word));
      }
    }
  }

  lemma StemFollowsRules(e: Endings, lower: char -> char, word: string)
    requires AllProper(e)
    ensures forall w :: IsFolded(lower, word, w) ==> StemLeaves(e, w, Stem(e, lower, word))
  {
    forall w | IsFolded(lower, word, w)
      ensures StemLeaves(e, w, Stem(e, lower, word))
    {
      StemIsWhatRulesLeave(e, lower, word, w, Stem(e, lower, word));
    }
  }

  // ----- the Russian endings -----

  /** Where the code takes the first ending that fits it has the longest: no ending of these lists comes
      before a longer one. */
  lemma LongestStandFirst()
    ensures LongestFirst(RUSSIAN.gerund1) && LongestFirst(RUSSIAN.gerund2)
    ensures LongestFirst(RUSSIAN.reflexive) && LongestFirst(RUSSIAN.superlative)
  {
  }

  lemma RussianVerbals()
    ensures forall s :: s in RUSSIAN.gerund1 <==> s in {"в", "вши", "вшись"}
    ensures forall s :: s in RUSSIAN.gerund2 <==> s in {"ив", "ивши", "ившись", "ыв", "ывши", "ывшись"}
    ensures forall s :: s in RUSSIAN.reflexive <==> s in {"ся", "сь"}
    ensures forall s :: s in RUSSIAN.participle1 <==> s in {"ем", "нн", "вш", "ющ", "щ"}
    ensures forall s :: s in RUSSIAN.participle2 <==> s in {"ивш", "ывш", "ующ"}
  {
  }

  lemma RussianVerbs()
    ensures forall s :: s in RUSSIAN.verb1 <==> s in {
      "ла", "ло", "ли", "л", "на", "но", "нно", "ны", "н", "ете", "йте", "ет", "ют", "ешь", "ем", "ть", "й"}
  {
  }

  lemma RussianSecondVerbs()
    ensures forall s :: s in RUSSIAN.verb2 <==> s in {
      "ила", "ило", "или", "ил", "ыла", "ыло", "ыли", "ыл", "ена", "ено", "ены", "ен", "ейте", "уйте", "ите", "ей", "уй",
      "им", "ым", "ит", "ыт", "ить", "ыть", "ишь", "ят", "ует", "уют", "ую", "ю"}
  {
  }

  lemma RussianAdjectives()
    ensures forall s :: s in RUSSIAN.adjective <==> s in {
      "ее", "ие", "ые", "ое", "ими", "ыми", "ей", "ий", "ый", "ой", "ем", "им", "ым", "ом", "его", "ого", "ему", "ому",
      "их", "ых", "ую", "юю", "ая", "яя", "ою", "ею"}
  {
  }

  lemma RussianNouns()
    ensures forall s :: s in RUSSIAN.noun <==> s in {
      "а", "е", "и", "й", "о", "у", "ы", "ь", "ю", "я", "ев", "ов", "ие", "ье", "еи", "ии", "ей", "ой", "ий", "ям", "ем",
      "ам", "ом", "ах", "ях", "ию", "ью", "ия", "ья", "ями", "ами", "ией", "иям", "ием", "иях", "иями"}
  {
  }

  lemma RussianFinals()
    ensures forall s :: s in RUSSIAN.derivational <==> s in {"ост", "ость"}
    ensures forall s :: s in RUSSIAN.superlative <==> s in {"ейш", "ейше"}
  {
  }

  lemma RussianIsProper()
    ensures AllProper(RUSSIAN)
  {
    ShortListsProper();
    AdjectivesProper();
    VerbsProper();
    SecondVerbsProper();
    NounsProper();
    ProperAll(RUSSIAN);
  }

  lemma ShortListsProper()
    ensures Proper(RUSSIAN.gerund1) && Proper(RUSSIAN.gerund2) && Proper(RUSSIAN.reflexive)
    ensures Proper(RUSSIAN.participle1) && Proper(RUSSIAN.participle2)
    ensures Proper(RUSSIAN.derivational) && Proper(RUSSIAN.superlative)
  {
  }

  lemma AdjectivesProper()
    ensures Proper(RUSSIAN.adjective)
  {
  }

  lemma VerbsProper()
    ensures Proper(RUSSIAN.verb1)
  {
  }

  lemma SecondVerbsProper()
    ensures Proper(RUSSIAN.verb2)
  {
  }

  lemma NounsProper()
    ensures Proper(RUSSIAN.noun)
  {
  }

  lemma ProperAll(e: Endings)
    requires Proper(e.gerund1) && Proper(e.gerund2) && Proper(e.reflexive) && Proper(e.adjective)
    requires Proper(e.participle1) && Proper(e.participle2) && Proper(e.verb1) && Proper(e.verb2)
    requires Proper(e.noun) && Proper(e.derivational) && Proper(e.superlative)
    ensures AllProper(e)
  {
  }

  // ----- for instance: a verb's ending goes before a noun's -----

  /** Not an ending of a text in -ли. */
  predicate NotLi(s: string) {
    s != "" && (s[|s| - 1] != 'и' || (|s| >= 2 && s[|s| - 2] != 'л'))
  }

  /** Not an ending of a text in -али or -яли. */
  predicate NotALi(s: string) {
    NotLi(s) || (|s| >= 3 && s[|s| - 3] !in {'а', 'я'})
  }

  predicate SparesLi(list: seq<string>) { forall k :: 0 <= k < |list| ==> NotLi(list[k]) }

  predicate OnlyLi(list: seq<string>) { forall k :: 0 <= k < |list| ==> list[k] == "ли" || NotALi(list[k]) }

  lemma RussianLi()
    ensures SparesLi(RUSSIAN.gerund1) && SparesLi(RUSSIAN.gerund2) && SparesLi(RUSSIAN.reflexive)
  {
  }

  lemma RussianAdjectiveLi()
    ensures SparesLi(RUSSIAN.adjective)
  {
  }

  lemma VerbLi(k: nat)
    requires k < |VERB1|
    ensures VERB1[k] == "ли" || NotALi(VERB1[k])
  {
    if k < 6 {
      assert k in {0, 1, 2, 3, 4, 5};
    } else if k < 12 {
      assert k in {6, 7, 8, 9, 10, 11};
    }
  }

  lemma SecondVerbLi(k: nat)
    requires k < |VERB2|
    ensures NotALi(VERB2[k])
  {
    if k < 10 {
      assert k in {0, 1, 2, 3, 4, 5, 6, 7, 8, 9};
    } else if k < 20 {
      assert k in {10, 11, 12, 13, 14, 15, 16, 17, 18, 19};
    }
  }

  lemma RussianVerbLi()
    ensures OnlyLi(RUSSIAN.verb1) && OnlyLi(RUSSIAN.verb2)
  {
    forall k | 0 <= k < |VERB1|
      ensures VERB1[k] == "ли" || NotALi(VERB1[k])
    {
      VerbLi(k);
    }
    forall k | 0 <= k < |VERB2|
      ensures VERB2[k] == "ли" || NotALi(VERB2[k])
    {
      SecondVerbLi(k);
    }
  }

  lemma LiIsVerb()
    ensures "ли" in RUSSIAN.verb1
  {
    assert VERB1[4] == "ли";
  }

  lemma RussianSecondVerbLi()
    ensures OnlyLi(RUSSIAN.verb2)
  {
  }

  lemma LastThree(text: string, x: string, s: string)
    ensures text == x + s && |s| >= 1 ==> text[|text| - 1] == s[|s| - 1]
    ensures text == x + s && |s| >= 2 ==> text[|text| - 2] == s[|s| - 2]
    ensures text == x + s && |s| >= 3 ==> text[|text| - 3] == s[|s| - 3]
  {
  }

  lemma LiIsSpared(list: seq<string>, text: string, guarded: bool)
    requires SparesLi(list) && |text| >= 2 && text[|text| - 1] == 'и' && text[|text| - 2] == 'л'
    ensures NoneFits(list, text, guarded)
  {
    forall x, k | 0 <= k < |list|
      ensures !EndsAs(text, x, list[k], guarded)
    {
      LastThree(text, x, list[k]);
    }
  }

  lemma OnlyLiIsLeft(list: seq<string>, text: string, guarded: bool, y: string)
    requires OnlyLi(list) && Leaves(list, text, guarded, y)
    requires |text| >= 3 && text[|text| - 1] == 'и' && text[|text| - 2] == 'л' && text[|text| - 3] in {'а', 'я'}
    ensures |y| == |text| - 2
  {
    var s :| s in list && EndsAs(text, y, s, guarded);
    var k :| 0 <= k < |list| && list[k] == s;
    LastThree(text, y, s);
  }

  /** Of a region in -али or -яли the verb's ending -ли goes, although the noun's ending -и fits. */
  lemma PastPluralLosesLi(e: Endings, x: string)
    requires SparesLi(e.gerund1) && SparesLi(e.gerund2) && SparesLi(e.reflexive) && SparesLi(e.adjective)
    requires OnlyLi(e.verb1) && OnlyLi(e.verb2) && "ли" in e.verb1
    requires x != "" && x[|x| - 1] in {'а', 'я'}
    ensures Step1Leaves(e, x + "ли", x)
  {
    var text := x + "ли";
    assert text[|text| - 1] == 'и' && text[|text| - 2] == 'л' && text[|text| - 3] == x[|x| - 1];
    LiIsSpared(e.gerund1, text, true);
    LiIsSpared(e.gerund2, text, false);
    LiIsSpared(e.reflexive, text, false);
    LiIsSpared(e.adjective, text, false);
    assert Leaves(e.verb1, text, true, x) by {
      assert EndsAs(text, x, "ли", true);
    }
    forall y | Leaves(e.verb1, text, true, y) || Leaves(e.verb2, text, false, y)
      ensures |x| <= |y|
    {
      OnlyLiIsLeft(if Leaves(e.verb1, text, true, y) then e.verb1 else e.verb2, text, Leaves(e.verb1, text, true, y), y);
    }
  }

  lemma RussianPastPlural(p: Split, x: string)
    requires TailOk(p) && p.rv == x + "ли" && x != "" && x[|x| - 1] in {'а', 'я'}
    ensures Step1(RUSSIAN, p) == p.word[..|p.word| - 2]
  {
    RussianIsProper();
    RussianLi();
    RussianAdjectiveLi();
    RussianVerbLi();
    LiIsVerb();
    PastPluralLosesLi(RUSSIAN, x);
    OneOutcome(RUSSIAN, p, x);
  }

  lemma OneOutcome(e: Endings, p: Split, x: string)
    requires AllProper(e) && TailOk(p) && Step1Leaves(e, p.rv, x) && x <= p.rv
    ensures Step1(e, p) == p.word[..|p.word| - |p.rv| + |x|]
  {
    var r := Step1Rule(e, p);
    Step1IsOne(e, p.rv, r, x);
    assert p.word == Head(p) + p.rv;
  }

  // ----- the stemmer's methods -----

  method RemovePerfectiveGerund(e: Endings, word: string, rv: string) returns (w: string)
    requires TailOk(Split(word, rv))
    ensures w == Dropped(Split(word, rv), GerundCut(e, rv)).word
  {
    var one := FirstSuffix(e.gerund1, rv, true);
    if one != "" { return word[..|word| - |one|]; }
    var two := FirstSuffix(e.gerund2, rv, false);
    w := word[..|word| - |two|];
  }

  method RemoveReflexive(e: Endings, word: string, rv: string) returns (w: string, r: string)
    requires TailOk(Split(word, rv))
    ensures Split(w, r) == Dropped(Split(word, rv), ReflexiveCut(e, rv))
  {
    var s := FirstSuffix(e.reflexive, rv, false);
    w, r := word[..|word| - |s|], rv[..|rv| - |s|];
  }

  method RemoveAdjectival(e: Endings, word: string, rv: string) returns (w: string)
    requires TailOk(Split(word, rv))
    ensures w == Adjectival(e, Split(word, rv))
  {
    LongestFits(e.adjective, rv, false, "");
    var bestAdj := LongestSuffix(e.adjective, rv, false, "");
    if bestAdj == "" { return word; }
    var newWord, newRV := word[..|word| - |bestAdj|], rv[..|rv| - |bestAdj|];
    AdjectivalIs(e, Split(word, rv), Split(newWord, newRV), |bestAdj|);
    w := RemoveParticiple(e, newWord, newRV);
  }

  lemma AdjectivalIs(e: Endings, p: Split, q: Split, n: nat)
    requires TailOk(p) && 0 < n == AdjectiveCut(e, p.rv)
    requires q == Split(p.word[..|p.word| - n], p.rv[..|p.rv| - n])
    ensures TailOk(q) && Adjectival(e, p) == Dropped(q, ParticipleCut(e, q.rv)).word
  {
    assert q == Dropped(p, n);
  }

  method RemoveParticiple(e: Endings, word: string, rv: string) returns (w: string)
    requires TailOk(Split(word, rv))
    ensures w == Dropped(Split(word, rv), ParticipleCut(e, rv)).word
  {
    LongestFits(e.participle1, rv, false, "");
    var one := LongestSuffix(e.participle1, rv, false, "");
    LongestFits(e.participle2, rv, false, one);
    var bestPart := LongestSuffix(e.participle2, rv, false, one);
    if bestPart != one || Fits(rv, bestPart, true) { return word[..|word| - |bestPart|]; }
    w := word;
  }

  method RemoveVerb(e: Endings, word: string, rv: string) returns (w: string)
    requires TailOk(Split(word, rv))
    ensures w == Dropped(Split(word, rv), VerbCut(e, rv)).word
  {
    LongestFits(e.verb1, rv, true, "");
    var one := LongestSuffix(e.verb1, rv, true, "");
    LongestFits(e.verb2, rv, false, one);
    var best := LongestSuffix(e.verb2, rv, false, one);
    w := word[..|word| - |best|];
  }

  method RemoveNoun(e: Endings, word: string, rv: string) returns (w: string)
    requires TailOk(Split(word, rv))
    ensures w == Dropped(Split(word, rv), NounCut(e, rv)).word
  {
    LongestFits(e.noun, rv, false, "");
    var best := LongestSuffix(e.noun, rv, false, "");
    w := word[..|word| - |best|];
  }

  method ApplyStep1(e: Endings, word: string, rv: string) returns (w: string)
    requires TailOk(Split(word, rv))
    ensures w == Step1(e, Split(word, rv))
  {
    w := RemovePerfectiveGerund(e, word, rv);
    if w != word { return; }
    var word2, rv2 := RemoveReflexive(e, word, rv);
    w := RemoveAdjectival(e, word2, rv2);
    if w != word2 { return; }
    w := RemoveVerb(e, word2, rv2);
    if w != word2 { return; }
    w := RemoveNoun(e, word2, rv2);
  }

  lemma SuffixInRegion(word: string, start: nat, suffix: string)
    ensures start <= |word| ==>
      (HasSuffix(word[start..], suffix) <==> HasSuffix(word, suffix) && |word| - |suffix| >= start)
  {
    if start <= |word| && |suffix| <= |word| - start {
      assert word[start..][|word| - start - |suffix|..] == word[|word| - |suffix|..];
    }
  }

  method ApplyStep3(e: Endings, word: string, r2Start: nat) returns (w: string)
    ensures w == Step3(e, word, r2Start)
  {
    if r2Start <= 0 { return word; }
    var list, best := e.derivational, "";
    for i := 0 to |list|
      invariant if r2Start <= |word| then best == Longest(list[..i], word[r2Start..], false, "") else best == ""
    {
      assert list[..i + 1][..i] == list[..i];
      SuffixInRegion(word, r2Start, list[i]);
      if HasSuffix(word, list[i]) && |list[i]| > |best| {
        if |word| - |list[i]| >= r2Start { best := list[i]; }
      }
    }
    assert list[..|list|] == list;
    if r2Start <= |word| { LongestFits(list, word[r2Start..], false, ""); }
    w := word[..|word| - |best|];
  }

  method ApplyStep4(e: Endings, word: string) returns (w: string)
    ensures w == Step4(e, word)
  {
    if HasSuffix(word, "нн") { return word[..|word| - 1]; }
    var superlative := FirstSuffix(e.superlative, word, false);
    if superlative != "" {
      w := word[..|word| - |superlative|];
      if HasSuffix(w, "нн") { w := w[..|w| - 1]; }
      return;
    }
    if HasSuffix(word, "ь") { return word[..|word| - 1]; }
    w := word;
  }

  method ApplyStep2(word: string, rvStart: nat) returns (w: string)
    ensures w == Step2(word, rvStart)
  {
    w := word;
    if HasSuffix(word, "и") {
      if |word| - 1 >= rvStart { w := word[..|word| - 1]; }
    }
  }

  method StemWord(e: Endings, lower: char -> char, raw: string) returns (word: string)
    ensures word == Stem(e, lower, raw)
    ensures AllProper(e) ==> forall w :: IsFolded(lower, raw, w) ==> StemLeaves(e, w, word)
  {
    if AllProper(e) {
      StemFollowsRules(e, lower, raw);
    }
    word := Folded(lower, raw);
    if |word| <= 2 { return; }
    RegionsNest(word);
    var rv, rvStart, r2Start := MarkRegions(word);
    word := ApplyStep1(e, word, rv);
    word := ApplyStep2(word, rvStart);
    word := ApplyStep3(e, word, r2Start);
    word := ApplyStep4(e, word);
  }
}
