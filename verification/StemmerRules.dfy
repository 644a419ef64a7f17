/** What the Russian stemmer is to remove from a word, said of the endings a text has, without a word
    about how they are looked for. */
module StemmerRules {

  /** The suffixes of each kind. */
  datatype Endings = Endings(
    gerund1: seq<string>, gerund2: seq<string>, reflexive: seq<string>, adjective: seq<string>,
    participle1: seq<string>, participle2: seq<string>, verb1: seq<string>, verb2: seq<string>,
    noun: seq<string>, derivational: seq<string>, superlative: seq<string>)

  predicate Proper(list: seq<string>) { forall k :: 0 <= k < |list| ==> list[k] != "" }

  predicate AllProper(e: Endings) {
    && Proper(e.gerund1) && Proper(e.gerund2) && Proper(e.reflexive) && Proper(e.adjective)
    && Proper(e.participle1) && Proper(e.participle2) && Proper(e.verb1) && Proper(e.verb2)
    && Proper(e.noun) && Proper(e.derivational) && Proper(e.superlative)
  }

  predicate Vowel(c: char) { c in {'а', 'е', 'и', 'о', 'у', 'ы', 'э', 'ю', 'я'} }

  // ----- endings of a text -----

  /** The text is x and the ending s; a guarded ending follows а or я. */
  predicate EndsAs(text: string, x: string, s: string, guarded: bool) {
    text == x + s && (guarded ==> x != "" && x[|x| - 1] in {'а', 'я'})
  }

  /** x is the text without some ending of the list. */
  ghost predicate Leaves(list: seq<string>, text: string, guarded: bool, x: string) {
    exists s :: s in list && EndsAs(text, x, s, guarded)
  }

  /** x is the text without the first ending of the list that it has. */
  ghost predicate FirstGoes(list: seq<string>, text: string, guarded: bool, x: string) {
    exists i :: 0 <= i < |list| && EndsAs(text, x, list[i], guarded) &&
                forall j, y :: 0 <= j < i ==> !EndsAs(text, y, list[j], guarded)
  }

  /** x is the text without the longest ending of the list that it has. */
  ghost predicate LongestGoes(list: seq<string>, text: string, guarded: bool, x: string) {
    Leaves(list, text, guarded, x) && forall y :: Leaves(list, text, guarded, y) ==> |x| <= |y|
  }

  ghost predicate NoneFits(list: seq<string>, text: string, guarded: bool) {
    forall x :: !Leaves(list, text, guarded, x)
  }

  // ----- the regions -----

  /** The part of the word after its first vowel starts at `from`; 0 stands for a word without one. */
  ghost predicate AfterFirstVowel(w: string, from: nat) {
    if from == 0 then forall i :: 0 <= i < |w| ==> !Vowel(w[i])
    else from <= |w| && Vowel(w[from - 1]) && forall i :: 0 <= i < from - 1 ==> !Vowel(w[i])
  }

  /** A vowel with a consonant after it. */
  predicate PairStarts(w: string, k: int) { 0 <= k < |w| - 1 && Vowel(w[k]) && !Vowel(w[k + 1]) }

  /** At k starts the first such pair at or after `from`. */
  ghost predicate PairAt(w: string, from: int, k: int) {
    from <= k && PairStarts(w, k) && forall j :: from <= j < k ==> !PairStarts(w, j)
  }

  /** The first pair of the word starts at k, and the first one behind it ends at r. */
  ghost predicate TwoPairs(w: string, k: int, r: int) { PairAt(w, 0, k) && PairAt(w, k + 2, r - 2) }

  /** The part of the word after the second such pair starts at r2; 0 stands for a word without one. */
  ghost predicate AfterSecondPair(w: string, r2: nat) {
    if r2 == 0 then forall k, r :: !TwoPairs(w, k, r) else exists k :: TwoPairs(w, k, r2)
  }

  // ----- the steps -----

  /** Without an adjective's ending: a participle's goes too, the longest of both kinds; if it is of the
      first kind, only after а or я. */
  ghost predicate ParticipleGoes(e: Endings, text: string, r: string) {
    if NoneFits(e.participle1, text, false) && NoneFits(e.participle2, text, false) then r == text
    else exists x :: LongestParticiple(e, text, x) &&
                     r == if Leaves(e.participle1, text, false, x) && !Leaves(e.participle1, text, true, x) then text else x
  }

  ghost predicate LongestParticiple(e: Endings, text: string, x: string) {
    && (Leaves(e.participle1, text, false, x) || Leaves(e.participle2, text, false, x))
    && forall y :: Leaves(e.participle1, text, false, y) || Leaves(e.participle2, text, false, y) ==> |x| <= |y|
  }

  ghost predicate LongestVerb(e: Endings, text: string, x: string) {
    && (Leaves(e.verb1, text, true, x) || Leaves(e.verb2, text, false, x))
    && forall y :: Leaves(e.verb1, text, true, y) || Leaves(e.verb2, text, false, y) ==> |x| <= |y|
  }

  /** An adjective's ending goes before a verb's, and a verb's before a noun's, however long they are. */
  ghost predicate InflectionGoes(e: Endings, text: string, r: string) {
    if !NoneFits(e.adjective, text, false) then
      exists x :: LongestGoes(e.adjective, text, false, x) && ParticipleGoes(e, x, r)
    else if !NoneFits(e.verb1, text, true) || !NoneFits(e.verb2, text, false) then LongestVerb(e, text, r)
    else if !NoneFits(e.noun, text, false) then LongestGoes(e.noun, text, false, r)
    else r == text
  }

  /** A gerund's ending goes alone, one of the first kind before one of the second. Otherwise a reflexive
      ending goes, and then an inflection. */
  ghost predicate Step1Leaves(e: Endings, region: string, r: string) {
    if !NoneFits(e.gerund1, region, true) then FirstGoes(e.gerund1, region, true, r)
    else if !NoneFits(e.gerund2, region, false) then FirstGoes(e.gerund2, region, false, r)
    else if !NoneFits(e.reflexive, region, false) then
      exists x :: FirstGoes(e.reflexive, region, false, x) && InflectionGoes(e, x, r)
    else InflectionGoes(e, region, r)
  }

  predicate EndsIn(word: string, s: string) { |s| <= |word| && word[|word| - |s|..] == s }

  /** A final и goes if it stands in the region after the first vowel. */
  predicate Step2Leaves(word: string, rvStart: nat, r: string) {
    if EndsIn(word, "и") && rvStart < |word| then word == r + "и" else r == word
  }

  /** The longest derivational ending goes that lies within the region from r2. */
  ghost predicate Step3Leaves(e: Endings, word: string, r2: nat, r: string) {
    if r2 == 0 || r2 > |word| || NoneFits(e.derivational, word[r2..], false) then r == word
    else r2 <= |r| <= |word| && word[..|r|] == r && LongestGoes(e.derivational, word[r2..], false, r[r2..])
  }

  /** Of a double н one goes. */
  predicate UndoubledLeaves(word: string, r: string) {
    if EndsIn(word, "нн") then word == r + "н" else r == word
  }

  /** One н of two; otherwise a superlative ending, and then one н of two; otherwise a soft sign. */
  ghost predicate Step4Leaves(e: Endings, word: string, r: string) {
    if EndsIn(word, "нн") then word == r + "н"
    else if !NoneFits(e.superlative, word, false) then
      exists x :: FirstGoes(e.superlative, word, false, x) && UndoubledLeaves(x, r)
    else if EndsIn(word, "ь") then word == r + "ь"
    else r == word
  }

  /** The regions of a word, and what the steps leave of it. */
  datatype Course = Course(rvStart: nat, r2: nat, one: string, two: string, three: string)

  ghost predicate CourseOk(e: Endings, w: string, c: Course, stem: string) {
    && AfterFirstVowel(w, c.rvStart) && AfterSecondPair(w, c.r2)
    && c.rvStart <= |w|
    && Step1Word(e, w, if c.rvStart == 0 then |w| else c.rvStart, c.one)
    && Step2Leaves(c.one, c.rvStart, c.two) && Step3Leaves(e, c.two, c.r2, c.three) && Step4Leaves(e, c.three, stem)
  }

  /** Step 1 works on the part of the word from `from` and leaves the part before it. */
  ghost predicate Step1Word(e: Endings, w: string, from: nat, one: string)
    requires from <= |w|
  {
    from <= |one| && one[..from] == w[..from] && Step1Leaves(e, w[from..], one[from..])
  }

  /** The stem of a word w, already in lower case with ё as е; two characters or fewer stay. */
  ghost predicate StemLeaves(e: Endings, w: string, stem: string) {
    if |w| <= 2 then stem == w else exists c :: CourseOk(e, w, c, stem)
  }

  /** w is the word in lower case, with ё as е. */
  predicate IsFolded(lower: char -> char, word: string, w: string) {
    |w| == |word| && forall i :: 0 <= i < |w| ==> if lower(word[i]) == 'ё' then w[i] == 'е' else w[i] == lower(word[i])
  }

  predicate LongestFirst(list: seq<string>) { forall i, j :: 0 <= i < j < |list| ==> |list[i]| >= |list[j]| }

  /** In a list with the longest first, the first ending that fits is the longest that fits. */
  lemma FirstIsLongest(list: seq<string>, text: string, guarded: bool, x: string)
    requires LongestFirst(list)
    ensures FirstGoes(list, text, guarded, x) ==> LongestGoes(list, text, guarded, x)
  {
    if FirstGoes(list, text, guarded, x) {
      var i :| 0 <= i < |list| && EndsAs(text, x, list[i], guarded) && forall j, y :: 0 <= j < i ==> !EndsAs(text, y, list[j], guarded);
      forall y | Leaves(list, text, guarded, y)
        ensures |x| <= |y|
      {
        var s :| s in list && EndsAs(text, y, s, guarded);
        var j :| 0 <= j < |list| && list[j] == s;
      }
      assert list[i] in list;
    }
  }

  // ----- the rules leave one stem -----

  lemma LeftIsPrefix(list: seq<string>, text: string, guarded: bool, x: string)
    requires Leaves(list, text, guarded, x)
    ensures |x| <= |text| && text[..|x|] == x
  {
    var s :| s in list && EndsAs(text, x, s, guarded);
  }

  lemma LongestIsOne(list: seq<string>, text: string, guarded: bool, x: string, y: string)
    requires LongestGoes(list, text, guarded, x) && LongestGoes(list, text, guarded, y)
    ensures x == y
  {
    LeftIsPrefix(list, text, guarded, x);
    LeftIsPrefix(list, text, guarded, y);
  }

  lemma FirstIsOne(list: seq<string>, text: string, guarded: bool, x: string, y: string)
    requires FirstGoes(list, text, guarded, x) && FirstGoes(list, text, guarded, y)
    ensures x == y
  {
    var i :| 0 <= i < |list| && EndsAs(text, x, list[i], guarded) && forall k, z :: 0 <= k < i ==> !EndsAs(text, z, list[k], guarded);
    var j :| 0 <= j < |list| && EndsAs(text, y, list[j], guarded) && forall k, z :: 0 <= k < j ==> !EndsAs(text, z, list[k], guarded);
    assert i == j;
    assert x == text[..|text| - |list[i]|] == y;
  }

  lemma VerbIsOne(e: Endings, text: string, x: string, y: string)
    requires LongestVerb(e, text, x) && LongestVerb(e, text, y)
    ensures x == y
  {
    LeftIsPrefix(if Leaves(e.verb1, text, true, x) then e.verb1 else e.verb2, text, Leaves(e.verb1, text, true, x), x);
    LeftIsPrefix(if Leaves(e.verb1, text, true, y) then e.verb1 else e.verb2, text, Leaves(e.verb1, text, true, y), y);
  }

  lemma ParticipleIsOne(e: Endings, text: string, r: string, r2: string)
    requires ParticipleGoes(e, text, r) && ParticipleGoes(e, text, r2)
    ensures r == r2
  {
    if !(NoneFits(e.participle1, text, false) && NoneFits(e.participle2, text, false)) {
      var x :| LongestParticiple(e, text, x) &&
        r == if Leaves(e.participle1, text, false, x) && !Leaves(e.participle1, text, true, x) then text else x;
      var y :| LongestParticiple(e, text, y) &&
        r2 == if Leaves(e.participle1, text, false, y) && !Leaves(e.participle1, text, true, y) then text else y;
      LeftIsPrefix(if Leaves(e.participle1, text, false, x) then e.participle1 else e.participle2, text, false, x);
      LeftIsPrefix(if Leaves(e.participle1, text, false, y) then e.participle1 else e.participle2, text, false, y);
      assert |x| == |y|;
    }
  }

  lemma InflectionIsOne(e: Endings, text: string, r: string, r2: string)
    requires InflectionGoes(e, text, r) && InflectionGoes(e, text, r2)
    ensures r == r2
  {
    if !NoneFits(e.adjective, text, false) {
      var x :| LongestGoes(e.adjective, text, false, x) && ParticipleGoes(e, x, r);
      var y :| LongestGoes(e.adjective, text, false, y) && ParticipleGoes(e, y, r2);
      LongestIsOne(e.adjective, text, false, x, y);
      ParticipleIsOne(e, x, r, r2);
    } else if !NoneFits(e.verb1, text, true) || !NoneFits(e.verb2, text, false) {
      VerbIsOne(e, text, r, r2);
    } else if !NoneFits(e.noun, text, false) {
      LongestIsOne(e.noun, text, false, r, r2);
    }
  }

  lemma Step1IsOne(e: Endings, text: string, r: string, r2: string)
    requires Step1Leaves(e, text, r) && Step1Leaves(e, text, r2)
    ensures r == r2
  {
    if !NoneFits(e.gerund1, text, true) {
      FirstIsOne(e.gerund1, text, true, r, r2);
    } else if !NoneFits(e.gerund2, text, false) {
      FirstIsOne(e.gerund2, text, false, r, r2);
    } else if !NoneFits(e.reflexive, text, false) {
      var x :| FirstGoes(e.reflexive, text, false, x) && InflectionGoes(e, x, r);
      var y :| FirstGoes(e.reflexive, text, false, y) && InflectionGoes(e, y, r2);
      FirstIsOne(e.reflexive, text, false, x, y);
      InflectionIsOne(e, x, r, r2);
    } else {
      InflectionIsOne(e, text, r, r2);
    }
  }

  lemma Step3IsOne(e: Endings, word: string, r2: nat, r: string, q: string)
    requires Step3Leaves(e, word, r2, r) && Step3Leaves(e, word, r2, q)
    ensures r == q
  {
    if !(r2 == 0 || r2 > |word| || NoneFits(e.derivational, word[r2..], false)) {
      LongestIsOne(e.derivational, word[r2..], false, r[r2..], q[r2..]);
      assert |r| == |q|;
    }
  }

  lemma Step4IsOne(e: Endings, word: string, r: string, q: string)
    requires Step4Leaves(e, word, r) && Step4Leaves(e, word, q)
    ensures r == q
  {
    if EndsIn(word, "нн") {
      SameFront(word, r, q, "н");
    } else if !NoneFits(e.superlative, word, false) {
      var x :| FirstGoes(e.superlative, word, false, x) && UndoubledLeaves(x, r);
      var y :| FirstGoes(e.superlative, word, false, y) && UndoubledLeaves(y, q);
      FirstIsOne(e.superlative, word, false, x, y);
      UndoubledIsOne(x, r, q);
    } else if EndsIn(word, "ь") {
      SameFront(word, r, q, "ь");
    }
  }

  lemma UndoubledIsOne(word: string, r: string, q: string)
    requires UndoubledLeaves(word, r) && UndoubledLeaves(word, q)
    ensures r == q
  {
    if EndsIn(word, "нн") {
      SameFront(word, r, q, "н");
    }
  }

  lemma SameFront(word: string, r: string, q: string, s: string)
    requires word == r + s && word == q + s
    ensures r == q
  {
    assert r == word[..|word| - |s|];
  }

  lemma FirstVowelIsOne(w: string, a: nat, b: nat)
    requires AfterFirstVowel(w, a) && AfterFirstVowel(w, b)
    ensures a == b
  {
    assert a > 0 ==> Vowel(w[a - 1]);
    assert b > 0 ==> Vowel(w[b - 1]);
  }

  lemma SecondPairIsOne(w: string, a: nat, b: nat)
    requires AfterSecondPair(w, a) && AfterSecondPair(w, b)
    ensures a == b
  {
    if a > 0 && b > 0 {
      var k :| TwoPairs(w, k, a);
      var m :| TwoPairs(w, m, b);
      assert k == m;
    }
  }

  /** Two courses of one word are the same, and end in one stem. */
  lemma CourseIsOne(e: Endings, w: string, c: Course, d: Course, stem: string, other: string)
    requires CourseOk(e, w, c, stem) && CourseOk(e, w, d, other)
    ensures c == d && stem == other
  {
    FirstVowelIsOne(w, c.rvStart, d.rvStart);
    SecondPairIsOne(w, c.r2, d.r2);
    WordIsOne(e, w, if c.rvStart == 0 then |w| else c.rvStart, c.one, d.one);
    Step2IsOne(c.one, c.rvStart, c.two, d.two);
    Step3IsOne(e, c.two, c.r2, c.three, d.three);
    Step4IsOne(e, c.three, stem, other);
  }

  lemma WordIsOne(e: Endings, w: string, from: nat, one: string, other: string)
    requires from <= |w| && Step1Word(e, w, from, one) && Step1Word(e, w, from, other)
    ensures one == other
  {
    Step1IsOne(e, w[from..], one[from..], other[from..]);
    assert one == one[..from] + one[from..] && other == other[..from] + other[from..];
  }

  lemma Step2IsOne(word: string, rvStart: nat, r: string, q: string)
    requires Step2Leaves(word, rvStart, r) && Step2Leaves(word, rvStart, q)
    ensures r == q
  {
    if EndsIn(word, "и") && rvStart < |word| {
      SameFront(word, r, q, "и");
    }
  }

  /** The rules leave at most one stem of a word. */
  lemma StemIsOne(e: Endings, w: string, stem: string, other: string)
    requires StemLeaves(e, w, stem) && StemLeaves(e, w, other)
    ensures stem == other
  {
    if |w| > 2 {
      var c :| CourseOk(e, w, c, stem);
      var d :| CourseOk(e, w, d, other);
      CourseIsOne(e, w, c, d, stem, other);
    }
  }
}
