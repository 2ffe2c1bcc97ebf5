/** The logic unit tests of the application, stated as lemmas about the
    model: `test_clean_text` and `test_cosine_similarity` of
    verify_app.py.  The literal texts are unfolded one small step per
    helper lemma. */
module VerifyApp {
  import opened Seqs
  import opened TextClean
  import opened Similarity

  // test_clean_text: "Hello! This is a TEST." cleans to
  // ["hello", "this", "test"]; "is" and "a" are stop words, "this" is not.

  lemma CleanTextExample()
    ensures CleanText("Hello! This is a TEST.") == ["hello", "this", "test"]
  {
    ExampleCleans("Hello! This is a TEST.");
  }

  lemma ExampleCleans(text: string)
    requires text == "Hello! This is a TEST."
    ensures CleanText(text) == ["hello", "this", "test"]
  {
    ExampleStrip(text);
    var kept := Filter(text, Kept);
    ExampleLower(kept);
    var lowered := Lower(kept);
    ExampleSplit(lowered);
    ExampleStopWords(Split(lowered));
  }

  lemma ExampleStrip(text: string)
    requires text == "Hello! This is a TEST."
    ensures Filter(text, Kept) == "Hello This is a TEST"
  {
    ExampleKeptPieces();
    ExampleDroppedPieces();
    ExampleConcatenations();
    FilterDropsBetween("Hello", "!", " This is a TEST", ".", Kept);
  }

  lemma ExampleKeptPieces()
    ensures Filter("Hello", Kept) == "Hello" && Filter(" This is a TEST", Kept) == " This is a TEST"
  {
    ExampleKeptWord();
    ExampleKeptPhrase();
  }

  lemma ExampleKeptWord()
    ensures Filter("Hello", Kept) == "Hello"
  {
    FilterAllPass("Hello", Kept);
  }

  lemma ExampleKeptPhrase()
    ensures Filter(" This is a TEST", Kept) == " This is a TEST"
  {
    FilterAllPass(" This is a TEST", Kept);
  }

  lemma ExampleDroppedPieces()
    ensures Filter("!", Kept) == [] && Filter(".", Kept) == []
  {
  }

  lemma ExampleConcatenations()
    ensures "Hello" + "!" + " This is a TEST" + "." == "Hello! This is a TEST."
    ensures "Hello" + " This is a TEST" == "Hello This is a TEST"
  {
  }

  lemma ExampleLower(kept: string)
    requires kept == "Hello This is a TEST"
    ensures Lower(kept) == "hello this is a test"
  {
  }

  lemma ExampleSplit(lowered: string)
    requires lowered == "hello this is a test"
    ensures Split(lowered) == ["hello", "this", "is", "a", "test"]
  {
    var words := ["hello", "this", "is", "a", "test"];
    assert words[1..][1..][1..][1..] == ["test"];
    assert Join(words[1..][1..][1..]) == "a test";
    assert Join(words[1..][1..]) == "is a test";
    assert Join(words[1..]) == "this is a test";
    assert Join(words) == lowered;
    SplitJoin(words);
  }

  lemma ExampleStopWords(words: seq<string>)
    requires words == ["hello", "this", "is", "a", "test"]
    ensures Filter(words, NotStopWord) == ["hello", "this", "test"]
  {
    var a, b, c := ["hello", "this"], ["is", "a"], ["test"];
    ExampleWordPieces(words, a, b, c);
    ExampleNonStopWords(a, c);
    ExampleStopWordsDropped(b);
    FilterDropsBetween(a, b, c, [], NotStopWord);
  }

  lemma ExampleWordPieces(words: seq<string>, a: seq<string>, b: seq<string>, c: seq<string>)
    requires words == ["hello", "this", "is", "a", "test"]
    requires a == ["hello", "this"] && b == ["is", "a"] && c == ["test"]
    ensures words == a + b + c + [] && a + c == ["hello", "this", "test"]
  {
  }

  lemma ExampleNonStopWords(a: seq<string>, c: seq<string>)
    requires a == ["hello", "this"] && c == ["test"]
    ensures Filter(a, NotStopWord) == a && Filter(c, NotStopWord) == c
  {
    FilterAllPass(a, NotStopWord);
    FilterAllPass(c, NotStopWord);
  }

  lemma ExampleStopWordsDropped(b: seq<string>)
    requires b == ["is", "a"]
    ensures Filter(b, NotStopWord) == []
  {
    assert !NotStopWord(b[0]) && !NotStopWord(b[1]);
    assert b[1..][1..] == [];
    assert Filter(b[1..], NotStopWord) == Filter(b[1..][1..], NotStopWord);
  }

  // test_cosine_similarity

  lemma TokensQuery(text: string)
    requires text == "Python developer with Flask"
    ensures CleanText(text) == ["python", "developer", "flask"]
  {
    KeptQuery(text);
    LowerQuery(text);
    WordsQuery(text);
  }

  lemma WordsQuery(text: string)
    requires forall i :: 0 <= i < |text| ==> Kept(text[i])
    requires Lower(text) == "python developer with flask"
    ensures CleanText(text) == ["python", "developer", "flask"]
  {
    var a, b, c, d := "python", "developer", "with", "flask";
    QueryJoin(a, b, c, d);
    QueryWords(a, b, c, d);
    PlainFourWords(text, a, b, c, d);
  }

  lemma QueryJoin(a: string, b: string, c: string, d: string)
    requires a == "python" && b == "developer" && c == "with" && d == "flask"
    ensures a + " " + b + " " + c + " " + d == "python developer with flask"
  {
  }

  lemma QueryWords(a: string, b: string, c: string, d: string)
    requires a == "python" && b == "developer" && c == "with" && d == "flask"
    ensures LowerWord(a) && LowerWord(b) && LowerWord(c) && LowerWord(d)
    ensures NotStopWord(a) && NotStopWord(b) && !NotStopWord(c) && NotStopWord(d)
  {
  }

  lemma KeptQuery(text: string)
    requires text == "Python developer with Flask"
    ensures forall i :: 0 <= i < |text| ==> Kept(text[i])
  {
  }

  lemma LowerQuery(text: string)
    requires text == "Python developer with Flask"
    ensures Lower(text) == "python developer with flask"
  {
  }

  lemma TokensReordered(text: string)
    requires text == "Flask developer using Python"
    ensures CleanText(text) == ["flask", "developer", "python"]
  {
    KeptReordered(text);
    LowerReordered(text);
    WordsReordered(text);
  }

  lemma WordsReordered(text: string)
    requires forall i :: 0 <= i < |text| ==> Kept(text[i])
    requires Lower(text) == "flask developer using python"
    ensures CleanText(text) == ["flask", "developer", "python"]
  {
    var a, b, c, d := "flask", "developer", "using", "python";
    ReorderedJoin(a, b, c, d);
    ReorderedWords(a, b, c, d);
    PlainFourWords(text, a, b, c, d);
  }

  lemma ReorderedJoin(a: string, b: string, c: string, d: string)
    requires a == "flask" && b == "developer" && c == "using" && d == "python"
    ensures a + " " + b + " " + c + " " + d == "flask developer using python"
  {
  }

  lemma ReorderedWords(a: string, b: string, c: string, d: string)
    requires a == "flask" && b == "developer" && c == "using" && d == "python"
    ensures LowerWord(a) && LowerWord(b) && LowerWord(c) && LowerWord(d)
    ensures NotStopWord(a) && NotStopWord(b) && !NotStopWord(c) && NotStopWord(d)
  {
  }

  lemma KeptReordered(text: string)
    requires text == "Flask developer using Python"
    ensures forall i :: 0 <= i < |text| ==> Kept(text[i])
  {
  }

  lemma LowerReordered(text: string)
    requires text == "Flask developer using Python"
    ensures Lower(text) == "flask developer using python"
  {
  }

  lemma TokensUnrelated(text: string)
    requires text == "Chef cooking food"
    ensures CleanText(text) == ["chef", "cooking", "food"]
  {
    KeptUnrelated(text);
    LowerUnrelated(text);
    WordsUnrelated(text);
  }

  lemma WordsUnrelated(text: string)
    requires forall i :: 0 <= i < |text| ==> Kept(text[i])
    requires Lower(text) == "chef cooking food"
    ensures CleanText(text) == ["chef", "cooking", "food"]
  {
    var a, b, c := "chef", "cooking", "food";
    UnrelatedJoin(a, b, c);
    UnrelatedWords(a, b, c);
    PlainThreeWords(text, a, b, c);
  }

  lemma UnrelatedJoin(a: string, b: string, c: string)
    requires a == "chef" && b == "cooking" && c == "food"
    ensures a + " " + b + " " + c == "chef cooking food"
  {
  }

  lemma UnrelatedWords(a: string, b: string, c: string)
    requires a == "chef" && b == "cooking" && c == "food"
    ensures LowerWord(a) && LowerWord(b) && LowerWord(c)
    ensures NotStopWord(a) && NotStopWord(b) && NotStopWord(c)
  {
  }

  lemma KeptUnrelated(text: string)
    requires text == "Chef cooking food"
    ensures forall i :: 0 <= i < |text| ==> Kept(text[i])
  {
  }

  lemma LowerUnrelated(text: string)
    requires text == "Chef cooking food"
    ensures Lower(text) == "chef cooking food"
  {
  }

  /** A non-empty word of lower-case letters. */
  predicate LowerWord(w: string) {
    w != [] && forall i :: 0 <= i < |w| ==> IsLower(w[i])
  }

  /** Words of lower-case letters are non-empty and hold no whitespace. */
  lemma LowerWordsArePlain(words: seq<string>)
    requires forall i :: 0 <= i < |words| ==> LowerWord(words[i])
    ensures forall i :: 0 <= i < |words| ==> words[i] != []
    ensures forall i, j :: 0 <= i < |words| && 0 <= j < |words[i]| ==> !IsSpace(words[i][j])
  {
    forall i, j | 0 <= i < |words| && 0 <= j < |words[i]|
      ensures !IsSpace(words[i][j])
    {
      assert IsLower(words[i][j]);
    }
  }

  lemma JoinFour(a: string, b: string, c: string, d: string)
    ensures Join([a, b, c, d]) == a + " " + b + " " + c + " " + d
  {
    var words := [a, b, c, d];
    assert words[1..][1..][1..] == [d];
    assert Join(words[1..][1..]) == c + " " + d;
    assert Join(words[1..]) == b + " " + c + " " + d;
  }

  lemma JoinThree(a: string, b: string, c: string)
    ensures Join([a, b, c]) == a + " " + b + " " + c
  {
    var words := [a, b, c];
    assert words[1..][1..] == [c];
    assert Join(words[1..]) == b + " " + c;
  }

  /** Dropping the one stop word, the third of four words. */
  lemma DropThirdWord(a: string, b: string, c: string, d: string)
    requires NotStopWord(a) && NotStopWord(b) && !NotStopWord(c) && NotStopWord(d)
    ensures Filter([a, b, c, d], NotStopWord) == [a, b, d]
  {
    assert [a, b, c, d] == [a, b] + [c] + [d] + [];
    FilterAllPass([a, b], NotStopWord);
    FilterAllPass([d], NotStopWord);
    FilterDropsBetween([a, b], [c], [d], [], NotStopWord);
  }

  /** A punctuation-free text that lower-cases to four words, of which
      only the third is a stop word, cleans to the other three. */
  lemma PlainFourWords(text: string, a: string, b: string, c: string, d: string)
    requires forall i :: 0 <= i < |text| ==> Kept(text[i])
    requires Lower(text) == a + " " + b + " " + c + " " + d
    requires LowerWord(a) && LowerWord(b) && LowerWord(c) && LowerWord(d)
    requires NotStopWord(a) && NotStopWord(b) && !NotStopWord(c) && NotStopWord(d)
    ensures CleanText(text) == [a, b, d]
  {
    var words := [a, b, c, d];
    JoinFour(a, b, c, d);
    LowerWordsArePlain(words);
    CleanTextOfPlainWords(text, words);
    DropThirdWord(a, b, c, d);
  }

  /** A punctuation-free text that lower-cases to three words, none of
      them a stop word, cleans to those words. */
  lemma PlainThreeWords(text: string, a: string, b: string, c: string)
    requires forall i :: 0 <= i < |text| ==> Kept(text[i])
    requires Lower(text) == a + " " + b + " " + c
    requires LowerWord(a) && LowerWord(b) && LowerWord(c)
    requires NotStopWord(a) && NotStopWord(b) && NotStopWord(c)
    ensures CleanText(text) == [a, b, c]
  {
    var words := [a, b, c];
    JoinThree(a, b, c);
    LowerWordsArePlain(words);
    CleanTextOfPlainWords(text, words);
    FilterAllPass(words, NotStopWord);
  }

  /** The same words in another order, with different stop words, match
      perfectly (score 1, above the test's 0.8); a text sharing no word
      scores exactly 0 (below the test's 0.2). */
  lemma CosineSimilarityExample()
    ensures CosineOf(CleanText("Python developer with Flask"), CleanText("Flask developer using Python")).IsPerfect()
    ensures CosineOf(CleanText("Python developer with Flask"), CleanText("Chef cooking food")).ScoreIsZero()
  {
    CosineExampleTexts("Python developer with Flask", "Flask developer using Python", "Chef cooking food");
  }

  lemma CosineExampleTexts(query: string, reordered: string, unrelated: string)
    requires query == "Python developer with Flask"
    requires reordered == "Flask developer using Python"
    requires unrelated == "Chef cooking food"
    ensures CosineOf(CleanText(query), CleanText(reordered)).IsPerfect()
    ensures CosineOf(CleanText(query), CleanText(unrelated)).ScoreIsZero()
  {
    TokensQuery(query);
    TokensReordered(reordered);
    TokensUnrelated(unrelated);
    ReorderedTokensMatch(CleanText(query), CleanText(reordered));
    UnrelatedTokensDisjoint(CleanText(query), CleanText(unrelated));
  }

  lemma ReorderedTokensMatch(q: seq<string>, r: seq<string>)
    requires q == ["python", "developer", "flask"]
    requires r == ["flask", "developer", "python"]
    ensures CosineOf(q, r).IsPerfect()
  {
    assert q == [q[0]] + [q[1]] + [q[2]];
    assert r == [q[2]] + [q[1]] + [q[0]];
    assert multiset(q) == multiset(r);
    CosineSelfMatch(q, r);
  }

  lemma UnrelatedTokensDisjoint(q: seq<string>, u: seq<string>)
    requires q == ["python", "developer", "flask"]
    requires u == ["chef", "cooking", "food"]
    ensures CosineOf(q, u).ScoreIsZero()
  {
    CosineZeroCases(q, u);
  }
}
