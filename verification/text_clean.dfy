/** The tokenizer behind every similarity score: `clean_text` deletes every
    character that is neither an ASCII letter, an ASCII digit nor
    whitespace, lower-cases what is left, splits it on whitespace runs and
    drops a fixed set of fifteen English stop words. */
module TextClean {
  import opened Seqs

  /** Whitespace as Python 3 sees it on `str`: the regular expression class
      `\s` and `str.split()` both use this set of code points. */
  predicate IsSpace(c: char) {
    var n := c as int;
    || 0x09 <= n <= 0x0D
    || 0x1C <= n <= 0x20
    || n == 0x85 || n == 0xA0 || n == 0x1680
    || 0x2000 <= n <= 0x200A
    || n == 0x2028 || n == 0x2029 || n == 0x202F || n == 0x205F || n == 0x3000
  }

  predicate NotSpace(c: char) {
    !IsSpace(c)
  }

  predicate IsUpper(c: char) {
    'A' <= c <= 'Z'
  }

  predicate IsLower(c: char) {
    'a' <= c <= 'z'
  }

  predicate IsDigit(c: char) {
    '0' <= c <= '9'
  }

  /** A character that survives the deletion of `[^a-zA-Z0-9\s]`. */
  predicate Kept(c: char) {
    IsUpper(c) || IsLower(c) || IsDigit(c) || IsSpace(c)
  }

  /** The fifteen words `clean_text` never returns. */
  const StopWords: set<string> :=
    {"and", "the", "is", "in", "at", "of", "a", "with", "using", "for", "to", "an", "or", "by", "on"}

  predicate NotStopWord(w: string) {
    w !in StopWords
  }

  /** What every token of `clean_text` looks like. */
  predicate IsCleanToken(w: string) {
    && w != []
    && (forall i :: 0 <= i < |w| ==> IsLower(w[i]) || IsDigit(w[i]))
    && w !in StopWords
  }

  function LowerChar(c: char): char {
    if IsUpper(c) then (c as int - 'A' as int + 'a' as int) as char else c
  }

  /** `str.lower()` on text that holds only ASCII letters, digits and
      whitespace (the only text it is applied to here). */
  function Lower(s: string): (r: string)
    ensures |r| == |s|
    ensures forall i :: 0 <= i < |s| ==> !IsUpper(r[i])
    ensures forall i :: 0 <= i < |s| && IsUpper(s[i]) ==> IsLower(r[i]) && r[i] as int == s[i] as int + 32
    ensures forall i :: 0 <= i < |s| && !IsUpper(s[i]) ==> r[i] == s[i]
  {
    seq(|s|, i requires 0 <= i < |s| => LowerChar(s[i]))
  }

  /** Length of the leading run of non-whitespace characters. */
  function WordLength(s: string): (n: nat)
    ensures n <= |s|
    ensures forall i :: 0 <= i < n ==> !IsSpace(s[i])
    ensures n == |s| || IsSpace(s[n])
  {
    if s == [] || IsSpace(s[0]) then 0 else 1 + WordLength(s[1..])
  }

  /** `str.split()` with no separator: the maximal whitespace-free runs of
      `s`, in order. */
  function Split(s: string): (r: seq<string>)
    ensures forall i :: 0 <= i < |r| ==> r[i] != []
    ensures forall i, j :: 0 <= i < |r| && 0 <= j < |r[i]| ==> !IsSpace(r[i][j])
    decreases |s|
  {
    if s == [] then []
    else if IsSpace(s[0]) then Split(s[1..])
    else
      var n := WordLength(s);
      [s[..n]] + Split(s[n..])
  }

  /** `" ".join(words)`. */
  function Join(words: seq<string>): string {
    if words == [] then ""
    else if |words| == 1 then words[0]
    else words[0] + " " + Join(words[1..])
  }

  /** Concatenation of all words, without separators. */
  function Concat(words: seq<string>): string {
    if words == [] then [] else words[0] + Concat(words[1..])
  }

  /** `clean_text(text)`. */
  function CleanText(text: string): (r: seq<string>)
    ensures forall i :: 0 <= i < |r| ==> IsCleanToken(r[i])
  {
    var lowered := Lower(Filter(text, Kept));
    var r := Filter(Split(lowered), NotStopWord);
    LoweredChars(text);
    SplitWords(lowered);
    assert forall i :: 0 <= i < |r| ==> IsCleanToken(r[i]) by {
      forall i | 0 <= i < |r|
        ensures IsCleanToken(r[i])
      {
        assert r[i] in r;
        assert r[i] in Split(lowered);
        var k :| 0 <= k < |Split(lowered)| && Split(lowered)[k] == r[i];
        assert forall j :: 0 <= j < |r[i]| ==> r[i][j] in lowered && !IsSpace(r[i][j]);
      }
    }
    r
  }

  /** After deletion and lower-casing only lower-case letters, digits and
      whitespace remain. */
  lemma LoweredChars(text: string)
    ensures forall c :: c in Lower(Filter(text, Kept)) ==> IsLower(c) || IsDigit(c) || IsSpace(c)
  {
    var kept := Filter(text, Kept);
    forall c | c in Lower(kept)
      ensures IsLower(c) || IsDigit(c) || IsSpace(c)
    {
      var i :| 0 <= i < |kept| && Lower(kept)[i] == c;
      assert Kept(kept[i]);
    }
  }

  // ---------------------------------------------------------------------
  // Splitting

  /** Every word `Split` returns is a non-empty whitespace-free run, and
      together the words hold exactly the non-whitespace characters of `s`,
      in order. */
  lemma {:induction false} SplitWords(s: string)
    ensures forall i :: 0 <= i < |Split(s)| ==> Split(s)[i] != []
    ensures forall i, j :: 0 <= i < |Split(s)| && 0 <= j < |Split(s)[i]| ==> !IsSpace(Split(s)[i][j])
    ensures forall i, j :: 0 <= i < |Split(s)| && 0 <= j < |Split(s)[i]| ==> Split(s)[i][j] in s
    ensures Concat(Split(s)) == Filter(s, NotSpace)
    decreases |s|
  {
    if s == [] {
    } else if IsSpace(s[0]) {
      SplitWords(s[1..]);
      assert s == [s[0]] + s[1..];
      assert forall c :: c in s[1..] ==> c in s;
    } else {
      var n := WordLength(s);
      SplitWords(s[n..]);
      assert s == s[..n] + s[n..];
      FilterAppend(s[..n], s[n..], NotSpace);
      FilterAllPass(s[..n], NotSpace);
      var r := Split(s);
      assert r == [s[..n]] + Split(s[n..]);
      assert r[1..] == Split(s[n..]);
      assert forall c :: c in s[n..] ==> c in s;
      assert forall c :: c in s[..n] ==> c in s;
    }
  }

  /** `str.split()` of an empty text has no words. */
  lemma SplitEmpty()
    ensures Split([]) == []
  {
  }

  /** Leading whitespace, of any kind and any amount, is skipped. */
  lemma SplitSkipsSpace(c: char, s: string)
    requires IsSpace(c)
    ensures Split([c] + s) == Split(s)
  {
    assert ([c] + s)[1..] == s;
  }

  /** A whole run of whitespace in front of the text is skipped. */
  lemma {:induction false} SplitSkipsRun(gap: string, s: string)
    requires forall i :: 0 <= i < |gap| ==> IsSpace(gap[i])
    ensures Split(gap + s) == Split(s)
    decreases |gap|
  {
    if gap != [] {
      assert gap + s == [gap[0]] + (gap[1..] + s);
      SplitSkipsSpace(gap[0], gap[1..] + s);
      SplitSkipsRun(gap[1..], s);
    } else {
      assert gap + s == s;
    }
  }

  /** Two words separated by any non-empty whitespace run (a tab, several
      spaces, a line break) split into exactly those two words: words are
      never glued across a gap. */
  lemma SplitSeparatesWords(a: string, gap: string, b: string)
    requires a != [] && b != [] && gap != []
    requires forall i :: 0 <= i < |a| ==> !IsSpace(a[i])
    requires forall i :: 0 <= i < |b| ==> !IsSpace(b[i])
    requires forall i :: 0 <= i < |gap| ==> IsSpace(gap[i])
    ensures Split(a + gap + b) == [a, b]
  {
    assert a + gap + b == a + (gap + b);
    SplitLeadingWord(a, gap + b);
    SplitSkipsRun(gap, b);
    assert b + [] == b;
    SplitLeadingWord(b, []);
  }

  /** A word followed by nothing or by whitespace is split off whole. */
  lemma {:induction false} SplitLeadingWord(w: string, s: string)
    requires w != []
    requires forall i :: 0 <= i < |w| ==> !IsSpace(w[i])
    requires s == [] || IsSpace(s[0])
    ensures Split(w + s) == [w] + Split(s)
  {
    WordLengthOfWord(w, s);
    assert (w + s)[..|w|] == w;
    assert (w + s)[|w|..] == s;
  }

  lemma {:induction false} WordLengthOfWord(w: string, s: string)
    requires forall i :: 0 <= i < |w| ==> !IsSpace(w[i])
    requires s == [] || IsSpace(s[0])
    ensures WordLength(w + s) == |w|
    decreases |w|
  {
    if w == [] {
      assert w + s == s;
    } else {
      assert (w + s)[1..] == w[1..] + s;
      WordLengthOfWord(w[1..], s);
    }
  }

  /** Round trip: splitting the space-joined words gives the words back,
      provided they are non-empty and free of whitespace. */
  lemma {:induction false} SplitJoin(words: seq<string>)
    requires forall i :: 0 <= i < |words| ==> words[i] != []
    requires forall i, j :: 0 <= i < |words| && 0 <= j < |words[i]| ==> !IsSpace(words[i][j])
    ensures Split(Join(words)) == words
    decreases |words|
  {
    if words == [] {
    } else if |words| == 1 {
      assert words[0] + [] == words[0];
      SplitLeadingWord(words[0], []);
    } else {
      var rest := " " + Join(words[1..]);
      assert Join(words) == words[0] + rest;
      SplitLeadingWord(words[0], rest);
      assert rest[1..] == Join(words[1..]);
      SplitJoin(words[1..]);
      assert words == [words[0]] + words[1..];
    }
  }

  // ---------------------------------------------------------------------
  // Properties of clean_text

  /** The tokens are the lower-cased, whitespace-split words of the text
      that are not stop words: in their original order, each non-stop word
      as often as it occurs, and no stop word at all. */
  lemma CleanTextSelects(text: string)
    ensures var words := Split(Lower(Filter(text, Kept)));
      && IsSubsequence(CleanText(text), words)
      && (forall w :: multiset(CleanText(text))[w] == if w in StopWords then 0 else multiset(words)[w])
  {
    var words := Split(Lower(Filter(text, Kept)));
    FilterSelects(words, NotStopWord);
  }

  /** Characters of `Join(words)` are characters of the words or spaces. */
  lemma {:induction false} JoinChars(words: seq<string>, k: nat)
    requires k < |Join(words)|
    ensures Join(words)[k] == ' ' || exists i, j :: 0 <= i < |words| && 0 <= j < |words[i]| && Join(words)[k] == words[i][j]
    decreases |words|
  {
    if |words| == 1 {
      assert Join(words)[k] == words[0][k];
    } else {
      var w := words[0];
      if k < |w| {
        assert Join(words)[k] == words[0][k];
      } else if k > |w| {
        var k' := k - |w| - 1;
        assert Join(words)[k] == Join(words[1..])[k'];
        JoinChars(words[1..], k');
        if Join(words)[k] != ' ' {
          var i, j :| 0 <= i < |words[1..]| && 0 <= j < |words[1..][i]| && Join(words[1..])[k'] == words[1..][i][j];
          assert Join(words)[k] == words[i + 1][j];
        }
      }
    }
  }

  /** Cleaning the space-joined output of `clean_text` changes nothing. */
  lemma CleanTextIdempotent(text: string)
    ensures CleanText(Join(CleanText(text))) == CleanText(text)
  {
    var toks := CleanText(text);
    var joined := Join(toks);
    forall k | 0 <= k < |joined|
      ensures IsLower(joined[k]) || IsDigit(joined[k]) || joined[k] == ' '
    {
      JoinChars(toks, k);
    }
    FilterAllPass(joined, Kept);
    assert Lower(joined) == joined;
    SplitJoin(toks);
    FilterAllPass(toks, NotStopWord);
  }

  /** `clean_text` of a text without punctuation whose lower-cased form is
      the space-joined `words`: the non-stop words. */
  lemma CleanTextOfPlainWords(text: string, words: seq<string>)
    requires forall i :: 0 <= i < |text| ==> Kept(text[i])
    requires Lower(text) == Join(words)
    requires forall i :: 0 <= i < |words| ==> words[i] != []
    requires forall i, j :: 0 <= i < |words| && 0 <= j < |words[i]| ==> !IsSpace(words[i][j])
    ensures CleanText(text) == Filter(words, NotStopWord)
  {
    FilterAllPass(text, Kept);
    SplitJoin(words);
  }
}
