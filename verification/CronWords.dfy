/** strings.Fields: the words of a text (timer/cronexpr.go:31). */
module CronWords {
  import opened CronField

  /** unicode.IsSpace */
  predicate IsSpace(c: char) {
    var n := c as int;
    9 <= n <= 13 || n in {0x20, 0x85, 0xA0, 0x1680, 0x2028, 0x2029, 0x202f, 0x205f, 0x3000} || 0x2000 <= n <= 0x200a
  }

  /** The maximal runs of characters that are not spaces; `run` is the one being read. */
  function Fields(s: string, run: string): seq<string> {
    if s == "" then (if run == "" then [] else [run])
    else if IsSpace(s[0]) then (if run == "" then [] else [run]) + Fields(s[1..], "")
    else Fields(s[1..], run + [s[0]])
  }

  predicate AllSpace(s: string) { forall i | 0 <= i < |s| :: IsSpace(s[i]) }

  predicate NoSpace(s: string) { forall i | 0 <= i < |s| :: !IsSpace(s[i]) }

  predicate IsWord(s: string) { s != "" && NoSpace(s) }

  /** The text begins with white space, if any, and the word, which ends where white space or the end
      of the text follows. */
  predicate BeginsWith(s: string, gap: string, word: string, rest: string) {
    s == gap + word + rest && AllSpace(gap) && IsWord(word) && (rest == "" || IsSpace(rest[0]))
  }

  /** The text consists of these words, with white space between, and possibly before and after. */
  ghost predicate Lists(s: string, words: seq<string>)
    decreases |words|
  {
    if words == [] then AllSpace(s)
    else exists gap, rest :: BeginsWith(s, gap, words[0], rest) && Lists(rest, words[1..])
  }

  lemma {:induction false} FieldsAfterGap(gap: string, rest: string)
    requires AllSpace(gap)
    ensures Fields(gap + rest, "") == Fields(rest, "")
  {
    if gap == "" {
      assert gap + rest == rest;
    } else {
      FieldsAfterGap(gap[1..], rest);
      assert (gap + rest)[1..] == gap[1..] + rest;
    }
  }

  lemma {:induction false} FieldsInWord(run: string, word: string, rest: string)
    requires NoSpace(word)
    ensures Fields(word + rest, run) == Fields(rest, run + word)
    decreases |word|
  {
    if word == "" {
      assert word + rest == rest && run + word == run;
    } else {
      FieldsInWord(run + [word[0]], word[1..], rest);
      assert (word + rest)[1..] == word[1..] + rest;
      assert run + [word[0]] + word[1..] == run + word;
    }
  }

  lemma FieldsAfterWord(run: string, rest: string)
    requires run != "" && (rest == "" || IsSpace(rest[0]))
    ensures Fields(rest, run) == [run] + Fields(rest, "")
  {}

  lemma FieldsOfFirst(s: string, gap: string, word: string, rest: string)
    requires BeginsWith(s, gap, word, rest)
    ensures Fields(s, "") == [word] + Fields(rest, "")
  {
    FieldsAfterGap(gap, word + rest);
    FieldsInWord("", word, rest);
    FieldsAfterWord(word, rest);
    assert s == gap + (word + rest) && "" + word == word;
  }

  lemma {:induction false} ListedAreFields(s: string, words: seq<string>)
    requires Lists(s, words)
    ensures Fields(s, "") == words
    decreases |words|
  {
    if words == [] {
      FieldsAfterGap(s, "");
      assert s + "" == s;
    } else {
      var gap, rest :| BeginsWith(s, gap, words[0], rest) && Lists(rest, words[1..]);
      FieldsOfFirst(s, gap, words[0], rest);
      ListedAreFields(rest, words[1..]);
    }
  }

  lemma SpaceBefore(c: char, s: string, words: seq<string>)
    requires IsSpace(c) && Lists(s, words)
    ensures Lists([c] + s, words)
  {
    if words != [] {
      var gap, rest :| BeginsWith(s, gap, words[0], rest) && Lists(rest, words[1..]);
      assert [c] + s == [c] + gap + words[0] + rest;
      assert BeginsWith([c] + s, [c] + gap, words[0], rest);
    }
  }

  lemma WordBefore(word: string, s: string, words: seq<string>)
    requires IsWord(word) && (s == "" || IsSpace(s[0])) && Lists(s, words)
    ensures Lists(word + s, [word] + words)
  {
    var all := [word] + words;
    assert all[0] == word && all[1..] == words;
    assert "" + word + s == word + s;
    assert BeginsWith(word + s, "", all[0], s) && Lists(s, all[1..]);
  }

  lemma {:induction false} FieldsAreListed(s: string, run: string)
    requires NoSpace(run)
    ensures Lists(run + s, Fields(s, run))
    decreases |s|
  {
    if s == "" {
      assert run + s == run;
      if run != "" {
        WordBefore(run, "", []);
        assert [run] + [] == [run] && run + "" == run;
      }
    } else if IsSpace(s[0]) {
      FieldsAreListed(s[1..], "");
      assert "" + s[1..] == s[1..] && [s[0]] + s[1..] == s;
      SpaceBefore(s[0], s[1..], Fields(s[1..], ""));
      if run == "" {
        assert run + s == s && [] + Fields(s[1..], "") == Fields(s[1..], "");
      } else {
        WordBefore(run, s, Fields(s[1..], ""));
      }
    } else {
      FieldsAreListed(s[1..], run + [s[0]]);
      assert run + [s[0]] + s[1..] == run + s;
    }
  }

  /** Every text lists exactly one sequence of words, the one that Fields gives. */
  lemma FieldsIff(s: string, words: seq<string>)
    ensures Fields(s, "") == words <==> Lists(s, words)
  {
    FieldsAreListed(s, "");
    assert "" + s == s;
    if Lists(s, words) {
      ListedAreFields(s, words);
    }
  }

  /** Words joined by single spaces are listed. */
  lemma {:induction false} JoinedIsListed(words: seq<string>)
    requires |words| >= 1 && forall i | 0 <= i < |words| :: IsWord(words[i])
    ensures Lists(Join(words, ' '), words)
  {
    if |words| == 1 {
      WordBefore(words[0], "", []);
      assert words[0] + "" == words[0] && [words[0]] + [] == words;
    } else {
      JoinedIsListed(words[1..]);
      SpaceBefore(' ', Join(words[1..], ' '), words[1..]);
      WordBefore(words[0], [' '] + Join(words[1..], ' '), words[1..]);
      assert words[0] + ([' '] + Join(words[1..], ' ')) == Join(words, ' ');
      assert [words[0]] + words[1..] == words;
    }
  }
}
