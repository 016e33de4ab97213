/** The tag path of a label: lower-cased words of letters and digits, joined with dashes. */
module Slug {
  import opened Common

  /** The Unicode tables: which characters are letters or digits, and what each one lower-cases to. */
  datatype Alphabet = Alphabet(letterOrDigit: char -> bool, lower: char -> char)

  /** What the labels' tables are relied on for. */
  ghost predicate Sound(a: Alphabet)
  {
    && (forall c {:trigger a.lower(c)} :: a.lower(a.lower(c)) == a.lower(c))
    && (forall c {:trigger IsSpace(c)} :: IsSpace(c) ==> !a.letterOrDigit(a.lower(c)))
    && a.lower('-') == '-' && !a.letterOrDigit('-')
    && a.lower('/') == '/' && !a.letterOrDigit('/')
  }

  type Words = seq<string>

  // ---------------------------------------------------------------- maximal runs

  /** `gaps` and `words` interleaved, a gap first and a gap last. */
  function Weave(gaps: seq<string>, words: Words): string
    requires |gaps| == |words| + 1
  {
    if words == [] then gaps[0] else gaps[0] + words[0] + Weave(gaps[1..], words[1..])
  }

  ghost predicate All(s: string, p: char -> bool)
  {
    forall i :: 0 <= i < |s| ==> p(s[i])
  }

  ghost predicate NoneOf(s: string, p: char -> bool)
  {
    forall i :: 0 <= i < |s| ==> !p(s[i])
  }

  /** `words` are the maximal runs of `p` in `s`: non-empty, with only non-`p` characters between, before and after. */
  ghost predicate AreRuns(s: string, p: char -> bool, words: Words)
  {
    exists gaps: seq<string> :: Splits(s, p, words, gaps)
  }

  ghost predicate Splits(s: string, p: char -> bool, words: Words, gaps: seq<string>)
  {
    && |gaps| == |words| + 1
    && s == Weave(gaps, words)
    && (forall i :: 0 <= i < |words| ==> words[i] != [] && All(words[i], p))
    && (forall i :: 0 <= i < |gaps| ==> NoneOf(gaps[i], p))
    && (forall i :: 0 < i < |words| ==> gaps[i] != [])
  }

  function Flush(words: Words, word: string): Words
  {
    if word == [] then words else words + [word]
  }

  /** The scan: the words closed so far and the one still open. */
  function Scan(s: string, p: char -> bool): (Words, string)
  {
    if s == [] then ([], [])
    else
      var (words, word) := Scan(s[..|s| - 1], p);
      if p(s[|s| - 1]) then (words, word + [s[|s| - 1]]) else (Flush(words, word), [])
  }

  function Runs(s: string, p: char -> bool): Words
  {
    var (words, word) := Scan(s, p);
    Flush(words, word)
  }

  lemma {:induction false} WeaveAppend(gaps: seq<string>, words: Words, word: string, gap: string)
    requires |gaps| == |words| + 1
    ensures Weave(gaps + [gap], words + [word]) == Weave(gaps, words) + word + gap
  {
    if words == [] {
      assert (words + [word])[1..] == [] && (gaps + [gap])[1..] == [gap];
      assert (gaps + [gap])[0] == gaps[0];
    } else {
      WeaveAppend(gaps[1..], words[1..], word, gap);
      assert (words + [word])[1..] == words[1..] + [word] && (gaps + [gap])[1..] == gaps[1..] + [gap];
    }
  }

  lemma {:induction false} WeaveExtend(gaps: seq<string>, words: Words, more: string)
    requires |gaps| == |words| + 1
    ensures Weave(gaps[|words| := gaps[|words|] + more], words) == Weave(gaps, words) + more
  {
    if words != [] {
      WeaveExtend(gaps[1..], words[1..], more);
      assert gaps[|words| := gaps[|words|] + more][1..] == gaps[1..][|words| - 1 := gaps[|words|] + more];
    }
  }

  lemma SplitsExtend(s: string, p: char -> bool, words: Words, gaps: seq<string>, c: char)
    requires Splits(s, p, words, gaps) && !p(c)
    ensures Splits(s + [c], p, words, gaps[|words| := gaps[|words|] + [c]])
  {
    WeaveExtend(gaps, words, [c]);
  }

  lemma SplitsClose(s: string, p: char -> bool, words: Words, gaps: seq<string>, word: string, gap: string)
    requires Splits(s, p, words, gaps) && word != [] && All(word, p) && NoneOf(gap, p)
    requires words != [] ==> gaps[|words|] != []
    ensures Splits(s + word + gap, p, words + [word], gaps + [gap])
  {
    WeaveAppend(gaps, words, word, gap);
  }

  /** What the scan has done: it has split everything before the open word. */
  lemma {:induction false} ScanSplits(s: string, p: char -> bool) returns (done: string, gaps: seq<string>)
    ensures s == done + Scan(s, p).1 && All(Scan(s, p).1, p)
    ensures Splits(done, p, Scan(s, p).0, gaps)
    ensures Scan(s, p).0 != [] ==> gaps[|Scan(s, p).0|] != []
    decreases |s|
  {
    if s == [] {
      done, gaps := [], [[]];
    } else {
      var c, s' := s[|s| - 1], s[..|s| - 1];
      done, gaps := ScanSplits(s', p);
      var (words, word) := Scan(s', p);
      assert s == s' + [c];
      if p(c) {
      } else if word == [] {
        SplitsExtend(done, p, words, gaps, c);
        done, gaps := done + [c], gaps[|words| := gaps[|words|] + [c]];
      } else {
        SplitsClose(done, p, words, gaps, word, [c]);
        done, gaps := done + word + [c], gaps + [[c]];
      }
    }
  }

  /** The scan finds maximal runs. */
  lemma RunsAreRuns(s: string, p: char -> bool)
    ensures AreRuns(s, p, Runs(s, p))
  {
    var done, gaps := ScanSplits(s, p);
    var (words, word) := Scan(s, p);
    if word == [] {
      assert s == done;
      assert Splits(s, p, Runs(s, p), gaps);
    } else {
      SplitsClose(done, p, words, gaps, word, []);
      assert s == done + word + [];
      assert Splits(s, p, Runs(s, p), gaps + [[]]);
    }
  }

  // ---------------------------------------------------------------- the scan of a woven text

  lemma {:induction false} ScanConcat(s: string, t: string, p: char -> bool)
    ensures All(t, p) ==> Scan(s + t, p) == (Scan(s, p).0, Scan(s, p).1 + t)
    ensures NoneOf(t, p) && t != [] ==> Scan(s + t, p) == (Runs(s, p), [])
    decreases |t|
  {
    if t == [] {
      assert s + t == s && Scan(s, p).1 + t == Scan(s, p).1;
    } else {
      var t' := t[..|t| - 1];
      ScanConcat(s, t', p);
      assert (s + t)[..|s + t| - 1] == s + t';
      assert t == t' + [t[|t| - 1]];
      assert Scan(s, p).1 + t == Scan(s, p).1 + t' + [t[|t| - 1]];
      if NoneOf(t, p) && t' == [] { assert s + t' == s; }
    }
  }

  lemma GapChangesNothing(head: string, gap: string, p: char -> bool)
    requires NoneOf(gap, p)
    ensures Runs(head + gap, p) == Runs(head, p)
  {
    ScanConcat(head, gap, p);
    if gap == [] { assert head + gap == head; }
  }

  lemma NextWord(head: string, gap: string, word: string, p: char -> bool)
    requires NoneOf(gap, p) && gap != [] && All(word, p) && word != []
    ensures Scan(head + gap + word, p) == (Runs(head, p), word)
    ensures Runs(head + gap + word, p) == Runs(head, p) + [word]
  {
    ScanConcat(head, gap, p);
    ScanConcat(head + gap, word, p);
    assert [] + word == word;
  }

  /** However a text splits, the scan reads the same words; here, from inside an open word. */
  lemma {:induction false} SplitsAreScanned(head: string, p: char -> bool, gaps: seq<string>, words: Words)
    requires |gaps| == |words| + 1
    requires forall i :: 0 <= i < |words| ==> words[i] != [] && All(words[i], p)
    requires forall i :: 0 <= i < |gaps| ==> NoneOf(gaps[i], p)
    requires forall i :: 0 <= i < |words| ==> gaps[i] != []
    ensures Runs(head + Weave(gaps, words), p) == Runs(head, p) + words
    decreases |words|
  {
    if words == [] {
      GapChangesNothing(head, gaps[0], p);
      assert Runs(head, p) + words == Runs(head, p);
    } else {
      var head' := head + gaps[0] + words[0];
      NextWord(head, gaps[0], words[0], p);
      SplitsAreScanned(head', p, gaps[1..], words[1..]);
      assert head + Weave(gaps, words) == head' + Weave(gaps[1..], words[1..]);
      assert Runs(head, p) + [words[0]] + words[1..] == Runs(head, p) + words;
    }
  }

  lemma FirstWord(gap: string, word: string, p: char -> bool)
    requires NoneOf(gap, p) && word != [] && All(word, p)
    ensures Runs(gap, p) == [] && Runs(gap + word, p) == [word]
  {
    ScanConcat([], gap, p);
    assert [] + gap == gap;
    ScanConcat(gap, word, p);
    assert [] + word == word;
  }

  lemma SplitIsScanned(s: string, p: char -> bool, words: Words, gaps: seq<string>)
    requires Splits(s, p, words, gaps)
    ensures words == Runs(s, p)
  {
    if words == [] {
      ScanConcat([], gaps[0], p);
      assert [] + gaps[0] == gaps[0];
    } else {
      FirstWord(gaps[0], words[0], p);
      SplitsAreScanned(gaps[0] + words[0], p, gaps[1..], words[1..]);
      assert s == gaps[0] + words[0] + Weave(gaps[1..], words[1..]);
    }
  }

  /** The scan's answer is the maximal runs, and the only one there is. */
  lemma RunsAreTheMaximalRuns(s: string, p: char -> bool, words: Words)
    ensures AreRuns(s, p, words) <==> words == Runs(s, p)
  {
    RunsAreRuns(s, p);
    if AreRuns(s, p, words) {
      var gaps :| Splits(s, p, words, gaps);
      SplitIsScanned(s, p, words, gaps);
    }
  }

  // ---------------------------------------------------------------- labels and paths

  function Lower(a: Alphabet, s: string): (r: string)
    ensures |r| == |s| && forall i :: 0 <= i < |s| ==> r[i] == a.lower(s[i])
  {
    seq(|s|, i requires 0 <= i < |s| => a.lower(s[i]))
  }

  function Join(words: Words, sep: char): string
  {
    if words == [] then [] else if |words| == 1 then words[0] else words[0] + [sep] + Join(words[1..], sep)
  }

  /** The words of a label: its lower-cased text's maximal runs of letters and digits. */
  function WordsOf(a: Alphabet, text: string): Words
  {
    Runs(Lower(a, text), a.letterOrDigit)
  }

  function PathOf(words: Words): string
  {
    "/" + Join(words, '-')
  }

  /** `strings.Join(strings.Fields(label), " ")`. */
  function Tidy(text: string): string
  {
    Join(Runs(text, c => !IsSpace(c)), ' ')
  }

  /** The path of a label, or nothing for a label with no letter and no digit. */
  function TagPath(a: Alphabet, text: string): Option<string>
  {
    var words := WordsOf(a, text);
    if words == [] then None else Some(PathOf(words))
  }

  /** The loop: one character at a time, into a list of words and the word still being built. */
  method LabelTagPath(a: Alphabet, text: string) returns (path: Option<string>)
    ensures path == TagPath(a, text)
  {
    var words: Words, word := [], [];
    var lowered := Lower(a, text);
    for i := 0 to |lowered|
      invariant (words, word) == Scan(lowered[..i], a.letterOrDigit)
    {
      assert lowered[..i + 1][..i] == lowered[..i];
      if a.letterOrDigit(lowered[i]) {
        word := word + [lowered[i]];
      } else {
        if word != [] { words := words + [word]; }
        word := [];
      }
    }
    assert lowered[..|lowered|] == lowered;
    if word != [] { words := words + [word]; }
    if words == [] { return None; }
    path := Some("/" + Join(words, '-'));
  }

  ghost predicate WordList(words: Words, p: char -> bool)
  {
    forall i :: 0 <= i < |words| ==> words[i] != [] && All(words[i], p)
  }

  lemma RunsAreWordList(s: string, p: char -> bool)
    ensures WordList(Runs(s, p), p)
  {
    RunsAreRuns(s, p);
  }

  /** The separators of a join, from its first word on. */
  ghost function Seps(n: nat, sep: char): seq<string>
  {
    seq(n + 1, i => if i == n then [] else [sep])
  }

  lemma {:induction false} WeaveSeps(words: Words, sep: char)
    ensures Weave(Seps(|words|, sep), words) == if words == [] then [] else [sep] + Join(words, sep)
  {
    if words != [] {
      WeaveSeps(words[1..], sep);
      assert Seps(|words|, sep)[1..] == Seps(|words[1..]|, sep);
    }
  }

  /** A join is its words with the separator between them and nothing around them. */
  lemma JoinIsWeave(words: Words, sep: char) returns (gaps: seq<string>)
    ensures |gaps| == |words| + 1 && Weave(gaps, words) == Join(words, sep)
    ensures forall i :: 0 <= i < |gaps| ==> gaps[i] == [] || gaps[i] == [sep]
    ensures forall i :: 0 < i < |words| ==> gaps[i] != []
  {
    if words == [] {
      gaps := [[]];
    } else {
      gaps := [[]] + Seps(|words| - 1, sep);
      WeaveSeps(words[1..], sep);
      assert gaps[1..] == Seps(|words[1..]|, sep);
    }
  }

  lemma WeaveHead(gaps: seq<string>, words: Words, more: string)
    requires |gaps| == |words| + 1
    ensures Weave(gaps[0 := more + gaps[0]], words) == more + Weave(gaps, words)
  {
    if words != [] {
      assert gaps[0 := more + gaps[0]][1..] == gaps[1..];
      assert Weave(gaps[0 := more + gaps[0]], words) == more + gaps[0] + words[0] + Weave(gaps[1..], words[1..]);
    }
  }

  /** A join of words separates them again. */
  lemma RunsOfJoin(words: Words, sep: char, p: char -> bool, before: string)
    requires WordList(words, p) && !p(sep) && NoneOf(before, p)
    ensures Runs(before + Join(words, sep), p) == words
  {
    var gaps := JoinIsWeave(words, sep);
    WeaveHead(gaps, words, before);
    assert Splits(before + Join(words, sep), p, words, gaps[0 := before + gaps[0]]);
    RunsAreTheMaximalRuns(before + Join(words, sep), p, words);
  }

  /** Two labels get the same path exactly when they have the same words. */
  lemma SamePathIffSameWords(a: Alphabet, l: string, m: string)
    requires Sound(a)
    ensures TagPath(a, l) == TagPath(a, m) <==> WordsOf(a, l) == WordsOf(a, m)
  {
    forall text ensures Runs(PathOf(WordsOf(a, text)), a.letterOrDigit) == WordsOf(a, text) {
      RunsAreWordList(Lower(a, text), a.letterOrDigit);
      RunsOfJoin(WordsOf(a, text), '-', a.letterOrDigit, "/");
    }
    assert Runs(PathOf(WordsOf(a, l)), a.letterOrDigit) == WordsOf(a, l);
    assert Runs(PathOf(WordsOf(a, m)), a.letterOrDigit) == WordsOf(a, m);
  }

  /** Every character of a run is a character of the text. */
  lemma {:induction false} ScanKeeps(s: string, p: char -> bool, q: char -> bool)
    requires All(s, q)
    ensures All(Scan(s, p).1, q) && forall i :: 0 <= i < |Scan(s, p).0| ==> All(Scan(s, p).0[i], q)
    decreases |s|
  {
    if s != [] {
      ScanKeeps(s[..|s| - 1], p, q);
    }
  }

  lemma {:induction false} LowerOfJoin(a: Alphabet, words: Words, sep: char)
    requires a.lower(sep) == sep
    requires forall i :: 0 <= i < |words| ==> All(words[i], c => a.lower(c) == c)
    ensures Lower(a, Join(words, sep)) == Join(words, sep)
  {
    if |words| > 1 { LowerOfJoin(a, words[1..], sep); }
  }

  /** Slugging a path gives the path back. */
  lemma PathsAreTheirOwnPath(a: Alphabet, text: string)
    requires Sound(a) && WordsOf(a, text) != []
    ensures TagPath(a, PathOf(WordsOf(a, text))) == TagPath(a, text) == Some(PathOf(WordsOf(a, text)))
  {
    var words := WordsOf(a, text);
    var lowered := Lower(a, text);
    ScanKeeps(lowered, a.letterOrDigit, c => a.lower(c) == c);
    LowerOfJoin(a, words, '-');
    assert Lower(a, PathOf(words)) == PathOf(words);
    RunsAreWordList(lowered, a.letterOrDigit);
    RunsOfJoin(words, '-', a.letterOrDigit, "/");
  }

  /** A non-empty gap breaks a text in two. */
  lemma {:induction false} RunsBreak(s: string, gap: string, t: string, p: char -> bool)
    requires NoneOf(gap, p) && gap != []
    ensures Scan(s + gap + t, p).0 == Runs(s, p) + Scan(t, p).0 && Scan(s + gap + t, p).1 == Scan(t, p).1
    ensures Runs(s + gap + t, p) == Runs(s, p) + Runs(t, p)
    decreases |t|
  {
    if t == [] {
      ScanConcat(s, gap, p);
      assert s + gap + t == s + gap;
    } else {
      RunsBreak(s, gap, t[..|t| - 1], p);
      assert (s + gap + t)[..|s + gap + t| - 1] == s + gap + t[..|t| - 1];
    }
  }

  lemma {:induction false} JoinConcat(words: Words, more: Words, sep: char)
    requires words != [] && more != []
    ensures Join(words + more, sep) == Join(words, sep) + [sep] + Join(more, sep)
  {
    assert (words + more)[1..] == words[1..] + more;
    if |words| > 1 { JoinConcat(words[1..], more, sep); }
  }

  lemma AsideWords(a: Alphabet, text: string, suffix: string)
    requires Sound(a) && WordsOf(a, text) != []
    ensures WordsOf(a, PathOf(WordsOf(a, text)) + "-" + suffix) == WordsOf(a, text) + WordsOf(a, suffix)
  {
    var path := PathOf(WordsOf(a, text));
    PathsAreTheirOwnPath(a, text);
    SamePathIffSameWords(a, path, text);
    RunsBreak(Lower(a, path), "-", Lower(a, suffix), a.letterOrDigit);
    assert Lower(a, path + "-" + suffix) == Lower(a, path) + "-" + Lower(a, suffix);
  }

  /** A path with a suffix after it is the path of some label, itself for one, iff the suffix slugs to itself. */
  lemma LabelsMayNameAsidePathsIff(a: Alphabet, text: string, suffix: string)
    requires Sound(a) && WordsOf(a, text) != []
    ensures var aside := PathOf(WordsOf(a, text)) + "-" + suffix;
            && ((exists other :: TagPath(a, other) == Some(aside)) <==> TagPath(a, aside) == Some(aside))
            && (TagPath(a, aside) == Some(aside) <==> TagPath(a, suffix) == Some("/" + suffix))
  {
    var words, more := WordsOf(a, text), WordsOf(a, suffix);
    var aside := PathOf(words) + "-" + suffix;
    forall other | TagPath(a, other) == Some(aside) ensures TagPath(a, aside) == Some(aside) {
      PathsAreTheirOwnPath(a, other);
    }
    AsideWords(a, text, suffix);
    if more == [] {
      assert words + more == words;
    } else {
      JoinConcat(words, more, '-');
      assert PathOf(words + more) == PathOf(words) + "-" + Join(more, '-');
      assert (PathOf(words) + "-" + Join(more, '-'))[|PathOf(words) + "-"|..] == Join(more, '-');
      assert aside[|PathOf(words) + "-"|..] == suffix;
      assert PathOf(more)[1..] == Join(more, '-') && ("/" + suffix)[1..] == suffix;
    }
  }

  /** So a label may name where a thread moved aside, its id being groups of lower-case letters and digits. */
  lemma LabelsMayNameAsidePaths(a: Alphabet, text: string, groups: Words)
    requires Sound(a) && WordsOf(a, text) != []
    requires groups != [] && WordList(groups, a.letterOrDigit)
    requires forall i :: 0 <= i < |groups| ==> All(groups[i], c => a.lower(c) == c)
    ensures var aside := PathOf(WordsOf(a, text)) + "-" + Join(groups, '-');
            TagPath(a, aside) == Some(aside)
  {
    var suffix := Join(groups, '-');
    LowerOfJoin(a, groups, '-');
    RunsOfJoin(groups, '-', a.letterOrDigit, []);
    assert [] + suffix == suffix;
    LabelsMayNameAsidePathsIff(a, text, suffix);
  }

  // ---------------------------------------------------------------- tidying

  lemma WordsBreak(a: Alphabet, head: string, gap: string, rest: string)
    requires Sound(a) && All(gap, IsSpace) && gap != []
    ensures WordsOf(a, head + gap + rest) == WordsOf(a, head) + WordsOf(a, rest)
  {
    assert NoneOf(Lower(a, gap), a.letterOrDigit);
    RunsBreak(Lower(a, head), Lower(a, gap), Lower(a, rest), a.letterOrDigit);
    assert Lower(a, head + gap + rest) == Lower(a, head) + Lower(a, gap) + Lower(a, rest);
  }

  /** A reading of texts that white space always breaks in two. */
  ghost predicate Breaks(read: string -> Words)
  {
    && read([]) == []
    && forall head, gap, rest: string {:trigger head + gap + rest} ::
      All(gap, IsSpace) && gap != [] ==> read(head + gap + rest) == read(head) + read(rest)
  }

  ghost function ReadEach(read: string -> Words, fields: Words): Words
  {
    if fields == [] then [] else read(fields[0]) + ReadEach(read, fields[1..])
  }

  /** However fields are spaced, the words of the text are the words of the fields. */
  lemma {:induction false} ReadWeave(read: string -> Words, head: string, gaps: seq<string>, fields: Words)
    requires Breaks(read) && |gaps| == |fields| + 1
    requires forall i :: 0 <= i < |gaps| ==> All(gaps[i], IsSpace)
    requires forall i :: 0 <= i < |fields| ==> gaps[i] != []
    ensures read(head + Weave(gaps, fields)) == read(head) + ReadEach(read, fields)
    decreases |fields|
  {
    if fields == [] {
      assert head + gaps[0] + [] == head + gaps[0];
      if gaps[0] == [] { assert head + gaps[0] == head; }
    } else {
      var rest := fields[0] + Weave(gaps[1..], fields[1..]);
      ReadWeave(read, fields[0], gaps[1..], fields[1..]);
      assert head + Weave(gaps, fields) == head + gaps[0] + rest;
    }
  }

  lemma ReadSpaced(read: string -> Words, gaps: seq<string>, fields: Words)
    requires Breaks(read) && |gaps| == |fields| + 1
    requires forall i :: 0 <= i < |gaps| ==> All(gaps[i], IsSpace)
    requires forall i :: 0 < i < |fields| ==> gaps[i] != []
    ensures read(Weave(gaps, fields)) == ReadEach(read, fields)
  {
    var s, spaced := Weave(gaps, fields), gaps[0 := " " + gaps[0]];
    ReadWeave(read, [], spaced, fields);
    WeaveHead(gaps, fields, " ");
    assert [] + Weave(spaced, fields) == [] + " " + s;
    assert read([] + " " + s) == [] + read(s);
    assert [] + ReadEach(read, fields) == ReadEach(read, fields);
  }

  lemma WordsAreBroken(a: Alphabet)
    requires Sound(a)
    ensures Breaks(s => WordsOf(a, s))
  {
    forall head, gap, rest: string | All(gap, IsSpace) && gap != []
      ensures WordsOf(a, head + gap + rest) == WordsOf(a, head) + WordsOf(a, rest)
    {
      WordsBreak(a, head, gap, rest);
    }
    assert WordsOf(a, []) == [];
  }

  lemma ReadTidy(read: string -> Words, text: string)
    requires Breaks(read)
    ensures read(Tidy(text)) == read(text)
  {
    var field := (c: char) => !IsSpace(c);
    var fields := Runs(text, field);
    RunsAreRuns(text, field);
    var gaps :| Splits(text, field, fields, gaps);
    assert forall i :: 0 <= i < |gaps| ==> All(gaps[i], IsSpace);
    ReadSpaced(read, gaps, fields);
    var single := JoinIsWeave(fields, ' ');
    ReadSpaced(read, single, fields);
  }

  /** Tidying white space never changes a label's path. */
  lemma TidyKeepsThePath(a: Alphabet, text: string)
    requires Sound(a)
    ensures TagPath(a, Tidy(text)) == TagPath(a, text)
  {
    WordsAreBroken(a);
    ReadTidy(s => WordsOf(a, s), text);
  }
}
