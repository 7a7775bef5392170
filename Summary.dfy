/**
 * `generateSummary` of backend/src/services/aiService.js: split the entry
 * into sentences on runs of ".", "!" and "?", keep the fragments longer
 * than 10 characters once trimmed, and join the first two with ". ".
 */
module Summary {
  import opened JsString

  /** The fixed sentence `generateSummary` returns when no fragment is long enough. */
  const FallbackSummary: string := "A brief moment of reflection was captured today."

  /** The characters of the sentence-splitting pattern `/[.!?]+/`. */
  predicate IsTerminator(c: char) {
    c == '.' || c == '!' || c == '?'
  }

  predicate NoTerminator(s: string) {
    forall i :: 0 <= i < |s| ==> !IsTerminator(s[i])
  }

  /** `s` with its leading run of terminators removed. */
  function DropTerminators(s: string): (r: string)
    ensures |r| <= |s| && r == s[|s| - |r|..]
    ensures r == [] || !IsTerminator(r[0])
    decreases |s|
  {
    if |s| > 0 && IsTerminator(s[0]) then DropTerminators(s[1..]) else s
  }

  /**
   * `content.split(/[.!?]+/)`: the pieces between maximal runs of
   * terminators, including the empty piece before a leading run and after a
   * trailing one. No piece holds a terminator.
   */
  function SplitSentences(s: string): (r: seq<string>)
    ensures |r| >= 1
    decreases |s|
  {
    if |s| == 0 then [""]
    else if IsTerminator(s[0]) then [""] + SplitSentences(DropTerminators(s))
    else
      var rest := SplitSentences(s[1..]);
      [[s[0]] + rest[0]] + rest[1..]
  }

  /** No piece of the split holds a terminator. */
  lemma {:induction false} SplitSentencesNoTerminator(s: string)
    ensures forall p :: p in SplitSentences(s) ==> NoTerminator(p)
    decreases |s|
  {
    if |s| > 0 && IsTerminator(s[0]) {
      SplitSentencesNoTerminator(DropTerminators(s));
    } else if |s| > 0 {
      var rest := SplitSentences(s[1..]);
      SplitSentencesNoTerminator(s[1..]);
      assert rest[0] in rest;
      assert NoTerminator([s[0]] + rest[0]) by {
        assert forall i :: 1 <= i < 1 + |rest[0]| ==> ([s[0]] + rest[0])[i] == rest[0][i - 1];
      }
      assert forall p :: p in rest[1..] ==> p in rest;
    }
  }

  /** The characters of `s` that are not terminators, in order. */
  function NonTerminators(s: string): string {
    if |s| == 0 then ""
    else (if IsTerminator(s[0]) then "" else [s[0]]) + NonTerminators(s[1..])
  }

  function Concat(pieces: seq<string>): string {
    if |pieces| == 0 then "" else pieces[0] + Concat(pieces[1..])
  }

  lemma {:induction false} NonTerminatorsOfRun(s: string)
    ensures NonTerminators(s) == NonTerminators(DropTerminators(s))
    decreases |s|
  {
    if |s| > 0 && IsTerminator(s[0]) {
      NonTerminatorsOfRun(s[1..]);
    }
  }

  /** Concatenating a piece in front of a list of pieces. */
  lemma ConcatCons(x: string, xs: seq<string>)
    ensures Concat([x] + xs) == x + Concat(xs)
  {
    assert ([x] + xs)[1..] == xs;
  }

  /**
   * The split loses only terminators, and at least one stands between two
   * neighbouring pieces: the pieces spell the text's other characters, with
   * `|pieces| - 1` characters to spare.
   */
  lemma {:induction false} SplitSentencesPartitions(s: string)
    ensures Concat(SplitSentences(s)) == NonTerminators(s)
    ensures |Concat(SplitSentences(s))| + |SplitSentences(s)| - 1 <= |s|
    decreases |s|
  {
    if |s| == 0 {
    } else if IsTerminator(s[0]) {
      var d := DropTerminators(s);
      assert |d| < |s|;
      SplitSentencesPartitions(d);
      NonTerminatorsOfRun(s);
      var sd := SplitSentences(d);
      assert SplitSentences(s) == [""] + sd;
      ConcatCons("", sd);
      assert "" + Concat(sd) == Concat(sd);
    } else {
      var rest := SplitSentences(s[1..]);
      SplitSentencesPartitions(s[1..]);
      assert NonTerminators(s) == [s[0]] + NonTerminators(s[1..]);
      assert rest == [rest[0]] + rest[1..];
      ConcatCons(rest[0], rest[1..]);
      ConcatCons([s[0]] + rest[0], rest[1..]);
      assert SplitSentences(s) == [[s[0]] + rest[0]] + rest[1..];
      assert Concat(SplitSentences(s)) == [s[0]] + (rest[0] + Concat(rest[1..]));
    }
  }

  /** A prefix without terminators joins the first piece of what follows. */
  lemma {:induction false} SplitAfterPlainText(a: string, b: string)
    requires NoTerminator(a)
    ensures SplitSentences(a + b) == [a + SplitSentences(b)[0]] + SplitSentences(b)[1..]
    decreases |a|
  {
    if |a| > 0 {
      var sb := SplitSentences(b);
      assert NoTerminator(a[1..]) by {
        assert forall i :: 0 <= i < |a| - 1 ==> a[1..][i] == a[i + 1];
      }
      SplitAfterPlainText(a[1..], b);
      assert (a + b)[0] == a[0] && !IsTerminator(a[0]);
      assert (a + b)[1..] == a[1..] + b;
      var rest := SplitSentences(a[1..] + b);
      assert rest == [a[1..] + sb[0]] + sb[1..];
      assert SplitSentences(a + b) == [[a[0]] + rest[0]] + rest[1..];
      assert [a[0]] + (a[1..] + sb[0]) == a + sb[0];
    } else {
      var sb := SplitSentences(b);
      assert a + b == b;
      assert sb == [sb[0]] + sb[1..];
      assert a + sb[0] == sb[0];
    }
  }

  /** A run of terminators in front of text opens a new piece. */
  lemma {:induction false} SplitAfterRun(t: string, b: string)
    requires |t| > 0 && forall i :: 0 <= i < |t| ==> IsTerminator(t[i])
    requires b == [] || !IsTerminator(b[0])
    ensures SplitSentences(t + b) == [""] + SplitSentences(b)
  {
    DropRun(t, b);
  }

  lemma {:induction false} DropRun(t: string, b: string)
    requires forall i :: 0 <= i < |t| ==> IsTerminator(t[i])
    requires b == [] || !IsTerminator(b[0])
    ensures DropTerminators(t + b) == b
    decreases |t|
  {
    if |t| > 0 {
      assert (t + b)[1..] == t[1..] + b;
      DropRun(t[1..], b);
    } else {
      assert t + b == b;
    }
  }

  /** The pieces whose trimmed length is over 10, in order (`.filter(s => s.trim().length > 10)`). */
  function KeepLong(pieces: seq<string>): (kept: seq<string>)
    ensures |kept| <= |pieces|
  {
    if |pieces| == 0 then []
    else if |Trim(pieces[0])| > 10 then [pieces[0]] + KeepLong(pieces[1..])
    else KeepLong(pieces[1..])
  }

  /** The filter keeps exactly the pieces whose trimmed length is over 10, and loses no length. */
  lemma {:induction false} KeepLongFilters(pieces: seq<string>)
    ensures forall p :: p in KeepLong(pieces) <==> p in pieces && |Trim(p)| > 10
    ensures |Concat(KeepLong(pieces))| <= |Concat(pieces)|
  {
    if |pieces| > 0 {
      KeepLongFilters(pieces[1..]);
      assert forall p :: p in pieces <==> p == pieces[0] || p in pieces[1..];
      assert Concat(pieces) == pieces[0] + Concat(pieces[1..]);
      if |Trim(pieces[0])| > 10 {
        var rest := KeepLong(pieces[1..]);
        assert Concat([pieces[0]] + rest) == pieces[0] + Concat(rest) by {
          assert ([pieces[0]] + rest)[1..] == rest;
        }
      }
    }
  }

  /** A single piece is kept exactly when its trim is longer than 10 characters. */
  lemma KeepLongSingle(p: string)
    ensures KeepLong([p]) == if |Trim(p)| > 10 then [p] else []
  {
    assert [p][1..] == [];
  }

  /**
   * Filtering a concatenation filters each part and keeps them in order:
   * with `KeepLongSingle`, the kept pieces are the long ones in their
   * original order, repeats included.
   */
  lemma {:induction false} KeepLongConcat(a: seq<string>, b: seq<string>)
    ensures KeepLong(a + b) == KeepLong(a) + KeepLong(b)
    decreases |a|
  {
    if |a| > 0 {
      KeepLongConcat(a[1..], b);
      assert (a + b)[0] == a[0];
      assert (a + b)[1..] == a[1..] + b;
      if |Trim(a[0])| > 10 {
        assert [a[0]] + (KeepLong(a[1..]) + KeepLong(b)) == ([a[0]] + KeepLong(a[1..])) + KeepLong(b);
      }
    } else {
      assert a + b == b;
    }
  }

  /** The sentences `generateSummary` may use. */
  function Sentences(content: string): seq<string> {
    KeepLong(SplitSentences(content))
  }

  /**
   * `generateSummary`: never empty and always ending in "."; the fixed
   * sentence when no fragment is long enough.
   */
  function GenerateSummary(content: string): (summary: string)
    ensures |summary| > 0 && summary[|summary| - 1] == '.'
    ensures Sentences(content) == [] ==> summary == FallbackSummary
  {
    var sentences := Sentences(content);
    if |sentences| == 0 then FallbackSummary
    else if |sentences| == 1 then Trim(sentences[0]) + "."
    else
      var summaryParts := sentences[..if 2 < |sentences| then 2 else |sentences|];
      var trimmed := seq(|summaryParts|, i requires 0 <= i < |summaryParts| => Trim(summaryParts[i]));
      assert Join(trimmed, ". ") == trimmed[0] + ". " + trimmed[1];
      Join(trimmed, ". ") + "."
  }

  /**
   * With sentences to use, the summary is the first one, trimmed, or the
   * first two, trimmed and joined by ". ", closed by ".".
   */
  lemma SummaryOfSentences(content: string)
    ensures var kept := Sentences(content);
      |kept| == 1 ==> GenerateSummary(content) == Trim(kept[0]) + "."
    ensures var kept := Sentences(content);
      |kept| >= 2 ==> GenerateSummary(content) == Trim(kept[0]) + ". " + Trim(kept[1]) + "."
  {
    var kept := Sentences(content);
    if |kept| >= 2 {
      var parts := kept[..2];
      var trimmed := seq(2, i requires 0 <= i < 2 => Trim(parts[i]));
      assert Join(trimmed, ". ") == trimmed[0] + ". " + trimmed[1];
    }
  }

  /** Each sentence used is a piece of the text with no terminator and over 10 characters once trimmed. */
  lemma SentencesComeFromContent(content: string)
    ensures forall p :: p in Sentences(content) ==>
      p in SplitSentences(content) && NoTerminator(p) && |Trim(p)| > 10
  {
    KeepLongFilters(SplitSentences(content));
    SplitSentencesNoTerminator(content);
  }

  lemma {:induction false} TwoFromConcat(ps: seq<string>)
    requires |ps| >= 2
    ensures |ps[0]| + |ps[1]| <= |Concat(ps)|
  {
    assert Concat(ps) == ps[0] + Concat(ps[1..]);
    assert Concat(ps[1..]) == ps[1] + Concat(ps[2..]);
  }

  /**
   * A summary is shorter than its entry once the entry has at least four
   * runs of terminators (five pieces) and some fragment is long enough.
   */
  lemma SummaryShorterThanLongEntry(content: string)
    requires |SplitSentences(content)| >= 5
    requires Sentences(content) != []
    ensures |GenerateSummary(content)| < |content|
  {
    var kept := Sentences(content);
    SplitSentencesPartitions(content);
    KeepLongFilters(SplitSentences(content));
    SummaryOfSentences(content);
    assert Concat(kept) == kept[0] + Concat(kept[1..]);
    if |kept| >= 2 {
      TwoFromConcat(kept);
    }
  }

  /** A sentence closed by "." splits into itself and the empty piece after the run. */
  lemma SplitOfClosedSentence(t: string)
    requires NoTerminator(t)
    ensures SplitSentences(t + ".") == [t, ""]
  {
    SplitAfterPlainText(t, ".");
    assert "." + "" == ".";
    SplitAfterRun(".", "");
    assert SplitSentences(".") == ["", ""];
    assert t + "" == t;
  }

  /** The empty piece after a closing run is dropped; a long piece is kept. */
  lemma KeepLongOfClosed(p: string)
    requires |Trim(p)| > 10
    ensures KeepLong([p, ""]) == [p]
  {
    var ps := [p, ""];
    assert ps[1..] == [""];
    assert KeepLong([""]) == [];
  }

  /** A trimmed string with no terminator and over 10 characters spells its own one-sentence summary. */
  lemma SummaryOfOneSentence(t: string)
    requires NoTerminator(t) && Trim(t) == t && |t| > 10
    ensures GenerateSummary(t + ".") == t + "."
  {
    SplitOfClosedSentence(t);
    KeepLongOfClosed(t);
    SummaryOfSentences(t + ".");
  }

  lemma TrimAfterSpace(t: string)
    requires Trim(t) == t && t != []
    ensures Trim(" " + t) == t
  {
    assert (" " + t)[1..] == t;
    assert TrimStart(" " + t) == TrimStart(t);
    TrimOfTrimmed(t);
  }

  lemma NoTerminatorConcat(a: string, b: string)
    requires NoTerminator(a) && NoTerminator(b)
    ensures NoTerminator(a + b)
  {
    assert forall i :: 0 <= i < |a + b| ==> (a + b)[i] == if i < |a| then a[i] else b[i - |a|];
  }

  /** The trim of a piece without terminators has none either. */
  lemma TrimKeepsNoTerminator(p: string)
    requires NoTerminator(p)
    ensures NoTerminator(Trim(p))
  {
    TrimIsSlice(p);
    var t := Trim(p);
    var i :| 0 <= i <= |p| - |t| && p[i..i + |t|] == t
             && AllSpace(p[..i]) && AllSpace(p[i + |t|..]);
    forall k | 0 <= k < |t| ensures !IsTerminator(t[k]) {
      assert t[k] == p[i + k];
    }
  }

  /** A sentence closed by one "." in front of text that does not open with a terminator. */
  lemma SplitOfSentenceThen(t: string, b: string)
    requires NoTerminator(t)
    requires b == [] || !IsTerminator(b[0])
    ensures SplitSentences(t + "." + b) == [t] + SplitSentences(b)
  {
    assert t + "." + b == t + ("." + b);
    SplitAfterRun(".", b);
    var sb := SplitSentences(b);
    SplitAfterPlainText(t, "." + b);
    assert ([""] + sb)[0] == "" && ([""] + sb)[1..] == sb;
    assert t + "" == t;
  }

  /** Two trimmed sentences joined as `generateSummary` joins them split back into themselves. */
  lemma SplitOfTwoSentences(t0: string, t1: string)
    requires NoTerminator(t0) && NoTerminator(t1)
    ensures SplitSentences(t0 + ". " + t1 + ".") == [t0, " " + t1, ""]
  {
    var tail := " " + t1;
    NoTerminatorConcat(" ", t1);
    SplitOfClosedSentence(tail);
    assert t0 + ". " + t1 + "." == t0 + "." + (tail + ".");
    SplitOfSentenceThen(t0, tail + ".");
  }

  /**
   * `generateSummary` is idempotent: a summary summarises to itself, since
   * its sentences are already trimmed, long enough and split by ". ".
   */
  lemma SummaryIdempotent(content: string)
    ensures GenerateSummary(GenerateSummary(content)) == GenerateSummary(content)
  {
    var kept := Sentences(content);
    SummaryOfSentences(content);
    if |kept| == 0 {
      FallbackIsOwnSummary();
    } else if |kept| == 1 {
      UsedSentenceTrimmed(content, 0);
      SummaryOfOneSentence(Trim(kept[0]));
    } else {
      UsedSentenceTrimmed(content, 0);
      UsedSentenceTrimmed(content, 1);
      SummaryOfTwoSentences(Trim(kept[0]), Trim(kept[1]));
    }
  }

  /** The fixed sentence summarises to itself. */
  lemma FallbackIsOwnSummary()
    ensures GenerateSummary(FallbackSummary) == FallbackSummary
  {
    var t := FallbackSummary[..|FallbackSummary| - 1];
    FallbackSentence();
    TrimOfTrimmed(t);
    SummaryOfOneSentence(t);
  }

  /** The fixed sentence is one sentence without terminators, closed by ".". */
  lemma FallbackSentence()
    ensures var t := FallbackSummary[..|FallbackSummary| - 1];
      FallbackSummary == t + "." && NoTerminator(t) && |t| > 10
      && !IsSpace(t[0]) && !IsSpace(t[|t| - 1])
  {
    var a, b, c := "A brief moment of", " reflection was", " captured today";
    assert NoTerminator(a);
    assert NoTerminator(b);
    assert NoTerminator(c);
    NoTerminatorConcat(a, b);
    NoTerminatorConcat(a + b, c);
    assert FallbackSummary[..|FallbackSummary| - 1] == a + b + c;
  }

  /** A used sentence, once trimmed, is its own trim, has no terminator and is over 10 characters. */
  lemma UsedSentenceTrimmed(content: string, i: nat)
    requires i < |Sentences(content)|
    ensures var t := Trim(Sentences(content)[i]);
      NoTerminator(t) && Trim(t) == t && |t| > 10
  {
    var p := Sentences(content)[i];
    SentencesComeFromContent(content);
    assert p in Sentences(content);
    TrimIdempotent(p);
    TrimKeepsNoTerminator(p);
  }

  /** Two long trimmed sentences without terminators, joined as a summary, summarise to themselves. */
  lemma SummaryOfTwoSentences(t0: string, t1: string)
    requires NoTerminator(t0) && Trim(t0) == t0 && |t0| > 10
    requires NoTerminator(t1) && Trim(t1) == t1 && |t1| > 10
    ensures GenerateSummary(t0 + ". " + t1 + ".") == t0 + ". " + t1 + "."
  {
    var summary := t0 + ". " + t1 + ".";
    var p1 := " " + t1;
    SplitOfTwoSentences(t0, t1);
    TrimAfterSpace(t1);
    KeepLongOfTwo(t0, p1);
    assert Sentences(summary) == [t0, p1];
    SummaryOfSentences(summary);
    assert Trim(t0) + ". " + Trim(p1) + "." == summary;
  }

  lemma KeepLongOfTwo(p0: string, p1: string)
    requires |Trim(p0)| > 10 && |Trim(p1)| > 10
    ensures KeepLong([p0, p1, ""]) == [p0, p1]
  {
    var ps := [p0, p1, ""];
    assert ps[1..] == [p1, ""];
    KeepLongOfClosed(p1);
  }

  /** `s` repeated `n` times (`String.prototype.repeat`). */
  function Repeat(s: string, n: nat): (r: string)
    ensures |r| == n * |s|
  {
    if n == 0 then "" else s + Repeat(s, n - 1)
  }

  /** An entry opening with a sentence and "! " splits into that sentence and the split of the rest after the run. */
  lemma SplitOfExclamation(a: string, w: string)
    requires NoTerminator(a)
    ensures SplitSentences(a + "! " + w) == [a] + SplitSentences(" " + w)
  {
    assert a + "! " + w == a + ("!" + (" " + w));
    SplitAfterRun("!", " " + w);
    var sw := SplitSentences(" " + w);
    assert SplitSentences("!" + (" " + w)) == [""] + sw;
    SplitAfterPlainText(a, "!" + (" " + w));
    assert ([""] + sw)[0] == "" && ([""] + sw)[1..] == sw;
    assert a + "" == a;
  }

  /**
   * An entry repeating "Today was an amazing day! " at least twice is
   * summarised by its first two sentences, which are shorter than it.
   */
  lemma RepeatedEntrySummary(n: nat)
    requires n >= 2
    ensures GenerateSummary(Repeat("Today was an amazing day! ", n))
            == "Today was an amazing day. Today was an amazing day."
    ensures |GenerateSummary(Repeat("Today was an amazing day! ", n))| < |Repeat("Today was an amazing day! ", n)|
  {
    var a := "Today was an amazing day";
    assert "Today was an amazing day! " == a + "! ";
    assert "Today was an amazing day. Today was an amazing day." == a + ". " + a + ".";
    assert NoTerminator(a);
    assert a[0] == 'T' && a[|a| - 1] == 'y';
    TrimOfTrimmed(a);
    SummaryOfRepeated(a, n);
  }

  /** A long sentence exclaimed `n >= 2` times summarises to the sentence twice, shorter than the entry. */
  lemma SummaryOfRepeated(a: string, n: nat)
    requires NoTerminator(a) && Trim(a) == a && |a| > 10
    requires n >= 2
    ensures GenerateSummary(Repeat(a + "! ", n)) == a + ". " + a + "."
    ensures |GenerateSummary(Repeat(a + "! ", n))| < |Repeat(a + "! ", n)|
  {
    RepeatTwice(a + "! ", n);
    var w := Repeat(a + "! ", n - 2);
    assert (a + "! ") + ((a + "! ") + w) == a + "! " + (a + "! " + w);
    SummaryOfTwoExclamations(a, w);
  }

  lemma RepeatTwice(u: string, n: nat)
    requires n >= 2
    ensures Repeat(u, n) == u + (u + Repeat(u, n - 2))
  {
    assert Repeat(u, n - 1) == u + Repeat(u, n - 2);
  }

  /** Two exclaimed copies of a long sentence in front of `w` summarise to the sentence twice. */
  lemma SummaryOfTwoExclamations(a: string, w: string)
    requires NoTerminator(a) && Trim(a) == a && |a| > 10
    ensures GenerateSummary(a + "! " + (a + "! " + w)) == a + ". " + a + "."
  {
    var entry := a + "! " + (a + "! " + w);
    SplitOfTwoExclamations(a, w);
    TrimAfterSpace(a);
    KeepLongOfTwoFirst(a, " " + a, SplitSentences(" " + w));
    SummaryOfSentences(entry);
  }

  lemma SplitOfTwoExclamations(a: string, w: string)
    requires NoTerminator(a)
    ensures SplitSentences(a + "! " + (a + "! " + w)) == [a, " " + a] + SplitSentences(" " + w)
  {
    var w1 := a + "! " + w;
    var rest := SplitSentences(" " + w);
    SplitOfExclamation(a, w1);
    SplitOfSpacedExclamation(a, w);
    assert [a] + ([" " + a] + rest) == [a, " " + a] + rest;
  }

  lemma SplitOfSpacedExclamation(a: string, w: string)
    requires NoTerminator(a)
    ensures SplitSentences(" " + (a + "! " + w)) == [" " + a] + SplitSentences(" " + w)
  {
    assert " " + (a + "! " + w) == (" " + a) + "! " + w;
    NoTerminatorConcat(" ", a);
    SplitOfExclamation(" " + a, w);
  }

  /** Two long pieces in front are the first two pieces kept. */
  lemma KeepLongOfTwoFirst(p0: string, p1: string, rest: seq<string>)
    requires |Trim(p0)| > 10 && |Trim(p1)| > 10
    ensures KeepLong([p0, p1] + rest) == [p0, p1] + KeepLong(rest)
  {
    var ps := [p0, p1] + rest;
    assert ps[1..] == [p1] + rest;
    assert ps[1..][1..] == rest;
  }

}
