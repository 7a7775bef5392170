/**
 * `detectEmotion` of backend/src/services/aiService.js: each category of
 * the keyword table scores one point per keyword occurring in the
 * lower-cased entry, and the first category with the strictly highest
 * score wins; `neutral` when nothing scores.
 */
module Emotion {
  import opened JsString

  const Neutral: string := "neutral"

  /** `emotionKeywords`, as its entries in declaration order (the order `Object.entries` visits them). */
  const EmotionKeywords: seq<(string, seq<string>)> := [
    ("happy", ["happy", "joy", "excited", "grateful", "thankful", "wonderful", "amazing", "great", "blessed", "delighted", "cheerful", "content"]),
    ("sad", ["sad", "down", "depressed", "unhappy", "disappointed", "lonely", "melancholy", "gloomy", "heartbroken"]),
    ("anxious", ["anxious", "worried", "nervous", "stressed", "overwhelmed", "tense", "uneasy", "afraid", "fearful"]),
    ("angry", ["angry", "frustrated", "annoyed", "irritated", "mad", "furious", "upset"]),
    ("calm", ["calm", "peaceful", "relaxed", "serene", "tranquil", "at ease", "mindful"]),
    ("motivated", ["motivated", "inspired", "determined", "focused", "energized", "productive", "ambitious"]),
    ("tired", ["tired", "exhausted", "drained", "fatigued", "worn out", "sleepy"])
  ]

  predicate Distinct<T(==)>(s: seq<T>) {
    forall i, j :: 0 <= i < j < |s| ==> s[i] != s[j]
  }

  /** A keyword table: the categories in declaration order, each with its keywords. */
  type KeywordTable = seq<(string, seq<string>)>

  /** Category names are distinct and none of them is `neutral`. */
  predicate WellFormedTable(table: KeywordTable) {
    && (forall i, j :: 0 <= i < j < |table| ==> table[i].0 != table[j].0)
    && (forall i :: 0 <= i < |table| ==> table[i].0 != Neutral)
  }

  /**
   * The fixed keyword table is well formed: seven distinct categories, none
   * named `neutral`, and no keyword listed twice in a category.
   */
  lemma KeywordTableWellFormed()
    ensures |EmotionKeywords| == 7
    ensures WellFormedTable(EmotionKeywords)
    ensures forall i :: 0 <= i < |EmotionKeywords| ==> Distinct(EmotionKeywords[i].1)
  {
    assert Distinct(EmotionKeywords[0].1);
    assert Distinct(EmotionKeywords[1].1);
    assert Distinct(EmotionKeywords[2].1);
    assert Distinct(EmotionKeywords[3].1);
    assert Distinct(EmotionKeywords[4].1);
    assert Distinct(EmotionKeywords[5].1);
    assert Distinct(EmotionKeywords[6].1);
  }

  // ---------------------------------------------------------------------
  // detectEmotion
  // ---------------------------------------------------------------------

  /** How many entries of `keywords` occur in `text` (one count per list entry). */
  function CountMatches(text: string, keywords: seq<string>): (n: nat)
    ensures n <= |keywords|
  {
    if |keywords| == 0 then 0
    else CountMatches(text, keywords[..|keywords| - 1])
         + (if Includes(text, keywords[|keywords| - 1]) then 1 else 0)
  }

  /** The keywords of a list that occur in `text`. */
  function MatchedKeywords(text: string, keywords: seq<string>): set<string> {
    set k | k in keywords && Includes(text, k)
  }

  /**
   * Over a list with no repeated keyword the count is the number of distinct
   * keywords present: how often a keyword occurs does not matter.
   */
  lemma {:induction false} CountMatchesDistinct(text: string, keywords: seq<string>)
    requires Distinct(keywords)
    ensures CountMatches(text, keywords) == |MatchedKeywords(text, keywords)|
    decreases |keywords|
  {
    if |keywords| > 0 {
      var init, last := keywords[..|keywords| - 1], keywords[|keywords| - 1];
      CountMatchesDistinct(text, init);
      assert last !in init;
      assert keywords == init + [last];
      if Includes(text, last) {
        assert MatchedKeywords(text, keywords) == MatchedKeywords(text, init) + {last};
      } else {
        assert MatchedKeywords(text, keywords) == MatchedKeywords(text, init);
      }
    }
  }

  /** The scores of a lower-cased text, one per category, in table order. */
  function Scores(table: KeywordTable, lowerContent: string): (s: seq<nat>)
    ensures |s| == |table|
  {
    seq(|table|, i requires 0 <= i < |table| => CountMatches(lowerContent, table[i].1))
  }

  /** The running maximum of the second loop of `detectEmotion` and its emotion. */
  datatype Leader = Leader(maxScore: nat, emotion: string)

  /** The leader once the first `k` scores have been visited; a score must be strictly greater to take over. */
  function Pick(table: KeywordTable, scores: seq<nat>, k: nat): Leader
    requires k <= |scores| <= |table|
  {
    if k == 0 then Leader(0, Neutral)
    else
      var prev := Pick(table, scores, k - 1);
      if scores[k - 1] > prev.maxScore then Leader(scores[k - 1], table[k - 1].0) else prev
  }

  /**
   * The leader has the maximum of the first `k` scores; it is `neutral` with
   * score 0 exactly when all of them are 0, and otherwise it is the FIRST
   * category whose score is that maximum.
   */
  lemma {:induction false} PickIsFirstMaximum(table: KeywordTable, scores: seq<nat>, k: nat)
    requires k <= |scores| <= |table|
    ensures forall j :: 0 <= j < k ==> scores[j] <= Pick(table, scores, k).maxScore
    ensures Pick(table, scores, k).maxScore == 0 <==> forall j :: 0 <= j < k ==> scores[j] == 0
    ensures Pick(table, scores, k).maxScore == 0 ==> Pick(table, scores, k).emotion == Neutral
    ensures Pick(table, scores, k).maxScore > 0 ==>
      exists w :: 0 <= w < k && Pick(table, scores, k).emotion == table[w].0
        && scores[w] == Pick(table, scores, k).maxScore
        && forall j :: 0 <= j < w ==> scores[j] < scores[w]
  {
    if k > 0 {
      PickIsFirstMaximum(table, scores, k - 1);
      var prev := Pick(table, scores, k - 1);
      if scores[k - 1] > prev.maxScore {
        assert forall j :: 0 <= j < k - 1 ==> scores[j] < scores[k - 1];
      } else if prev.maxScore > 0 {
        var w :| 0 <= w < k - 1 && prev.emotion == table[w].0
          && scores[w] == prev.maxScore && forall j :: 0 <= j < w ==> scores[j] < scores[w];
        assert 0 <= w < k;
      }
    }
  }

  /** The emotion `detectEmotion` returns when scoring against `table`. */
  function EmotionWith(table: KeywordTable, content: string): string {
    Pick(table, Scores(table, ToLowerCase(content)), |table|).emotion
  }

  /**
   * What detection decides: `neutral` exactly when no keyword of any
   * category occurs in the lower-cased text; otherwise a category whose
   * score no other category exceeds and that every earlier-declared category
   * scores strictly below (so ties go to the earliest category).
   */
  lemma EmotionWithIsFirstBest(table: KeywordTable, content: string)
    requires WellFormedTable(table)
    ensures var scores := Scores(table, ToLowerCase(content));
      EmotionWith(table, content) == Neutral <==> forall i :: 0 <= i < |table| ==> scores[i] == 0
    ensures var scores := Scores(table, ToLowerCase(content));
      EmotionWith(table, content) != Neutral ==>
        exists w :: 0 <= w < |table| && EmotionWith(table, content) == table[w].0
          && (forall j :: 0 <= j < |table| ==> scores[j] <= scores[w])
          && (forall j :: 0 <= j < w ==> scores[j] < scores[w])
  {
    PickIsFirstMaximum(table, Scores(table, ToLowerCase(content)), |table|);
  }

  /** `detectEmotion` with the fixed table. */
  function EmotionOf(content: string): string {
    EmotionWith(EmotionKeywords, content)
  }

  /** The score of category `i` of the fixed table for `content`. */
  function Score(content: string, i: nat): nat
    requires i < |EmotionKeywords|
  {
    CountMatches(ToLowerCase(content), EmotionKeywords[i].1)
  }

  /** Category `i`'s score is the number of its distinct keywords present in the lower-cased text. */
  lemma ScoreCountsDistinctKeywords(content: string, i: nat)
    requires i < |EmotionKeywords|
    ensures Score(content, i) == |MatchedKeywords(ToLowerCase(content), EmotionKeywords[i].1)|
  {
    KeywordTableWellFormed();
    CountMatchesDistinct(ToLowerCase(content), EmotionKeywords[i].1);
  }

  /**
   * With the fixed table: `neutral` exactly when every score is 0, otherwise
   * the earliest of happy, sad, anxious, angry, calm, motivated, tired that
   * has the highest score.
   */
  lemma EmotionOfIsFirstBest(content: string)
    ensures EmotionOf(content) == Neutral <==> forall i :: 0 <= i < |EmotionKeywords| ==> Score(content, i) == 0
    ensures EmotionOf(content) != Neutral ==>
      exists w :: 0 <= w < |EmotionKeywords| && EmotionOf(content) == EmotionKeywords[w].0
        && (forall j :: 0 <= j < |EmotionKeywords| ==> Score(content, j) <= Score(content, w))
        && (forall j :: 0 <= j < w ==> Score(content, j) < Score(content, w))
  {
    KeywordTableWellFormed();
    EmotionWithIsFirstBest(EmotionKeywords, content);
    var scores := Scores(EmotionKeywords, ToLowerCase(content));
    assert forall i :: 0 <= i < |EmotionKeywords| ==> scores[i] == Score(content, i);
  }

  /** Detection ignores case: the text and its lower-cased form get the same emotion. */
  lemma EmotionOfIgnoresCase(content: string)
    ensures EmotionOf(ToLowerCase(content)) == EmotionOf(content)
  {
    LowerIdempotent(content);
  }

  /**
   * `detectEmotion` over a given keyword table: fills a score per category
   * in nested loops, then keeps the first category with the strictly
   * highest score.
   */
  method DetectEmotionWith(emotionKeywords: KeywordTable, content: string) returns (detectedEmotion: string)
    requires WellFormedTable(emotionKeywords)
    ensures detectedEmotion == EmotionWith(emotionKeywords, content)
  {
    var lowerContent := ToLowerCase(content);
    var emotionScores: map<string, nat> := map[];

    var e := 0;
    while e < |emotionKeywords|
      invariant 0 <= e <= |emotionKeywords|
      invariant forall j :: 0 <= j < e ==> emotionKeywords[j].0 in emotionScores
      invariant forall j :: 0 <= j < e ==>
        emotionScores[emotionKeywords[j].0] == CountMatches(lowerContent, emotionKeywords[j].1)
    {
      var (emotion, keywords) := emotionKeywords[e];
      emotionScores := emotionScores[emotion := 0];
      ghost var before := emotionScores;
      var k := 0;
      while k < |keywords|
        invariant 0 <= k <= |keywords|
        invariant emotionScores == before[emotion := CountMatches(lowerContent, keywords[..k])]
      {
        if Includes(lowerContent, keywords[k]) {
          emotionScores := emotionScores[emotion := emotionScores[emotion] + 1];
        }
        assert keywords[..k + 1][..k] == keywords[..k];
        k := k + 1;
      }
      assert keywords[..k] == keywords;
      e := e + 1;
    }

    var maxScore := 0;
    detectedEmotion := Neutral;
    var i := 0;
    while i < |emotionKeywords|
      invariant 0 <= i <= |emotionKeywords|
      invariant Leader(maxScore, detectedEmotion) == Pick(emotionKeywords, Scores(emotionKeywords, lowerContent), i)
    {
      var emotion := emotionKeywords[i].0;
      var score := emotionScores[emotion];
      if score > maxScore {
        maxScore := score;
        detectedEmotion := emotion;
      }
      i := i + 1;
    }
  }

  /** `detectEmotion`, scoring against the fixed `emotionKeywords` table. */
  method DetectEmotion(content: string) returns (detectedEmotion: string)
    ensures detectedEmotion == EmotionOf(content)
  {
    KeywordTableWellFormed();
    detectedEmotion := DetectEmotionWith(EmotionKeywords, content);
  }
}
