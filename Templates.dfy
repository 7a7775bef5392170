/**
 * The selection rule of `getAffirmation` in backend/src/services/aiService.js,
 * over any table of templates keyed by emotion with a `neutral` fallback.
 */
module Templates {
  import opened Emotion

  /** A template table: a list of templates per emotion key. */
  type TemplateTable = map<string, seq<string>>

  /** There is a `neutral` list, and every list holds at least one template, none of them empty. */
  predicate WellFormedTemplates(table: TemplateTable) {
    && Neutral in table
    && (forall e :: e in table ==> |table[e]| > 0)
    && (forall e, t :: e in table && t in table[e] ==> |t| > 0)
  }

  /**
   * `affirmations[emotion] || affirmations.neutral` over a table with a
   * `neutral` key: always one of the table's lists, and in a well-formed
   * table a non-empty list of non-empty templates.
   */
  function TemplatesIn(table: TemplateTable, emotion: string): (templates: seq<string>)
    requires Neutral in table
    ensures templates in table.Values
    ensures WellFormedTemplates(table) ==> |templates| > 0 && forall t :: t in templates ==> |t| > 0
  {
    if emotion in table then table[emotion] else table[Neutral]
  }

  /**
   * `getAffirmation` over a given table: `random` stands for
   * `Math.random()`, in [0, 1); the template at
   * `Math.floor(random * length)` of the emotion's list.
   */
  function AffirmationFrom(table: TemplateTable, emotion: string, random: real): (affirmation: string)
    requires WellFormedTemplates(table)
    requires 0.0 <= random < 1.0
    ensures affirmation in TemplatesIn(table, emotion)
    ensures |affirmation| > 0
  {
    var emotionAffirmations := TemplatesIn(table, emotion);
    emotionAffirmations[RandomIndex(random, |emotionAffirmations|)]
  }

  /** `Math.floor(random * n)`: an index into a list of `n` elements. */
  function RandomIndex(random: real, n: nat): (k: nat)
    requires n > 0 && 0.0 <= random < 1.0
    ensures k < n
  {
    FloorInRange(random, n);
    (random * n as real).Floor
  }

  /** The index chosen for `random` is the `i` whose slice [i/n, (i+1)/n) holds `random`. */
  lemma RandomIndexRange(random: real, n: nat)
    requires n > 0 && 0.0 <= random < 1.0
    ensures var i := RandomIndex(random, n);
      i as real / n as real <= random < (i + 1) as real / n as real
  {
    var i := RandomIndex(random, n);
    var x := random * n as real;
    assert i as real <= x < (i + 1) as real;
    DivMonotonic(i as real, x, n as real);
    DivMonotonic(x, (i + 1) as real, n as real);
    MulDivCancel(random, n as real);
  }

  /** Index `i` is chosen exactly for the `random` values in [i/n, (i+1)/n). */
  lemma RandomIndexByValue(random: real, n: nat, i: nat)
    requires n > 0 && 0.0 <= random < 1.0
    ensures RandomIndex(random, n) == i <==> i as real / n as real <= random < (i + 1) as real / n as real
  {
    if i as real / n as real <= random < (i + 1) as real / n as real {
      ScaledBounds(random, n as real, i);
      FloorIs(random * n as real, i);
    }
    RandomIndexRange(random, n);
  }

  /** With `n` templates, template `i` is picked exactly for the `random` values in [i/n, (i+1)/n). */
  lemma AffirmationFromByRandomValue(table: TemplateTable, emotion: string, random: real, i: nat)
    requires WellFormedTemplates(table)
    requires i < |TemplatesIn(table, emotion)|
    requires 0.0 <= random < 1.0
    ensures var n := |TemplatesIn(table, emotion)| as real;
      AffirmationFrom(table, emotion, random) == TemplatesIn(table, emotion)[i]
      <== i as real / n <= random < (i + 1) as real / n
  {
    var n := |TemplatesIn(table, emotion)|;
    if i as real / n as real <= random < (i + 1) as real / n as real {
      RandomIndexByValue(random, n, i);
    }
  }

  /** With three templates, template `i` is picked for the `random` values in [i/3, (i+1)/3). */
  lemma AffirmationOfThree(table: TemplateTable, emotion: string, random: real, i: nat)
    requires WellFormedTemplates(table)
    requires |TemplatesIn(table, emotion)| == 3 && i < 3
    requires i as real / 3.0 <= random < (i + 1) as real / 3.0
    ensures AffirmationFrom(table, emotion, random) == TemplatesIn(table, emotion)[i]
  {
    AffirmationFromByRandomValue(table, emotion, random, i);
  }

  /** `Math.floor(random * n)` is a valid index into a list of `n` elements. */
  lemma FloorInRange(random: real, n: nat)
    requires n > 0 && 0.0 <= random < 1.0
    ensures 0 <= (random * n as real).Floor < n
  {
    MulMonotonic(0.0, random, n as real);
    MulMonotonic(random, 1.0, n as real);
  }

  /** A real in [i, i + 1) has floor `i`. */
  lemma FloorIs(x: real, i: int)
    requires i as real <= x < (i + 1) as real
    ensures x.Floor == i
  {
  }

  lemma ScaledBounds(random: real, n: real, i: nat)
    requires n > 0.0
    requires i as real / n <= random < (i + 1) as real / n
    ensures i as real <= random * n < (i + 1) as real
  {
    MulMonotonic(i as real / n, random, n);
    MulMonotonic(random, (i + 1) as real / n, n);
    DivMulCancel(i as real, n);
    DivMulCancel((i + 1) as real, n);
  }

  lemma DivMonotonic(a: real, b: real, n: real)
    requires a <= b && n > 0.0
    ensures a / n <= b / n
    ensures a < b ==> a / n < b / n
  {
    var d := b / n - a / n;
    DivMulCancel(a, n);
    DivMulCancel(b, n);
    assert d * n == (b / n) * n - (a / n) * n;
    SignOfProduct(d, n);
  }

  lemma SignOfProduct(d: real, n: real)
    requires n > 0.0
    ensures d * n >= 0.0 ==> d >= 0.0
    ensures d * n > 0.0 ==> d > 0.0
  {
    if d < 0.0 {
      MulMonotonic(d, 0.0, n);
    }
  }

  lemma MulDivCancel(x: real, n: real)
    requires n != 0.0
    ensures (x * n) / n == x
  {
  }

  lemma DivMulCancel(x: real, n: real)
    requires n != 0.0
    ensures (x / n) * n == x
  {
  }

  lemma MulMonotonic(a: real, b: real, n: real)
    requires a <= b && n > 0.0
    ensures a * n <= b * n
    ensures a < b ==> a * n < b * n
  {
  }
}
