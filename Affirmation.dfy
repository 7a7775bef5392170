/**
 * `getAffirmation` of backend/src/services/aiService.js: three templates per
 * emotion and for `neutral`, one picked by `Math.floor(Math.random() * 3)`.
 */
module Affirmation {
  import opened Emotion
  import opened Templates

  /** `affirmations`: three templates for each emotion and for `neutral`. */
  const Affirmations: map<string, seq<string>> := map[
    "happy" := [
      "Your positive energy is contagious. Keep embracing the joy in each moment!",
      "What a wonderful outlook! Continue nurturing this happiness.",
      "Your gratitude opens doors to even more blessings."
    ],
    "sad" := [
      "It's okay to feel this way. Every storm eventually passes, and brighter days are ahead.",
      "Be gentle with yourself. Your feelings are valid, and healing takes time.",
      "Remember, you are stronger than you know. This too shall pass."
    ],
    "anxious" := [
      "Take a deep breath. You've overcome challenges before, and you can do it again.",
      "One step at a time. Focus on what you can control in this moment.",
      "Your worries don't define you. You have the strength to navigate through this."
    ],
    "angry" := [
      "It's healthy to acknowledge your frustrations. Channel this energy into positive action.",
      "Your feelings are valid. Take time to process and find constructive outlets.",
      "Breathe through it. You have the wisdom to respond thoughtfully."
    ],
    "calm" := [
      "Your inner peace is a gift. Continue to cultivate this tranquility.",
      "In stillness, we find clarity. Your centered mindset serves you well.",
      "This balance you've found is precious. Protect and nurture it."
    ],
    "motivated" := [
      "Your drive is inspiring! Keep channeling this energy toward your goals.",
      "You're on the right track. Trust your journey and keep moving forward.",
      "This momentum will take you far. Believe in your capabilities!"
    ],
    "tired" := [
      "Rest is not laziness\U{2014}it's essential. Honor your body's need for recovery.",
      "You've been working hard. Give yourself permission to recharge.",
      "Tomorrow is a new day. Take the rest you deserve tonight."
    ],
    "neutral" := [
      "Every day is a new opportunity for growth and discovery.",
      "You're doing better than you think. Keep going!",
      "Trust the process. Good things are coming your way."
    ]
  ]

  /** Every category, and `neutral`, has its own templates. */
  lemma CategoriesHaveTemplates()
    ensures forall i :: 0 <= i < |EmotionKeywords| ==> EmotionKeywords[i].0 in Affirmations
    ensures Neutral in Affirmations
  {
  }

  /** The result is `neutral` or one of the seven categories, and so always has templates. */
  lemma EmotionOfInRange(content: string)
    ensures EmotionOf(content) == Neutral || exists i :: 0 <= i < |EmotionKeywords| && EmotionOf(content) == EmotionKeywords[i].0
    ensures EmotionOf(content) in Affirmations
  {
    KeywordTableWellFormed();
    CategoriesHaveTemplates();
    EmotionOfIsFirstBest(content);
  }

  /** The fixed table is well formed, with exactly three templates per key. */
  lemma AffirmationsWellFormed()
    ensures WellFormedTemplates(Affirmations)
    ensures forall e :: e in Affirmations ==> |Affirmations[e]| == 3
  {
  }

  /** The templates `getAffirmation` picks from: the emotion's own, or `neutral`'s for an unknown emotion. */
  function TemplatesFor(emotion: string): (templates: seq<string>)
    ensures |templates| == 3
    ensures emotion in Affirmations ==> templates == Affirmations[emotion]
    ensures emotion !in Affirmations ==> templates == Affirmations[Neutral]
  {
    AffirmationsWellFormed();
    TemplatesIn(Affirmations, emotion)
  }

  /** `getAffirmation` with the fixed `affirmations` table. */
  function GetAffirmation(emotion: string, random: real): (affirmation: string)
    requires 0.0 <= random < 1.0
    ensures affirmation in TemplatesFor(emotion)
    ensures |affirmation| > 0
  {
    AffirmationsWellFormed();
    AffirmationFrom(Affirmations, emotion, random)
  }

  /** Each of the three templates is the one picked for the `random` values of its own third of [0, 1). */
  lemma AffirmationByRandomValue(emotion: string, random: real, i: nat)
    requires i < 3
    requires i as real / 3.0 <= random < (i + 1) as real / 3.0
    ensures GetAffirmation(emotion, random) == TemplatesFor(emotion)[i]
  {
    AffirmationsWellFormed();
    AffirmationOfThree(Affirmations, emotion, random, i);
  }
}
