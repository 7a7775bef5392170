/**
 * `generateReflection` of backend/src/services/aiService.js: the
 * rule-based reflection on a journal entry, composing emotion detection,
 * the extractive summary, a templated affirmation and habit detection.
 */
module AiService {
  import opened Emotion
  import opened Summary
  import opened Affirmation
  import opened Habits

  datatype Reflection = Reflection(summary: string, emotion: string, affirmation: string, detectedHabits: seq<string>)

  /**
   * `generateReflection`: the emotion, then the summary, an affirmation for
   * that emotion, and the detected habits. `userHabits` defaults to `[]` in
   * the source; `random` stands for the `Math.random()` of `getAffirmation`.
   */
  method GenerateReflection(content: string, userHabits: seq<Habit>, random: real) returns (reflection: Reflection)
    requires 0.0 <= random < 1.0
    ensures reflection.emotion == EmotionOf(content)
    ensures reflection.summary == GenerateSummary(content)
    ensures reflection.affirmation == GetAffirmation(reflection.emotion, random)
    ensures reflection.detectedHabits == CompletedHabits(content, userHabits)
    ensures reflection.emotion in Affirmations && reflection.affirmation in Affirmations[reflection.emotion]
    ensures |reflection.summary| > 0 && |reflection.affirmation| > 0
    ensures userHabits == [] ==> reflection.detectedHabits == []
  {
    var emotion := DetectEmotion(content);
    EmotionOfInRange(content);
    var summary := GenerateSummary(content);
    var affirmation := GetAffirmation(emotion, random);
    var detectedHabits := DetectCompletedHabits(content, userHabits);
    reflection := Reflection(summary, emotion, affirmation, detectedHabits);
  }
}
