/**
 * `detectCompletedHabits` of backend/src/services/aiService.js: the ids of
 * the user's habits whose name, or a word of it longer than 3 characters,
 * occurs in the lower-cased entry.
 */
module Habits {
  import opened JsString

  /** `completionPhrases`. */
  const CompletionPhrases: seq<string> := [
    "did my", "completed my", "finished my", "went to", "went for",
    "practiced", "worked on", "did some", "went", "ate", "drank",
    "read", "wrote", "exercised", "ran", "walked", "meditated",
    "studied", "learned", "cooked", "cleaned", "organized"
  ]

  /** A habit record as the service reads it. */
  datatype Habit = Habit(id: string, name: string)

  /** `words.some(word => word.length > 3 && lowerContent.includes(word))`. */
  function SomeLongWordIncluded(lowerContent: string, words: seq<string>): bool {
    if |words| == 0 then false
    else (|words[0]| > 3 && Includes(lowerContent, words[0])) || SomeLongWordIncluded(lowerContent, words[1..])
  }

  /** The test holds exactly when some word longer than 3 characters occurs in the text. */
  lemma {:induction false} SomeLongWordIncludedIff(lowerContent: string, words: seq<string>)
    ensures SomeLongWordIncluded(lowerContent, words)
            <==> exists w :: w in words && |w| > 3 && Includes(lowerContent, w)
  {
    if |words| > 0 {
      SomeLongWordIncludedIff(lowerContent, words[1..]);
      assert forall w :: w in words <==> w == words[0] || w in words[1..];
    }
  }

  /** `phrases.some(phrase => lowerContent.includes(phrase))`. */
  function SomeIncluded(lowerContent: string, phrases: seq<string>): bool {
    if |phrases| == 0 then false
    else Includes(lowerContent, phrases[0]) || SomeIncluded(lowerContent, phrases[1..])
  }

  /** The test holds exactly when some phrase occurs in the text. */
  lemma {:induction false} SomeIncludedIff(lowerContent: string, phrases: seq<string>)
    ensures SomeIncluded(lowerContent, phrases) <==> exists p :: p in phrases && Includes(lowerContent, p)
  {
    if |phrases| > 0 {
      SomeIncludedIff(lowerContent, phrases[1..]);
      assert forall p :: p in phrases <==> p == phrases[0] || p in phrases[1..];
      assert phrases[0] in phrases;
    }
  }

  /**
   * The mention test of `detectCompletedHabits`: the lower-cased name occurs
   * in the lower-cased text, or else a word of it (split on single spaces)
   * longer than 3 characters does.
   */
  predicate Mentioned(content: string, name: string) {
    var lowerContent := ToLowerCase(content);
    var habitNameLower := ToLowerCase(name);
    Includes(lowerContent, habitNameLower) || SomeLongWordIncluded(lowerContent, Split(habitNameLower, ' '))
  }

  /** A habit is mentioned exactly when its name, or a word of it longer than 3 characters, occurs in the text, ignoring case. */
  lemma MentionedIff(content: string, name: string)
    ensures var lowerContent, habitNameLower := ToLowerCase(content), ToLowerCase(name);
      Mentioned(content, name) <==>
        Includes(lowerContent, habitNameLower)
        || exists w :: w in Split(habitNameLower, ' ') && |w| > 3 && Includes(lowerContent, w)
  {
    SomeLongWordIncludedIff(ToLowerCase(content), Split(ToLowerCase(name), ' '));
  }

  /** Lower-casing distributes over concatenation. */
  lemma LowerConcat(a: string, b: string)
    ensures ToLowerCase(a + b) == ToLowerCase(a) + ToLowerCase(b)
  {
    var l, r := ToLowerCase(a + b), ToLowerCase(a) + ToLowerCase(b);
    forall i | 0 <= i < |l| ensures l[i] == r[i] {
      assert (a + b)[i] == if i < |a| then a[i] else b[i - |a|];
    }
  }

  /**
   * A habit whose name appears in the entry, in any case (`written` agrees
   * with `name` once both are lower-cased), is mentioned.
   */
  lemma NameInEntryIsMentioned(before: string, written: string, after: string, name: string)
    requires ToLowerCase(written) == ToLowerCase(name)
    ensures Mentioned(before + written + after, name)
  {
    var lb, ln, la := ToLowerCase(before), ToLowerCase(name), ToLowerCase(after);
    LowerConcat(before + written, after);
    LowerConcat(before, written);
    var lowerContent := lb + ln + la;
    assert lowerContent[|lb|..|lb| + |ln|] == ln;
    assert OccursAt(lowerContent, ln, |lb|);
    IncludesIffOccurs(lowerContent, ln);
  }

  /** The ids of the mentioned habits, in the order of `habits`. */
  function CompletedHabits(content: string, habits: seq<Habit>): (ids: seq<string>)
    ensures |ids| <= |habits|
  {
    if |habits| == 0 then []
    else
      var last := habits[|habits| - 1];
      CompletedHabits(content, habits[..|habits| - 1]) + (if Mentioned(content, last.name) then [last.id] else [])
  }

  /** The positions of the mentioned habits. */
  function MentionedPositions(content: string, habits: seq<Habit>): (ps: seq<nat>)
    ensures |ps| <= |habits|
  {
    if |habits| == 0 then []
    else
      var n := |habits| - 1;
      MentionedPositions(content, habits[..n]) + (if Mentioned(content, habits[n].name) then [n] else [])
  }

  /** The positions ascend, stay below `|habits|`, and are exactly those of the mentioned habits. */
  lemma {:induction false} MentionedPositionsSpec(content: string, habits: seq<Habit>)
    ensures var ps := MentionedPositions(content, habits);
      (forall j :: 0 <= j < |ps| ==> ps[j] < |habits|)
      && (forall j, k :: 0 <= j < k < |ps| ==> ps[j] < ps[k])
      && (forall i :: 0 <= i < |habits| ==> (i in ps <==> Mentioned(content, habits[i].name)))
    decreases |habits|
  {
    if |habits| > 0 {
      var n := |habits| - 1;
      MentionedPositionsSpec(content, habits[..n]);
      assert forall i :: 0 <= i < n ==> habits[..n][i] == habits[i];
    }
  }

  /**
   * The detected ids are the ids of the mentioned habits taken in input
   * order, one per habit: the ids at `MentionedPositions`.
   */
  lemma {:induction false} CompletedHabitsAreMentionedInOrder(content: string, habits: seq<Habit>)
    ensures |CompletedHabits(content, habits)| == |MentionedPositions(content, habits)|
    ensures forall j :: 0 <= j < |CompletedHabits(content, habits)| ==>
      MentionedPositions(content, habits)[j] < |habits|
      && CompletedHabits(content, habits)[j] == habits[MentionedPositions(content, habits)[j]].id
    decreases |habits|
  {
    if |habits| > 0 {
      var n := |habits| - 1;
      var init := habits[..n];
      CompletedHabitsAreMentionedInOrder(content, init);
      var ids, ps := CompletedHabits(content, init), MentionedPositions(content, init);
      forall j | 0 <= j < |ids| ensures ps[j] < n && habits[ps[j]].id == ids[j] {
        assert init[ps[j]] == habits[ps[j]];
      }
    }
  }

  /** A mentioned habit's id is detected, and every detected id belongs to an input habit. */
  lemma CompletedHabitsMembership(content: string, habits: seq<Habit>)
    ensures forall i :: 0 <= i < |habits| && Mentioned(content, habits[i].name) ==> habits[i].id in CompletedHabits(content, habits)
    ensures forall id :: id in CompletedHabits(content, habits) ==> exists i :: 0 <= i < |habits| && habits[i].id == id
  {
    CompletedHabitsAreMentionedInOrder(content, habits);
    MentionedPositionsSpec(content, habits);
    var ids := CompletedHabits(content, habits);
    var ps := MentionedPositions(content, habits);
    forall i | 0 <= i < |habits| && Mentioned(content, habits[i].name) ensures habits[i].id in ids {
      var j :| 0 <= j < |ps| && ps[j] == i;
      assert ids[j] == habits[i].id;
    }
    forall id | id in ids ensures exists i :: 0 <= i < |habits| && habits[i].id == id {
      var j :| 0 <= j < |ids| && ids[j] == id;
      assert habits[ps[j]].id == id;
    }
  }

  /**
   * `detectCompletedHabits`. The completion-phrase check is computed as in
   * the source, but since it is OR-ed with `habitMentioned` inside a branch
   * that already requires `habitMentioned`, the result is exactly the
   * mentioned habits: the postcondition does not mention the phrases.
   */
  method DetectCompletedHabits(content: string, userHabits: seq<Habit>) returns (completedHabits: seq<string>)
    ensures completedHabits == CompletedHabits(content, userHabits)
  {
    var lowerContent := ToLowerCase(content);
    completedHabits := [];

    for i := 0 to |userHabits|
      invariant completedHabits == CompletedHabits(content, userHabits[..i])
    {
      var habit := userHabits[i];
      var habitNameLower := ToLowerCase(habit.name);
      var habitWords := Split(habitNameLower, ' ');

      var habitMentioned := Includes(lowerContent, habitNameLower);
      if !habitMentioned {
        habitMentioned := SomeLongWordIncluded(lowerContent, habitWords);
      }

      if habitMentioned {
        var hasCompletionContext := SomeIncluded(lowerContent, CompletionPhrases);
        if hasCompletionContext || habitMentioned {
          completedHabits := completedHabits + [habit.id];
        }
      }
      assert userHabits[..i + 1][..i] == userHabits[..i];
    }
    assert userHabits[..|userHabits|] == userHabits;
  }
}
