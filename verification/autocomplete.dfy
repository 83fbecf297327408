/** The choice filtering of `internal/handlers/autocompletions/course.go`. */
module Autocomplete {
  import opened Wrappers
  import opened Strings
  import opened Lists

  /** The most choices the chat platform accepts in one autocomplete reply. */
  const MaxChoices := 25

  const CommandName := "fetch_course"

  /** An autocomplete choice: shown `name`, submitted `value`. */
  datatype Choice = Choice(name: string, value: string)

  /** The command data of an autocomplete event: the command's name and the
      string values of its options, in order. */
  datatype CommandData = CommandData(name: string, options: seq<string>)

  /** `strings.Split(s, ",")[0]`: the text before the first comma, or all of `s`. */
  function BeforeComma(s: string): (r: string)
    ensures HasPrefix(s, r)
    ensures ',' !in r
    ensures |r| < |s| ==> s[|r|] == ','
    decreases |s|
  {
    if |s| == 0 || s[0] == ',' then "" else [s[0]] + BeforeComma(s[1..])
  }

  /** The choice offered for a saved course: the whole string is shown, the
      course number before the first comma is submitted. */
  function ChoiceFor(course: string): (r: Choice)
    ensures r.name == course
    ensures HasPrefix(course, r.value) && ',' !in r.value
    ensures |r.value| < |course| ==> course[|r.value|] == ','
  {
    Choice(course, BeforeComma(course))
  }

  /** Reference: the choice of every saved course starting with `input`, in order. */
  function Matches(saved: seq<string>, input: string): (r: seq<Choice>)
    ensures |r| <= |saved|
    ensures forall i :: 0 <= i < |r| ==>
      r[i].name in saved && HasPrefix(r[i].name, input) && r[i] == ChoiceFor(r[i].name)
    ensures forall s :: s in saved && HasPrefix(s, input) ==> ChoiceFor(s) in r
  {
    if |saved| == 0 then []
    else
      var front := saved[..|saved| - 1];
      var course := saved[|saved| - 1];
      assert forall s :: s in front ==> s in saved;
      assert forall s :: s in saved ==> s in front || s == course;
      Matches(front, input) + (if HasPrefix(course, input) then [ChoiceFor(course)] else [])
  }

  /** The choice, if any, that one saved course contributes for `input`. */
  function MatchOf(input: string): string -> seq<Choice> {
    course => if HasPrefix(course, input) then [ChoiceFor(course)] else []
  }

  /** `Matches` is the flat map of `MatchOf(input)` over the saved courses. */
  lemma {:induction false} MatchesIsFlatMap(saved: seq<string>, input: string)
    ensures Matches(saved, input) == FlatMap(saved, MatchOf(input))
    decreases |saved|
  {
    if |saved| > 0 {
      MatchesIsFlatMap(saved[..|saved| - 1], input);
    }
  }

  lemma MatchesConcat(a: seq<string>, b: seq<string>, input: string)
    ensures Matches(a + b, input) == Matches(a, input) + Matches(b, input)
  {
    MatchesIsFlatMap(a + b, input);
    MatchesIsFlatMap(a, input);
    MatchesIsFlatMap(b, input);
    FlatMapConcat(a, b, MatchOf(input));
  }

  /** The filtering loop: saved courses starting with `input`, in order, stopping
      once `MaxChoices` have been collected. */
  method FilterChoices(saved: seq<string>, input: string) returns (choices: seq<Choice>)
    ensures |choices| <= MaxChoices
    ensures forall i :: 0 <= i < |choices| ==>
      && choices[i].name in saved
      && HasPrefix(choices[i].name, input)
      && choices[i].value == BeforeComma(choices[i].name)
    ensures |Matches(saved, input)| <= MaxChoices ==> choices == Matches(saved, input)
    ensures choices == Take(Matches(saved, input), MaxChoices)
  {
    choices := [];
    var i := 0;
    while i < |saved|
      invariant 0 <= i <= |saved|
      invariant choices == Matches(saved[..i], input)
      invariant |choices| < MaxChoices
    {
      MatchesStep(saved, input, i);
      if HasPrefix(saved[i], input) {
        choices := choices + [ChoiceFor(saved[i])];
      }
      i := i + 1;
      if |choices| >= MaxChoices {
        break;
      }
    }
    LoopStopsAtTake(saved, input, i);
  }

  /** Extending the scanned prefix by one saved course adds its choice when it matches. */
  lemma MatchesStep(saved: seq<string>, input: string, i: nat)
    requires i < |saved|
    ensures Matches(saved[..i + 1], input)
      == Matches(saved[..i], input) + (if HasPrefix(saved[i], input) then [ChoiceFor(saved[i])] else [])
  {
    assert saved[..i + 1][..i] == saved[..i];
  }

  /** Where the filtering loop stops, at the cap or at the end of the list, the
      matches collected so far are the first `MaxChoices` matches of the list. */
  lemma LoopStopsAtTake(saved: seq<string>, input: string, i: nat)
    requires i <= |saved|
    requires |Matches(saved[..i], input)| <= MaxChoices
    requires i == |saved| || |Matches(saved[..i], input)| == MaxChoices
    ensures Take(Matches(saved, input), MaxChoices) == Matches(saved[..i], input)
  {
    assert saved == saved[..i] + saved[i..];
    MatchesConcat(saved[..i], saved[i..], input);
    if i == |saved| {
      assert saved[..i] == saved;
    }
  }

  /** `CourseAutocomplete`: no reply for another command, for an event without
      options, or when the saved courses cannot be listed; otherwise the
      filtered choices for the upper-cased first option. */
  method CourseAutocomplete(data: CommandData, saved: Option<seq<string>>) returns (reply: Option<seq<Choice>>)
    ensures reply.None? <==> data.name != CommandName || |data.options| == 0 || saved.None?
    ensures reply.Some? ==> reply.value == Take(Matches(saved.value, ToUpper(data.options[0])), MaxChoices)
  {
    if data.name != CommandName {
      return None;
    }
    if |data.options| == 0 {
      return None;
    }
    var userInput := ToUpper(data.options[0]);
    if saved.None? {
      return None;
    }
    var choices := FilterChoices(saved.value, userInput);
    return Some(choices);
  }
}
