/**
 * The canned responder `get_fallback_response` that the chat endpoint answers with when the
 * language-model call is unavailable: keyword groups tested in a fixed order on the
 * lower-cased question, first match wins.
 */
module Fallback {
  import opened Text

  const MathReply: string := "For mathematics, I recommend practicing regularly with problems. Break complex problems into smaller steps, and always check your work. Try using online resources like Khan Academy for additional practice!"
  const ScienceReply: string := "Science is about understanding how things work! Focus on the 'why' behind concepts rather than just memorizing facts. Try relating scientific principles to real-world examples you see every day."
  const StudyReply: string := "Great question about studying! Try the Pomodoro technique: study for 25 minutes, then take a 5-minute break. Space out your study sessions over time rather than cramming. Get enough sleep and stay hydrated!"
  const EnglishReply: string := "For English and writing, practice regularly by reading different types of texts and writing daily. Focus on clear structure: introduction, body, and conclusion. Don't be afraid to revise your work multiple times!"
  const HistoryReply: string := "History and social studies help us understand our world! Try connecting historical events to current events, and create timelines to visualize sequences of events. Understanding 'cause and effect' is key!"
  const HelpReply: string := "I understand you're looking for help! When you're stuck on a subject, try explaining the concept in your own words, or break it down into smaller parts. Don't hesitate to ask your teacher or classmates for clarification."
  const GreetingReply: string := "Hello! I'm here to help with your academic questions. Whether it's math, science, English, history, or study tips, feel free to ask me anything!"
  const DefaultReply: string := "That's a great question! I'm here to help with academic subjects. Try asking me about math, science, English, history, or study strategies. What specific subject would you like help with?"

  /** `any(word in s for word in words)`. */
  predicate AnyIn(s: string, words: seq<string>) {
    AnyInFrom(s, words, 0)
  }

  /** Some word at index `i` or later occurs in `s`. */
  predicate AnyInFrom(s: string, words: seq<string>, i: nat)
    decreases |words| - i
  {
    i < |words| && (Contains(s, words[i]) || AnyInFrom(s, words, i + 1))
  }

  /** The responder as the handler writes it: a chain of keyword tests. */
  function FallbackResponse(message: string): (r: string)
    ensures r in {MathReply, ScienceReply, StudyReply, EnglishReply, HistoryReply,
                  HelpReply, GreetingReply, DefaultReply}
  {
    var lower := ToLower(message);
    if AnyIn(lower, ["math", "mathematics", "algebra", "geometry", "calculus"]) then MathReply
    else if AnyIn(lower, ["science", "physics", "chemistry", "biology"]) then ScienceReply
    else if AnyIn(lower, ["study", "exam", "homework", "learn", "test"]) then StudyReply
    else if AnyIn(lower, ["english", "literature", "writing", "grammar"]) then EnglishReply
    else if AnyIn(lower, ["history", "social studies", "geography"]) then HistoryReply
    else if AnyIn(lower, ["help", "stuck", "confused", "understand"]) then HelpReply
    else if Contains(lower, "hello") || Contains(lower, "hi") then GreetingReply
    else DefaultReply
  }

  /** One keyword group and the reply it selects. */
  datatype Topic = Topic(keywords: seq<string>, reply: string)

  /** The same responder as data: the groups in the order they are tried. */
  const Topics: seq<Topic> := [
    Topic(["math", "mathematics", "algebra", "geometry", "calculus"], MathReply),
    Topic(["science", "physics", "chemistry", "biology"], ScienceReply),
    Topic(["study", "exam", "homework", "learn", "test"], StudyReply),
    Topic(["english", "literature", "writing", "grammar"], EnglishReply),
    Topic(["history", "social studies", "geography"], HistoryReply),
    Topic(["help", "stuck", "confused", "understand"], HelpReply),
    Topic(["hello", "hi"], GreetingReply)
  ]

  /** The reply of the first topic with a keyword in `s`, or `DefaultReply`. */
  function FirstMatch(topics: seq<Topic>, s: string): string {
    if topics == [] then DefaultReply
    else if AnyIn(s, topics[0].keywords) then topics[0].reply
    else FirstMatch(topics[1..], s)
  }

  /** The first matching topic decides: topic `k` answers when it matches and no earlier one does. */
  lemma {:induction false} FirstMatchIs(topics: seq<Topic>, s: string, k: nat)
    requires k < |topics| && AnyIn(s, topics[k].keywords)
    requires forall j :: 0 <= j < k ==> !AnyIn(s, topics[j].keywords)
    ensures FirstMatch(topics, s) == topics[k].reply
  {
    if k > 0 {
      assert !AnyIn(s, topics[0].keywords);
      FirstMatchIs(topics[1..], s, k - 1);
    }
  }

  /** With no keyword of any topic in `s`, the default reply is given. */
  lemma {:induction false} FirstMatchNone(topics: seq<Topic>, s: string)
    requires forall j :: 0 <= j < |topics| ==> !AnyIn(s, topics[j].keywords)
    ensures FirstMatch(topics, s) == DefaultReply
  {
    if topics != [] {
      assert !AnyIn(s, topics[0].keywords);
      FirstMatchNone(topics[1..], s);
    }
  }

  /** The greeting test `'hello' in s or 'hi' in s` is the keyword search over both words. */
  lemma GreetingWords(s: string)
    ensures AnyIn(s, ["hello", "hi"]) == (Contains(s, "hello") || Contains(s, "hi"))
  {
    var words := ["hello", "hi"];
    assert words[0] == "hello" && words[1] == "hi";
    assert AnyInFrom(s, words, 1) == Contains(s, "hi");
  }

  /** The handler's chain of tests is the first-match lookup over the topic table. */
  lemma FallbackIsFirstMatch(message: string)
    ensures FallbackResponse(message) == FirstMatch(Topics, ToLower(message))
  {
    var s := ToLower(message);
    GreetingWords(s);
    if AnyIn(s, Topics[0].keywords) {
      FirstMatchIs(Topics, s, 0);
    } else if AnyIn(s, Topics[1].keywords) {
      FirstMatchIs(Topics, s, 1);
    } else if AnyIn(s, Topics[2].keywords) {
      FirstMatchIs(Topics, s, 2);
    } else if AnyIn(s, Topics[3].keywords) {
      FirstMatchIs(Topics, s, 3);
    } else if AnyIn(s, Topics[4].keywords) {
      FirstMatchIs(Topics, s, 4);
    } else if AnyIn(s, Topics[5].keywords) {
      FirstMatchIs(Topics, s, 5);
    } else if AnyIn(s, Topics[6].keywords) {
      FirstMatchIs(Topics, s, 6);
    } else {
      FirstMatchNone(Topics, s);
    }
  }

  /** The question's casing does not matter. */
  lemma FallbackIgnoresCase(message: string)
    ensures FallbackResponse(ToLower(message)) == FallbackResponse(message)
  {
    ToLowerIdempotent(message);
  }

  /** A word longer than `s`, or as long but different, does not occur in it. */
  lemma NotContainedWhenTooLong(s: string, w: string)
    requires |w| > |s| || (|w| == |s| && w != s)
    ensures !Contains(s, w)
  {
    if |w| == |s| {
      assert s[0..|w|] == s;
      assert !ContainsFrom(s, w, 1);
    }
  }

  /** No keyword from index `i` on occurs in `s`, so the group does not match from there. */
  lemma {:induction false} NoneFrom(s: string, words: seq<string>, i: nat)
    requires forall w :: w in words ==> !Contains(s, w)
    ensures !AnyInFrom(s, words, i)
    decreases |words| - i
  {
    if i < |words| {
      assert words[i] in words;
      NoneFrom(s, words, i + 1);
    }
  }

  /** Substring matching: "hi" inside "this" selects the greeting. */
  lemma HiInsideWordGreets()
    ensures FallbackResponse("this") == GreetingReply
  {
    var s := "this";
    assert ToLower(s) == s;
    forall j | 0 <= j < 6 ensures !AnyIn(s, Topics[j].keywords) {
      forall w | w in Topics[j].keywords ensures !Contains(s, w) {
        NotContainedWhenTooLong(s, w);
      }
      NoneFrom(s, Topics[j].keywords, 0);
    }
    assert Contains(s, "hi") by {
      assert s[1..3] == "hi";
    }
    assert AnyIn(s, Topics[6].keywords) by {
      GreetingWords(s);
    }
    FirstMatchIs(Topics, s, 6);
    FallbackIsFirstMatch(s);
  }

  /** Order decides: a mathematics question asking for help gets the mathematics reply. */
  lemma MathBeforeHelp()
    ensures FallbackResponse("MATH help") == MathReply
  {
    assert ToLower("MATH help") == "math help";
    assert Contains("math help", "math") by {
      assert "math help"[0..4] == "math";
    }
  }
}
