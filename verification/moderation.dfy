/**
 * The moderation gate of `moderate_content`: the classifier's reply, or the reason there is
 * none, is an input; the module decides whether the text is flagged.
 */
module Moderation {
  import opened Text

  /** What the call to the text classifier produced. */
  datatype Reply =
    | NoApiKey                  // neither API-key variable is set: the call is never made
    | CallFailed                // transport error, timeout, non-2xx status, malformed JSON, missing field
    | Answered(content: string) // the message content the classifier returned

  /** The one verdict token that blocks content. */
  const Verdict: string := "INAPPROPRIATE"

  /** True iff the content is flagged; every failure path answers "not flagged" (fail-open). */
  predicate IsFlagged(reply: Reply): (flagged: bool)
    ensures flagged ==> reply.Answered? && |reply.content| >= |Verdict|
  {
    match reply
    case NoApiKey => false
    case CallFailed => false
    case Answered(content) => ToUpper(Strip(content)) == Verdict
  }

  /** Fail-open: no key, or any failure of the call, never blocks content. */
  lemma FailOpen(reply: Reply)
    requires !reply.Answered?
    ensures !IsFlagged(reply)
  {
  }

  /** Any casing of the token, surrounded by any white space, is flagged. */
  lemma FlaggedPadded(p: string, w: string, q: string)
    requires AllSpace(p) && AllSpace(q)
    requires ToUpper(w) == Verdict
    ensures IsFlagged(Answered(p + w + q))
  {
    assert UpperChar(w[0]) == ToUpper(w)[0] == 'I';
    assert UpperChar(w[|w| - 1]) == ToUpper(w)[|w| - 1] == 'E';
    StripPadded(p, w, q);
  }

  /**
   * Conversely, a flagged reply is the token in some casing, surrounded by white space only:
   * `i` is where the token starts.
   */
  lemma FlaggedShape(content: string) returns (i: nat)
    requires IsFlagged(Answered(content))
    ensures i + |Verdict| <= |content|
    ensures AllSpace(content[..i]) && AllSpace(content[i + |Verdict|..])
    ensures ToUpper(content[i..i + |Verdict|]) == Verdict
  {
    var t := LStrip(content);
    var w := RStrip(t);
    LStripShape(content);
    RStripShape(t);
    i := |content| - |t|;
    assert t == content[i..];
    assert |w| == |Verdict| && w == t[..|w|];
    assert content[i..i + |Verdict|] == t[..|w|];
    assert content[i + |Verdict|..] == t[|w|..];
  }

  /** Neither the other verdict nor the token followed by punctuation is flagged. */
  lemma NearMissesNotFlagged()
    ensures !IsFlagged(Answered("APPROPRIATE"))
    ensures !IsFlagged(Answered("INAPPROPRIATE."))
  {
    StripPadded([], "APPROPRIATE", []);
    assert [] + "APPROPRIATE" + [] == "APPROPRIATE";
    StripPadded([], "INAPPROPRIATE.", []);
    assert [] + "INAPPROPRIATE." + [] == "INAPPROPRIATE.";
  }

  /** A lower-case token wrapped in a space and a newline is flagged. */
  lemma PaddedLowerCaseFlagged()
    ensures IsFlagged(Answered(" inappropriate\n"))
  {
    var w := "inappropriate";
    assert ToUpper(w) == Verdict by {
      forall k | 0 <= k < |w| ensures ToUpper(w)[k] == Verdict[k] {
        assert 'a' <= w[k] <= 'z' && Verdict[k] == (w[k] as int - 32) as char;
      }
    }
    var c := " inappropriate\n";
    assert c[1..14] == w;
    assert c == c[..1] + c[1..14] + c[14..];
    FlaggedPadded(c[..1], w, c[14..]);
  }
}
