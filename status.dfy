/** The export tab's status styling (`update_status` in
    `Exporter.create_status_widget`): a message is an error, a warning, a
    success or plain information according to the words it contains. */
module StatusSeverity {
  import opened Text

  datatype Severity = Info | Success | Warning | Error

  /** How alarming a severity is; the checks run from the top rank down. */
  function Rank(s: Severity): nat {
    match s
    case Info => 0
    case Success => 1
    case Warning => 2
    case Error => 3
  }

  const ErrorWords: seq<string> := ["error", "failed", "cannot", "could not"]
  const WarningWords: seq<string> := ["warning", "caution", "partial"]
  const SuccessWords: seq<string> := ["success", "complete", "saved"]

  /** `any(word in text for word in words)` */
  function AnyContained(text: string, words: seq<string>): bool {
    |words| > 0 && (Contains(text, words[0]) || AnyContained(text, words[1..]))
  }

  /** The message type chosen for `message`. */
  function Classify(message: string): Severity {
    var lower := Lower(message);
    if AnyContained(lower, ErrorWords) then Error
    else if AnyContained(lower, WarningWords) then Warning
    else if AnyContained(lower, SuccessWords) then Success
    else Info
  }

  /** `any` holds exactly when some listed word occurs. */
  lemma {:induction false} AnyContainedIff(text: string, words: seq<string>)
    ensures AnyContained(text, words) <==> exists k :: 0 <= k < |words| && Contains(text, words[k])
  {
    if |words| > 0 {
      AnyContainedIff(text, words[1..]);
      if exists k :: 0 <= k < |words| && Contains(text, words[k]) {
        var k :| 0 <= k < |words| && Contains(text, words[k]);
        if k > 0 {
          assert words[1..][k - 1] == words[k];
        }
      }
      if AnyContained(text, words[1..]) {
        var k :| 0 <= k < |words[1..]| && Contains(text, words[1..][k]);
        assert words[k + 1] == words[1..][k];
      }
    }
  }

  /** The four outcomes, each stated in terms of which words occur in the
      lower-cased message: an error word wins over everything, then a warning
      word, then a success word. */
  lemma ClassifyCases(message: string)
    ensures var lower := Lower(message);
      && (Classify(message) == Error <==>
            exists k :: 0 <= k < |ErrorWords| && Contains(lower, ErrorWords[k]))
      && (Classify(message) == Warning <==>
            (forall k :: 0 <= k < |ErrorWords| ==> !Contains(lower, ErrorWords[k]))
            && exists k :: 0 <= k < |WarningWords| && Contains(lower, WarningWords[k]))
      && (Classify(message) == Success <==>
            (forall k :: 0 <= k < |ErrorWords| ==> !Contains(lower, ErrorWords[k]))
            && (forall k :: 0 <= k < |WarningWords| ==> !Contains(lower, WarningWords[k]))
            && exists k :: 0 <= k < |SuccessWords| && Contains(lower, SuccessWords[k]))
  {
    var lower := Lower(message);
    AnyContainedIff(lower, ErrorWords);
    AnyContainedIff(lower, WarningWords);
    AnyContainedIff(lower, SuccessWords);
  }

  /** Extra text never lowers the severity: `any` stays true when the text
      grows on either side. */
  lemma {:induction false} AnyContainedGrows(s: string, t: string, words: seq<string>)
    requires AnyContained(s, words)
    ensures AnyContained(s + t, words) && AnyContained(t + s, words)
  {
    if Contains(s, words[0]) {
      ContainsAppend(s, t, words[0]);
      ContainsPrepend(t, s, words[0]);
    } else {
      AnyContainedGrows(s, t, words[1..]);
    }
  }

  /** Adding text before or after a message never makes its status milder. */
  lemma ClassifyMonotone(s: string, t: string)
    ensures Rank(Classify(s)) <= Rank(Classify(s + t))
    ensures Rank(Classify(s)) <= Rank(Classify(t + s))
  {
    LowerAppend(s, t);
    LowerAppend(t, s);
    var ls, lt := Lower(s), Lower(t);
    if AnyContained(ls, ErrorWords) {
      AnyContainedGrows(ls, lt, ErrorWords);
    } else if AnyContained(ls, WarningWords) {
      AnyContainedGrows(ls, lt, WarningWords);
    } else if AnyContained(ls, SuccessWords) {
      AnyContainedGrows(ls, lt, SuccessWords);
    }
  }

  /** A message whose lower-cased text mentions one of the words is at least
      that severe, whatever else it contains. */
  lemma MentionRaisesSeverity(message: string, word: string)
    requires word in ErrorWords || word in WarningWords || word in SuccessWords
    requires Contains(Lower(message), word)
    ensures word in ErrorWords ==> Classify(message) == Error
    ensures word in WarningWords ==> Rank(Classify(message)) >= Rank(Warning)
    ensures Rank(Classify(message)) >= Rank(Success)
  {
    ClassifyCases(message);
    if word in ErrorWords {
      var k :| 0 <= k < |ErrorWords| && ErrorWords[k] == word;
    } else if word in WarningWords {
      var k :| 0 <= k < |WarningWords| && WarningWords[k] == word;
    } else {
      var k :| 0 <= k < |SuccessWords| && SuccessWords[k] == word;
    }
  }

  /** Every listed word is already lower case. */
  lemma WordsAreLowerCase(word: string)
    requires word in ErrorWords || word in WarningWords || word in SuccessWords
    ensures Lower(word) == word
  {
    LowerOfLowerCase(word);
  }

  /** Lower-casing text without capital letters changes nothing. */
  lemma {:induction false} LowerOfLowerCase(s: string)
    requires forall k :: 0 <= k < |s| ==> !('A' <= s[k] <= 'Z')
    ensures Lower(s) == s
  {
    if |s| > 0 {
      LowerOfLowerCase(s[1..]);
    }
  }

  /** A message built around one of the words is at least that severe. */
  lemma WordRaisesSeverity(prefix: string, word: string, suffix: string)
    requires word in ErrorWords || word in WarningWords || word in SuccessWords
    ensures word in ErrorWords ==> Classify(prefix + word + suffix) == Error
    ensures word in WarningWords ==> Rank(Classify(prefix + word + suffix)) >= Rank(Warning)
    ensures Rank(Classify(prefix + word + suffix)) >= Rank(Success)
  {
    LowerAppend(prefix + word, suffix);
    LowerAppend(prefix, word);
    WordsAreLowerCase(word);
    assert Contains(word, word) by {
      assert |word| <= |word| && word[..|word|] == word;
    }
    ContainsPrepend(Lower(prefix), word, word);
    ContainsAppend(Lower(prefix) + word, Lower(suffix), word);
    MentionRaisesSeverity(prefix + word + suffix, word);
  }
}
