/**
 * The mapping from the zero-shot classifier's candidate labels to the
 * application's own label set.
 */
module LabelMapping {

  /** ASCII lower-casing of one character. */
  function ToLowerAscii(c: char): char {
    if 'A' <= c <= 'Z' then (c as int + 32) as char else c
  }

  /** Case-insensitive equality, folding ASCII letters only. */
  predicate EqualsIgnoreCase(a: string, b: string) {
    |a| == |b| && forall m :: 0 <= m < |a| ==> ToLowerAscii(a[m]) == ToLowerAscii(b[m])
  }

  /**
   * The mapping as a table, in the order the labels are tried: each
   * classifier label with the application label it stands for.
   */
  const Vocabulary: seq<(string, string)> := [
    ("phishing attempt", "PHISHING"),
    ("spam email", "SPAM"),
    ("promotional offer", "PROMOTIONAL"),
    ("legitimate communication", "HAM"),
    ("suspicious email", "SUSPICIOUS"),
    ("newsletter", "NEWSLETTER"),
    ("transactional message", "TRANSACTIONAL"),
    ("social media notification", "SOCIAL_MEDIA")
  ]

  /** The label given to anything outside the vocabulary. */
  const Other := "OTHER"

  /** The candidate labels sent to the classifier, in the order they are sent. */
  const CandidateLabels: seq<string> := [
    "spam email",
    "phishing attempt",
    "promotional offer",
    "newsletter",
    "transactional message",
    "legitimate communication",
    "suspicious email",
    "social media notification"
  ]

  /** `s` matches no vocabulary label, ignoring case. */
  predicate Unrecognised(s: string) {
    forall n :: 0 <= n < |Vocabulary| ==> !EqualsIgnoreCase(Vocabulary[n].0, s)
  }

  /**
   * The if-chain of the controller. It agrees with the table: a string
   * that matches a vocabulary label ignoring case gets that label's
   * application label, and any other string gets `OTHER`.
   */
  function MapZeroShotLabel(s: string): (r: string)
    ensures r == Other <==> Unrecognised(s)
    ensures forall n :: 0 <= n < |Vocabulary| && EqualsIgnoreCase(Vocabulary[n].0, s) ==> r == Vocabulary[n].1
  {
    VocabularyDistinct(s);
    assert Vocabulary[0] == ("phishing attempt", "PHISHING") && Vocabulary[1] == ("spam email", "SPAM");
    assert Vocabulary[2] == ("promotional offer", "PROMOTIONAL") && Vocabulary[3] == ("legitimate communication", "HAM");
    assert Vocabulary[4] == ("suspicious email", "SUSPICIOUS") && Vocabulary[5] == ("newsletter", "NEWSLETTER");
    assert Vocabulary[6] == ("transactional message", "TRANSACTIONAL");
    assert Vocabulary[7] == ("social media notification", "SOCIAL_MEDIA");
    if EqualsIgnoreCase("phishing attempt", s) then "PHISHING"
    else if EqualsIgnoreCase("spam email", s) then "SPAM"
    else if EqualsIgnoreCase("promotional offer", s) then "PROMOTIONAL"
    else if EqualsIgnoreCase("legitimate communication", s) then "HAM"
    else if EqualsIgnoreCase("suspicious email", s) then "SUSPICIOUS"
    else if EqualsIgnoreCase("newsletter", s) then "NEWSLETTER"
    else if EqualsIgnoreCase("transactional message", s) then "TRANSACTIONAL"
    else if EqualsIgnoreCase("social media notification", s) then "SOCIAL_MEDIA"
    else Other
  }

  /** Case-insensitive equality is an equivalence; two strings that match a third match each other. */
  lemma MatchSameString(a: string, b: string, s: string)
    requires EqualsIgnoreCase(a, s) && EqualsIgnoreCase(b, s)
    ensures EqualsIgnoreCase(a, b)
  {
  }

  /** No two vocabulary labels match each other, ignoring case. */
  lemma VocabularyPairwiseDistinct()
    ensures forall n, o :: 0 <= n < o < |Vocabulary| ==> !EqualsIgnoreCase(Vocabulary[n].0, Vocabulary[o].0)
  {
    forall n, o | 0 <= n < o < |Vocabulary|
      ensures !EqualsIgnoreCase(Vocabulary[n].0, Vocabulary[o].0)
    {
      var a, b := Vocabulary[n].0, Vocabulary[o].0;
      assert n == 0 || n == 1 || n == 2 || n == 3 || n == 4 || n == 5 || n == 6;
      assert o == 1 || o == 2 || o == 3 || o == 4 || o == 5 || o == 6 || o == 7;
      if n == 0 && o == 4 {
        // "phishing attempt" and "suspicious email"
        assert ToLowerAscii(a[0]) != ToLowerAscii(b[0]);
      } else if n == 1 && o == 5 {
        // "spam email" and "newsletter"
        assert ToLowerAscii(a[0]) != ToLowerAscii(b[0]);
      } else {
        assert |a| != |b|;
      }
    }
  }

  /** No string matches two vocabulary labels, so the order of the chain does not matter. */
  lemma VocabularyDistinct(s: string)
    ensures forall n, o :: 0 <= n < o < |Vocabulary| && EqualsIgnoreCase(Vocabulary[n].0, s) ==> !EqualsIgnoreCase(Vocabulary[o].0, s)
  {
    VocabularyPairwiseDistinct();
    forall n, o | 0 <= n < o < |Vocabulary| && EqualsIgnoreCase(Vocabulary[n].0, s)
      ensures !EqualsIgnoreCase(Vocabulary[o].0, s)
    {
      if EqualsIgnoreCase(Vocabulary[o].0, s) {
        MatchSameString(Vocabulary[n].0, Vocabulary[o].0, s);
      }
    }
  }

  // ---------------------------------------------------------------------
  // Properties of the mapping
  // ---------------------------------------------------------------------

  /** The mapping is total onto the application labels and `OTHER`. */
  lemma MapIntoLabelSet(s: string)
    ensures MapZeroShotLabel(s) == Other
         || exists n :: 0 <= n < |Vocabulary| && MapZeroShotLabel(s) == Vocabulary[n].1
  {
    if !Unrecognised(s) {
      var n :| 0 <= n < |Vocabulary| && EqualsIgnoreCase(Vocabulary[n].0, s);
    }
  }

  /** Of the labels the mapping produces, only `NEWSLETTER` is itself in the vocabulary. */
  lemma OutputsUnrecognised()
    ensures forall n :: 0 <= n < |Vocabulary| && n != 5 ==> Unrecognised(Vocabulary[n].1)
    ensures Unrecognised(Other)
    ensures Vocabulary[5].1 == "NEWSLETTER" && EqualsIgnoreCase(Vocabulary[5].0, "NEWSLETTER")
  {
    forall n | 0 <= n < |Vocabulary| && n != 5
      ensures Unrecognised(Vocabulary[n].1)
    {
      assert n == 0 || n == 1 || n == 2 || n == 3 || n == 4 || n == 6 || n == 7;
      var out := Vocabulary[n].1;
      forall o | 0 <= o < |Vocabulary|
        ensures !EqualsIgnoreCase(Vocabulary[o].0, out)
      {
        var v := Vocabulary[o].0;
        assert o == 0 || o == 1 || o == 2 || o == 3 || o == 4 || o == 5 || o == 6 || o == 7;
        if n == 4 && o == 1 {
          // "spam email" and "SUSPICIOUS"
          assert ToLowerAscii(v[1]) != ToLowerAscii(out[1]);
        } else if n == 4 && o == 5 {
          // "newsletter" and "SUSPICIOUS"
          assert ToLowerAscii(v[0]) != ToLowerAscii(out[0]);
        } else {
          assert |v| != |out|;
        }
      }
    }
    forall o | 0 <= o < |Vocabulary|
      ensures !EqualsIgnoreCase(Vocabulary[o].0, Other)
    {
      assert o == 0 || o == 1 || o == 2 || o == 3 || o == 4 || o == 5 || o == 6 || o == 7;
    }
  }

  /**
   * Mapping an already mapped label gives `OTHER`, except for `NEWSLETTER`,
   * which matches "newsletter" ignoring case and maps to itself.
   */
  lemma RemapTwice(s: string)
    ensures MapZeroShotLabel(MapZeroShotLabel(s)) ==
      if MapZeroShotLabel(s) == "NEWSLETTER" then "NEWSLETTER" else Other
  {
    var r := MapZeroShotLabel(s);
    MapIntoLabelSet(s);
    OutputsUnrecognised();
    if r != Other {
      var n :| 0 <= n < |Vocabulary| && r == Vocabulary[n].1;
      if n != 5 {
        assert Vocabulary[5].1 != Vocabulary[n].1 by {
          assert n == 0 || n == 1 || n == 2 || n == 3 || n == 4 || n == 6 || n == 7;
        }
      }
    }
  }

  /** Each candidate label is recognised, and distinct candidates map to distinct application labels. */
  lemma CandidateLabelsCovered()
    ensures forall i :: 0 <= i < |CandidateLabels| ==> MapZeroShotLabel(CandidateLabels[i]) != Other
    ensures forall i, j :: 0 <= i < j < |CandidateLabels| ==> MapZeroShotLabel(CandidateLabels[i]) != MapZeroShotLabel(CandidateLabels[j])
  {
    // the position in the vocabulary of each candidate label
    var order := [1, 0, 2, 5, 6, 3, 4, 7];
    forall i | 0 <= i < |CandidateLabels|
      ensures 0 <= order[i] < |Vocabulary| && CandidateLabels[i] == Vocabulary[order[i]].0
      ensures MapZeroShotLabel(CandidateLabels[i]) == Vocabulary[order[i]].1
    {
      assert i == 0 || i == 1 || i == 2 || i == 3 || i == 4 || i == 5 || i == 6 || i == 7;
      assert EqualsIgnoreCase(Vocabulary[order[i]].0, CandidateLabels[i]);
    }
    forall i, j | 0 <= i < j < |CandidateLabels|
      ensures Vocabulary[order[i]].1 != Vocabulary[order[j]].1
    {
      assert i == 0 || i == 1 || i == 2 || i == 3 || i == 4 || i == 5 || i == 6;
      assert j == 1 || j == 2 || j == 3 || j == 4 || j == 5 || j == 6 || j == 7;
    }
    OutputsUnrecognised();
  }
}
