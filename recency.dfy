/** The recency classifier (`is_recent_job_posting`): a substring heuristic
    over the lower-cased page text, not a date parser. */
module Recency {
  import opened Strings

  /** The decimal digit for `i`, as `f"{i}"` writes it for one digit. */
  function DigitChar(i: int): char
    requires 0 <= i <= 9
  {
    ('0' as int + i) as char
  }

  /** `f"{i} day"` */
  function DayPhrase(i: int): string
    requires 0 <= i <= 9
  {
    [DigitChar(i)] + " day"
  }

  /** `f"{i}d"` */
  function CompactDayPhrase(i: int): string
    requires 0 <= i <= 9
  {
    [DigitChar(i)] + "d"
  }

  /** The phrases that mark a posting as recent on their own. */
  predicate HasRecentPhrase(t: string)
  {
    Contains(t, "just posted") || Contains(t, "new") || Contains(t, "24 hours")
  }

  /** A day count from one to seven, spelt "<n> day" or "<n>d". */
  predicate HasDayCount(t: string)
  {
    exists i :: 1 <= i <= 7 && (Contains(t, DayPhrase(i)) || Contains(t, CompactDayPhrase(i)))
  }

  /** The classifier's meaning: on the lower-cased text, a recent phrase or a
      day count of one to seven. */
  predicate LooksRecent(text: string)
  {
    var t := Lower(text);
    HasRecentPhrase(t) || HasDayCount(t)
  }

  /** `is_recent_job_posting`: the phrase tests, then the day counts for
      `i` in `range(1, 8)`, returning at the first hit. */
  method IsRecentJobPosting(text: string) returns (recent: bool)
    ensures recent <==> LooksRecent(text)
    ensures HasRecentPhrase(Lower(text)) ==> recent
  {
    var textLower := Lower(text);
    if Contains(textLower, "just posted") || Contains(textLower, "new") || Contains(textLower, "24 hours") {
      return true;
    }
    for i := 1 to 8
      invariant forall j :: 1 <= j < i ==>
                  !Contains(textLower, DayPhrase(j)) && !Contains(textLower, CompactDayPhrase(j))
    {
      if Contains(textLower, DayPhrase(i)) || Contains(textLower, CompactDayPhrase(i)) {
        return true;
      }
    }
    return false;
  }

  /** Classifying already lower-cased text gives the same answer, so the
      scraper's lowering before the call changes nothing. */
  lemma LooksRecentOfLower(text: string)
    ensures LooksRecent(Lower(text)) == LooksRecent(text)
  {
    LowerIdempotent(text);
  }

  /** A recent phrase makes the text recent whatever surrounds it. */
  lemma RecentPhraseAnywhere(before: string, phrase: string, after: string)
    requires phrase == "just posted" || phrase == "new" || phrase == "24 hours"
    ensures LooksRecent(before + phrase + after)
  {
    LowerConcat(before + phrase, after);
    LowerConcat(before, phrase);
    LowerOfLowerCase(phrase);
    var t := Lower(before + phrase + after);
    assert t == Lower(before) + phrase + Lower(after);
    assert t[|before|..|before| + |phrase|] == phrase;
    ContainsAt(t, phrase, |before|);
  }

  /** A day count in the window makes the text recent whatever surrounds it,
      including inside a longer number: "11 days" holds "1 day". */
  lemma DayCountAnywhere(before: string, i: int, after: string)
    requires 1 <= i <= 7
    ensures LooksRecent(before + DayPhrase(i) + after)
    ensures LooksRecent(before + CompactDayPhrase(i) + after)
  {
    var p, q := DayPhrase(i), CompactDayPhrase(i);
    LowerOfLowerCase(p);
    LowerOfLowerCase(q);
    LowerConcat(before + p, after);
    LowerConcat(before, p);
    LowerConcat(before + q, after);
    LowerConcat(before, q);
    var t := Lower(before + p + after);
    assert t == Lower(before) + p + Lower(after);
    assert t[|before|..|before| + |p|] == p;
    ContainsAt(t, p, |before|);
    var u := Lower(before + q + after);
    assert u == Lower(before) + q + Lower(after);
    assert u[|before|..|before| + |q|] == q;
    ContainsAt(u, q, |before|);
  }

  /** A text without 'j', 'w' or '2' holds none of the recent phrases. */
  lemma NoRecentPhraseWithout(t: string)
    requires 'j' !in t && 'w' !in t && '2' !in t
    ensures !HasRecentPhrase(t)
  {
    NotContainsMissingChar(t, "just posted", 0);
    NotContainsMissingChar(t, "new", 2);
    NotContainsMissingChar(t, "24 hours", 0);
  }

  /** A text without any of the digits one to seven holds no day count. */
  lemma NoDayCountWithoutDigits(t: string)
    requires forall k :: 0 <= k < |t| ==> !('1' <= t[k] <= '7')
    ensures !HasDayCount(t)
  {
    forall i | 1 <= i <= 7 ensures !Contains(t, DayPhrase(i)) && !Contains(t, CompactDayPhrase(i)) {
      NotContainsMissingChar(t, DayPhrase(i), 0);
      NotContainsMissingChar(t, CompactDayPhrase(i), 0);
    }
  }

  /** A text whose lower-cased form lacks 'j', 'w', '2' and the digits one to
      seven is not recent. */
  lemma NotRecentWithout(text: string)
    requires var t := Lower(text); 'j' !in t && 'w' !in t && '2' !in t
    requires forall k :: 0 <= k < |text| ==> !('1' <= Lower(text)[k] <= '7')
    ensures !LooksRecent(text)
  {
    NoRecentPhraseWithout(Lower(text));
    NoDayCountWithoutDigits(Lower(text));
  }

  lemma JustPostedExample()
    ensures LooksRecent("Just Posted 2 days ago")
  {
    var t := Lower("Just Posted 2 days ago");
    assert t == "just posted 2 days ago";
    assert t[0..11] == "just posted";
    ContainsAt(t, "just posted", 0);
  }

  lemma CompactDayExample()
    ensures LooksRecent("3d ago, apply now")
  {
    var t := Lower("3d ago, apply now");
    assert t == "3d ago, apply now";
    assert t[0..2] == CompactDayPhrase(3);
    ContainsAt(t, CompactDayPhrase(3), 0);
  }

  /** Outside the one-to-seven window: "8 days ago" is not recent. */
  lemma EightDaysExample()
    ensures !LooksRecent("8 days ago")
  {
    LowerOfLowerCase("8 days ago");
    NotRecentWithout("8 days ago");
  }

  lemma LastMonthExample()
    ensures !LooksRecent("Posted last month")
  {
    assert Lower("Posted last month") == "posted last month";
    NotRecentWithout("Posted last month");
  }

  /** The heuristic's false positive, kept: "renewal" holds "new". */
  lemma RenewalExample()
    ensures LooksRecent("Contract renewal")
  {
    RecentPhraseAnywhere("Contract re", "new", "al");
    assert "Contract re" + "new" + "al" == "Contract renewal";
  }

  /** The heuristic's false positive, kept: "11 days ago" holds "1 day". */
  lemma ElevenDaysExample()
    ensures LooksRecent("11 days ago")
  {
    DayCountAnywhere("1", 1, "s ago");
    assert "1" + DayPhrase(1) + "s ago" == "11 days ago";
  }
}
