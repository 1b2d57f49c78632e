/** Keyword extraction from a résumé (`extract_keywords_from_resume`).
    The NLP model is an input: `None` when it could not be loaded, otherwise
    the named entities it recognised in the résumé, as (label, text) pairs; `kind` is the label. */
module Keywords {
  import opened Wrappers
  import opened Strings

  /** One named entity recognised by the NLP model. */
  datatype Entity = Entity(kind: string, text: string)

  /** Entity labels whose text is kept as a keyword. */
  const KeptLabels: set<string> := {"ORG", "GPE", "PRODUCT", "JOB"}

  /** The curated technical-skill vocabulary, in source order. */
  const TechSkills: seq<string> := [
    "Python", "JavaScript", "React", "Angular", "Vue", "Node.js",
    "SQL", "MongoDB", "AWS", "Azure", "Docker", "Kubernetes",
    "Machine Learning", "Data Science", "API", "FastAPI"
  ]

  /** What extraction returns when the NLP model is not loaded. */
  const FallbackKeywords: seq<string> := ["Fallback", "NLP Error"]

  predicate NoDuplicates(s: seq<string>)
  {
    forall i, j :: 0 <= i < j < |s| ==> s[i] != s[j]
  }

  /** `k` is the text of some entity with a kept label. */
  ghost predicate IsEntityKeyword(ents: seq<Entity>, k: string)
  {
    exists e :: e in ents && e.kind in KeptLabels && e.text == k
  }

  /** The skills among `skills` whose lower-cased form occurs in the
      lower-cased résumé. */
  function SkillsFoundAmong(skills: seq<string>, resumeText: string): set<string>
  {
    set skill | skill in skills && Contains(Lower(resumeText), Lower(skill))
  }

  /** The skills of the vocabulary whose lower-cased form occurs in the
      lower-cased résumé. */
  function FoundSkills(resumeText: string): set<string>
  {
    SkillsFoundAmong(TechSkills, resumeText)
  }

  /** The final filter: more than one whitespace-separated token, or longer
      than three characters. */
  predicate KeepKeyword(k: string)
  {
    |Words(k)| > 1 || |k| > 3
  }

  /** The texts of the entities with a kept label, in entity order. */
  function GeneralKeywords(ents: seq<Entity>): (r: seq<string>)
    ensures forall k :: k in r <==> IsEntityKeyword(ents, k)
    ensures |r| <= |ents|
  {
    if ents == [] then []
    else
      var rest := GeneralKeywords(ents[1..]);
      assert forall e :: e in ents[1..] ==> e in ents;
      if ents[0].kind in KeptLabels then [ents[0].text] + rest else rest
  }

  /** The list comprehension that applies `KeepKeyword`, keeping order. */
  function KeepFiltered(s: seq<string>): (r: seq<string>)
    ensures forall k :: k in r <==> k in s && KeepKeyword(k)
    ensures NoDuplicates(s) ==> NoDuplicates(r)
    ensures |r| <= |s|
  {
    if s == [] then []
    else
      var rest := KeepFiltered(s[1..]);
      if KeepKeyword(s[0]) then [s[0]] + rest else rest
  }

  /** `list(some_set)`: every element once, in an order the model leaves open. */
  method SetToList(s: set<string>) returns (r: seq<string>)
    ensures NoDuplicates(r)
    ensures forall k :: k in r <==> k in s
    ensures |r| == |s|
  {
    r := [];
    var rest := s;
    while rest != {}
      invariant rest <= s
      invariant forall k :: k in r <==> k in s && k !in rest
      invariant NoDuplicates(r)
      invariant |r| + |rest| == |s|
      decreases rest
    {
      var k :| k in rest;
      r := r + [k];
      rest := rest - {k};
    }
  }

  /** The skill path alone: what it finds passes the filter exactly when it is
      longer than three characters, and it finds only skills the text holds. */
  lemma FoundSkillsFacts(resumeText: string, skill: string)
    requires skill in TechSkills
    ensures skill in FoundSkills(resumeText) <==> Contains(Lower(resumeText), Lower(skill))
    ensures KeepKeyword(skill) <==> |skill| > 3
  {
    if |skill| <= 3 {
      ShortSkillNeverKept(skill);
    }
  }

  /** `keywords` is a valid outcome of extraction with the model loaded: once
      each, exactly the entity texts with a kept label and the found skills
      that pass the filter. */
  ghost predicate IsExtraction(ents: seq<Entity>, resumeText: string, keywords: seq<string>)
  {
    && NoDuplicates(keywords)
    && forall k :: k in keywords <==> (IsEntityKeyword(ents, k) || k in FoundSkills(resumeText)) && KeepKeyword(k)
  }

  /** `extract_keywords_from_resume`. With the model loaded, the result holds,
      once each, exactly the entity texts with a kept label and the skills found
      in the text that pass the length filter; otherwise it is the fallback. */
  method ExtractKeywords(nlp: Option<seq<Entity>>, resumeText: string) returns (keywords: seq<string>)
    ensures nlp.None? ==> keywords == FallbackKeywords
    ensures nlp.Some? ==> IsExtraction(nlp.value, resumeText, keywords)
    ensures nlp.Some? ==> forall k :: k in keywords ==> |Words(k)| > 1 || |k| > 3
  {
    if nlp.None? {
      return FallbackKeywords;
    }
    var general := GeneralKeywords(nlp.value);
    var found: set<string> := {};
    for i := 0 to |TechSkills|
      invariant found == SkillsFoundAmong(TechSkills[..i], resumeText)
    {
      if Contains(Lower(resumeText), Lower(TechSkills[i])) {
        found := found + {TechSkills[i]};
      }
      assert TechSkills[..i + 1] == TechSkills[..i] + [TechSkills[i]];
    }
    assert TechSkills[..|TechSkills|] == TechSkills;
    var all := SetToList((set k | k in general) + found);
    keywords := KeepFiltered(all);
  }

  /** The skill path, for a result of extraction: a vocabulary entry longer
      than three characters is returned when the résumé mentions it, a shorter
      one is never returned, and whatever is not an entity text is a skill the
      résumé mentions. */
  lemma SkillCoverage(ents: seq<Entity>, resumeText: string, keywords: seq<string>)
    requires IsExtraction(ents, resumeText, keywords)
    ensures forall skill :: skill in TechSkills && |skill| > 3 && Contains(Lower(resumeText), Lower(skill))
              ==> skill in keywords
    ensures forall skill :: skill in TechSkills && |skill| <= 3 ==> skill !in keywords
    ensures forall k :: k in keywords && !IsEntityKeyword(ents, k)
              ==> k in TechSkills && Contains(Lower(resumeText), Lower(k))
  {
    forall skill | skill in TechSkills
      ensures |skill| > 3 && Contains(Lower(resumeText), Lower(skill)) ==> skill in keywords
      ensures |skill| <= 3 ==> skill !in keywords
    {
      FoundSkillsFacts(resumeText, skill);
    }
  }

  /** A sequence without duplicates has as many elements as its set. */
  lemma {:induction false} NoDuplicatesCard(s: seq<string>)
    requires NoDuplicates(s)
    ensures |set k | k in s| == |s|
  {
    if s != [] {
      NoDuplicatesCard(s[1..]);
      assert (set k | k in s) == {s[0]} + (set k | k in s[1..]);
      assert s[0] !in s[1..];
    }
  }

  /** Extraction is determined up to order: two results for the same input
      hold the same keywords and have the same length. */
  lemma ExtractionUpToOrder(ents: seq<Entity>, resumeText: string, k1: seq<string>, k2: seq<string>)
    requires IsExtraction(ents, resumeText, k1) && IsExtraction(ents, resumeText, k2)
    ensures forall k :: k in k1 <==> k in k2
    ensures |k1| == |k2|
  {
    NoDuplicatesCard(k1);
    NoDuplicatesCard(k2);
    assert (set k | k in k1) == (set k | k in k2);
  }

  /** A single token of at most three characters never passes the filter. */
  lemma ShortTokenDropped(k: string)
    requires k != [] && |k| <= 3 && forall i :: 0 <= i < |k| ==> !IsSpace(k[i])
    ensures !KeepKeyword(k)
  {
    SingleWord(k);
  }

  /** The vocabulary's entries of at most three characters are "Vue", "SQL",
      "AWS" and "API". */
  lemma ShortSkills()
    ensures (set skill | skill in TechSkills && |skill| <= 3) == {"Vue", "SQL", "AWS", "API"}
  {
    forall i | 0 <= i < |TechSkills| && |TechSkills[i]| <= 3
      ensures TechSkills[i] in {"Vue", "SQL", "AWS", "API"}
    {
      assert i in {4, 6, 8, 14};
    }
    assert TechSkills[4] == "Vue" && TechSkills[6] == "SQL" && TechSkills[8] == "AWS" && TechSkills[14] == "API";
  }

  lemma ShortSkillIsListed(skill: string)
    requires skill in TechSkills && |skill| <= 3
    ensures skill == "Vue" || skill == "SQL" || skill == "AWS" || skill == "API"
  {
    ShortSkills();
    assert skill in (set s | s in TechSkills && |s| <= 3);
  }

  /** "Vue", "SQL", "AWS" and "API" are single tokens of three characters. */
  lemma ShortSkillsAreShortTokens(skill: string)
    requires skill == "Vue" || skill == "SQL" || skill == "AWS" || skill == "API"
    ensures !KeepKeyword(skill)
  {
    if skill == "Vue" {
      ShortTokenDropped("Vue");
    } else if skill == "SQL" {
      ShortTokenDropped("SQL");
    } else if skill == "AWS" {
      ShortTokenDropped("AWS");
    } else {
      ShortTokenDropped("API");
    }
  }

  /** No short vocabulary entry can ever be returned, even when the résumé
      names it. */
  lemma ShortSkillNeverKept(skill: string)
    requires skill in TechSkills && |skill| <= 3
    ensures !KeepKeyword(skill)
  {
    ShortSkillIsListed(skill);
    ShortSkillsAreShortTokens(skill);
  }

  /** Nothing of the vocabulary occurs in an empty résumé. */
  lemma EmptyResumeFindsNoSkill()
    ensures FoundSkills("") == {}
  {
    forall skill | skill in TechSkills ensures !Contains(Lower(""), Lower(skill)) {
      assert |Lower(skill)| > 0;
    }
  }

  /** With no entity and an empty résumé, extraction with the model loaded
      returns the empty list: only the fallback path is sure to be non-empty. */
  lemma EmptyExtraction(keywords: seq<string>)
    requires IsExtraction([], "", keywords)
    ensures keywords == []
  {
    EmptyResumeFindsNoSkill();
    assert (set k | k in keywords) == {};
    NoDuplicatesCard(keywords);
  }
}
