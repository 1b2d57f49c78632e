# Résumé-driven job scraper: decision core in Dafny

This project models the decision logic of the job-recommendation service in
`ML_Logic_Complete.py` and proves properties of it. The service takes a
résumé, extracts search keywords, searches the web for each keyword, and
keeps the result pages that look like recent job postings. The model covers
four pieces:

- **Keyword extraction** (`extract_keywords_from_resume`), module `Keywords`.
  The NLP model is an input. `None` means the spaCy model could not be
  loaded. `Some(entities)` carries the (label, text) pairs it recognised.
  Entity texts labelled ORG, GPE, PRODUCT or JOB are kept. Every curated
  skill whose lower-cased form occurs in the lower-cased résumé is added.
  The union is deduplicated, and the final filter keeps a term only when it
  has more than one whitespace-separated token or more than three characters.
  Without the model, the result is the fixed list `["Fallback", "NLP Error"]`.
- **Recency classifier** (`is_recent_job_posting`), module `Recency`. This is
  a substring heuristic on the lower-cased text. The phrases are "just
  posted", "new" and "24 hours". The day counts are "<n> day" and "<n>d" for
  n from 1 to 7. Its false positives ("renewal" holds "new", "11 days" holds
  "1 day") are kept and proved.
- **Scrape aggregation** (`scrape_jobs`), module `Scraper`. The browser and
  the search engine are inputs. One flag says whether the driver started.
  For each keyword there is one search run: the candidate URLs in order,
  each with its fetch outcome (`Page(text)` or `FetchError`), and
  optionally the index at which the search raised. The method builds the
  keyword → accepted-URLs map in a loop, exactly as the source does.
- **Upload dispatch** (`file.filename.split('.')[-1].lower()` in the upload
  route), module `Upload`: which decoder a file name selects.

`Strings` holds the Python string operations all four rely on: `str.lower()`
on ASCII, the `in` substring test and `str.split()` with no argument.
`Wrappers` holds `Option`.

Three behaviours of the code are worth stating:

- Extraction with the model loaded can return an empty list, for example
  with no entities and an empty résumé (`Keywords.EmptyExtraction`).
  Only the fallback path is guaranteed non-empty.
- A URL that a search yields twice and that passes both tests each time is
  appended twice (`Scraper.RepeatedUrlKept`). No per-keyword deduplication
  happens. If the second fetch fails or its page fails a test, the URL is
  recorded once (`Scraper.RejectedRepeatDropped`).
- A keyword listed twice is searched twice. Its second search replaces the
  first one's entry, because the source resets the entry to `[]` each time
  (`Scraper.AggregateEntry`).

## Model

| member | source | states |
|---|---|---|
| `Keywords.ExtractKeywords` | ML_Logic_Complete.py:52-88 | Without the NLP model the result is exactly `["Fallback", "NLP Error"]`. With it, the result has no duplicates and holds exactly the kept-label entity texts and the found skills that pass the filter. Every element has more than one token or more than three characters. The skill loop's invariant says `found` holds exactly the skills seen so far whose lower-cased form occurs in the lower-cased résumé. |
| `Keywords.SkillCoverage` | ML_Logic_Complete.py:69-85 | In any extraction result, every vocabulary entry longer than three characters that the résumé mentions (case-insensitively) is present. No entry of at most three characters is present. Every keyword that is not an entity text is a vocabulary entry the résumé mentions. |
| `Keywords.FoundSkillsFacts` | ML_Logic_Complete.py:76-85 | A vocabulary entry is found exactly when its lower-cased form occurs in the lower-cased résumé. It passes the filter exactly when it is longer than three characters. |
| `Keywords.ExtractionUpToOrder` | ML_Logic_Complete.py:82-85 | Two extraction results for the same input hold the same keywords and have the same length. They can differ only in order. |
| `Keywords.GeneralKeywords` | ML_Logic_Complete.py:65 | The list comprehension keeps a text exactly when some entity with label ORG, GPE, PRODUCT or JOB has that text. |
| `Keywords.SetToList` | ML_Logic_Complete.py:82 | `list(set(...))` lists every element of the set exactly once, in an order left open. |
| `Keywords.KeepFiltered` | ML_Logic_Complete.py:85 | The final filter keeps exactly the terms that pass the token/length test and preserves the absence of duplicates. |
| `Keywords.ShortTokenDropped` | ML_Logic_Complete.py:85 | A single token of at most three characters never passes the filter. |
| `Keywords.ShortSkills` | ML_Logic_Complete.py:69-73 | The vocabulary entries of at most three characters are exactly "Vue", "SQL", "AWS" and "API". |
| `Keywords.ShortSkillIsListed` | ML_Logic_Complete.py:69-73 | Any vocabulary entry of at most three characters is one of those four. |
| `Keywords.ShortSkillsAreShortTokens` | ML_Logic_Complete.py:85 | "Vue", "SQL", "AWS" and "API" each fail the filter. |
| `Keywords.ShortSkillNeverKept` | ML_Logic_Complete.py:69-85 | No vocabulary entry of at most three characters can pass the filter, so it is never returned even when the résumé names it. |
| `Keywords.EmptyResumeFindsNoSkill` | ML_Logic_Complete.py:76-79 | No vocabulary entry is found in an empty résumé. |
| `Keywords.EmptyExtraction` | ML_Logic_Complete.py:61-88 | With the model loaded, no entities and an empty résumé, the only extraction result is the empty list. Only the fallback path is sure to be non-empty. |
| `Strings.ContainsIffOccurs` | ML_Logic_Complete.py:78 | The recursive substring test holds exactly when the pattern sits in the text at some index (both directions). |
| `Strings.NotContainsMissingChar` | ML_Logic_Complete.py:98 | A pattern holding a character absent from the text is not a substring of it. |
| `Strings.WordsEmptyIff` | ML_Logic_Complete.py:85 | `split()` yields no word exactly when the text is all whitespace. |
| `Strings.WordsManyIff` | ML_Logic_Complete.py:85 | `split()` yields more than one word exactly when whitespace stands between two non-space characters. |
| `Strings.SingleWord` | ML_Logic_Complete.py:85 | A non-empty text without whitespace splits into itself alone. |
| `Strings.LowerIdempotent` | ML_Logic_Complete.py:95 | Lower-casing twice equals lower-casing once. |
| `Recency.IsRecentJobPosting` | ML_Logic_Complete.py:91-105 | The loop returns true exactly when the lower-cased text holds "just posted", "new" or "24 hours", or "<i> day" or "<i>d" for some i from 1 to 7. The phrase test alone makes the result true. |
| `Recency.LooksRecentOfLower` | ML_Logic_Complete.py:95 | Classifying text that is already lower-cased gives the same answer. |
| `Recency.RecentPhraseAnywhere` | ML_Logic_Complete.py:98-99 | A text containing "just posted", "new" or "24 hours" is recent, whatever surrounds the phrase. |
| `Recency.DayCountAnywhere` | ML_Logic_Complete.py:101-103 | A text containing "<i> day" or "<i>d" for i from 1 to 7 is recent, whatever surrounds it. |
| `Recency.NoRecentPhraseWithout` | ML_Logic_Complete.py:98 | A text without 'j', 'w' or '2' holds none of the three phrases. |
| `Recency.NoDayCountWithoutDigits` | ML_Logic_Complete.py:101-103 | A text without the digits 1 to 7 holds no day count. |
| `Recency.NotRecentWithout` | ML_Logic_Complete.py:95-105 | A text whose lower-cased form lacks those characters is not recent. |
| `Recency.JustPostedExample` | ML_Logic_Complete.py:98 | "Just Posted 2 days ago" is recent. |
| `Recency.CompactDayExample` | ML_Logic_Complete.py:101-103 | "3d ago, apply now" is recent. |
| `Recency.EightDaysExample` | ML_Logic_Complete.py:101-105 | "8 days ago" is not recent, because 8 is outside the window. |
| `Recency.LastMonthExample` | ML_Logic_Complete.py:98-105 | "Posted last month" is not recent. |
| `Recency.RenewalExample` | ML_Logic_Complete.py:98 | "Contract renewal" is recent, because "renewal" holds "new". This is the heuristic's false positive, kept. |
| `Recency.ElevenDaysExample` | ML_Logic_Complete.py:101-103 | "11 days ago" is recent, because it holds "1 day". This is the heuristic's false positive, kept. |
| `Scraper.ScrapeJobs` | ML_Logic_Complete.py:108-156 | If the driver failed to start, the result is the empty map. Otherwise the key set is exactly the set of keywords, and the map equals the keyword-by-keyword aggregate of accepted URLs. The loops carry this as invariants, including that each entry is `[]` before its search runs. |
| `Scraper.Yielded` | ML_Logic_Complete.py:130 | A search that raises hands the loop a prefix of its results. A search that does not raise hands it all of them. |
| `Scraper.AcceptedUrlsConcat` | ML_Logic_Complete.py:130-143 | The URLs accepted from a run are those of its first part followed by those of the rest, in yielded order. |
| `Scraper.AcceptedUrlsMembers` | ML_Logic_Complete.py:137-141 | A URL is accepted exactly when some candidate with that URL was fetched and its page is relevant and recent. |
| `Scraper.FailedFetchSkipped` | ML_Logic_Complete.py:145-150 | A failed fetch drops only its own URL. The URLs before and after it are judged as if it were absent. |
| `Scraper.SearchFailureKeepsPrefix` | ML_Logic_Complete.py:151-153 | A search that raises after n URLs keeps what those n URLs gave, a prefix of the full search's accepted list. |
| `Scraper.AggregateKeys` | ML_Logic_Complete.py:126-128 | After n keywords, the map's keys are exactly those keywords. |
| `Scraper.AggregateEntry` | ML_Logic_Complete.py:126-143 | A keyword's entry is what its last search accepted. Later keywords leave it alone, and an earlier occurrence is overwritten. |
| `Scraper.ScrapeEntry` | ML_Logic_Complete.py:126-143 | For a keyword listed once, its entry is the accepted URLs of its own search run. |
| `Scraper.AggregateIsolation` | ML_Logic_Complete.py:145-153 | An entry depends only on that keyword's own search runs. Changing any other keyword's search or fetches leaves it unchanged. |
| `Scraper.RepeatedUrlKept` | ML_Logic_Complete.py:141 | Two accepted candidates with the same URL in one search put that URL in the list twice. This holds wherever they sit in the run and whatever their pages were. |
| `Scraper.RejectedRepeatDropped` | ML_Logic_Complete.py:139-150 | When a URL comes back a second time but that fetch fails or its page fails the hiring or recency test, the URL is recorded only once. |
| `Upload.LastSegmentShape` | ML_Logic_Complete.py:167 | `split('.')[-1]` has no '.'. It is a suffix of the name, preceded by a '.' unless it is the whole name. |
| `Upload.LastSegmentAfterDot` | ML_Logic_Complete.py:167 | For a base, a '.', and a dot-free extension, the last segment is that extension. |
| `Upload.ClassifyByExtension` | ML_Logic_Complete.py:167-184 | The lower-cased extension alone picks PDF, DOCX or plain text. |
| `Upload.ClassifyExamples` | ML_Logic_Complete.py:167-184 | "resume.PDF" is a PDF, "cv.final.docx" is a DOCX, and "notes.pdf.txt" is plain text. |
| `Upload.NameWithoutDot` | ML_Logic_Complete.py:167 | A name without '.' is its own last segment. |
| `Upload.BareNameExample` | ML_Logic_Complete.py:167-169 | A file named just "pdf" goes to the PDF decoder. |

## Left out

- spaCy model loading and named-entity recognition are foreign library calls. The loaded-or-not state and the recognised entities are inputs.
- Selenium (driver options, page rendering, `driver.quit()`) and BeautifulSoup text extraction are browser I/O. Each fetch is an input outcome: the page's text, or an error. A timeout, a WebDriver error and any other exception inside the URL loop all become `FetchError`, since the source handles them alike.
- `googlesearch.search` is an external service. Each search is an input run of candidates, with an optional point at which it raises. The `num_results=5` bound is not imposed.
- `time.sleep(random.uniform(2, 5))` is timing and randomness with no functional effect.
- `datetime.now()` in the recency test is unused.
- The FastAPI app, CORS setup, the `Job` model and the `/recommend-jobs` route body are left out. So are the PDF and DOCX decoding and UTF-8 decoding, and the POST to the downstream server with its status mapping. These are HTTP and file I/O. Only the extension dispatch of the route is modelled.
- `print` logging has no behaviour to model.
- Strings.Lower: lower-cases only ASCII letters. Python's `str.lower()` also maps non-ASCII letters, some of them to ASCII ones (the Kelvin sign becomes 'k') or to two characters. A page or résumé relying on such a mapping can match a pattern in the source and not in the model.
- Keywords.ExtractKeywords: the order of the returned keywords is left open, because the source takes it from iterating a Python set, which depends on string hashing. The contract fixes the set of elements and the absence of duplicates.
- The source's `driver.quit()` is not in a `finally`; the model has no browser lifecycle.
