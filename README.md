# bdnex, modelled in Dafny

bdnex tags French comic albums (bandes dessinées) stored as `.cbz`/`.cbr`
archives. It reads the volume number and title out of the file name and asks
the BDGest and BDfugue catalogues for matching albums. It then scores the
candidates, reconciles what several scrapers return, and records each file and
each batch session in a SQLite store. Files can be renamed after a template,
and the resulting library can be browsed, searched and exported. This project
models that core in Dafny and proves what each piece promises.

One Dafny module per source file:

- `Disambiguation`: volume/title extraction from file names, the per-criterion scores, the weighted candidate score and the ranking of candidates.
- `BaseScraper`: the `ScraperResult` record with its defaults, the scraper configuration defaults, ISBN normalisation and result validation.
- `MetadataMerger`: filling missing fields, and the best-confidence, priority and consensus merges.
- `AlbumGrouping`: the weighted similarity between two results and the greedy grouping into albums.
- `PluginManager`: the scraper registry, which loads scrapers in priority order, looks them up by name, searches all of them, keeps the best results, routes detail requests and reports statistics.
- `Patterns` and `Listing`: the heading regexes and the search, year-window and detail-table logic both HTML scrapers share.
- `BdgestScraper` and `BdfugueScraper`: what each scraper makes of an already-parsed page.
- `Database`: the `processed_files` and `processing_sessions` tables as a class holding rows and counters, with the UNIQUE, CHECK and foreign-key constraints.
- `CliSessionManager`: the session commands and the resume decision.
- `BatchWorker`: the retry loop with exponential back-off.
- `BatchProcessor`: the interactive batch bookkeeping.
- `BatchConfig`: the worker clamp, the batch log, its summary and CSV header, and the cache age test.
- `AdvancedBatchProcessor`: the sequential batch run, its low-confidence list and its summary.
- `Renaming`: template parsing, substitution and file-name sanitising.
- `RenameManager`: new names, collision suffixes, backups, dry runs and batches, over a modelled disk.
- `CatalogManager`: the catalogue queries and export row selection, over the joined file/album relation.
- `AsciiCover`: the terminal cover preview and its frame.

`Wrappers`, `Text`, `Values` and `Seqs` give the Python built-ins the core relies on their Python meaning:

- `Option` and the returned-or-raised `Outcome`;
- `str` methods and the regex classes `\s` and `\d`;
- the dynamic scalar values held in dictionaries and columns, with their truthiness;
- filtering, `max` with a key, and Python's stable sort.

Whatever the core takes from outside is a parameter of the model:

- path normalisation;
- page fetching and `urljoin`;
- `json.loads`;
- the fuzzy title ratio;
- the accent stripping of the metadata merger;
- the grey levels PIL produces;
- the clock;
- the metadata resolver the batch worker calls.

Each of these is either a function passed in or a value handed over.

## Model

| member | source | states |
|---|---|---|
| Disambiguation.StripComicExtension | bdnex/lib/disambiguation.py:23 | the result is the name less a final `.cbz`/`.cbr` in any letter case, and four characters shorter exactly when such an extension ends the name |
| Disambiguation.TokenKeyword | bdnex/lib/disambiguation.py:27 | the keyword alternative that matches at a position is one of tome, tom, vol, v, t, # followed by optional whitespace and a digit; none iff no alternative matches there |
| Disambiguation.TokenDigits | bdnex/lib/disambiguation.py:27-34 | the captured group is a non-empty run of digits |
| Disambiguation.FindToken | bdnex/lib/disambiguation.py:31-34 | `re.search` of the marker pattern: the position found matches and no earlier position does; none iff no position matches |
| Disambiguation.FindTokenIs | bdnex/lib/disambiguation.py:31-34 | a marker with none before it is exactly the one the search finds |
| Disambiguation.FindSuffix | bdnex/lib/disambiguation.py:28-34 | the leftmost position where the trailing "digits then keyword at the end" form matches: a position found matches and none before it does; none iff no position matches |
| Disambiguation.FindSuffixIs | bdnex/lib/disambiguation.py:28-34 | a trailing form with none before it is exactly the one the search finds |
| Disambiguation.ExtractVolumeNumber | bdnex/lib/disambiguation.py:16-36 | never below -1, and -1 exactly when neither pattern matches anywhere in the name without its extension (the value otherwise: the two lemmas below) |
| Disambiguation.VolumeFromLeftmostMarker | bdnex/lib/disambiguation.py:23-34 | for any name, the volume is the value of the digits after the leftmost "tome/tom/vol/v/t/#" marker of the name without its extension |
| Disambiguation.VolumeFromTrailingForm | bdnex/lib/disambiguation.py:23-34 | with no marker anywhere, the volume is the value of the digit run of the leftmost "digits then keyword at the end" form |
| Disambiguation.FindCut | bdnex/lib/disambiguation.py:48 | the removal pattern's leftmost match: it matches there and nowhere earlier; none iff it matches nowhere |
| Disambiguation.ExtractTitle | bdnex/lib/disambiguation.py:39-50 | the result has no surrounding whitespace; it is the stripped stem when there is no volume marker, else the stripped text before the first marker |
| Disambiguation.CutIsBeforeToken | bdnex/lib/disambiguation.py:27-48 | the removal pattern's leftmost match starts at the whitespace run in front of the first volume marker |
| Disambiguation.TitleBeforeMarker | bdnex/lib/disambiguation.py:48-50 | cutting at the start of the whitespace in front of the marker or at the marker gives the same stripped title |
| Disambiguation.NoTokenBefore | bdnex/lib/disambiguation.py:27 | no marker starts inside a digit-free text that is followed by a space and a non-digit |
| Disambiguation.StripComicExtensionCbz | bdnex/lib/disambiguation.py:23 | appending `.cbz` and stripping it again gives the name back |
| Disambiguation.FindMarkerAfterTitle | bdnex/lib/disambiguation.py:27-32 | in `<title> T<digits>` with a digit-free title, the first marker is the `T` after the space |
| Disambiguation.VolumeRoundTrip | bdnex/lib/disambiguation.py:16-36 | a name written as `<title> T<n>.cbz` with a digit-free title gives back volume `n` |
| Disambiguation.TitleRoundTrip | bdnex/lib/disambiguation.py:39-50 | a name written as `<title> T<n>.cbz` with a digit-free title gives back the stripped title |
| Disambiguation.CoverScore | bdnex/lib/disambiguation.py:67-75 | in [0, 1]; 0 below 30; 1 from 100 on; between 30 and 100 it is (s - 30) / 70 |
| Disambiguation.CoverScoreMonotone | bdnex/lib/disambiguation.py:67-75 | a higher similarity never lowers the cover score |
| Disambiguation.TitleScore | bdnex/lib/disambiguation.py:78-88 | in [0, 1]; 0.5 when the file title is empty or "unknown"; 0 when only the candidate title is; otherwise the ratio divided by 100 |
| Disambiguation.VolumeScore | bdnex/lib/disambiguation.py:99-109 | 0.5 for a file volume of -1; otherwise 1 iff the volumes are equal and 0 iff they differ |
| Disambiguation.EditorScore | bdnex/lib/disambiguation.py:112-121 | 0.5 for an empty or "unknown" publisher in any case; otherwise 1 iff the lower-cased names are equal and 0 iff they differ |
| Disambiguation.YearScore | bdnex/lib/disambiguation.py:124-135 | 0.5 for -1; within the tolerance of 2 years exactly 1 - 0.15 per year of distance (1, 0.85, 0.7); 0 beyond it; always in [0, 1] |
| Disambiguation.YearScoreMonotone | bdnex/lib/disambiguation.py:130-135 | a year farther away never scores higher |
| Disambiguation.BaseScore | bdnex/lib/disambiguation.py:154-161 | the 40/30/15/15 weighted sum of criteria in [0, 1] stays in [0, 1] |
| Disambiguation.Clamp01 | bdnex/lib/disambiguation.py:169 | the result is in [0, 1] and leaves a value already in [0, 1] unchanged |
| Disambiguation.ScoreCandidate | bdnex/lib/disambiguation.py:138-170 | the candidate score always lies in [0, 1] (the rule itself: ScoreCandidateWeighted) |
| Disambiguation.ScoreCandidateWeighted | bdnex/lib/disambiguation.py:138-169 | for every input: 0.40·cover + 0.30·volume + 0.15·publisher + 0.15·year; with both titles usable, plus 0.2·(title score - 0.5) and clamped to [0, 1], moving the weighted sum by at most 0.1 |
| Disambiguation.PerfectMatchScoresOne | bdnex/lib/disambiguation.py:154-170 | a candidate agreeing on every criterion with a full cover match scores exactly 1 |
| Disambiguation.CoverOnlyScore | bdnex/lib/disambiguation.py:138-170 | with the default arguments and a cover similarity of 100 the score is 0.7 |
| Disambiguation.WrongVolumeCapped | bdnex/lib/disambiguation.py:154-170 | a candidate whose volume is known to differ never scores above 0.8 |
| Disambiguation.ScoreMonotoneInCover | bdnex/lib/disambiguation.py:154-170 | with everything else equal, a better cover similarity never lowers the score |
| Disambiguation.CandidateTitle | bdnex/lib/disambiguation.py:193-197 | the stripped "series title" when it is not empty; otherwise the bare title, or "unknown" when there is none |
| Disambiguation.Scored | bdnex/lib/disambiguation.py:193-205 | the candidate is paired with a score in [0, 1] |
| Disambiguation.ZipScores | bdnex/lib/disambiguation.py:192 | one pair per position both lists reach, so the shorter list decides the count |
| Disambiguation.ScoreCandidates | bdnex/lib/disambiguation.py:173-209 | the result is a permutation of the zipped scored pairs, ordered by score with the highest first, and pairs with equal scores keep their input order (same subsequence at every score level) |
| Disambiguation.ScoreEach | bdnex/lib/disambiguation.py:190-205 | the loop over the zipped lists gives one scored pair per position both lists reach, in input order |
| Disambiguation.RankedByScore | bdnex/lib/disambiguation.py:208 | the stable descending sort by score keeps every pair, puts higher scores first and keeps input order among equal scores |
| MetadataMerger.FillCell | bdnex/lib/scrapers/metadata_merger.py:175-180 | a truthy target value is kept; a falsy one takes the source value when that is truthy and is kept otherwise |
| MetadataMerger.Fill | bdnex/lib/scrapers/metadata_merger.py:166-186 | filling leaves source, url, confidence and timestamp alone and merges `extra` with the source's keys winning |
| MetadataMerger.FillGet | bdnex/lib/scrapers/metadata_merger.py:174-180 | each of the fifteen fields is filled independently by the truthiness rule |
| MetadataMerger.FillMissingFields | bdnex/lib/scrapers/metadata_merger.py:166-186 | the field loop followed by the `extra` update produces exactly the filled result |
| MetadataMerger.FillAll | bdnex/lib/scrapers/metadata_merger.py:75-137 | filling from several sources in turn never changes source, url, confidence or timestamp |
| MetadataMerger.FirstTruthy | bdnex/lib/scrapers/metadata_merger.py:179 | the value found is truthy and among the values; none iff no value is truthy |
| MetadataMerger.FillAllField | bdnex/lib/scrapers/metadata_merger.py:174-180 | a truthy field is never overwritten; a falsy field ends up with the first truthy value the sources hold, in their order, and stays as it was when none has one |
| MetadataMerger.FillAllExtraKeys | bdnex/lib/scrapers/metadata_merger.py:183-186 | after filling, `extra` holds exactly the keys of the target and of every source |
| MetadataMerger.FillAllExtraLast | bdnex/lib/scrapers/metadata_merger.py:186 | a key of `extra` takes the value of the last source that has it |
| MetadataMerger.FillAllExtraKept | bdnex/lib/scrapers/metadata_merger.py:183-186 | a key of the target's `extra` that no source has keeps its value |
| MetadataMerger.CreateMerged | bdnex/lib/scrapers/metadata_merger.py:141-164 | the copy is named "merged_" + the base's source, keeps url, confidence, every field and `extra`, and is stamped with the given time |
| MetadataMerger.PriorityKey | bdnex/lib/scrapers/metadata_merger.py:83-86 | the sort key is the negated priority, 999 for an unmapped source, so a stable descending sort orders by ascending priority |
| MetadataMerger.MergeSortedLoop | bdnex/lib/scrapers/metadata_merger.py:70-78 | copying the head of a sorted list and filling it from the rest in order gives the merge of that list |
| MetadataMerger.MergeByConfidence | bdnex/lib/scrapers/metadata_merger.py:66-78 | the method computes the best-confidence merge |
| MetadataMerger.MergeByPriority | bdnex/lib/scrapers/metadata_merger.py:80-94 | the method computes the priority merge |
| MetadataMerger.ConfidenceMergeProperties | bdnex/lib/scrapers/metadata_merger.py:66-164 | the merge is built on the first result of highest confidence: it has that result's url and confidence, "merged_" + its source, and no result has a higher confidence; a truthy base field is kept and a falsy one takes the first truthy value among the other results in descending confidence; the other results are the input less the base |
| MetadataMerger.PriorityMergeProperties | bdnex/lib/scrapers/metadata_merger.py:80-94 | the base is an input whose priority (999 when unmapped) is smallest; the sorted list ascends in priority; the merge has the base's url and confidence, "merged_" + its source, and fills falsy fields from the others in ascending priority |
| MetadataMerger.PriorityTieKeepsOrder | bdnex/lib/scrapers/metadata_merger.py:86-87 | among inputs of equal priority, the earliest becomes the base |
| MetadataMerger.ConsensusFieldsDistinct | bdnex/lib/scrapers/metadata_merger.py:110 | the five counted fields are distinct |
| MetadataMerger.WellTypedCountable | bdnex/lib/scrapers/metadata_merger.py:110-113 | a result whose fields have the types the dataclass declares has a modelled `str` for every counted field |
| MetadataMerger.Votes | bdnex/lib/scrapers/metadata_merger.py:109-113 | the votes for a field are non-empty strings, one for each truthy value |
| MetadataMerger.TallyOf | bdnex/lib/scrapers/metadata_merger.py:107-113 | the tally has a count for exactly the values that were voted |
| MetadataMerger.AddVoteTallyOf | bdnex/lib/scrapers/metadata_merger.py:113 | adding one vote to the tally of some votes gives the tally of those votes plus that one |
| MetadataMerger.AddVoteCounts | bdnex/lib/scrapers/metadata_merger.py:113 | bumping the count of a vote (from 0 when it is new) gives the counts of the votes with that one added |
| MetadataMerger.WinnerProperties | bdnex/lib/scrapers/metadata_merger.py:118 | the winner is a vote occurring at least as often as every other, and no value first seen before it occurs as often |
| MetadataMerger.AgreementProperties | bdnex/lib/scrapers/metadata_merger.py:117-120 | an agreed value exists exactly when some vote occurs at least `min_agreement` times, and it is then the winner |
| MetadataMerger.ConsensusMap | bdnex/lib/scrapers/metadata_merger.py:116-120 | the consensus dictionary holds exactly the counted fields that have an agreed value, each with that value |
| MetadataMerger.DecideField | bdnex/lib/scrapers/metadata_merger.py:117-120 | an untallied field has no agreed value; the most common vote in a field's tally is agreed iff its count reaches `min_agreement` |
| MetadataMerger.ApplyFields | bdnex/lib/scrapers/metadata_merger.py:131-133 | each agreed field among those named takes its agreed string and every other field is unchanged |
| MetadataMerger.CountVoteTally | bdnex/lib/scrapers/metadata_merger.py:111-113 | counting one value turns the tally of the earlier votes into the tally of those votes plus this one when it is truthy |
| MetadataMerger.CountVotes | bdnex/lib/scrapers/metadata_merger.py:107-113 | after the counting loops, each counted field's tally is the tally of its votes over all the results |
| MetadataMerger.CountResultVotes | bdnex/lib/scrapers/metadata_merger.py:110-113 | the inner loop adds one result's votes for each counted field |
| MetadataMerger.FindConsensus | bdnex/lib/scrapers/metadata_merger.py:116-120 | the second loop builds exactly the consensus dictionary |
| MetadataMerger.DecideStep | bdnex/lib/scrapers/metadata_merger.py:117-120 | one field of the second loop extends the consensus over the fields before it with that field's agreed value, if it has one |
| MetadataMerger.ConsensusMergeCases | bdnex/lib/scrapers/metadata_merger.py:96-139 | too few results, or no agreed field, gives the best-confidence merge; otherwise the agreed values are set on a copy of the most confident result, which is then filled from all results in input order |
| MetadataMerger.MergeByConsensus | bdnex/lib/scrapers/metadata_merger.py:96-139 | the method computes the consensus merge |
| MetadataMerger.ApplyConsensus | bdnex/lib/scrapers/metadata_merger.py:130-133 | the third loop sets each agreed field |
| MetadataMerger.FillFromAll | bdnex/lib/scrapers/metadata_merger.py:135-137 | the last loop fills the copy from every result in input order |
| MetadataMerger.ConsensusMergeProperties | bdnex/lib/scrapers/metadata_merger.py:96-139 | without enough results or agreement the result is the best-confidence merge; otherwise it has the most confident result's url and confidence and "merged_" + its source, each agreed field holds the agreed string, and every other field is the base's when truthy, else the first truthy value among all results in input order |
| MetadataMerger.AgreedNonEmpty | bdnex/lib/scrapers/metadata_merger.py:112-120 | an agreed value is a non-empty string |
| MetadataMerger.MergeResults | bdnex/lib/scrapers/metadata_merger.py:30-64 | `None` iff there are no results; a single result comes back as it is; otherwise "priority" and "consensus" pick those merges and any other name gives the best-confidence merge |
| AlbumGrouping.Ratio | bdnex/lib/scrapers/metadata_merger.py:268 | a credit no larger than a positive total weight gives a ratio in [0, 1] |
| AlbumGrouping.Score | bdnex/lib/scrapers/metadata_merger.py:229-265 | the credit earned is between 0 and the weight of the shared fields |
| AlbumGrouping.Similarity | bdnex/lib/scrapers/metadata_merger.py:227-268 | the similarity lies in [0, 1] |
| AlbumGrouping.SimilarityNoShared | bdnex/lib/scrapers/metadata_merger.py:267-268 | two results that share no field (volume by "not None", the others by truthiness) have similarity 0 |
| AlbumGrouping.TextPartsSymmetric | bdnex/lib/scrapers/metadata_merger.py:232-265 | the series, title and publisher parts do not depend on argument order |
| AlbumGrouping.NumberPartsSymmetric | bdnex/lib/scrapers/metadata_merger.py:238-259 | the volume and year parts do not depend on argument order |
| AlbumGrouping.SimilaritySymmetric | bdnex/lib/scrapers/metadata_merger.py:227-268 | the similarity does not depend on argument order |
| AlbumGrouping.PartsSelf | bdnex/lib/scrapers/metadata_merger.py:232-265 | every field a result shares with itself earns its full weight |
| AlbumGrouping.SimilaritySelf | bdnex/lib/scrapers/metadata_merger.py:227-268 | a result with a title has similarity 1 with itself |
| AlbumGrouping.Best | bdnex/lib/scrapers/metadata_merger.py:209-218 | the group chosen is the earliest whose head gives the largest similarity that is positive and at least the threshold; none when no head qualifies |
| AlbumGrouping.BestNext | bdnex/lib/scrapers/metadata_merger.py:213-218 | looking at one more group replaces the choice exactly when its head's similarity is strictly larger and reaches the threshold |
| AlbumGrouping.Place | bdnex/lib/scrapers/metadata_merger.py:220-223 | placing a result keeps every group non-empty |
| AlbumGrouping.Grouped | bdnex/lib/scrapers/metadata_merger.py:203-225 | every group returned is non-empty |
| AlbumGrouping.GroupByAlbum | bdnex/lib/scrapers/metadata_merger.py:188-225 | the loops compute the grouping |
| AlbumGrouping.PlaceResult | bdnex/lib/scrapers/metadata_merger.py:209-223 | the inner loop and the append place one result as the grouping does |
| AlbumGrouping.PlaceMultiset | bdnex/lib/scrapers/metadata_merger.py:220-223 | placing a result adds exactly that result to the groups |
| AlbumGrouping.GroupedPartition | bdnex/lib/scrapers/metadata_merger.py:203-225 | the groups laid end to end hold exactly the inputs, each once |
| AlbumGrouping.PlaceHeads | bdnex/lib/scrapers/metadata_merger.py:220-223 | placing a result either leaves the heads as they were or adds it as the last head |
| AlbumGrouping.GroupedHeads | bdnex/lib/scrapers/metadata_merger.py:203-225 | group heads appear in input order: they form a subsequence of the inputs |
| PluginManager.Instantiate | bdnex/lib/scrapers/plugin_manager.py:67-71 | a scraper of the class is built with the configuration stored under the class name, `{}` when there is none |
| PluginManager.EnabledOf | bdnex/lib/scrapers/plugin_manager.py:59-77 | only enabled instances are kept, at most one per discovered class |
| PluginManager.PriorityKey | bdnex/lib/scrapers/plugin_manager.py:83 | the key is the negated priority, so a stable descending sort orders by ascending priority |
| PluginManager.LoadedOrder | bdnex/lib/scrapers/plugin_manager.py:73-83 | the loaded scrapers are exactly the enabled instances, each once, in ascending priority |
| PluginManager.LoadedTiesKeepOrder | bdnex/lib/scrapers/plugin_manager.py:83 | scrapers of equal priority keep their discovery order |
| PluginManager.FirstNamed | bdnex/lib/scrapers/plugin_manager.py:101-104 | the scraper found is in the list and has that name, and no earlier one does; none iff no scraper has the name |
| PluginManager.KeyIndex | bdnex/lib/scrapers/plugin_manager.py:150-164 | a key's position in the insertion-ordered dictionary: the first entry holding it, the length when absent |
| PluginManager.Put | bdnex/lib/scrapers/plugin_manager.py:160-164 | `d[k] = v` keeps keys distinct: a present key keeps its place and takes the new value, a new key goes last |
| PluginManager.SearchDict | bdnex/lib/scrapers/plugin_manager.py:157-166 | the dictionary built has distinct keys |
| PluginManager.SearchDictKeys | bdnex/lib/scrapers/plugin_manager.py:157-164 | every scraper's name is a key, mapped to the results of the last scraper with that name (`[]` when it raised) |
| PluginManager.SearchDictOnlyNames | bdnex/lib/scrapers/plugin_manager.py:157-164 | every key is the name of some scraper |
| PluginManager.AtLeast | bdnex/lib/scrapers/plugin_manager.py:197 | the filter keeps exactly the results whose confidence reaches the threshold |
| PluginManager.BestOfProperties | bdnex/lib/scrapers/plugin_manager.py:191-203 | every returned result reaches `min_confidence`, confidences do not increase along the list, and the list is a prefix of all the qualifying results sorted by descending confidence, of length `min(limit, number qualifying)` for a non-negative `limit` |
| PluginManager.BestOfKeepsMostConfident | bdnex/lib/scrapers/plugin_manager.py:196-203 | a qualifying result the limit leaves out is no more confident than any result returned |
| PluginManager.BestOfKeepsAll | bdnex/lib/scrapers/plugin_manager.py:194-203 | when `limit` leaves room for all, every result reaching the threshold is returned |
| PluginManager.DetailsByUrl | bdnex/lib/scrapers/plugin_manager.py:229-239 | the answer of the first scraper named in the url whose `get_details` returns; `None` when no such scraper exists |
| PluginManager.StatsOf | bdnex/lib/scrapers/plugin_manager.py:271-276 | total = enabled + disabled, and one name per scraper |
| PluginManager.KeepConfident | bdnex/lib/scrapers/plugin_manager.py:196-198 | the inner loop appends exactly one scraper's results that reach the threshold |
| PluginManager.SearchEach | bdnex/lib/scrapers/plugin_manager.py:156-164 | the sequential loop builds the search dictionary |
| PluginManager.MergeConfident | bdnex/lib/scrapers/plugin_manager.py:194-198 | the flattening loop yields every result reaching the threshold, in dictionary order |
| PluginManager.PluginManager.constructor | bdnex/lib/scrapers/plugin_manager.py:28-31 | `config or {}`, nothing loaded, no scrapers |
| PluginManager.PluginManager.LoadScrapers | bdnex/lib/scrapers/plugin_manager.py:33-86 | after loading, the scrapers are the enabled instances sorted by priority and the loaded flag is set; a second call changes nothing |
| PluginManager.PluginManager.GetScraper | bdnex/lib/scrapers/plugin_manager.py:91-104 | the first loaded scraper with that name, or `None` |
| PluginManager.PluginManager.SearchAll | bdnex/lib/scrapers/plugin_manager.py:106-166 | loads when needed; every scraper's name maps to what its search returned, or `[]` when it raised |
| PluginManager.PluginManager.SearchBest | bdnex/lib/scrapers/plugin_manager.py:168-203 | the filtered, confidence-sorted and truncated results of `search_all` |
| PluginManager.PluginManager.GetDetails | bdnex/lib/scrapers/plugin_manager.py:205-239 | a non-empty name picks that scraper, `None` when it is unknown or raises; otherwise the first scraper named in the url that does not raise answers |
| PluginManager.PluginManager.ListScrapers | bdnex/lib/scrapers/plugin_manager.py:241-259 | one entry per loaded scraper, in priority order, each enabled |
| PluginManager.PluginManager.GetStats | bdnex/lib/scrapers/plugin_manager.py:261-276 | the counts of the loaded scrapers; every loaded scraper is enabled, so disabled is 0 |
| BaseScraper.Set | bdnex/lib/scrapers/metadata_merger.py:133-180 | `setattr` changes the named field and nothing else |
| BaseScraper.ResultExt | bdnex/lib/scrapers/base_scraper.py:15-47 | two results agreeing on every field and on source, url, confidence, `extra` and timestamp are the same result |
| BaseScraper.NewResult | bdnex/lib/scrapers/base_scraper.py:15-53 | the required fields are as given, every optional field is `None`, an omitted `extra` becomes `{}` and an omitted `retrieved_at` the current time |
| BaseScraper.Configure | bdnex/lib/scrapers/base_scraper.py:91-94 | `config or {}`, then timeout, max_retries and enabled are read from it with defaults 30, 3 and True |
| BaseScraper.DefaultSettings | bdnex/lib/scrapers/base_scraper.py:91-114 | a scraper built without configuration has timeout 30, max_retries 3 and is enabled |
| BaseScraper.NormalizeIsbn | bdnex/lib/scrapers/base_scraper.py:182-189 | `None` for an empty input; otherwise a result iff the input without hyphens and spaces, stripped, is 10 or 13 digits, and the result is that text |
| BaseScraper.IsbnTextDrops | bdnex/lib/scrapers/base_scraper.py:185 | the two `replace` calls and `strip` leave out exactly the hyphens and spaces, then the whitespace at either end |
| BaseScraper.SeparatedIsbnAccepted | bdnex/lib/scrapers/base_scraper.py:182-189 | an ISBN with hyphens or spaces anywhere, such as 978-2-203-00101-1, is accepted as its 10 or 13 digits |
| BaseScraper.NormalizeIsbnFixes | bdnex/lib/scrapers/base_scraper.py:185-188 | ten or thirteen digits come back unchanged |
| BaseScraper.NormalizeIsbnIdempotent | bdnex/lib/scrapers/base_scraper.py:182-189 | normalising a normalised ISBN returns it unchanged |
| BaseScraper.NormalizeIsbnRejects | bdnex/lib/scrapers/base_scraper.py:185-189 | any character that is not a digit, a '-' or whitespace makes the result `None` |
| BaseScraper.IsbnCheckXRejected | bdnex/lib/scrapers/base_scraper.py:187 | an ISBN-10 with check character 'X' is rejected |
| BaseScraper.CheckDigitNotVerified | bdnex/lib/scrapers/base_scraper.py:187-188 | "0000000001" is accepted although its ISBN-10 check digit is wrong |
| BaseScraper.ValidateResult | bdnex/lib/scrapers/base_scraper.py:191-213 | valid iff the title is truthy, the source is non-empty, the confidence is in [0, 100] and the url starts with "http" |
| BaseScraper.ValidateRejects | bdnex/lib/scrapers/base_scraper.py:202-211 | an empty title, a confidence above 100 or a url not starting with "http" each alone makes a result invalid |
| Listing.SearchQuery | bdnex/lib/scrapers/scraper_bdgest.py:46-48 | the query alone when no non-empty series is given, else the series, a space and the query |
| Listing.YearWindow | bdnex/lib/scrapers/scraper_bdgest.py:122-123 | a result is kept iff either year is missing or zero, or the two lie within two years of each other |
| Listing.SeriesCell | bdnex/lib/scrapers/scraper_bdgest.py:103-151 | the series field is `None` iff no series was read, else the series text |
| Listing.VolumeCell | bdnex/lib/scrapers/scraper_bdgest.py:104-152 | the volume field is `None` iff no volume was read, else the number |
| Listing.Listed | bdnex/lib/scrapers/scraper_bdgest.py:69-75 | no more results than items, each with a positive confidence |
| Listing.ListedFrom | bdnex/lib/scrapers/scraper_bdgest.py:69-73 | every listed result is what parsing some item gave |
| Listing.KeptOne | bdnex/lib/scrapers/scraper_bdgest.py:72-73 | a parsed result is appended iff there is one and its confidence is positive |
| Listing.ListedNext | bdnex/lib/scrapers/scraper_bdgest.py:69-73 | one more item appends exactly what that item contributes |
| Listing.ListedKeepsAll | bdnex/lib/scrapers/scraper_bdgest.py:69-73 | when every parsed item has a positive confidence, every parsed item is listed |
| Listing.FirstPassing | bdnex/lib/scrapers/scraper_bdgest.py:207-228 | the chain of label tests yields the key of the first test whose words occur in the label; none iff no test passes |
| Listing.FirstPassingAt | bdnex/lib/scrapers/scraper_bdgest.py:207-228 | the chain read from one test onward is that test's key when it passes, and the rest of the chain otherwise |
| Listing.Apply | bdnex/lib/scrapers/scraper_bdgest.py:208-228 | one `metadata[key] = value` write, or no change |
| Listing.FillNext | bdnex/lib/scrapers/scraper_bdgest.py:199-228 | reading one more row applies exactly that row's write |
| Listing.FillLastWins | bdnex/lib/scrapers/scraper_bdgest.py:199-228 | after the table is read, a key is present iff some row writes it, and it holds what the last such row wrote |
| BdgestScraper.SearchConfidence | bdnex/lib/scrapers/scraper_bdgest.py:137-144 | the confidence is in [70, 100]; it is 100 iff series with volume, year and cover url are all present, and 70 iff none is |
| BdgestScraper.SearchResultOf | bdnex/lib/scrapers/scraper_bdgest.py:84-156 | a result iff the item has an album link and a title and its year is inside the window; the result is from BDGest at the joined url with confidence in [70, 100], title, series and volume from the split heading, year, publisher and cover url as read, and every other field `None` |
| BdgestScraper.ParseSearchResult | bdnex/lib/scrapers/scraper_bdgest.py:84-160 | the step-by-step parse, with the confidence counted up, gives that result |
| BdgestScraper.Search | bdnex/lib/scrapers/scraper_bdgest.py:35-82 | the request for the combined query, then the listing of the first `limit` hits |
| BdgestScraper.KeepHit | bdnex/lib/scrapers/scraper_bdgest.py:70-73 | a hit is appended exactly when it parses to a result of positive confidence |
| BdgestScraper.SearchProperties | bdnex/lib/scrapers/scraper_bdgest.py:44-82 | at most a non-negative `limit` results, each from BDGest with confidence in [70, 100]; a failed request gives []; every hit among the first `limit` with a link, a title and a year inside the window is kept |
| BdgestScraper.RowWrites | bdnex/lib/scrapers/scraper_bdgest.py:203-228 | a row with no matching label writes nothing; otherwise it writes under the first matching key: year and pages only when a 4-digit or digit run is found, the ISBN normalised (possibly `None`), any other key the value text |
| BdgestScraper.DetailsOf | bdnex/lib/scrapers/scraper_bdgest.py:174-260 | a result iff the page has a heading; it is from BDGest with confidence 95, the split heading, every table field as the table left it, the summary, and no cover data |
| BdgestScraper.GetDetails | bdnex/lib/scrapers/scraper_bdgest.py:162-264 | `None` when the request raises, else the details of the fetched page |
| BdgestScraper.DetailsWriterIsLastRow | bdnex/lib/scrapers/scraper_bdgest.py:199-249 | the writer is set iff some row's label is a writer's, and then holds the value of the last such row |
| BdgestScraper.WritesWriter | bdnex/lib/scrapers/scraper_bdgest.py:207-208 | a row writes the writer key iff its label classifies as writer, and it writes the value text |
| Patterns.FirstMatch | bdnex/lib/scrapers/scraper_bdgest.py:107 | `re.search` with a lazy leading group: the match found is at the first end of that group where the rest of the pattern matches on the same line, and no match means no end anywhere is a candidate |
| Patterns.Parse | bdnex/lib/scrapers/scraper_bdgest.py:104-111 | on a match the series and the volume are both read (the volume non-negative); without one the title is the whole heading and neither is read |
| Patterns.FirstYear | bdnex/lib/scrapers/scraper_bdgest.py:117-119 | `int` of the first four-digit run, a number in [0, 9999], or none |
| Patterns.FirstNumber | bdnex/lib/scrapers/scraper_bdgest.py:223-226 | `int` of the first digit run, read whole and non-negative; none iff the text has no digit |
| Patterns.TomeWordSplits | bdnex/lib/scrapers/scraper_bdgest.py:107-111 | "S Tome N - T" (or with `:`) splits into series `S`, volume `N` and title `T` when `S` is one line without the word "tome" and `T` one line |
| Patterns.DashTomeSplits | bdnex/lib/scrapers/scraper_bdfugue.py:108-112 | "S - Tome N - T", with a hyphen or an en dash at either place, splits into `S`, `N` and `T` when `S` holds no dash |
| Patterns.ShortTomeSplits | bdnex/lib/scrapers/scraper_bdfugue.py:115-119 | the fallback pattern splits "S T.N - T" into `S`, `N` and `T` when `S` holds no digit |
| Patterns.ShortTomeNotDashTome | bdnex/lib/scrapers/scraper_bdfugue.py:108-116 | "S T.N - T" with no dash in `S` or `T` does not match the first pattern, so the fallback is the one that reads it |
| Patterns.FourDigitsBound | bdnex/lib/scrapers/scraper_bdgest.py:117-119 | the value of at most four digits is below 10 to the power of their count |
| BdfugueScraper.SplitTitleDashForm | bdnex/lib/scrapers/scraper_bdfugue.py:101-112 | a listing heading "S - Tome N - T" gives series `S`, volume `N` and title `T` |
| BdfugueScraper.SplitTitleShortForm | bdnex/lib/scrapers/scraper_bdfugue.py:113-119 | a listing heading "S T.N - T" without dashes in `S` or `T` falls through to the second pattern, which gives `S`, `N` and `T` |
| BdfugueScraper.ListingConfidence | bdnex/lib/scrapers/scraper_bdfugue.py:162-171 | the confidence is in [60, 100]; 100 iff series with volume, year, cover url and publisher are all present, 60 iff none is |
| BdfugueScraper.ProductResultOf | bdnex/lib/scrapers/scraper_bdfugue.py:84-184 | a result iff the product has a link with a non-empty href and a title and its year is inside the window; from BDfugue at the joined url, confidence in [60, 100], the split heading, writer, publisher, year and cover url as read, every other field `None` |
| BdfugueScraper.ParseProduct | bdnex/lib/scrapers/scraper_bdfugue.py:84-188 | the step-by-step parse gives that result |
| BdfugueScraper.Search | bdnex/lib/scrapers/scraper_bdfugue.py:33-82 | the request for the combined query, then the listing of the first `limit` products |
| BdfugueScraper.SearchProperties | bdnex/lib/scrapers/scraper_bdfugue.py:42-82 | at most a non-negative `limit` results, each from BDfugue with confidence in [60, 100]; a failed request gives []; every product among the first `limit` with a link, a title and a year inside the window is kept |
| BdfugueScraper.FieldWrites | bdnex/lib/scrapers/scraper_bdfugue.py:276-299 | an unmatched label writes nothing; otherwise the first matching key is written: year and pages only when digits are found, the ISBN normalised (possibly `None`), any other key the value text |
| BdfugueScraper.ExtractMetadataField | bdnex/lib/scrapers/scraper_bdfugue.py:276-299 | the dictionary gains or overwrites at most the label's key, and keeps every other key and its value |
| BdfugueScraper.FieldOfSteps | bdnex/lib/scrapers/scraper_bdfugue.py:278-299 | the label is classified by the eight tests in their source order, the first that passes deciding |
| BdfugueScraper.DetailsOf | bdnex/lib/scrapers/scraper_bdfugue.py:202-270 | a result iff the page has a heading; from BDfugue with confidence 90, the heading split by the first pattern (without `Vol`), the table fields as the rows left them, no inker, the summary and the cover url |
| BdfugueScraper.GetDetails | bdnex/lib/scrapers/scraper_bdfugue.py:190-274 | `None` when the request raises, else the details of the fetched page |
| Database.ZeroCounters | bdnex/lib/database.py:121-141 | a new session's five counters are all 0 |
| Database.NewSession | bdnex/lib/database.py:344-381 | a new session is `running`, a status its CHECK admits, started now, not ended, with zero counters |
| Database.StoredScore | bdnex/lib/database.py:290-293 | a number is stored as is up to 1 and divided by 100 above 1, so a score in [0, 100] is stored in [0, 1]; a non-number raises |
| Database.RowOf | bdnex/lib/database.py:296-320 | the inserted row carries the id, the path, the session, the stored confidence, and `status` (default `unknown`), `processing_time_ms` (default 0), title and error from the result |
| Database.Find | bdnex/lib/database.py:217-221 | the row lookup by path finds a row with that path, and none iff no row has it |
| Database.NewestMatching | bdnex/lib/database.py:462-477 | the rows passing every given non-empty filter, each one from the table |
| Database.ProcessedFiles | bdnex/lib/database.py:443-482 | every row returned is from the table and passes the filters; the rows are a prefix of all matching rows newest first, `min(limit, number matching)` of them for a non-negative `limit` and all of them otherwise |
| Database.ProcessedFilesKeepsNewest | bdnex/lib/database.py:477-482 | with ids rising along the table, a matching row the limit leaves out is older than every row returned |
| Database.NewestMatchingComplete | bdnex/lib/database.py:462-477 | every row passing the filters is among the ordered rows |
| Database.ProcessedFilesComplete | bdnex/lib/database.py:443-482 | when the limit does not cut, every row passing the filters is returned |
| Database.NewestMatchingDescending | bdnex/lib/database.py:477 | with ids rising along the table, the ordered rows come in strictly descending id order |
| Database.ProcessedFilesNewestFirst | bdnex/lib/database.py:477 | `get_processed_files` lists newest first, with strictly descending ids |
| Database.FileView | bdnex/lib/database.py:591-603 | a session-file row shows the path, status and album id, and is `processed` iff the status is `success` or `manual` |
| Database.SessionFiles | bdnex/lib/database.py:581-604 | every listed entry shows a row of that session, and there are no more entries than rows |
| Database.SessionFilesComplete | bdnex/lib/database.py:581-604 | every row of the session is listed |
| Database.Marked | bdnex/lib/database.py:606-614 | a row with that exact stored path and session becomes `success`; every other row is unchanged |
| Database.Updated | bdnex/lib/database.py:383-421 | only `status` and the counters given change; directory, pattern, modes, workers and start stay |
| Database.Store.constructor | bdnex/lib/database.py:20-64 | a new database is open and empty |
| Database.Store.IsProcessed | bdnex/lib/database.py:205-222 | true iff some row holds the normalised path, whatever its status; a closed connection raises |
| Database.Store.RecordProcessing | bdnex/lib/database.py:262-342 | a non-number score, an unbindable value or a closed connection raise; an already recorded normalised path returns its existing id with nothing changed; a status the CHECK refuses or an unknown session raise; otherwise one row is appended under a fresh id, which is returned |
| Database.Store.StartSession | bdnex/lib/database.py:344-381 | a new `running` session is added under a fresh id, which is returned, and nothing else changes |
| Database.Store.UpdateSession | bdnex/lib/database.py:383-423 | only the allowed keys are applied and none of them means no change at all; a refused status raises; `completed` also sets the end time |
| Database.Store.GetSessionStats | bdnex/lib/database.py:425-441 | the session's row iff it exists, else the empty answer |
| Database.Store.GetProcessedFiles | bdnex/lib/database.py:443-482 | the filtered, newest-first, limited rows |
| Database.Store.ResumeSession | bdnex/lib/database.py:539-579 | an unknown session raises; otherwise a new `running` session with the original's directory, modes, workers and pattern is added under a fresh id different from the original, which is left unchanged |
| Database.Store.GetSessionFiles | bdnex/lib/database.py:581-604 | the session's rows with their `processed` flag |
| Database.Store.MarkAsProcessed | bdnex/lib/database.py:606-614 | the rows of that session with that exact, unnormalised path become `success`; the table keeps its length |
| Database.Store.Close | bdnex/lib/database.py:616-620 | the connection is closed and the data is unchanged |
| Database.RecordTwice | bdnex/lib/database.py:262-342 | recording a path twice returns the same id both times, and the normalised path then has exactly one row |
| CliSessionManager.Or0 | bdnex/lib/cli_session_manager.py:64-65 | `x or 0`: a truthy value stays, any falsy one becomes 0 |
| CliSessionManager.Pending | bdnex/lib/cli_session_manager.py:207-214 | the selected paths are paths of rows of the table, no more than it has |
| CliSessionManager.PendingNeverStored | bdnex/lib/cli_session_manager.py:207-214 | since the status CHECK of `processed_files` does not admit `pending`, the selection is always empty |
| CliSessionManager.Manager.constructor | bdnex/lib/cli_session_manager.py:18-31 | the manager holds the store, or none when opening it failed |
| CliSessionManager.Manager.ListAllSessions | bdnex/lib/cli_session_manager.py:33-79 | `True` iff the store is there and open and every session row can be printed; an open store without sessions gives `True`; no store gives `False` |
| CliSessionManager.Manager.ShowSessionInfo | bdnex/lib/cli_session_manager.py:81-149 | `True` iff the store is there and open, the session exists and its success rate can be computed; `False` for an unknown id |
| CliSessionManager.Manager.CanResumeSession | bdnex/lib/cli_session_manager.py:151-189 | `True` iff the session exists and is `paused` (a `completed` or any other status gives `False`); the `with` block leaves the store closed, its data unchanged |
| CliSessionManager.Manager.GetUnprocessedFiles | bdnex/lib/cli_session_manager.py:191-218 | a list iff the store was there and open, and that list is empty; the store is closed afterwards |
| CliSessionManager.Manager.HandleCliSessionArgs | bdnex/lib/cli_session_manager.py:220-249 | `--list-sessions` first, then `--session-info`, then `--resume` (`('resume', id)` iff resumable, else `False`), else `None`; no data changes |
| CliSessionManager.ResumeThenList | bdnex/lib/cli_session_manager.py:161-185 | after a resume check, listing the sessions answers `False`, since the check closed the store |
| BatchProcessor.LowOf | bdnex/lib/batch_processor.py:40-45 | the low-confidence results are recorded results, and every recorded result that failed or scored in [0, 0.70) is among them |
| BatchProcessor.Successes | bdnex/lib/batch_processor.py:50 | the successful count is at most the number of results |
| BatchProcessor.FailuresAreLow | bdnex/lib/batch_processor.py:47-95 | the failed files are the total minus the successful ones, and no more than the low-confidence ones, since every failure is low-confidence |
| BatchProcessor.ChallengesFrom | bdnex/lib/batch_processor.py:61-77 | every challenge entry carries the filename, score, candidates and cover path of a result that has a cover path and candidates |
| BatchProcessor.ChallengeList | bdnex/lib/batch_processor.py:68-77 | the loop builds exactly the entries of the challengeable results, in order |
| BatchProcessor.Processor.constructor | bdnex/lib/batch_processor.py:26-38 | a new processor with the given modes and no results |
| BatchProcessor.Processor.AddResult | bdnex/lib/batch_processor.py:40-45 | the result is appended, and appended to the low-confidence list iff it failed or scored in [0, 0.70); the two lists stay in step |
| BatchProcessor.Processor.GetStatistics | bdnex/lib/batch_processor.py:47-59 | total, successful, failed = total - successful, the low-confidence count, and the success rate in [0, 100], 0 for no results; failed <= low-confidence <= total |
| BatchProcessor.Processor.GetLowConfidenceResults | bdnex/lib/batch_processor.py:61-77 | the entries of the challengeable low-confidence results, in order, each naming a recorded result |
| BatchProcessor.LowIsSubsequence | bdnex/lib/batch_processor.py:40-45 | the low-confidence results are the recorded results with some left out, in the same order |
| BatchWorker.Backoff | bdnex/lib/batch_worker.py:55-59 | one wait per failed attempt before the last, the wait after attempt `i` being `2 ** i` seconds |
| BatchWorker.BackoffTotal | bdnex/lib/batch_worker.py:55-59 | the waits after `k` failed attempts add up to `2 ** k - 1` seconds |
| BatchWorker.AsRecord | bdnex/lib/batch_worker.py:42-50 | a returned result becomes the dictionary of its filename, success, score, title, error and metadata, and nothing else |
| BatchWorker.Failed | bdnex/lib/batch_worker.py:62-76 | a failure dictionary: the filename, not successful, score 0, title `Unknown` and the error |
| BatchWorker.GaveUpMessage | bdnex/lib/batch_worker.py:67 | the final error starts with "Erreur après " and ends with the last exception's text |
| BatchWorker.FirstReturnedFrom | bdnex/lib/batch_worker.py:31-52 | the first attempt from `i` on whose call returns, none iff every one of them raises |
| BatchWorker.ProcessSingleFile | bdnex/lib/batch_worker.py:11-76 | the first attempt that returns gives the result after the back-off waits of the failed ones; if all `max_retries` attempts raise, the last exception is reported after the waits of all but the last; with no attempt at all, "Erreur inconnue" and no wait |
| BatchWorker.AllFailedWait | bdnex/lib/batch_worker.py:31-68 | when every attempt fails, the last attempt raised and the file waited `2 ** (max_retries - 1) - 1` seconds in all |
| BatchConfig.ClampWorkers | bdnex/lib/batch_config.py:29 | the worker count is in [1, 8]: kept when inside, 1 below, 8 above |
| BatchConfig.Stamped | bdnex/lib/batch_config.py:58-61 | every key of the result is kept with its value, and `timestamp` is set to the time of the call |
| BatchConfig.Config.constructor | bdnex/lib/batch_config.py:15-54 | the modes as given, the clamped worker count, and an empty log |
| BatchConfig.Config.AddResult | bdnex/lib/batch_config.py:56-62 | the stamped result goes at the end of the log |
| BatchConfig.LessThan | bdnex/lib/batch_config.py:74 | `v < bound` compares iff `v` is a number, and then gives the numeric comparison |
| BatchConfig.CountSucceeded | bdnex/lib/batch_config.py:72 | the successful count is at most the number of results |
| BatchConfig.CountFailed | bdnex/lib/batch_config.py:73 | the failed count is at most the number of results |
| BatchConfig.CountLow | bdnex/lib/batch_config.py:74 | when every score compares, the low-confidence count is at most the number of results |
| BatchConfig.JsonSummary | bdnex/lib/batch_config.py:64-83 | the summary is written iff counting the low scores does not raise, with `total_files` the number of results |
| BatchConfig.SucceededPlusFailed | bdnex/lib/batch_config.py:72-73 | every result counts once, as a success or as a failure |
| BatchConfig.SummaryWritten | bdnex/lib/batch_config.py:64-83 | when every score is a number or missing, the summary is written and successful plus failed is the total |
| BatchConfig.WorkerScoresCompare | bdnex/lib/batch_worker.py:42-76 | the worker's dictionaries, stamped, always have a number as their score |
| BatchConfig.KeysOf | bdnex/lib/batch_config.py:94-96 | a name is a column iff some result has that key |
| BatchConfig.Sorted | bdnex/lib/batch_config.py:97 | the column names in strictly ascending order, each exactly once |
| BatchConfig.CsvHeader | bdnex/lib/batch_config.py:85-106 | no CSV for an empty log; otherwise the header is the sorted union of the result keys |
| BatchConfig.GetCache | bdnex/lib/batch_config.py:112-150 | the cache iff the file exists, is at most 24 hours old and reads; then its contents |
| AdvancedBatchProcessor.Collected | bdnex/lib/advanced_batch_processor.py:129-151 | at most one result per file |
| AdvancedBatchProcessor.CollectedAll | bdnex/lib/advanced_batch_processor.py:129-151 | without an interrupt, every file whose call finished contributes its result, and every result collected is some file's finished call |
| AdvancedBatchProcessor.InterruptStops | bdnex/lib/advanced_batch_processor.py:145-147 | the interrupted file adds nothing |
| AdvancedBatchProcessor.StoppedAfter | bdnex/lib/advanced_batch_processor.py:145-147 | once the run is interrupted at a file, no later file is collected |
| AdvancedBatchProcessor.StampedFrom | bdnex/lib/advanced_batch_processor.py:139 | one log entry per result, each the result stamped with the time it was added |
| AdvancedBatchProcessor.RunSequential | bdnex/lib/advanced_batch_processor.py:129-151 | the loop returns the collected results and appends each, stamped, to the batch log |
| AdvancedBatchProcessor.Processor.constructor | bdnex/lib/advanced_batch_processor.py:22-48 | a fresh configuration with the modes, the clamped worker count and an empty log |
| AdvancedBatchProcessor.Processor.ProcessFilesSequential | bdnex/lib/advanced_batch_processor.py:106-151 | the collected results, no more than the files, each also appended stamped to the log |
| AdvancedBatchProcessor.IsLow | bdnex/lib/advanced_batch_processor.py:165 | a failure is low without looking at its score; a success is low iff its score (1 when missing) is below 0.70, and a score that does not compare raises |
| AdvancedBatchProcessor.LowFiles | bdnex/lib/advanced_batch_processor.py:153-168 | when no comparison raises, at most one filename per result |
| AdvancedBatchProcessor.GetLowConfidenceFiles | bdnex/lib/advanced_batch_processor.py:153-168 | the loop gives the low filenames in order, or the first exception |
| AdvancedBatchProcessor.LowFilesNext | bdnex/lib/advanced_batch_processor.py:164-166 | one more result either raises or appends its filename iff it is low |
| AdvancedBatchProcessor.LowFilesRaisedStays | bdnex/lib/advanced_batch_processor.py:164-166 | once a comparison raised, the whole call raises that exception |
| AdvancedBatchProcessor.FailuresListed | bdnex/lib/advanced_batch_processor.py:165 | every failure is listed, so there are at least as many low files as failures |
| AdvancedBatchProcessor.LowFilesOfComparable | bdnex/lib/advanced_batch_processor.py:153-168 | when every score is a number or missing, the list is produced |
| AdvancedBatchProcessor.SummaryOf | bdnex/lib/advanced_batch_processor.py:177-182 | the counts exist iff listing the low files does not raise; total, successful, failed = total - successful, and a rate of 0 for no results |
| AdvancedBatchProcessor.SummaryCounts | bdnex/lib/advanced_batch_processor.py:177-182 | the failed count is the results that did not succeed, no more than the low-confidence count, and the rate lies in [0, 100] |
| AdvancedBatchProcessor.LowSectionAsWritten | bdnex/lib/advanced_batch_processor.py:204-209 | the section returns iff no file is low-confidence; otherwise slicing the count raises |
| AdvancedBatchProcessor.LowSection | bdnex/lib/advanced_batch_processor.py:204-209 | the intended section shows at most the first ten low-confidence filenames, all of them when there are ten or fewer |
| AdvancedBatchProcessor.FailureBreaksSummary | bdnex/lib/advanced_batch_processor.py:180-213 | one failed file makes the section as written raise, while the intended one shows at least one file |
| Renaming.Tokens | bdnex/lib/renaming.py:40-55 | every token found is a percent sign followed by ASCII letters |
| Renaming.TokensAfterText | bdnex/lib/renaming.py:55 | text without a percent sign adds no token before the tokens of what follows |
| Renaming.TokensOfToken | bdnex/lib/renaming.py:55 | a token not followed by a letter is found whole, then the search goes on after it |
| Renaming.NoneInvalid | bdnex/lib/renaming.py:58-59 | no token is invalid iff every token is one of the eight variables |
| Renaming.Parse | bdnex/lib/renaming.py:42-62 | returns the tokens in order iff every one is a valid variable, and raises `ValueError` with the message's prefix otherwise |
| Renaming.Validate | bdnex/lib/renaming.py:64-78 | `True` iff every token is a valid variable |
| Renaming.PlainTemplateValid | bdnex/lib/renaming.py:42-62 | a template without a percent sign uses no variable and parses to [] |
| Renaming.LeadingVariable | bdnex/lib/renaming.py:42-78 | a template starting with a valid variable is valid iff what follows is |
| Renaming.PyInt | bdnex/lib/renaming.py:115 | `int` keeps an integer and truncates a non-negative float to its floor |
| Renaming.NumberPadded | bdnex/lib/renaming.py:114-115 | a volume number is written with at least two digits that read back as the number, "0" then the digit below 10 |
| Renaming.DropTrailingDash | bdnex/lib/renaming.py:152 | removing a final dash keeps a prefix of the text |
| Renaming.DropLeadingDash | bdnex/lib/renaming.py:153 | removing a leading dash keeps a suffix of the text |
| Renaming.TidySingleSpaced | bdnex/lib/renaming.py:151-153 | after the clean-up the only whitespace left is single spaces |
| Renaming.CleanEmptyVariable | bdnex/lib/renaming.py:124-155 | the eight separator patterns removed in order, then whitespace collapsed and end dashes dropped; the result is single-spaced (what is removed: the lemmas below) |
| Renaming.CleanEmptyRemovesVariable | bdnex/lib/renaming.py:124-155 | in a text whose every percent sign begins the variable, cleaning leaves no occurrence of the variable and no percent sign |
| Renaming.CleanEmptyTrailing | bdnex/lib/renaming.py:136-155 | `"<text> - %Var"` is cleaned to the text, the " - " going with the variable |
| Renaming.CleanEmptyAfterSpace | bdnex/lib/renaming.py:136-155 | `"<text> %Var"` is cleaned to the text: only the space goes, whatever precedes it |
| Renaming.Substituted | bdnex/lib/renaming.py:84-122 | the substituted name neither starts nor ends with whitespace (replacement and removal: VariableReplaced, EmptyVariableDropped, EmptyVariableAfterSpace) |
| Renaming.Substitute | bdnex/lib/renaming.py:95-122 | the loop over the variable table, in its order, gives the name `Substituted` describes |
| Renaming.PlainTemplateSubstituted | bdnex/lib/renaming.py:95-122 | a template without a variable is only stripped |
| Renaming.VariableReplaced | bdnex/lib/renaming.py:109-116 | a variable with a truthy value is replaced by its text (the `Writer` for `%Author`, two digits for a `Number`) and the rest of the template is kept, then stripped |
| Renaming.EmptyVariableDropped | bdnex/lib/renaming.py:109-121 | a missing or falsy variable after " - " is removed with it: the tidied text before it, stripped, is the name |
| Renaming.EmptyVariableAfterSpace | bdnex/lib/renaming.py:109-121 | a missing or falsy variable after a space takes only that space: the tidied text before it, stripped, is the name |
| Renaming.TomeWithoutNumber | bdnex/lib/renaming.py:109-121 | `"Series - Tome %Number"` without a number gives `"Series - Tome"`, not `"Series"` as the comment at lines 119-120 says |
| Renaming.ReplaceInvalid | bdnex/lib/renaming.py:161-179 | with a replacement free of invalid characters, none is left |
| Renaming.RFind | bdnex/lib/renaming.py:185 | the position of the last occurrence, or -1 when there is none |
| Renaming.SplitExt | bdnex/lib/renaming.py:185-238 | the stem and extension put back together give the path; the extension is empty or a dot followed by neither a dot nor a slash |
| Renaming.FittedStem | bdnex/lib/renaming.py:188-191 | the stem, cut from its start, fits with the extension in 255 characters when the extension itself does |
| Renaming.Finished | bdnex/lib/renaming.py:185-194 | the final stage (trailing dots of the stem dropped, stem cut to fit 255 characters with the extension, whole stripped) fits 255 characters when the extension does, with no whitespace at either end |
| Renaming.FinishedNoInvalid | bdnex/lib/renaming.py:185-194 | the final stage adds no invalid character |
| Renaming.FinishedSingleSpaced | bdnex/lib/renaming.py:185-194 | the final stage keeps a single-spaced name single-spaced |
| Renaming.FinishedKeepsExtension | bdnex/lib/renaming.py:185-194 | the extension, when it ends in a non-space, still ends the name after the final stage |
| Renaming.Sanitize | bdnex/lib/renaming.py:164-194 | the sanitized name has no whitespace at either end |
| Renaming.SanitizeLength | bdnex/lib/renaming.py:184-194 | the sanitized name is at most 255 characters long whenever its extension is |
| Renaming.SanitizeNoInvalid | bdnex/lib/renaming.py:161-194 | with a replacement free of invalid characters, the sanitized name has none |
| Renaming.SanitizeSingleSpaced | bdnex/lib/renaming.py:181-194 | the sanitized name has no whitespace but single spaces |
| Renaming.SanitizeKeepsExtension | bdnex/lib/renaming.py:185-194 | the extension found ends the sanitized name, unless it ends in whitespace |
| RenameManager.Disk.constructor | bdnex/lib/renaming.py:267-284 | the file system holds the given paths |
| RenameManager.Dir | bdnex/lib/renaming.py:274 | the directory part is a prefix of the path, empty or ending in `/` |
| RenameManager.Name | bdnex/lib/renaming.py:274-295 | the name part is what follows the directory part |
| RenameManager.DirOfChild | bdnex/lib/renaming.py:274 | a name without `/` put in a directory has that directory and that name |
| RenameManager.BackupPath | bdnex/lib/renaming.py:295 | the backup `.backup_<name>` next to the file is never the file itself |
| RenameManager.NewFilename | bdnex/lib/renaming.py:214-244 | raises "Template invalide: " and the template iff a token is not a valid variable; otherwise a name without invalid characters, `/` or runs of whitespace |
| RenameManager.PlainNewFilename | bdnex/lib/renaming.py:230-244 | a template without variables gives itself stripped, with the file's extension, sanitized |
| RenameManager.NumberedInjective | bdnex/lib/renaming.py:285 | different counters give different names |
| RenameManager.NumberedNoSlash | bdnex/lib/renaming.py:285 | a numbered name built from a name and an extension without a slash has none, so it stays in the same directory |
| RenameManager.Tried | bdnex/lib/renaming.py:282-287 | every counter below `c` has been tried |
| RenameManager.NotTried | bdnex/lib/renaming.py:282-287 | the candidate with counter `c` is not among those tried before it |
| RenameManager.TriedGrows | bdnex/lib/renaming.py:284-287 | a taken candidate leaves fewer files untried, so the loop ends |
| RenameManager.FirstFree | bdnex/lib/renaming.py:282-287 | the smallest counter from `c` on whose path is free: every counter before it is taken |
| RenameManager.FirstFreeIs | bdnex/lib/renaming.py:282-287 | the first free counter is the unique one before which every candidate is taken |
| RenameManager.Destination | bdnex/lib/renaming.py:274-287 | outside a dry run the target is a path that is not a file, in the file's own directory |
| RenameManager.Renamed | bdnex/lib/renaming.py:273-316 | the reply always names the original path; in a dry run no file changes |
| RenameManager.Committed | bdnex/lib/renaming.py:293-316 | a reported success names the destination; a failed backup copy or a failed rename reports failure |
| RenameManager.RenameOutcome | bdnex/lib/renaming.py:246-316 | raises iff the file is missing or the template invalid, and then nothing changes; any reply names the original path; a dry run changes no file |
| RenameManager.SameDirectory | bdnex/lib/renaming.py:274-286 | the renamed file, numbered or not, stays in the directory it came from |
| RenameManager.RenameNeverOverwrites | bdnex/lib/renaming.py:280-309 | a successful rename moves the file to its free destination: one path leaves, one arrives, the count of files is unchanged |
| RenameManager.Manager.constructor | bdnex/lib/renaming.py:200-212 | the backup and dry-run flags as given |
| RenameManager.Manager.GenerateNewFilename | bdnex/lib/renaming.py:214-244 | the new name, raising iff the template is invalid |
| RenameManager.Manager.RenameFile | bdnex/lib/renaming.py:246-316 | the reply or exception and the new file set are those of the rename outcome |
| RenameManager.Manager.Move | bdnex/lib/renaming.py:273-316 | the rest of the rename once the name is known |
| RenameManager.Manager.Commit | bdnex/lib/renaming.py:293-316 | the backup, rename, clean-up or restore steps leave the files as the committed outcome says |
| RenameManager.Manager.RenameBatch | bdnex/lib/renaming.py:318-338 | one reply per file, in order, each naming its file; each file is renamed on what the previous ones left |
| RenameManager.NextFree | bdnex/lib/renaming.py:281-287 | the collision loop ends at the path with the first free counter |
| RenameManager.ReplyOf | bdnex/lib/renaming.py:332-336 | a returned reply is kept; an exception becomes a failed reply for that file |
| RenameManager.BatchOutcome | bdnex/lib/renaming.py:318-338 | as many replies as files, each naming its file |
| RenameManager.BatchOutcomeNext | bdnex/lib/renaming.py:331-336 | one more file adds its reply, computed on the files the previous ones left |
| RenameManager.DryRunBatch | bdnex/lib/renaming.py:289-338 | a dry run of a whole batch leaves the files as they were |
| CatalogManager.JoinedTo | bdnex/lib/catalog_manager.py:46-47 | the joined rows of a file are exactly its pairs with the albums whose id it references |
| CatalogManager.Catalog | bdnex/lib/catalog_manager.py:46-48 | a joined row is in the catalog iff its file is `success` or `manual` and references its album |
| CatalogManager.Names | bdnex/lib/catalog_manager.py:44-54 | the group names are ascending and are exactly the non-empty values of the column in the join |
| CatalogManager.CountPositive | bdnex/lib/catalog_manager.py:45-51 | every group counts at least one row |
| CatalogManager.GroupOrderTotal | bdnex/lib/catalog_manager.py:52 | count descending, then name ascending, is a total preorder |
| CatalogManager.Groups | bdnex/lib/catalog_manager.py:51 | one group per name |
| CatalogManager.GroupsFacts | bdnex/lib/catalog_manager.py:45-51 | the groups are distinct and are exactly each name with its count |
| CatalogManager.Ranking | bdnex/lib/catalog_manager.py:52 | one ranked group per name |
| CatalogManager.RankingFacts | bdnex/lib/catalog_manager.py:45-52 | each group once, by count descending and then by name ascending |
| CatalogManager.ListBy | bdnex/lib/catalog_manager.py:34-86 | a prefix of the ranking, `min(limit, number of groups)` groups for a non-negative `limit` and all of them otherwise |
| CatalogManager.ListByRanked | bdnex/lib/catalog_manager.py:34-86 | every listed group is a name of the join with its count, at least 1, in count-descending then name-ascending order |
| CatalogManager.ListByTop | bdnex/lib/catalog_manager.py:53-80 | a group cut by the limit ranks after every group listed |
| CatalogManager.ListByComplete | bdnex/lib/catalog_manager.py:53-80 | without a binding limit every group is listed |
| CatalogManager.InsertDescDescending | bdnex/lib/catalog_manager.py:106 | inserting a year keeps the list strictly descending |
| CatalogManager.Years | bdnex/lib/catalog_manager.py:99-106 | the distinct positive years of the join, strictly descending |
| CatalogManager.ListByYear | bdnex/lib/catalog_manager.py:88-113 | years strictly descending, each a year of the join with its count; a prefix of all the years with their counts, `min(limit, number of years)` rows for a non-negative `limit` |
| CatalogManager.ListByYearMostRecent | bdnex/lib/catalog_manager.py:98-107 | a year of the join the limit leaves out is older than every year listed |
| CatalogManager.ListByYearCounts | bdnex/lib/catalog_manager.py:88-113 | every listed year has an album, and without a binding limit every year is listed |
| CatalogManager.YearCountPositive | bdnex/lib/catalog_manager.py:88-113 | a year some joined album carries is counted at least once |
| CatalogManager.StatsOf | bdnex/lib/catalog_manager.py:191-261 | min <= max, both 0 together; "N/A" iff there is no year, else "min-max"; at most five top series and publishers, each a prefix of its ranking |
| CatalogManager.GetStats | bdnex/lib/catalog_manager.py:198-204 | the album total counts every `success` or `manual` file, whether or not it references an album |
| CatalogManager.YearsSpan | bdnex/lib/catalog_manager.py:233-240 | the least and greatest positive years bound every year of the join and are years of it; 0 iff there is none |
| CatalogManager.StatsYears | bdnex/lib/catalog_manager.py:233-256 | the year range spans exactly the positive years of the join |
| CatalogManager.StatsDistinct | bdnex/lib/catalog_manager.py:209-231 | the series and publisher totals count each non-empty value once |
| CatalogManager.Fold | bdnex/lib/catalog_manager.py:143-146 | `LIKE` folds the ASCII capitals and leaves every other character |
| CatalogManager.LikeAnything | bdnex/lib/catalog_manager.py:143-146 | `%` matches any text |
| CatalogManager.LikeStartsWith | bdnex/lib/catalog_manager.py:143-146 | for a pattern without wildcards, `q%` is a case-insensitive prefix test |
| CatalogManager.LikeContains | bdnex/lib/catalog_manager.py:143-152 | for a query without wildcards, `%q%` is a case-insensitive substring test |
| CatalogManager.ShelfOrderTotal | bdnex/lib/catalog_manager.py:160 | series then volume, NULL first, is a total preorder |
| CatalogManager.Found | bdnex/lib/catalog_manager.py:129-162 | each row from the join and kept by the pattern and the truthy filters; a prefix of all matching rows sorted by series and then volume, `min(limit, number matching)` of them for a non-negative `limit` |
| CatalogManager.FoundFirstOnShelf | bdnex/lib/catalog_manager.py:129-162 | a matching row the limit leaves out comes, by series and then volume, after every row found |
| CatalogManager.FoundOrderedComplete | bdnex/lib/catalog_manager.py:142-162 | the rows come by series then volume, and without a binding limit every matching row is found |
| CatalogManager.FoundContains | bdnex/lib/catalog_manager.py:143-152 | a query without wildcards finds rows whose title, series or metadata contains it, ignoring ASCII case |
| CatalogManager.Metadata | bdnex/lib/catalog_manager.py:169-175 | `{}` for NULL, empty or unparsable text; the object's entries when it parses to one; `AttributeError` iff it parses to anything else |
| CatalogManager.Each | bdnex/lib/catalog_manager.py:165-189 | one dictionary per row in order iff no row's metadata raises, else `AttributeError` |
| CatalogManager.HitOf | bdnex/lib/catalog_manager.py:176-187 | the hit shows the path and the album's columns; a missing writer or penciller is `N/A` |
| CatalogManager.Search | bdnex/lib/catalog_manager.py:115-189 | one hit per found row, in order, unless some row's metadata raises |
| CatalogManager.Exported | bdnex/lib/catalog_manager.py:280-307 | as many rows as the filters keep |
| CatalogManager.ExportedRows | bdnex/lib/catalog_manager.py:290-307 | exactly the rows every truthy filter accepts, ordered by series then volume |
| CatalogManager.ExportAllUnfiltered | bdnex/lib/catalog_manager.py:293-305 | without a truthy filter every row of the join is exported |
| CatalogManager.EntryOr | bdnex/lib/catalog_manager.py:335-340 | a metadata entry, or `''` when absent |
| CatalogManager.CsvRecord | bdnex/lib/catalog_manager.py:328-341 | the album's columns; writer, penciller and format from the metadata, `''` when absent |
| CatalogManager.JsonRecord | bdnex/lib/catalog_manager.py:407-422 | the CSV entries plus the summary, `''` when absent |
| CatalogManager.ExportCsv | bdnex/lib/catalog_manager.py:263-346 | raises iff some exported row's metadata raises; otherwise the i-th CSV row is the record of the i-th exported row with its metadata, and the count is their number |
| CatalogManager.ExportJson | bdnex/lib/catalog_manager.py:348-433 | raises iff some exported row's metadata raises; otherwise the i-th album is the record of the i-th exported row with its metadata, and the total and count are their number |
| AsciiCover.CharSet | bdnex/lib/ascii_cover.py:41-46 | "detailed" and "simple" pick their sets, any other name the blocks; every set has at least five characters and ends with a space |
| AsciiCover.CharIndex | bdnex/lib/ascii_cover.py:88 | the index is inside the set: black gives the first character, white the last |
| AsciiCover.CharIndexMonotone | bdnex/lib/ascii_cover.py:88 | a brighter pixel never gets an earlier (darker) character |
| AsciiCover.Glyphs | bdnex/lib/ascii_cover.py:86-89 | one character per pixel |
| AsciiCover.Rows | bdnex/lib/ascii_cover.py:86-93 | one line break per full row, after the characters |
| AsciiCover.Rendered | bdnex/lib/ascii_cover.py:86-93 | the text holds one character per pixel plus one line break per full row |
| AsciiCover.RowsPrefix | bdnex/lib/ascii_cover.py:86-93 | the layout of the first pixels is a prefix of the whole layout |
| AsciiCover.RowsAt | bdnex/lib/ascii_cover.py:89-93 | character `i` sits at `i + i / w`, and the last of each row is followed by a line break |
| AsciiCover.RenderedAt | bdnex/lib/ascii_cover.py:86-93 | pixel `i`'s character is at `i + i / w`, and a row's last pixel is followed by a line break |
| AsciiCover.PixelsToAscii | bdnex/lib/ascii_cover.py:84-93 | the loop builds the rendered text |
| AsciiCover.Edge | bdnex/lib/ascii_cover.py:109-116 | an edge is `width` rules (none for a negative width) between two corners, with no line break |
| AsciiCover.Framed | bdnex/lib/ascii_cover.py:113 | a framed line is two characters wider and has no line break when the line has none |
| AsciiCover.LinesSnoc | bdnex/lib/ascii_cover.py:112-113 | one more line adds that line and a line break |
| AsciiCover.SplitLines | bdnex/lib/ascii_cover.py:106-116 | lines without breaks, each followed by a break, split back into themselves and a final empty part |
| AsciiCover.BoxOf | bdnex/lib/ascii_cover.py:104-118 | the box has the art's lines plus the two edges |
| AsciiCover.Box | bdnex/lib/ascii_cover.py:108-118 | the loop builds the top edge, each framed line and the bottom edge, each followed by a line break |
| AsciiCover.AddBorder | bdnex/lib/ascii_cover.py:104-118 | `_add_border` gives the box around the stripped art's lines |
| AsciiCover.BoxNoBreak | bdnex/lib/ascii_cover.py:104-118 | around lines without breaks no box line has a break |
| AsciiCover.BoxSplit | bdnex/lib/ascii_cover.py:104-118 | the bordered text splits back into the box's lines and a final empty part |
| AsciiCover.BoxEven | bdnex/lib/ascii_cover.py:104-118 | when every line is `width` wide, every box line is `width + 2` wide |
| AsciiCover.BorderedLines | bdnex/lib/ascii_cover.py:104-118 | the bordered art splits back into the top edge, the framed lines of the stripped art and the bottom edge |
| AsciiCover.BorderedEven | bdnex/lib/ascii_cover.py:104-118 | when every line of the art is `width` wide, every line of the border is `width + 2` wide |
| AsciiCover.Trunc | bdnex/lib/ascii_cover.py:70-73 | `int` truncates toward zero |
| AsciiCover.Dimensions | bdnex/lib/ascii_cover.py:65-77 | a zero image width raises; the height never exceeds the limit; below it the width is the full width |
| AsciiCover.AsciiOf | bdnex/lib/ascii_cover.py:48-102 | `None` without PIL or when the image cannot be read |
| AsciiCover.AsciiOfRows | bdnex/lib/ascii_cover.py:63-98 | with a usable size and no border, the art is the rendered pixels of the resized image |
| AsciiCover.PreviewText | bdnex/lib/ascii_cover.py:148-158 | "not available" text without art; the art alone without a title; otherwise a centred, cut title line above the art |
| AsciiCover.Generator.constructor | bdnex/lib/ascii_cover.py:28-46 | the size as given and the chosen character set |
| AsciiCover.Generator.ImageToAscii | bdnex/lib/ascii_cover.py:48-102 | the art at the generator's current size |
| AsciiCover.Generator.GeneratePreview | bdnex/lib/ascii_cover.py:120-158 | the preview of the art made at the preview's size, with the generator's own size restored |
| AsciiCover.Padding | bdnex/lib/ascii_cover.py:176-189 | `height // 2 - 2` blank lines, none when that is not positive |
| AsciiCover.PlaceholderInner | bdnex/lib/ascii_cover.py:175-190 | the padding, the two centred words and the padding again |
| AsciiCover.PlaceholderBox | bdnex/lib/ascii_cover.py:172-192 | the lines the two loops append, in order, are the box around the inner text |
| AsciiCover.GetSimplePlaceholder | bdnex/lib/ascii_cover.py:160-194 | the placeholder is those lines joined by line breaks |
| AsciiCover.CenterNoBreak | bdnex/lib/ascii_cover.py:181-185 | centring pads with spaces only, to exactly `width` when the word fits |
| AsciiCover.SplitJoin | bdnex/lib/ascii_cover.py:194 | parts joined on a separator none contains split back into those parts |
| AsciiCover.PlaceholderInnerLines | bdnex/lib/ascii_cover.py:175-190 | the inner text has no break and is `width` wide when both words fit |
| AsciiCover.PlaceholderShape | bdnex/lib/ascii_cover.py:160-194 | the placeholder splits back into its lines, `4 + 2 * padding` of them, each `width + 2` wide when both words fit |

## Left out

- Connection setup, PRAGMAs and the schema script of `bdnex/lib/database.py`: these are storage plumbing. The tables are modelled as a class holding rows and counters, with the schema's constraints enforced by its methods.
- Database.Store.constructor models a freshly created, empty database only; opening a file that already holds rows is not modelled. `Database.Store.RecordProcessing` takes `session_id` as an integer, so the `None` the column accepts (bdnex/lib/database.py:114) cannot be passed.
- `get_statistics` and `get_file_hash` of `bdnex/lib/database.py`. The first depends on `datetime.now()` windows and the second reads and hashes a file; hashes and file sizes are inputs.
- SQLite's type affinity (a text score stored as a number, and the like): values are stored as given.
- `__enter__` is modelled only through its effect, and `__exit__` only through the `close()` it performs.
- Path normalisation (`_normalize_file_path`) depends on OS path APIs, so it is a parameter. Windows `normcase` and drive handling are therefore not modelled.
- `RenameManager`: `os.path.splitext` is modelled for `/`-separated paths only, and Windows separators are not modelled.
- Everything printed or logged: `print_summary`, the `print` calls of the session commands, and `logging` in general. What these functions return is modelled, and so are the counts `print_summary` shows.
- Parallel execution is not modelled: the multiprocessing pool of `process_files_parallel` in `bdnex/lib/advanced_batch_processor.py`, and the thread-pool branch of `search_all`. The sequential paths are modelled, although `search_best` never takes the sequential path of `search_all` when two or more scrapers are loaded (see the next line).
- PluginManager.PluginManager.SearchBest models `search_all` in its sequential form, with the scrapers in priority order. The source calls `search_all` without `parallel`, so with two or more scrapers it takes the default thread-pool branch, whose dictionary is filled in completion order. The model therefore fixes an order the source leaves to timing: which of several equal-confidence results comes first, and which ties the `limit` cut keeps. The multiset of results, the threshold, the descending confidence and the limit are the same for any order.
- Plugin discovery by `importlib`/`pkgutil` is not modelled. The manager is given the scraper classes in discovery order.
- HTTP requests and HTML parsing are not modelled. The scrapers' decisions are modelled over already-extracted texts, links and label/value rows; fetching and `urljoin` are parameters.
- The fuzzy title ratio (rapidfuzz `token_set_ratio`) is a real in [0, 100] given as input. The accent stripping of `bdnex/lib/scrapers/metadata_merger.py` (`unicodedata` NFD) is a parameter.
- Renaming.Sanitize does not model the `unicodedata.normalize('NFC', …)` its source starts with (bdnex/lib/renaming.py:176): the name is taken as already composed, so a decomposed accent is kept as two characters.
- PIL's opening, resizing (LANCZOS) and greyscale conversion are not modelled. Whether PIL is present, the image size or the exception it raises, and the grey levels are inputs.
- AsciiCover.CharIndex computes `int(p / 255 * (n - 1))` in exact arithmetic. Binary floating point can round that product just below an integer.
- AsciiCover.Dimensions computes the aspect ratio in exact reals rather than binary floats.
- Disambiguation.ScoreCandidate omits the final `round(score, 3)`. The score is the exact clamped real, which lies in [0, 1] like the rounded one.
- Disambiguation.TitleScore omits the `round(ratio / 100.0, 3)` of bdnex/lib/disambiguation.py:88. The title score is the exact quotient.
- Disambiguation.ScoreCandidates ranks the unrounded scores. Two candidates whose scores differ but round to the same three decimals (0.7001 and 0.7004) tie in the source and keep their input order; the model puts the higher one first.
- Disambiguation.CandidateTitle and `Disambiguation.EvidenceFor` read a missing key as `None` and treat a key present with the value `None` the same way. In the source such a value differs: the f-string of bdnex/lib/disambiguation.py:193 writes it as "None" ("None title"), and a candidate editor of `None` reaches `.lower()` at line 121 and raises `AttributeError`. Present `None` values are not modelled.
- Other scores and weighted sums are exact reals, not binary floats.
- Real sleeping: `BatchWorker` returns the requested waits instead of sleeping.
- BatchConfig.JsonSummary does not model `json.dump` raising on a value JSON cannot encode (bytes, say) inside a result: the summary is always written when the low count computes.
- BatchConfig.GetCache does not model the debug f-string raising when the cached JSON is not an object: any readable cache is returned.
- AdvancedBatchProcessor.Collected takes the per-file outcome as a function of the file name, so a file name listed twice gets the same outcome both times, where the source processes it anew and may fail once and succeed once.
- The clock: timestamps are parameters.
- The files written by `save_json_log`, `save_csv_log`, `export_csv`, `export_json` and `save_cache`. What is written is modelled (the summary counts, the header, the selected rows and their count), not the writing.
- The resolver that the batch worker calls is an abstract sequence of outcomes, one per attempt. The interactive and strict flags are passed through to it and not interpreted.
- Disambiguation.ExtractTitle and `Disambiguation.StripComicExtension` do not model two regex behaviours on file names that contain a line break. In the source, `.*?$` cannot cross a line break, and `$` also matches before a final line break. The model cuts at the volume marker and strips only an extension that ends the name. The heading patterns of the scrapers do model line breaks.
- `\d` is restricted to ASCII digits: Unicode decimal digits beyond ASCII are not modelled.
- BaseScraper.NormalizeIsbn accepts ASCII digits only, while `str.isdigit` also accepts other Unicode digits (superscripts such as '²', Arabic-Indic digits). Such an ISBN is rejected by the model and accepted by the source.
- Database.ProcessedFilesNewestFirst orders by descending id. The source orders by `processed_date DESC` (bdnex/lib/database.py:477), a timestamp with one-second resolution. Rows recorded within the same second therefore come in an order SQLite does not define, and the id order is one of the orders it may choose.
- `str.lower()` and `re.IGNORECASE` are modelled for ASCII and Latin-1 letters only.
- Renaming.Sanitize requires a replacement without a backslash: `re.sub`'s template escapes are not modelled.
- RenameManager.Manager.RenameFile: a failing restore copy after a failed rename is not modelled. The restore is taken to succeed.
- Python's `str()` of floats, bytes and dictionaries (used when a template variable takes such a value) is a parameter.
- AlbumGrouping.TextOf and `AlbumGrouping.IntOf` read an ill-typed field (a number where text is expected, or the reverse) as the empty text or as no number, where the source raises on it (`.lower()` on a number, arithmetic on text).
- CatalogManager.Found and `CatalogManager.Catalog` do not model the `SELECT DISTINCT` of bdnex/lib/catalog_manager.py:130. The joined rows are distinct in the source's schema, since `file_path` is UNIQUE and `bdgest_albums.id` is the primary key; the model does not require distinct album ids, and with a repeated album id it would list both joined rows, where `DISTINCT` merges identical ones.
- RenameManager.Destination models a disk of files only. When the new name is empty (an extension-less file whose template substitutes to nothing), the target is the directory path itself; the source's `exists()` sees the directory and numbers the file " (1)", while the model treats that path as free.
- The web application, the interactive and challenge UIs, the progress display, the command-line entry point and the configuration utilities are not part of this model. Neither is the OpenCV cover comparison: its similarity is an input of the scores.

## Findings

| source | as written | input that shows it | evidently intended | confidence | as-written member | corrected member |
|---|---|---|---|---|---|---|
| bdnex/lib/advanced_batch_processor.py:180-213 | `print_summary` first rebinds `low_confidence` to the count of low-confidence files (an `int`), then slices `low_confidence[:10]` to list them. That raises `TypeError`, so the JSON and CSV logs saved after it are never written | a results list holding one entry with `success` false (any failed file) | list the first ten low-confidence filenames, then save both logs | not executed | AdvancedBatchProcessor.LowSectionAsWritten (see AdvancedBatchProcessor.FailureBreaksSummary) | AdvancedBatchProcessor.LowSection |
