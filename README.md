# Job feed scraper and local store, modelled in Dafny

This project models the data core of a job-search front end. It covers two source files.

`src/services/githubJobScraper.ts` reads the job tables that a public GitHub repository
publishes as markdown, in two files: `README.md` and `NEW_GRAD_USA.md`. It does the following:

- parses the table rows into entries;
- normalises each entry into a `Job`, with generated tags, requirements and descriptions;
- merges the two lists and drops repeated company/title pairs;
- keeps the result in the browser's `localStorage` for two hours.

`src/utils/localStorage.ts` keeps the user's profile and job applications in the same store.

Dafny modules, in dependency order:

| module | file | what it holds |
|---|---|---|
| `Types` | types.dfy | the entities of `src/types/index.ts`, the parsed row, the cache entry, and the store as a class with one typed slot per key |
| `Text` | text.dfy | the JavaScript string primitives the code relies on: `trim` (the full ECMAScript whitespace set), `split` with its inverse `join`, `includes`, and decimal `toString` |
| `Seqs` | seqs.dfy | order-preserving sub-sequences and duplicate-freedom |
| `Patterns` | patterns.dfy | the case-insensitive regular expressions of the normaliser, as alternations of fixed-length atom patterns |
| `RowParser` | rows.dfy | the data-row branch of the table parser: cell splitting, link stripping, column assignment |
| `TableParser` | markdown.dfy | the line scanner of `parseMarkdownTable` |
| `Normalizer` | normalizer.dfy | `convertToJobFormat` with its tags, `getJobRequirements`, `getJobDescription` and `getCompanyDescription` |
| `Dedup` | dedup.dfy | the `filter`/`findIndex` de-duplication of `fetchJobsFromGitHub` |
| `JobCache` | jobcache.dfy | `fetchJobsFromFile`, `fetchJobsFromGitHub`, `getCachedJobs`, `cacheJobs` and `getJobsFromGitHub` |
| `LocalStorage` | applications.dfy | `saveApplication`, `getApplications`, `getApplicationStatus`, `saveUserProfile` and `getUserProfile` |

Code that walks over its input step by step is modelled as a method with a loop or a sequence
of pushes, proved equal to a specification function:

- `ParseMarkdownTable` is proved equal to `ParseTable`;
- `CollectTags` is proved equal to `Tags`;
- `GetJobRequirements` is proved equal to `Requirements`.

Operations on the store are methods that change one slot of `Store`. Each states the new slot
as a function of the old one. The lemmas are stated about those functions.

The network, the clock and the JSON encoding are not part of the model. They enter as follows:

- Each file request is given by its outcome, `FetchResult`: either it failed, or it delivered
  what `atob` returns. That is a byte string (`JobCache.ByteString`): one character per byte of
  the UTF-8 file, each below U+0100. Everything downstream works on those bytes, as the program
  does.
- Each clock reading is a parameter. Rows read `clock(i)`, the cache read uses `readAt`, the
  cache write uses `writtenAt`.
- Each slot holds the value `JSON.parse` returns for what was written. For a profile this means
  an uploaded file comes back as an empty object, which `Persisted` captures.
- The generated descriptions are stored in a `Job` as the template chosen plus the values
  filled in (`JobBlurb`, `CompanyBlurb`). `Normalizer.JobText` and `Normalizer.CompanyText`
  render the full texts, word for word.

## Model

| member | source | states |
|---|---|---|
| Text.Trim | src/services/githubJobScraper.ts:29 | the result has no whitespace at either end, takes its characters from the input, and is empty exactly when the input is all whitespace |
| Text.TrimInfix | src/services/githubJobScraper.ts:29 | trim removes only whitespace, and only from the two ends: the result is the infix between a whitespace prefix and a whitespace suffix; with the contract of `Trim`, it is the longest such infix |
| Text.TrimDropsTrailingNbsp | src/services/githubJobScraper.ts:50-56 | trim also removes a final U+00A0, which in a byte string is the second byte of a UTF-8 `à` |
| Text.TrimIdempotent | src/services/githubJobScraper.ts:29 | trimming twice is trimming once |
| Text.TrimOfTrimmed | src/services/githubJobScraper.ts:46 | a string with no whitespace at either end is left unchanged by trim |
| Text.ContainsIff | src/services/githubJobScraper.ts:32 | `includes` holds exactly when the needle occurs at some index |
| Text.SplitOn | src/services/githubJobScraper.ts:23 | split yields at least one piece, and no piece holds the separator |
| Text.JoinSplit | src/services/githubJobScraper.ts:23 | joining the pieces of a split with the separator gives back the input |
| Text.SplitJoin | src/services/githubJobScraper.ts:23 | splitting a join of separator-free pieces gives back the pieces |
| Text.SplitPiece | src/services/githubJobScraper.ts:23 | a string without the separator splits into itself alone |
| Text.NatToString | src/services/githubJobScraper.ts:208 | decimal rendering is a non-empty digit string, with two or more digits exactly from 10 on |
| Text.NatToStringInjective | src/services/githubJobScraper.ts:208 | different numbers render differently |
| Seqs.SubseqMembers | src/services/githubJobScraper.ts:260-263 | every element of a sub-sequence occurs in the full sequence |
| Seqs.SubseqLength | src/services/githubJobScraper.ts:260-263 | a sub-sequence is no longer than the sequence |
| Patterns.LitMatchesAt | src/services/githubJobScraper.ts:191 | the pattern for a word matches at `i` exactly when the next characters spell the word, up to the case of ASCII letters |
| Patterns.InternMeansContainsIntern | src/services/githubJobScraper.ts:191 | the intern test (alternatives `intern` and `internship`, any letter case) fires exactly when `intern` occurs in any letter case; the second alternative adds nothing |
| Patterns.SearchPrefixOfPattern | src/services/githubJobScraper.ts:191 | a match of a longer pattern contains a match of its prefix |
| Patterns.ExactOccurrenceMatches | src/services/githubJobScraper.ts:196-204 | an exact occurrence of a word is matched by the case-insensitive pattern for it |
| RowParser.IndexOfFrom | src/services/githubJobScraper.ts:50 | the first index at or after the start holding the character, or the length when there is none |
| RowParser.LinkText | src/services/githubJobScraper.ts:50-53 | definition: the leftmost `[text]` and the rest of its line replaced by `text`, the cell unchanged when there is no match |
| RowParser.LinkTarget | src/services/githubJobScraper.ts:67-74 | definition: the leftmost greedy `[..](..)` replaced by the text between its parentheses, the cell unchanged when there is no match |
| RowParser.LooksLikeSalary | src/services/githubJobScraper.ts:65 | definition: cell 3 contains `$` or digits followed by `k` in either case |
| RowParser.FirstTextMatch | src/services/githubJobScraper.ts:50 | the leftmost index where `\[([^\]]+)\]` can match, or the length |
| RowParser.FirstTargetMatch | src/services/githubJobScraper.ts:67 | the leftmost index where `\[.*\]\((.*)\)` can match, or the length |
| RowParser.LastBracketParen | src/services/githubJobScraper.ts:67 | the last `](` in range, the place a greedy `.*` backs off to |
| RowParser.DotRunEnd | src/services/githubJobScraper.ts:50 | how far a `.*` reaches: up to the first line terminator |
| RowParser.LinkTextOfLink | src/services/githubJobScraper.ts:50-53 | a cell `[t]rest` reduces to its display text `t` |
| RowParser.LinkTargetOfLink | src/services/githubJobScraper.ts:67-74 | a cell `[t](u)` reduces to its target `u` |
| RowParser.NoBracketUnchanged | src/services/githubJobScraper.ts:50-74 | a cell without `[` passes through both replacements unchanged |
| RowParser.PlainCellPassesThrough | src/services/githubJobScraper.ts:50-74 | a trimmed cell without `[` is unchanged by a replacement followed by trim |
| RowParser.TrimAll | src/services/githubJobScraper.ts:46 | one piece per piece, the `k`-th the trimmed `k`-th piece, each empty or a clean cell |
| RowParser.DropEmpty | src/services/githubJobScraper.ts:46 | the kept pieces are non-empty clean cells and appear in the input in order |
| RowParser.DropEmptyCounts | src/services/githubJobScraper.ts:46 | the filter drops every empty piece and keeps every non-empty piece as often as the input holds it; a piece is kept exactly when it is in the input and non-empty |
| RowParser.Cells | src/services/githubJobScraper.ts:46 | every cell of a row is non-empty, trimmed and free of the pipe character |
| RowParser.CellsOfLine | src/services/githubJobScraper.ts:46 | the cells of a line are its pipe-separated pieces (which join back to the line), trimmed, in order, with the empty ones dropped and every other one kept as often as it occurs; a string is a cell exactly when it is non-empty and some piece trims to it |
| RowParser.ParseRow | src/services/githubJobScraper.ts:48-88 | a row yields an entry exactly when it has four or more cells and the trimmed link texts of cells 0 and 1 are non-empty and are not `Company` and `Position`; that entry is valid (non-empty trimmed company and position that are not the header labels, trimmed fields) |
| RowParser.ColumnAssignment | src/services/githubJobScraper.ts:48-88 | which cell feeds which field: company and position are the link texts of cells 0 and 1, location is cell 2; with four cells there is no salary, the link is the target of cell 3 and age is empty; with five or more and a salary-like cell 3, salary is cell 3, link the target of cell 4 and age cell 5 or empty; with five or more otherwise, the link is the target of cell 3 and age is cell 4 |
| RowParser.HeaderLabelsNotEmitted | src/services/githubJobScraper.ts:78 | a row that repeats `Company` or `Position` is dropped |
| TableParser.RowOf | src/services/githubJobScraper.ts:45-89 | a data line pushes at most one entry, and only a valid one |
| TableParser.Classify | src/services/githubJobScraper.ts:29-45 | definition: what one trimmed line is to the scanner (pipe-led, contains `Company`, contains `---`, blank) and the row it would push |
| TableParser.Step | src/services/githubJobScraper.ts:31-95 | definition: one iteration of the loop, the new `inTable`/`headerParsed` flags and the entries pushed |
| TableParser.Run | src/services/githubJobScraper.ts:28-96 | definition: the loop over classified lines, from a given state |
| TableParser.ParseTable | src/services/githubJobScraper.ts:21-99 | definition: the result of `parseMarkdownTable`, the loop run from the initial state over the lines of the content |
| TableParser.KindsAppend | src/services/githubJobScraper.ts:28 | classifying two blocks of lines is classifying their concatenation |
| TableParser.RunFrom | src/services/githubJobScraper.ts:28-96 | the loop from line `i` is one step followed by the loop from line `i + 1` |
| TableParser.ParseMarkdownTable | src/services/githubJobScraper.ts:21-99 | the loop returns what the scanner specification `ParseTable` gives for the content |
| TableParser.ParseTableOfLines | src/services/githubJobScraper.ts:23 | a document given as newline-free lines is scanned line by line |
| TableParser.RunAppend | src/services/githubJobScraper.ts:28-96 | scanning two blocks is scanning the first, then the second from where the first left off |
| TableParser.StaysPut | src/services/githubJobScraper.ts:28-96 | lines that each leave the state alone and push nothing do so together |
| TableParser.OutsideTableNoRows | src/services/githubJobScraper.ts:32-45 | before any header line nothing is pushed |
| TableParser.WaitForSeparator | src/services/githubJobScraper.ts:39-42 | after a header, lines are skipped until one containing `---` |
| TableParser.BlankLinesKeepTableOpen | src/services/githubJobScraper.ts:92 | blank lines inside a table body neither push nor close it |
| TableParser.HeaderReopens | src/services/githubJobScraper.ts:32-36 | a pipe-led line that contains `Company` restarts the header in any state, even inside a body |
| TableParser.ProseClosesTable | src/services/githubJobScraper.ts:92-95 | a non-blank line not led by a pipe closes the table, and nothing is pushed before the next header |
| TableParser.RunRowsValid | src/services/githubJobScraper.ts:78-87 | the scan pushes only valid entries |
| TableParser.ParsedRowsAreValid | src/services/githubJobScraper.ts:78-87 | every returned entry has a non-empty trimmed company and position that are not the header labels |
| TableParser.RowsInDocumentOrder | src/services/githubJobScraper.ts:45-89 | the returned entries come from pipe-led lines, at most one per line, in document order |
| TableParser.WellFormedTable | src/services/githubJobScraper.ts:21-99 | a header, a separator and a body of pipe-led lines yield exactly the body rows, one per line when every line passes the row checks |
| TableParser.TableLines | src/services/githubJobScraper.ts:28-96 | the same, over classified lines |
| TableParser.TableBody | src/services/githubJobScraper.ts:45-89 | a body of pipe-led lines keeps the table open and pushes each line's row |
| TableParser.BodyRows | src/services/githubJobScraper.ts:45-89 | the same, by induction over the lines |
| TableParser.CandidatesCount | src/services/githubJobScraper.ts:45-89 | a body whose every line gives a row yields one entry per line |
| TableParser.RowsNeedHeaderThenSeparator | src/services/githubJobScraper.ts:32-45 | a non-empty result needs a header line followed later by a separator line |
| TableParser.HeaderThenSeparator | src/services/githubJobScraper.ts:32-45 | the same, from any reachable scan state |
| Normalizer.TagsAfter | src/services/githubJobScraper.ts:193-205 | the tags after any number of rules start with the category tag |
| Normalizer.IsIntern | src/services/githubJobScraper.ts:191 | definition: the title matches `/intern|internship/i` |
| Normalizer.Tags | src/services/githubJobScraper.ts:193-205 | definition: the category tag, then the topic tags of the rules that fire, in rule order |
| Normalizer.RuleTable | src/services/githubJobScraper.ts:198-205 | each topic rule tests the source's pattern against the position, or the location for `Remote`, and pushes the source's tag |
| Normalizer.CollectTags | src/services/githubJobScraper.ts:193-205 | the pushes give exactly the tag list the rule table specifies |
| Normalizer.TagsAfterSubseq | src/services/githubJobScraper.ts:198-205 | the topic tags appear in rule order, each at most once |
| Normalizer.TagsAfterMembers | src/services/githubJobScraper.ts:198-205 | a topic tag is present exactly when a rule with that tag fires |
| Normalizer.TopicNamesDistinct | src/services/githubJobScraper.ts:195-205 | the eight topic tags are distinct and differ from both category tags |
| Normalizer.TagsShape | src/services/githubJobScraper.ts:193-205 | tags hold one to nine entries; the first is `Internship` for an intern title and `New Grad` otherwise; each topic tag is present exactly when its test fires; topic tags come in rule order; no tag repeats |
| Normalizer.PrimaryTag | src/services/githubJobScraper.ts:218 | the primary tag (`tags[0]`, or `technology` when that is missing or empty) is the first tag when that is non-empty |
| Normalizer.PrimaryTagIsCategory | src/services/githubJobScraper.ts:218 | the primary tag of a converted job is its category tag, never the `technology` fallback |
| Normalizer.FirstMatch | src/services/githubJobScraper.ts:167-182 | the first role test that fires, with none before it firing |
| Normalizer.Requirements | src/services/githubJobScraper.ts:147-185 | definition: the four baseline lines chosen by level, then the lines of the role chain |
| Normalizer.RoleRequirementsChain | src/services/githubJobScraper.ts:167-182 | the role lines are the if/else-if chain: frontend, then backend, then full-stack, then mobile, else the general lines |
| Normalizer.GetJobRequirements | src/services/githubJobScraper.ts:147-185 | the pushes give exactly the specified requirement list |
| Normalizer.RequirementsShape | src/services/githubJobScraper.ts:147-185 | six lines: the four baseline lines chosen by level, then the two lines of the first role test that fires, and the general lines exactly when none fires |
| Normalizer.Fill | src/services/githubJobScraper.ts:104-112 | a filled template has the company name at the template's slot and the expected length |
| Normalizer.JobDescription | src/services/githubJobScraper.ts:102-118 | definition: the job description template picked by company-name length mod 5, filled with company and audience |
| Normalizer.CompanyDescription | src/services/githubJobScraper.ts:121-144 | definition: the company description template picked by (name length + primary-tag length) mod 5, filled with the company |
| Normalizer.JobDescriptionNamesCompany | src/services/githubJobScraper.ts:102-117 | every job description names the company |
| Normalizer.CompanyDescriptionNamesCompany | src/services/githubJobScraper.ts:121-143 | every company description names the company |
| Normalizer.LevelChangesOnlySecondTemplate | src/services/githubJobScraper.ts:102-117 | intern and graduate descriptions coincide except for template 1 (name length 1 mod 5), where they differ right after `is looking for talented ` |
| Normalizer.DashFrom | src/services/githubJobScraper.ts:208 | the first `-` at or after the start, or the length |
| Normalizer.JobId | src/services/githubJobScraper.ts:208 | definition: `github-<index>-<millis>` |
| Normalizer.DigitsThenDash | src/services/githubJobScraper.ts:208 | a digit string followed by `-` can be split off only one way |
| Normalizer.JobIdInjective | src/services/githubJobScraper.ts:208 | `github-<index>-<millis>` determines both the index and the clock reading |
| Normalizer.ConvertToJobFormat | src/services/githubJobScraper.ts:188-221 | one job per parsed row, in order, the `i`-th converted from row `i` with index `i` and that row's clock readings |
| Normalizer.ConvertJob | src/services/githubJobScraper.ts:188-221 | definition: the job built from one parsed row, its index and its clock readings |
| Normalizer.ConvertedJob | src/services/githubJobScraper.ts:188-221 | a converted job carries over company, title, location and salary and takes the clock reading as its posting date; it has no logo; its type is intern exactly when the title contains `intern` in any case, and full-time otherwise; its first tag follows the type |
| Normalizer.ConvertedJobDescription | src/services/githubJobScraper.ts:209-214 | the description is `getJobDescription` of company, title and type, and names the company |
| Normalizer.ConvertedCompanyDescription | src/services/githubJobScraper.ts:121-144 | the company description is `getCompanyDescription` of company and primary tag; its template index is (name length + 10) mod 5 for interns and (name length + 8) mod 5 otherwise; it names the company |
| Normalizer.ConvertedIdsDistinct | src/services/githubJobScraper.ts:208 | the jobs of one conversion have pairwise different ids |
| Dedup.FindIndex | src/services/githubJobScraper.ts:262 | `findIndex`: -1 exactly when no job has the key, otherwise the first index holding it |
| Dedup.KeepFrom | src/services/githubJobScraper.ts:261-263 | definition: the `filter` of the de-duplication, from index `i` on, keeping a job when `findIndex` of its key is its own index |
| Dedup.Unique | src/services/githubJobScraper.ts:260-263 | definition: the de-duplicated list |
| Dedup.KeptAreFirsts | src/services/githubJobScraper.ts:261-263 | every kept job is the first job of the list with its key |
| Dedup.FirstsAreKept | src/services/githubJobScraper.ts:261-263 | every first occurrence of a key is kept |
| Dedup.KeepFromSubseq | src/services/githubJobScraper.ts:261-263 | the filter keeps jobs in their order |
| Dedup.KeepFromUnique | src/services/githubJobScraper.ts:261-263 | no two kept jobs share a key |
| Dedup.UniqueIsOrderedAndUnique | src/services/githubJobScraper.ts:260-263 | the de-duplicated list has unique keys and is the input with some jobs left out, in order |
| Dedup.UniqueKeepsFirst | src/services/githubJobScraper.ts:260-263 | each kept job is the input's first job with its company and title |
| Dedup.UniqueKeepsKeys | src/services/githubJobScraper.ts:260-263 | every company/title pair of the input survives |
| Dedup.KeepAllUnique | src/services/githubJobScraper.ts:260-263 | a list with unique keys passes the filter unchanged |
| Dedup.UniqueIdempotent | src/services/githubJobScraper.ts:260-263 | de-duplicating twice is de-duplicating once |
| JobCache.FetchJobsFromFile | src/services/githubJobScraper.ts:223-240 | a file request yields the specified job list: nothing on failure, otherwise the parsed table converted |
| JobCache.FileJobs | src/services/githubJobScraper.ts:223-240 | definition: no jobs for a failed request, otherwise the converted rows of the parsed table |
| JobCache.FileJobsShape | src/services/githubJobScraper.ts:223-240 | a failed request yields no jobs; a delivered one yields one job per parsed row, the `i`-th converted from row `i` with index `i`; the ids of one file differ |
| JobCache.FetchJobsFromGitHub | src/services/githubJobScraper.ts:242-272 | the two files' jobs, README first, concatenated and de-duplicated |
| JobCache.GitHubJobs | src/services/githubJobScraper.ts:242-272 | definition: the two files' jobs concatenated, README first, then de-duplicated |
| JobCache.GitHubJobsShape | src/services/githubJobScraper.ts:242-272 | the merged list has one job per company and title, contains every company/title of either file, keeps each as its first listing, and keeps the files' order |
| JobCache.ReadmeListingsWin | src/services/githubJobScraper.ts:244-263 | when both files list a company and title, the README's first listing is the one kept |
| JobCache.BothFailedNoJobs | src/services/githubJobScraper.ts:229-239 | when both requests fail the result is empty |
| JobCache.GetCachedJobs | src/services/githubJobScraper.ts:278-302 | an empty slot gives nothing; an entry younger than two hours gives its jobs and stays; an older one gives nothing and is removed |
| JobCache.CachedJobs | src/services/githubJobScraper.ts:278-302 | definition: what a cache read returns: the stored jobs while younger than two hours, otherwise nothing |
| JobCache.SlotAfterRead | src/services/githubJobScraper.ts:278-302 | definition: the slot after a read: kept while fresh, emptied once stale |
| JobCache.CacheJobs | src/services/githubJobScraper.ts:304-315 | the slot then holds the jobs stamped with the write time |
| JobCache.CacheRoundTrip | src/services/githubJobScraper.ts:275-315 | a list written at time t reads back unchanged exactly while the clock is below t + 7200000; from then on a read finds nothing and empties the slot |
| JobCache.ReadOutcomes | src/services/githubJobScraper.ts:278-302 | a read either returns the stored jobs and leaves the slot as it was, or returns nothing and leaves the slot empty; a second read at the same time gives the same answer and changes nothing |
| JobCache.ExpiryIsFinal | src/services/githubJobScraper.ts:287 | once a read at some time misses, every later read misses |
| JobCache.GetJobsFromGitHub | src/services/githubJobScraper.ts:317-332 | a fresh non-empty cache answers without fetching; otherwise the fetched list is returned and written only when it is non-empty |
| JobCache.JobsFromGitHub | src/services/githubJobScraper.ts:317-332 | definition: the cached jobs on a hit, otherwise the fetched ones |
| JobCache.SlotAfterGet | src/services/githubJobScraper.ts:317-332 | definition: the slot after a call: kept on a hit, the fetched list stamped with the write time when non-empty, otherwise as the read left it |
| JobCache.GetOutcomes | src/services/githubJobScraper.ts:317-332 | a hit returns the cached jobs (stamped less than two hours before) and leaves the slot; a miss returns the fetched jobs; a non-empty fetch is written with its write time; an empty fetch never writes; an empty result means an empty fetch |
| JobCache.SecondCallHitsCache | src/services/githubJobScraper.ts:317-332 | after a call that fetched a non-empty list, every call in the next two hours returns that list, whatever the network delivers, and leaves the slot alone |
| LocalStorage.GetApplications | src/utils/localStorage.ts:21-30 | the stored applications, or none when the slot is empty |
| LocalStorage.Stored | src/utils/localStorage.ts:21-30 | definition: the stored applications, none for an empty slot |
| LocalStorage.SaveApplication | src/utils/localStorage.ts:15-19 | the slot then holds the earlier applications for other jobs followed by the new one |
| LocalStorage.StatusOf | src/utils/localStorage.ts:34-35 | `find` gives no status exactly when no application has the job id |
| LocalStorage.StatusOfFirst | src/utils/localStorage.ts:34-35 | the status read is that of the first application for the job |
| LocalStorage.StatusHasFirst | src/utils/localStorage.ts:34-35 | a job with an application has a first one, and its status is the one read |
| LocalStorage.GetApplicationStatus | src/utils/localStorage.ts:32-36 | the status `find` gives over the stored applications: that of the first one for the job (`StatusOfFirst`), or none exactly when there is none |
| LocalStorage.WithoutJobShape | src/utils/localStorage.ts:17 | the filter keeps, in order, exactly the applications for other jobs |
| LocalStorage.WithoutJobCounts | src/utils/localStorage.ts:17 | the filter keeps each application for another job as often as the list holds it, and none for the job |
| LocalStorage.WithoutAbsentJob | src/utils/localStorage.ts:17 | without an application for the job, the filter changes nothing |
| LocalStorage.WithoutJob | src/utils/localStorage.ts:17 | definition: the applications whose job id differs, in order |
| LocalStorage.Upsert | src/utils/localStorage.ts:15-19 | definition: the filtered list followed by the new application |
| LocalStorage.WithoutJobUnique | src/utils/localStorage.ts:17 | on a list with no repeated job, the filter keeps it repeat-free and drops exactly one application when the job has one |
| LocalStorage.UpsertShape | src/utils/localStorage.ts:15-19 | after a save, the new application is last and the only one for its job, and before it come the earlier applications for other jobs, in order, each as often as before |
| LocalStorage.UpsertUnique | src/utils/localStorage.ts:15-19 | saving keeps the list free of repeated jobs, and it grows by one exactly when the job had no application |
| LocalStorage.StatusAfterSave | src/utils/localStorage.ts:15-36 | after a save the job's status is the saved one and every other job's status is unchanged |
| LocalStorage.StatusSkipsOthers | src/utils/localStorage.ts:34 | `find` passes over a prefix with no application for the job |
| LocalStorage.Persisted | src/utils/localStorage.ts:6-13 | after JSON, a profile keeps every field except an uploaded resume file, which becomes an empty object |
| LocalStorage.SaveUserProfile | src/utils/localStorage.ts:6-8 | the slot then holds the profile as JSON returns it |
| LocalStorage.GetUserProfile | src/utils/localStorage.ts:10-13 | the stored profile, or none |
| LocalStorage.ProfileRoundTrip | src/utils/localStorage.ts:6-13 | a saved profile reads back unchanged exactly when it holds no uploaded file, and saving it again changes nothing |
| Types.Store.constructor | src/utils/localStorage.ts:1-4 | a new store has all three slots empty |

## Left out

- Regular expressions are written as alternations of fixed-length patterns. The `i` flag is modelled as ASCII case folding. On a byte string that is exact: without the `u` flag no character from U+0080 to U+00FF folds onto an ASCII letter.
- Network requests, `response.ok`, `response.json()` and `atob` are modelled as one `FetchResult` per file: failed, or the byte string `atob` returns. Base64 decoding itself is not part of this model. `Promise.all` is modelled as fetching the two files one after the other.
- The outer `catch` of `fetchJobsFromGitHub` cannot be reached in the model, because `fetchJobsFromFile` catches every failure itself.
- Console logging is left out.
- Store slots hold typed values rather than JSON text. A corrupt cache entry (the `catch` of `getCachedJobs`) and a failing `setItem` (the `catch` of `cacheJobs`) are not modelled. A slot either holds a well-formed value or is empty.
- `Date` values are modelled as millisecond counts, and the `new Date(...)` re-hydration in `getCachedJobs` and `getApplications` as the identity.
- `JobCache.FileJobs`: the two clock reads of one row (`Date.now()` for the id and `new Date()` for `postedDate`) are modelled as the same reading `clock(i)`.
- `Normalizer.ConvertedJob`: the job's `description` and `companyDescription` hold the template choice and the filled-in values, not the rendered string. `JobText` and `CompanyText` render the string, and the conversion lemmas tie the two together.
- The entry fields `link` and `age` are parsed but never used by the conversion, as in the source.
- Fetching the commented-out files `INTERN_INTL.md` and `NEW_GRAD_INTL.md` is not part of this model.
- Behaviour of the code that the model keeps faithfully:
  - A data row whose text contains `Company` (for example `Ford Motor Company`) is taken as a new header. The rows after it are skipped until a line containing `---`.
  - Only `includes('---')` is checked for the separator line.
  - Names are byte strings, so `company.length` counts UTF-8 bytes. The template and company-type choices (`company.length % 5`) follow the byte count, as in the program.
  - `trim()` removes U+00A0, and in a byte string that is also the second byte of `à` (C3 A0). A company or title ending in `à` loses that byte (`Text.TrimDropsTrailingNbsp`).
  - Job ids restart at index 0 in each file, so the merged list can repeat an id when the clock readings agree.
