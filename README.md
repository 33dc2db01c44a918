# Contact-cleaning pipeline of the Martin HS band fundraiser, in Dafny

This project models the Python scripts that turn a messy contact export into
channel lists for a band fundraiser. It also models the text logic of the
fundraiser's chat bot.

- **clean_duplicates_on_contacts.py** (`CleanDuplicates`, with the scanners in
  `Patterns`): finds phone numbers inside free text and normalises each to a
  `+digits` string with a US/MX/INTL tag. It picks one number per contact,
  letting a Mobile/Cell/Móvil label short-circuit the search. It then keeps the
  first contact per number.
- **clean_google_contacts.py** (`CleanGoogle`): the Google Contacts variant.
  Its normaliser also handles the `00` and `011` prefixes and tries the US rules
  before the MX rule. It scores each phone column (2 for a mobile label, else 1)
  and takes the greatest candidate.
- **fix_long_numbers.py** (`FixLongNumbers`): repairs phone cells holding more
  than 15 digits by picking one `+` window (US first, then MX, then any). It
  re-derives the country from the prefix and keeps the first row per phone.
- **prepare_contact_lists.py** (`PrepareLists`): derives a first name and a
  greeting for each contact. It adds the two columns to the header, then splits
  the contacts into a WhatsApp list and an SMS list.
- **make_channel_lists.py** (`ChannelLists`, `Fields`, `InPlace`): adds a
  missing Channel/OptIn cell as empty; a present blank cell stays as it is. It
  writes the contacts twice, once with Channel forced to WhatsApp and once
  forced to SMS, under a header that holds every base column.
- **send_messages.py** (`SendMessages`): computes the greeting name, the
  WhatsApp address, the `{{name}}` template fill, the `[start, end)` row window
  and the skip/count logic of the sending loop.
- **2025_Andree_Fundraiser_MartinHS_Band.py** (`FundraiserBot`): the Spanish
  test, the first-match FAQ router with its English and Spanish canned answers,
  the prompt's style choice, the 160-character SMS cap and the empty-body
  handling of both webhooks.

Shared modules:

- `Text`: Python's `isdigit`, `isspace`, `strip`, `lower`, `upper`, `in`,
  `replace`, `split` and `join`.
- `Contacts`: rows, the `(e164, country)` pair, the output row and
  `full_name`.
- `Dedup`: the generic first-occurrence-wins loop that every deduplication
  pass uses.
- `Wrappers`: `Option`, which models Python's `None` results.

The output numbers follow the `+`-prefixed international form of ITU-T
Recommendation E.164. `IsE164` means `+` followed by at least 8 digits. The
15-digit maximum of clause 6 of that Recommendation is enforced only by
`pick_window`, and the model follows that.

Stateful code is modelled imperatively, with each method proved against a
specification function:

- The in-place row updates use an `array<Row>` (`InPlace.UpdateEach`, `PrepareLists.PrepareLists`, `ChannelLists.MakeChannelLists`).
- The append-and-seen-set loops are methods equal to `Dedup.FirstWins` of `Dedup.Somes`.
- The column-scanning loops and the sending loop are also methods.

## Behaviour worth knowing

- `normalize_phone` in clean_duplicates_on_contacts.py never truncates: a `+` number with 19 digits keeps all 19 (`NormalizePhone`). Only `pick_window` in fix_long_numbers.py caps a number at 15 digits.
- Candidates are deduplicated by their normalised e164 string, not by their raw digits (`CandidatesSpec`).
- clean_duplicates_on_contacts.py tests MX before US on bare digits (`StrippedBareDigits`), while clean_google_contacts.py tests US first (`GoogleBareDigits`).
- The Google normaliser tags a `+` number by its raw prefix, so `"+ 52…"` is INTL there and MX in the other script (`NormalizersDisagreeOnSpacedPlus`).
- `"00"` alone normalises to `"+"` in the Google script (`GoogleDoubleZeroAlone`).
- The Google `pick_best_number` reverse-sorts `(score, e164, country)` tuples, so between two mobile numbers the greater number string wins, not the earlier column (`GoogleBest`).

## Model

| member | source | states |
|---|---|---|
| Text.OnlyDigits | clean_duplicates_on_contacts.py:28-29 | the result consists of digits only and is no longer than the input |
| Text.OnlyDigitsOfDigits | clean_duplicates_on_contacts.py:28-29 | a string of digits is its own digit extraction |
| Text.OnlyDigitsAppend | clean_duplicates_on_contacts.py:28-29 | digit extraction distributes over concatenation |
| Text.Strip | clean_duplicates_on_contacts.py:37 | the result neither starts nor ends with whitespace and is no longer than the input |
| Text.StripIsTrim | clean_duplicates_on_contacts.py:37 | the result is a slice of the input, and everything cut off on either side is whitespace |
| Text.StripIdempotent | clean_duplicates_on_contacts.py:37 | stripping twice is stripping once |
| Text.StripTrimmed | clean_duplicates_on_contacts.py:37 | a string without surrounding whitespace is unchanged by strip |
| Text.StripEmpty | 2025_Andree_Fundraiser_MartinHS_Band.py:274-277 | strip gives "" exactly when every character is whitespace |
| Text.Lower | 2025_Andree_Fundraiser_MartinHS_Band.py:46 | lower-casing keeps the length and maps each character on its own |
| Text.LowerIdempotent | 2025_Andree_Fundraiser_MartinHS_Band.py:46 | lower-casing twice is lower-casing once |
| Text.Upper | prepare_contact_lists.py:76 | upper-casing never shortens the text; without a sharp s it keeps the length and upper-cases each character on its own |
| Text.UpperOf | prepare_contact_lists.py:76 | the sharp s becomes "SS"; every other character becomes one character, its capital where it has one (Latin-1 letters, y-diaeresis to its Latin Extended-A capital, the micro sign to capital mu) |
| Text.UpperAppend | prepare_contact_lists.py:76 | upper-casing a concatenation upper-cases each part, so the text is upper-cased character by character |
| Text.ContainsExtend | 2025_Andree_Fundraiser_MartinHS_Band.py:51 | a substring of a text stays a substring of any text around it |
| Text.SplitJoin | send_messages.py:62 | joining the pieces of a split with the separator gives the text back |
| Text.SplitPiecesFree | send_messages.py:62 | no piece of a split contains the separator |
| Text.ReplaceIsJoinOfSplit | send_messages.py:62 | replace is split on the pattern, then join with the replacement |
| Text.ReplaceAbsent | send_messages.py:62 | a text without the pattern is unchanged by replace |
| Contacts.PlusDigitsClean | clean_duplicates_on_contacts.py:37-41 | a `+digits` string is unchanged by strip, and its digits are everything after the `+` |
| Contacts.SetTwo | fix_long_numbers.py:44-45 | setting two distinct cells adds their columns, sets their values and leaves every other cell alone |
| Contacts.FullName | clean_duplicates_on_contacts.py:130-139 | the display name is never empty and has no surrounding whitespace |
| Contacts.DisplayName | clean_google_contacts.py:117-127 | never empty and trimmed. Both names: "First Last"; first only: First; last only: Last; neither: the nickname, then the organisation, then the e-mail |
| Contacts.JoinNames | clean_duplicates_on_contacts.py:134 | the non-empty names joined by one space: "first last" when both are set, the one that is set otherwise, empty only when both are empty |
| Contacts.DisplayNameUnknown | clean_google_contacts.py:127 | with every name field blank, the name is "Unknown" |
| Dedup.FirstWinsSpec | fix_long_numbers.py:49-53 | the kept items are a subsequence of the input in order, each is the earliest with its key, no key repeats, and every input key is kept |
| Dedup.FirstWinsPrefix | fix_long_numbers.py:49-53 | more input never changes what was already kept |
| Dedup.SomesAtSpec | fix_long_numbers.py:39-46 | the collected values come from the inputs where the step gave a value, in order, and none of those inputs is missed |
| Dedup.FilterMapSpec | prepare_contact_lists.py:72 | a filter-map keeps exactly the items meeting its test, in order, each mapped |
| Dedup.OriginsSpec | clean_duplicates_on_contacts.py:159-164 | each kept output comes from an input row, and these rows are in increasing order |
| Dedup.FirstWinsOfSomes | clean_duplicates_on_contacts.py:159-164 | after mapping and dropping Nones, each key is kept once, from its earliest row, and every key produced is kept |
| Dedup.FirstWinsOfSomesAll | clean_duplicates_on_contacts.py:159-173 | a property of every produced value holds for every kept output |
| Dedup.SomesAppend | fix_long_numbers.py:39-46 | collecting over two parts is collecting over each |
| Dedup.KeepFirst | clean_duplicates_on_contacts.py:98-105 | the seen-set loop returns exactly the first value per key, in order |
| Dedup.CollectSomes | fix_long_numbers.py:39-46 | the append loop returns exactly the values the step produced, in order |
| Dedup.FirstPerKey | fix_long_numbers.py:49-53 | the OrderedDict pass returns exactly the first row per key, in order |
| Fields.MergeFields | make_channel_lists.py:22-25 | the given fields are an in-order prefix of the result; every wanted column is present; nothing else is added |
| Fields.Missing | make_channel_lists.py:23-25 | the appended columns are wanted ones not already present |
| Fields.MergeIsAppendMissing | make_channel_lists.py:23-25 | the merged header is the given fields followed by the missing wanted columns in their order |
| Fields.MergeNoDup | make_channel_lists.py:23-25 | a header without duplicates stays without duplicates |
| Fields.MissingOfPresent | make_channel_lists.py:24 | when every wanted column is present, nothing is appended |
| Fields.AppendMissing | make_channel_lists.py:22-25 | the append loop computes the merged header |
| InPlace.UpdateEach | make_channel_lists.py:37-39 | each array cell becomes the update of its old value |
| Patterns.DigitRun | clean_duplicates_on_contacts.py:25-26 | the run is all digits and is maximal on the right |
| Patterns.DigitRunAtLeast | clean_duplicates_on_contacts.py:25-26 | k digits at a position give a run of at least k |
| Patterns.Runs | clean_duplicates_on_contacts.py:25-26 | exactly the maximal digit runs from the position on, in order (the reference `RunsAt`); each is non-empty with no digit on either side |
| Patterns.RunsAtInside | clean_duplicates_on_contacts.py:25-26 | no run starts inside a run of digits |
| Patterns.RunAt | clean_duplicates_on_contacts.py:25-26 | a run starting at a position is non-empty, stands alone, and the runs there are that run followed by the runs after it |
| Patterns.MxRuns | clean_duplicates_on_contacts.py:26 | the MX hits are exactly the runs of 12 digits from `52` or 13 digits from `521`: each hit qualifies and every qualifying run is a hit |
| Patterns.UsRuns | clean_duplicates_on_contacts.py:25 | the US hits are exactly the runs of 10 digits, or of 11 digits from `1`: each hit qualifies and every qualifying run is a hit |
| Patterns.PlusMatch | clean_duplicates_on_contacts.py:24 | no match exactly when there is no `+` and 8 digits here; otherwise `+` and 8 to 15 digits, taking digits until a non-digit, the end or the 15th |
| Patterns.PlusHits | clean_duplicates_on_contacts.py:24 | the hits are exactly the `+` matches of the reference scan `PlusAt`: leftmost first, each resuming after the previous one |
| Patterns.PlusAtSkips | clean_duplicates_on_contacts.py:24 | the scan passes over text without a `+` |
| Patterns.PlusAtMatch | clean_duplicates_on_contacts.py:24 | where a `+` match starts, it is listed first and the scan resumes right after it |
| Patterns.PlusSearch | fix_long_numbers.py:11 | the position found is the leftmost where the `+` pattern matches, or none when it matches nowhere |
| Patterns.NextSep | clean_duplicates_on_contacts.py:81 | the leftmost position from which the separator pattern matches, or the end of the text when it matches nowhere |
| Patterns.SplitFromSepFree | clean_duplicates_on_contacts.py:81 | no piece `re.split` cuts holds a separator match |
| Patterns.Pieces | clean_duplicates_on_contacts.py:81 | at least one piece, and no piece holds a separator match |
| Patterns.SepMatch | clean_duplicates_on_contacts.py:81 | a separator match exactly where `,` `\|` `/` `;` `:` or a tab stands (length 1), or where a run of two or more whitespace characters starts (the whole run) |
| Patterns.SpaceRun | clean_duplicates_on_contacts.py:81 | the greedy run of whitespace: all whitespace, and maximal |
| Patterns.SepsFromTokens | clean_duplicates_on_contacts.py:81 | every separator the split cuts out is a separator token |
| Patterns.SplitRebuilds | clean_duplicates_on_contacts.py:81 | one piece more than separators, and the pieces glued back with the separators cut out rebuild the text from the position on |
| Patterns.PiecesRebuild | clean_duplicates_on_contacts.py:81 | `re.split` of the whole text: the pieces glued with the separators give the text back, the pieces hold no separator and the separators are separator tokens |
| Patterns.BodyRunSpan | clean_duplicates_on_contacts.py:94 | the greedy run of digits, `-`, whitespace, parentheses and dots: all allowed characters, and maximal |
| Patterns.BodyRunAtLeast | clean_duplicates_on_contacts.py:94 | k body characters at a position give a run of at least k |
| Patterns.LastDigitFound | clean_duplicates_on_contacts.py:94 | the position found is the last digit in the range, or none when there is none |
| Patterns.LooseMatch | clean_duplicates_on_contacts.py:94 | a loose match is an optional `+`, a digit, at least six body characters and a final digit |
| Patterns.LooseMatchCovers | clean_duplicates_on_contacts.py:94 | every loose-shaped substring from the position ends within the match |
| Patterns.LooseMatchGreedy | clean_duplicates_on_contacts.py:94 | the match is the longest: no longer loose-shaped substring starts here, and none at all when there is no match |
| Patterns.LooseSearch | clean_duplicates_on_contacts.py:94 | the leftmost position from which the loose pattern matches, or none |
| Patterns.LooseHitsAreHits | clean_duplicates_on_contacts.py:94-96 | every hit `findall` returns for the loose pattern has the loose shape |
| Patterns.LooseHitsLeftmost | clean_duplicates_on_contacts.py:94-96 | no hits exactly when the pattern matches nowhere; otherwise the match at the leftmost position, then the hits after it, as `re.findall` scans |
| Patterns.LooseInPieces | clean_duplicates_on_contacts.py:95-96 | the hits are exactly the loose hits of the pieces: every hit comes from some piece and every piece's hits are listed |
| Patterns.LooseInPiecesAppend | clean_duplicates_on_contacts.py:95-96 | scanning one more piece appends that piece's hits |
| CleanDuplicates.PlusIsE164 | clean_duplicates_on_contacts.py:40-50 | `+` with at least 8 digits is an E.164 string whose digits are those digits |
| CleanDuplicates.MxNumber | clean_duplicates_on_contacts.py:45-49 | an MX number is `+`+digits, except that with the switch on, 12 digits from `52` but not `521` become `+521`+local |
| CleanDuplicates.NormalizePhone | clean_duplicates_on_contacts.py:31-71 | no result exactly when fewer than 8 digits. Any result is E.164. With the switch off, it is `+`+digits, or `+1`+digits for exactly 10 digits |
| CleanDuplicates.NormalizeStripped | clean_duplicates_on_contacts.py:37-71 | the same guarantees for the already-stripped cell |
| CleanDuplicates.NormalizeViaStrip | clean_duplicates_on_contacts.py:36-37 | normalising is stripping, then applying the rules |
| CleanDuplicates.NormalizePlus | clean_duplicates_on_contacts.py:40-50 | a `+` cell with at least 8 digits is US when the digits start `1`, MX when they start `52`, else INTL |
| CleanDuplicates.StrippedFixedPoint | clean_duplicates_on_contacts.py:40-50 | `+`+digits normalises to itself, with the tag read from its prefix |
| CleanDuplicates.NormalizeFixedPoint | clean_duplicates_on_contacts.py:40-50 | an E.164 string normalises to itself (unless the MX switch would rewrite it) |
| CleanDuplicates.StrippedNotRewritable | clean_duplicates_on_contacts.py:31-71 | no output of the normaliser is one the MX switch would rewrite again |
| CleanDuplicates.NormalizeIdempotent | clean_duplicates_on_contacts.py:31-71 | normalising a normalised number gives it back |
| CleanDuplicates.StrippedBareDigits | clean_duplicates_on_contacts.py:52-71 | without `+`: MX 12/13 from `52`, then US 11 from `1` or 10, then INTL from 8, else nothing, in that order |
| CleanDuplicates.NormalizeBareDigits | clean_duplicates_on_contacts.py:52-71 | the same ordered bare-digit rules for a raw cell |
| CleanDuplicates.HitsSpec | clean_duplicates_on_contacts.py:98-106 | the candidates are E.164 and unique; each comes from the earliest raw hit that yields it, in hit order; every normalisable hit is covered |
| CleanDuplicates.CandidatesSpec | clean_duplicates_on_contacts.py:73-106 | the same for the candidates of a non-empty text |
| CleanDuplicates.HitsPrefix | clean_duplicates_on_contacts.py:84-96 | candidates from earlier hit groups are never displaced by later ones |
| CleanDuplicates.CandidatesPlusFirst | clean_duplicates_on_contacts.py:84-85 | the candidates begin with those from the explicit `+` hits |
| CleanDuplicates.HitGivesCandidate | clean_duplicates_on_contacts.py:84-106 | every hit that normalises contributes its number to the candidates |
| CleanDuplicates.PlusWindowCandidate | clean_duplicates_on_contacts.py:84-106 | `Candidates` misses no `+` match: the window `+` and 8 to 15 digits at any position where the pattern matches is a candidate number as it stands |
| CleanDuplicates.RunCandidate | clean_duplicates_on_contacts.py:84-106 | every qualifying MX or US digit run normalises, and its number is a candidate |
| CleanDuplicates.ExtractPhoneCandidates | clean_duplicates_on_contacts.py:73-106 | the loop returns `Candidates` (the hits of `RawHits` normalised, first per number), which are unique and E.164 |
| CleanDuplicates.GatherHits | clean_duplicates_on_contacts.py:81-96 | the hit-gathering loop returns `RawHits`: the hits in the fixed group order `+`, MX, US, loose |
| CleanDuplicates.ColumnE164 | clean_duplicates_on_contacts.py:118-121 | every candidate of a column is E.164 |
| CleanDuplicates.ChooseFirstMobile | clean_duplicates_on_contacts.py:117-124 | the first mobile-labelled column with candidates gives the answer: its first candidate |
| CleanDuplicates.ChooseNoMobile | clean_duplicates_on_contacts.py:125-128 | without a mobile column with candidates, the first column with candidates gives the answer |
| CleanDuplicates.ChooseKeeps | clean_duplicates_on_contacts.py:125-126 | once a fallback is held and no mobile column follows, it is the answer |
| CleanDuplicates.ChooseEmpty | clean_duplicates_on_contacts.py:128 | with no candidates anywhere the answer is the fallback held (none at the start) |
| CleanDuplicates.ChooseFrom | clean_duplicates_on_contacts.py:108-128 | the answer is the fallback or the first candidate of some column |
| CleanDuplicates.BestNumberIsE164 | clean_duplicates_on_contacts.py:108-128 | the chosen number is E.164 |
| CleanDuplicates.Columns | clean_duplicates_on_contacts.py:108-128 | `BestNumber` scans the six phone columns, in order |
| CleanDuplicates.ColumnAt | clean_duplicates_on_contacts.py:108-128 | the i-th column scanned is the i-th phone column with its label and candidates |
| CleanDuplicates.ChooseStep | clean_duplicates_on_contacts.py:118-128 | one step of the column loop: skip a column without candidates, return at a mobile one, otherwise remember the first candidate seen |
| CleanDuplicates.PickBestNumber | clean_duplicates_on_contacts.py:108-128 | the column loop computes the chosen number `BestNumber` |
| CleanDuplicates.Cleaned | clean_duplicates_on_contacts.py:160-173 | a row gives an output row exactly when it has a number; the output carries that number (E.164), the full name, WhatsApp, an empty OptIn and the number's country tag as the Country cell |
| CleanDuplicates.CleanContacts | clean_duplicates_on_contacts.py:159-173 | the main loop returns the first output row per phone |
| CleanDuplicates.CleanContactsSpec | clean_duplicates_on_contacts.py:159-173 | phones are unique; each output row comes from the earliest contact with that phone, in input order; no phone is lost; every row is E.164, WhatsApp and opt-in empty |
| CleanGoogle.MxAfterPrefix | clean_google_contacts.py:55-60 | a number after an international prefix starting `52` is MX, `+`+digits when the switch is off |
| CleanGoogle.NormalizeGoogle | clean_google_contacts.py:27-96 | no result exactly when there is no `00`/`011` prefix and fewer than 8 digits; any result is `+` followed by digits |
| CleanGoogle.GoogleStripped | clean_google_contacts.py:35-96 | the same for the already-stripped cell |
| CleanGoogle.PlusBranch | clean_google_contacts.py:38-50 | the `+` branch gives `+` followed by digits |
| CleanGoogle.GoogleDigitsOnly | clean_google_contacts.py:76-96 | the bare-digit rules give no result exactly when there are fewer than 8 digits |
| CleanGoogle.GoogleViaStrip | clean_google_contacts.py:33-35 | normalising is stripping, then applying the rules |
| CleanGoogle.GoogleBlank | clean_google_contacts.py:33-35 | an empty or whitespace-only cell gives nothing |
| CleanGoogle.GooglePlus | clean_google_contacts.py:38-50 | with the switch off, `+` and at least 8 digits gives `+`+digits, tagged by the raw prefix (`+52` MX, `+1` US, else INTL) |
| CleanGoogle.GoogleMxMobileOne | clean_google_contacts.py:43-49 | with the switch on, `+52` and 10 local digits (not `+521`) becomes `+521`+local |
| CleanGoogle.GoogleDoubleZero | clean_google_contacts.py:53-61 | `00` is dropped and the digits after it get `+`: MX from `52`, else INTL, with no length check |
| CleanGoogle.GoogleDoubleZeroAlone | clean_google_contacts.py:53-61 | `"00"` alone gives `"+"` |
| CleanGoogle.GoogleZeroOneOne | clean_google_contacts.py:66-74 | a leading `011` is dropped the same way |
| CleanGoogle.StrippedZeroOneOne | clean_google_contacts.py:66-74 | the `011` rule on the already-stripped cell |
| CleanGoogle.GoogleBareDigits | clean_google_contacts.py:76-96 | bare digits: US 11 from `1` or 10, then MX 12/13 from `52`, then INTL from 8, else nothing, in that order |
| CleanGoogle.NormalizersAgreeOnE164 | clean_google_contacts.py:38-50 | on a clean E.164 string both normalisers agree |
| CleanGoogle.NormalizersDisagreeOnSpacedPlus | clean_google_contacts.py:38-41 | on `"+ 52…"` the Google normaliser says INTL and the other says MX |
| CleanGoogle.CandLtOrder | clean_google_contacts.py:114 | the tuple order used by the sort is a strict total order |
| CleanGoogle.Score | clean_google_contacts.py:110 | the score is 2 exactly for a mobile/cell/móvil label, else 1 |
| CleanGoogle.MaxCand | clean_google_contacts.py:114-115 | the greatest candidate is one of them and no candidate exceeds it |
| CleanGoogle.MaxUnique | clean_google_contacts.py:114-115 | the greatest candidate is unique, so the sort's first element is determined |
| CleanGoogle.GoogleBest | clean_google_contacts.py:98-115 | nothing exactly when no column gives a candidate; else the greatest (score, e164, country) candidate |
| CleanGoogle.PickBestNumber | clean_google_contacts.py:98-115 | the column loop computes that choice |
| CleanGoogle.SortedFirst | clean_google_contacts.py:114-115 | the scan returns the greatest candidate |
| CleanGoogle.CleanedGoogle | clean_google_contacts.py:138-155 | a row gives an output row exactly when it has a number, with that number, the full name, WhatsApp, empty OptIn and the number's country tag as the Country cell |
| CleanGoogle.CleanContacts | clean_google_contacts.py:137-155 | the main loop returns the first output row per phone |
| CleanGoogle.CleanContactsSpec | clean_google_contacts.py:137-155 | phones are unique; each output row comes from the earliest contact with that phone, in order; none is lost; Channel WhatsApp and OptIn empty |
| FixLongNumbers.UsMatch | fix_long_numbers.py:8 | a 12-character match exactly when `+1` and 10 digits stand here, no match otherwise |
| FixLongNumbers.MxMatch | fix_long_numbers.py:10 | 13 or 14 characters when `+52`, an optional `1` and 10 digits stand here (14 when the `1` form fits), no match exactly when the 13-character form does not fit |
| FixLongNumbers.MatchAt | fix_long_numbers.py:8-11 | a match exactly when the window of that kind stands here; every match is `+` followed by 8 to 15 digits |
| FixLongNumbers.Search | fix_long_numbers.py:18-25 | the position found is the leftmost window of its kind, or none |
| FixLongNumbers.WindowIsPlus | fix_long_numbers.py:8-11 | a US or MX window is also a generic `+` window |
| FixLongNumbers.Found | fix_long_numbers.py:18-25 | none exactly when that kind of window stands nowhere; otherwise the window at the leftmost position where one stands, an E.164 string of at most 15 digits |
| FixLongNumbers.SearchNone | fix_long_numbers.py:18-25 | a failed search means no window of that kind stands anywhere |
| FixLongNumbers.SearchSome | fix_long_numbers.py:18-25 | a successful search stops at the leftmost window of that kind |
| FixLongNumbers.PickWindow | fix_long_numbers.py:13-29 | at most 15 digits: the stripped input. More: an E.164 string with at most 15 digits, either a substring of the input or `+` and its first 15 digits |
| FixLongNumbers.PickLong | fix_long_numbers.py:18-29 | the same guarantee for the long case |
| FixLongNumbers.PickWindowShort | fix_long_numbers.py:13-29 | the result has at most 15 digits |
| FixLongNumbers.PickWindowIdempotent | fix_long_numbers.py:13-29 | picking twice is picking once |
| FixLongNumbers.SearchFirst | fix_long_numbers.py:18 | the search finds a window no later than any known one |
| FixLongNumbers.PickLongUs | fix_long_numbers.py:18-19 | when any US window exists, the result is the leftmost US window, even if an MX window comes earlier |
| FixLongNumbers.PickWindowPrefersUs | fix_long_numbers.py:18-19 | the same for a raw cell |
| FixLongNumbers.PickLongFallback | fix_long_numbers.py:27-29 | without any `+` window the result is `+` and the first 15 digits |
| FixLongNumbers.PickLongTiers | fix_long_numbers.py:18-29 | US first, then MX, then any `+` window (each the leftmost of its kind), then `+` and the first 15 digits |
| FixLongNumbers.PickWindowTiers | fix_long_numbers.py:13-29 | the same four tiers for a raw cell of more than 15 digits |
| FixLongNumbers.PickWindowFallback | fix_long_numbers.py:27-29 | the same for a raw cell |
| FixLongNumbers.CountryOf | fix_long_numbers.py:31-34 | US exactly for a `+1` prefix, MX exactly for `+52`, else INTL |
| FixLongNumbers.CountryOfAgrees | fix_long_numbers.py:31-34 | on an E.164 string the tag agrees with the other normaliser's |
| FixLongNumbers.PrefixTags | fix_long_numbers.py:31-34 | on an E.164 string the tag is read from the leading digits |
| FixLongNumbers.FixRow | fix_long_numbers.py:40-46 | a row is dropped exactly when its phone is blank. Otherwise only Phone_E164 (the picked window) and Country (its tag) change |
| FixLongNumbers.FixLongNumbers | fix_long_numbers.py:36-53 | the two loops return the first fixed row per phone |
| FixLongNumbers.FixLongNumbersSpec | fix_long_numbers.py:36-53 | phones are unique; each row is the earliest fixed row with its phone, in order; none is lost; every Country matches its phone |
| PrepareLists.SepRun | prepare_contact_lists.py:18 | the greedy run of whitespace and commas: all separators, and maximal |
| PrepareLists.HonorificMatch | prepare_contact_lists.py:18 | a match is the honorific in any case, an optional dot and the whole following run of separators; a present honorific followed by a separator, directly or after a dot, is matched |
| PrepareLists.HonorificFrom | prepare_contact_lists.py:18 | the match of the first alternative that matches, or 0 exactly when none does |
| PrepareLists.HonorificLength | prepare_contact_lists.py:18 | the match of the first honorific of the list that matches, or 0 exactly when none does |
| PrepareLists.CommaAt | prepare_contact_lists.py:21-22 | the position found is the first comma, or the end |
| PrepareLists.SpaceAt | prepare_contact_lists.py:25 | the position found is the first whitespace at or after the start, or the end |
| PrepareLists.NonSpaceAt | prepare_contact_lists.py:25 | the position found is the first non-whitespace at or after the start, or the end |
| PrepareLists.FirstToken | prepare_contact_lists.py:25-29 | the first whitespace-delimited token: only whitespace before it, whitespace or the end after it, no whitespace in it, and empty exactly for a blank text |
| PrepareLists.FirstLetter | prepare_contact_lists.py:32 | the position found is the first listed letter, or the end |
| PrepareLists.EndLetter | prepare_contact_lists.py:32 | the position found is just after the last listed letter |
| PrepareLists.TrimToLetters | prepare_contact_lists.py:32 | the token from its first to its last name letter: only non-letters are cut from either end, and it is empty exactly when there is no letter |
| PrepareLists.NamePart | prepare_contact_lists.py:18-22 | the text after the honorific, cut before its first comma and stripped when it has one, whole otherwise |
| PrepareLists.DeriveFirstName | prepare_contact_lists.py:8-33 | "" for an empty or number-like name. Otherwise "" or a string starting and ending with a listed letter. Never any whitespace or comma |
| PrepareLists.HonorificDr | prepare_contact_lists.py:18 | "Dr. " before a word is removed as one honorific |
| PrepareLists.DeriveFirstNameSteps | prepare_contact_lists.py:8-33 | for a trimmed non-number name, the result is the letters of the first token of the part before any comma |
| PrepareLists.NamePartAfterDr | prepare_contact_lists.py:18-22 | after "Dr. ", a comma-free rest is kept whole |
| PrepareLists.TokenOfWord | prepare_contact_lists.py:25-32 | a word of letters followed by whitespace is the first name |
| PrepareLists.TokenOfWordDot | prepare_contact_lists.py:25-32 | a trailing dot is trimmed off the word |
| PrepareLists.DeriveFirstNameDrTail | prepare_contact_lists.py:11-32 | after "Dr. " the result is the letters of the first token of the rest |
| PrepareLists.DeriveFirstNameAfterDr | prepare_contact_lists.py:8-33 | "Dr. Juan Perez" gives "Juan": only the one honorific is removed |
| PrepareLists.DeriveFirstNameOneHonorific | prepare_contact_lists.py:8-33 | "Dr. Ing. Perez" gives "Ing": a second honorific is not removed |
| PrepareLists.BuildGreetingName | prepare_contact_lists.py:35-39 | the greeting is never empty: the first name if present, else "amig@" |
| PrepareLists.Enriched | prepare_contact_lists.py:57-63 | only FirstName and GreetingName are set: the derived name of the stripped Name, and the greeting built from it ("amig@" for an empty first name) |
| PrepareLists.SmsCopy | prepare_contact_lists.py:77-78 | the copy differs from the row only in Channel, which is "SMS" |
| PrepareLists.PrepareLists | prepare_contact_lists.py:50-79 | header gains FirstName/GreetingName only when missing; every row is enriched in place; WhatsApp and SMS lists are the filter-maps of the enriched rows |
| PrepareLists.WhatsAppSplit | prepare_contact_lists.py:72 | the WhatsApp list is exactly the enriched rows whose stripped, lower-cased Channel is "whatsapp", in order |
| PrepareLists.SmsSplit | prepare_contact_lists.py:74-79 | the SMS list is exactly the US/MX rows, in order, each copied with Channel "SMS" |
| ChannelLists.HeaderOrBase | make_channel_lists.py:17 | a file's own header is used when it has one, else the base columns |
| ChannelLists.WriteFieldsSpec | make_channel_lists.py:20-25 | the given fields are an in-order prefix; missing base columns are appended in order; all base columns present; no duplicates introduced |
| ChannelLists.WriteFieldsOfBase | make_channel_lists.py:22-25 | the base header is kept as it is |
| ChannelLists.WithDefaults | make_channel_lists.py:37-39 | a missing Channel or OptIn becomes ""; existing cells are untouched |
| ChannelLists.WithChannel | make_channel_lists.py:44-45 | the copy differs from the row only in Channel |
| ChannelLists.ForceChannel | make_channel_lists.py:42-53 | the list has the rows' length and order, each row with Channel forced, and the rows are unchanged |
| ChannelLists.MakeChannelLists | make_channel_lists.py:32-56 | rows get their defaults in place; the header is merged with the base columns; both lists are same-order copies differing only in Channel |
| SendMessages.FirstName | send_messages.py:37-39 | the first non-empty of GreetingName, FirstName, Name, else "friend", stripped |
| SendMessages.FirstNameEmpty | send_messages.py:39 | the name is empty exactly when the cell chosen is non-empty but all whitespace |
| SendMessages.ToWhatsAppAddr | send_messages.py:41-43 | the address is "whatsapp:" followed by the number |
| SendMessages.PersonalizeSpec | send_messages.py:60-62 | the template splits at every "{{name}}" into token-free pieces, and the result joins them with the name |
| SendMessages.PersonalizeWithoutToken | send_messages.py:60-62 | a template without the token is sent unchanged |
| SendMessages.PhoneOf | send_messages.py:116 | Phone_E164 when non-empty, else Phone |
| SendMessages.Compose | send_messages.py:114-148 | no message exactly when the row has no phone; the message carries its index, goes to the phone (SMS) or its WhatsApp address, and its body is the SMS text or the filled template for the row's first name |
| SendMessages.StartOf | send_messages.py:109 | the start is the larger of `start_from` and 0: `start_from` itself when it is not negative, 0 when it is |
| SendMessages.EndOf | send_messages.py:110 | the end is the total, or `start + limit` when that is smaller |
| SendMessages.WindowBounds | send_messages.py:109-113 | a non-empty window lies inside the rows; at most `limit` rows are visited; without a limit, all rows from start |
| SendMessages.ComposeAtSpec | send_messages.py:113-119 | each message is labelled with its row; a row yields one exactly when it has a phone |
| SendMessages.CollectOrdered | send_messages.py:113-119 | messages are attempted in increasing index order, only within the window, no more than the rows visited |
| SendMessages.CollectHas | send_messages.py:113-119 | every row in the window with a message is attempted |
| SendMessages.CollectComplete | send_messages.py:113-119 | a row in the window is attempted exactly when it yields a message |
| SendMessages.AttemptsOrdered | send_messages.py:113-119 | attempts are in increasing index order, inside the window, for rows with a phone |
| SendMessages.AttemptsComplete | send_messages.py:116-119 | a row in the window is attempted exactly when it has a phone |
| SendMessages.Delivered | send_messages.py:150-155 | the count of sends that did not raise is at most the attempts |
| SendMessages.DeliveredStep | send_messages.py:150-155 | one more attempt adds one to `sent` exactly when its send did not raise |
| SendMessages.SentBound | send_messages.py:107-157 | `sent` never exceeds the rows visited, nor `limit` when one is given |
| SendMessages.SendRange | send_messages.py:113-155 | the loop attempts exactly the collected messages and counts those that did not raise |
| SendMessages.SendRows | send_messages.py:105-157 | `main`'s loop: start, end, the attempted messages and `sent` as specified |
| FundraiserBot.IsSpanishOfLower | 2025_Andree_Fundraiser_MartinHS_Band.py:45-51 | the Spanish test ignores case |
| FundraiserBot.IsSpanishExtend | 2025_Andree_Fundraiser_MartinHS_Band.py:45-51 | a Spanish text stays Spanish inside a longer message |
| FundraiserBot.SkipSpaces | 2025_Andree_Fundraiser_MartinHS_Band.py:73-105 | the position found is the first non-whitespace, with only whitespace skipped |
| FundraiserBot.SearchFrom | 2025_Andree_Fundraiser_MartinHS_Band.py:107-108 | the search succeeds exactly when the phrase occurs as whole words at some position |
| FundraiserBot.MatchAny | 2025_Andree_Fundraiser_MartinHS_Band.py:107-108 | a pattern list matches exactly when one of its phrases occurs as whole words |
| FundraiserBot.FirstIntentSpec | 2025_Andree_Fundraiser_MartinHS_Band.py:111-145 | the intent found is the first in order that matches, and none exactly when none matches |
| FundraiserBot.DeadlineSms | 2025_Andree_Fundraiser_MartinHS_Band.py:128-133 | goal and deadline are quoted in both languages only when both are set; otherwise the plain donate answer |
| FundraiserBot.DeadlineWhatsApp | 2025_Andree_Fundraiser_MartinHS_Band.py:182-200 | goal quoted when set, deadline also when both are set, otherwise the "anytime" answer |
| FundraiserBot.Answer | 2025_Andree_Fundraiser_MartinHS_Band.py:111-219 | an answer exactly when an intent was found, in Spanish exactly when the text is Spanish |
| FundraiserBot.BuildPrompt | 2025_Andree_Fundraiser_MartinHS_Band.py:258-267 | the "very short" style follows the head exactly for SMS, "short" otherwise; the user's text occurs in the prompt |
| FundraiserBot.SmsCap | 2025_Andree_Fundraiser_MartinHS_Band.py:317-318 | at most 160 characters; short answers unchanged; long ones are their first 157 characters and "..." |
| FundraiserBot.SmsCapIdempotent | 2025_Andree_Fundraiser_MartinHS_Band.py:317-318 | capping twice is capping once |
| FundraiserBot.Respond | 2025_Andree_Fundraiser_MartinHS_Band.py:296-323 | blank body: start prompt. Else a non-empty canned answer, else the (SMS-capped) model answer, else the apology. Non-canned SMS replies fit 160 characters |
| Contacts.GetSet | clean_duplicates_on_contacts.py:118 | `row.get(key, "")`, modelled by `Get`: a cell reads back what was written, and writing one cell leaves the others alone |
| Contacts.NonEmpty | clean_duplicates_on_contacts.py:134 | the non-empty names, and all of them |
| Text.Replace | send_messages.py:62 | replacing a token by itself changes nothing, and replacing it by one of equal length keeps the length |
| Text.Split | send_messages.py:62 | at least one piece, and the whole text when it is shorter than the separator |
| SendMessages.PersonalizeTemplate | send_messages.py:60-62 | the template's token-free pieces joined by the name; a template without `{{name}}` is unchanged |
| SendMessages.CollectStep | send_messages.py:113-148 | the loop appends the message of the next row exactly when there is one |
| PrepareLists.WithNames | prepare_contact_lists.py:57-63 | the loop body sets FirstName and its greeting and leaves every other cell alone |
| PrepareLists.WhatsAppCells | prepare_contact_lists.py:72 | the WhatsApp filter `IsWhatsApp` takes rows whose Channel is "WhatsApp" (with surrounding whitespace) and leaves "SMS" rows out |
| PrepareLists.SmsCountryCells | prepare_contact_lists.py:76 | the SMS filter `IsSmsCountry` takes "US" and "MX" rows and leaves "INTL" rows out |
| FundraiserBot.IsSpanish | 2025_Andree_Fundraiser_MartinHS_Band.py:45-51 | an inverted question or exclamation mark makes a text Spanish, and the empty text is not |
| FundraiserBot.LowerKeepsMark | 2025_Andree_Fundraiser_MartinHS_Band.py:45-51 | a mark that lower-casing keeps is still found after lower-casing |
| FundraiserBot.FaqRouter | 2025_Andree_Fundraiser_MartinHS_Band.py:64-221 | no answer exactly when no intent matches the stripped, lower-cased text; otherwise the answer of the first matching intent in the fixed order, Spanish when the text is Spanish |
| FundraiserBot.FaqRouterOfStripped | 2025_Andree_Fundraiser_MartinHS_Band.py:69 | the router strips the text itself, so stripping first changes nothing |
| FundraiserBot.SmsAnswersFit | 2025_Andree_Fundraiser_MartinHS_Band.py:110-145 | every SMS answer fits 160 characters when the link leaves room for the longest fixed text and the goal, date and link for the deadline sentence |
| FundraiserBot.DeadlineSmsLength | 2025_Andree_Fundraiser_MartinHS_Band.py:128-133 | the SMS deadline answers are their fixed text plus the goal, date and link |
| FundraiserBot.SmsAnswersLinkBound | 2025_Andree_Fundraiser_MartinHS_Band.py:110-114 | the link bound is tight: one character more and the Spanish purpose answer exceeds 160 |
| FundraiserBot.FiveParts | 2025_Andree_Fundraiser_MartinHS_Band.py:258-267 | where the style, middle and user text sit in a prompt of five parts |
| FundraiserBot.Webhook | 2025_Andree_Fundraiser_MartinHS_Band.py:270-323 | both webhooks: a blank body gets the start prompt; the router's non-empty answer is sent exactly when there is one; else the (SMS-capped) model answer or the apology; non-canned SMS replies fit 160 characters |
| FundraiserBot.RespondBlank | 2025_Andree_Fundraiser_MartinHS_Band.py:300-305 | a blank body is never routed: neither the router nor the model changes the reply |

## Left out

- File and CSV input/output: reading, delimiter sniffing, writing, the header row, prints, argument parsing and exit codes. Rows are in-memory maps from column name to cell text.
- The Twilio client and every send; `ask_openai` with its retries and back-off; the Flask application and TwiML building. These are network calls. Whether a send raised is a parameter (`raised`); the model's answer, or `None` when it failed, is a parameter of `Respond`.
- Environment variables and `fmt_deadline`'s date parsing. The URL, goal and formatted deadline are given strings in `Config`.
- The delays between sends (floating-point seconds and sleeping).
- Python `None` cells from `csv.DictReader`: a missing or `None` cell reads as "". Most reads in the scripts write `or ""` and agree with this.
- CleanGoogle.GoogleBest: clean_google_contacts.py:104 reads a phone cell with `row.get(col, "").strip()` and no `or ""`, so a `None` cell (a short CSV row) raises `AttributeError` there; the model reads it as "" and carries on, so that crash is not modelled.
- FixLongNumbers.FixRow: fix_long_numbers.py:40 reads the phone with `row.get("Phone_E164", "").strip()` and no `or ""`, so a `None` cell (a short CSV row) raises `AttributeError` there; the model reads it as "" and drops the row, so that crash is not modelled.
- Unicode digits: `isdigit` and `\d` are modelled as ASCII `0`–`9`.
- `\w` and `lower` beyond Latin-1: they are modelled for ASCII and Latin-1 letters only; other characters are left as they are and count as non-word characters.
- Text.Upper: modelled for ASCII and Latin-1 (with the sharp s, y-diaeresis and the micro sign), the dotless i and the long s; other characters, including the other letters that Python upper-cases to more than one character, are left as they are.
- `IGNORECASE` special case folds: the honorific match folds with `Lower` plus the dotless i, the dotted capital I and the long s (`FoldChar`); other special folds, such as the Kelvin sign matching `k`, are not modelled.
- Regular-expression engines: each pattern is a hand-written scanner for that one pattern. The FAQ patterns become lists of whole-word phrases separated by whitespace; their character classes and alternations become one phrase per choice.
- CleanGoogle.SortedFirst: the in-place `sort(reverse=True)` followed by taking element 0 is modelled as a scan for the maximum under the same tuple order, so the order of the other elements after sorting is not modelled.
- The aliasing of row dictionaries: the in-place updates of prepare_contact_lists.py and make_channel_lists.py are modelled on array cells, and the copies as new map values.
- FixLongNumbers.PickLong: the `else s` branch of the last resort is kept as written, but it cannot be reached once more than 15 digits are present, and no lemma is about it.
- SendMessages.SendRows: the SMS body and the WhatsApp template are parameters (`smsBody`, `waTemplate`); the `str.format` fill of the SMS body is part of that parameter. Whether a send raised is looked up by the message's own row index. The final printed counts are not modelled.
- FundraiserBot.Answer: the canned answer tables are modelled in full, but the contract does not state that each is non-empty or that the English and Spanish texts differ.
- ChannelLists.MakeChannelLists: `write_rows` merges the header once per file; the model computes it once, since both files get the same header.
