# Résumé page derivations, modelled in Dafny

The résumé page is a single React component (`src/App.tsx`) that renders a
profile held in `src/constants.ts`. Besides markup, it does a few small
computations, and this project models exactly those:

- **Period labels.** `parseYearFast` finds the first `19xx`/`20xx` year in a
  label and turns it into the UTC timestamp of 1 January of that year.
  `extractPeriodRange` turns a label like `2021–2023` or `2020-2020` into a
  `{start, end}` range. `0` stands for "no year".
- **Timeline order.** `sortedExperiences` is a copy of the experiences,
  sorted stably so the latest end comes first.
- **Years-of-experience summary.** `experienceSummary` finds the earliest
  positive start and measures the time since then. That time falls into
  one of four tiers: Júnior, Pleno, Sênior, Especialista.
- **Avatar initials.** `profileInitials` gives the initials shown when
  there is no photo.
- **Component state.** The one-shot `visible` flag of `useReveal`, and the
  animation-frame guard of `useRafScrollProgress`.
- **Style lookups.** The `languageMeta` and `contactMeta` tables, each with
  its `default` fallback.
- **Shipped data.** The profile data shipped in `src/constants.ts`, used as
  concrete instances.

Layout, one module per file:

| file | module | contents |
|---|---|---|
| `wrappers.dfy` | `Wrappers` | `Option` |
| `text.dfy` | `Text` | Character classes (ECMAScript whitespace, ASCII `\w`, the dash class `[–-]`); `split` on a character class with its inverse; `trim`; `map`; `filter(Boolean)` |
| `calendar.dfy` | `Calendar` | `Date.UTC(y, 0, 1)` in integer arithmetic: Gregorian leap rule, days since 1970 times 86 400 000 |
| `periods.dfy` | `Periods` | The year regex, `parseYearFast`, `extractPeriodRange` |
| `sorting.dfy` | `Sorting` | The stable descending sort: functional specification `SortDesc`, its properties, and an in-place insertion sort on an `array` proved against it |
| `experiences.dfy` | `Experiences` | Experience entries, the newest-first copy-and-sort, the summary and its tiers |
| `initials.dfy` | `Initials` | `profileInitials` |
| `hooks.dfy` | `Hooks` | `Reveal` and `ScrollProgress`, as classes whose methods are the events |
| `constants.dfy` | `Constants` | The two style tables with their lookups, and the shipped profile with lemmas about it |

Modelling choices:

- **Time.** `Date.now()` is a parameter `now`. Timestamps are unbounded
  integers of milliseconds. `MS_YEAR` is exactly 31 557 600 000.
- **Tier thresholds.** The source compares `totalYears`, a float quotient,
  against 10, 6 and 3. The model compares the elapsed milliseconds against
  10, 6 and 3 times `MS_YEAR`. Both operands are integers below 2^53, and a
  correctly rounded quotient cannot cross an integer threshold it does not
  exactly reach, so both comparisons give the same answer.
- **Strings.** A string is a sequence of Unicode scalar values.
  - Whitespace is the full ECMAScript WhiteSpace plus LineTerminator set;
    `trim` and `\s` use the same set.
  - `\b` and `\d` follow the regex without the `u` flag: ASCII word
    characters and ASCII digits.
- **Splitting the name.** `name.split(/\s+/)` is modelled as a split at
  every whitespace character. The empty pieces this adds between adjacent
  spaces are dropped by the `filter(Boolean)` that follows.
- **The sort.** `Array.prototype.sort` is stable, so its result is
  determined. `Sorting.SortDescIsTheStableSort` proves that any
  non-increasing ordering which keeps each group of equal keys in input
  order is `SortDesc`. An insertion sort therefore models the platform's
  sort exactly.
- **Sentinel collision.** The 1970 label collides with the "no year" value
  `0`, and labels before 1970 give negative starts. Both are reproduced as
  written, and lemmas show what they do to the summary.

## Model

| member | source | states |
|---|---|---|
| Text.IsWhitespace | src/App.tsx:34 | The `\s` and `trim` set: the ECMAScript WhiteSpace and LineTerminator characters |
| Text.IsDash | src/App.tsx:33 | The class `[–-]`: the en dash U+2013 and the hyphen-minus |
| Text.IsDigit | src/App.tsx:16 | `\d` without the `u` flag: the ASCII digits 0-9 |
| Text.IsWordChar | src/App.tsx:16 | The word characters that `\b` looks at: ASCII letters, digits and the underscore |
| Text.Split | src/App.tsx:33 | `split(/[–-]/)` yields one piece more than there are separator characters |
| Text.SplitInverse | src/App.tsx:33 | Gluing the pieces back with the separators gives the label back, and no piece holds a separator |
| Text.SplitWithoutSeparator | src/App.tsx:33 | A label without a dash is a single piece |
| Text.SplitAtSeparator | src/App.tsx:33 | A dash between two texts splits exactly there: the pieces are those of the left text followed by those of the right |
| Text.SplitAllEmpty | src/App.tsx:220-221 | Every piece is empty exactly when every character is a separator |
| Text.SkipWhitespace | src/App.tsx:34 | The leading scan of `trim` stops at the first non-whitespace character, or at the end, having passed only whitespace |
| Text.SkipWhitespaceBack | src/App.tsx:34 | The trailing scan of `trim` stops after the last non-whitespace character, or at its lower bound, having passed only whitespace |
| Text.Trim | src/App.tsx:34 | `part.trim()`: a non-empty result starts and ends with non-whitespace |
| Text.TrimSpec | src/App.tsx:34 | The trimmed piece is an infix of the input, and everything before it and everything after it is whitespace |
| Text.TrimEmpty | src/App.tsx:34-35 | A piece trims to the empty string exactly when it is all whitespace |
| Text.TrimTight | src/App.tsx:34 | A piece with non-whitespace ends is its own trim |
| Text.MapAll | src/App.tsx:34 | `map` keeps the length and applies the function to each element in place |
| Text.MapAllAppend | src/App.tsx:34 | `map` distributes over concatenation |
| Text.NonEmpty | src/App.tsx:35 | `filter(Boolean)` keeps exactly the non-empty pieces, and no more of them than there were |
| Text.NonEmptyAppend | src/App.tsx:35 | `filter(Boolean)` distributes over concatenation |
| Text.NonEmptyNone | src/App.tsx:35-36 | The filter drops everything exactly when every piece is empty |
| Calendar.MsPerYear | src/App.tsx:17 | `MS_YEAR`, 1000 · 60 · 60 · 24 · 365.25 = 31 557 600 000 ms, an exact integer |
| Calendar.IsLeapYear | src/App.tsx:25 | The proleptic Gregorian leap rule that `Date.UTC` applies: divisible by 4, and not by 100 unless by 400 |
| Calendar.YearStart | src/App.tsx:25 | `Date.UTC(year, 0, 1)`: the days from 1970 to 1 January of the year times 86 400 000 ms; EpochYear and YearLength pin it down |
| Calendar.YearLength | src/App.tsx:25 | Consecutive 1 January timestamps are 366 days apart after a leap year and 365 days apart otherwise |
| Calendar.EpochYear | src/App.tsx:25 | `Date.UTC(1970, 0, 1)` is 0, the same value as "no year" |
| Calendar.YearStartIncreasing | src/App.tsx:25 | A later year starts strictly later |
| Calendar.YearStartMonotone | src/App.tsx:25 | Year starts are ordered exactly as the years are, in both directions |
| Calendar.YearStartSign | src/App.tsx:25 | A year's start is positive exactly after 1970, and zero exactly at 1970 |
| Calendar.KnownYearStarts | src/App.tsx:25 | `Date.UTC` values for 2017, 2020, 2025 and 1900 |
| Periods.PeriodRange | src/App.tsx:28 | The `{ start, end }` pair of millisecond timestamps |
| Periods.YearAt | src/App.tsx:16 | `/\b(19\|20)\d{2}\b/` matches at index i: no word character before it, 19 or 20, two more digits, no word character after |
| Periods.YearValue | src/App.tsx:16 | A match of `(19\|20)\d{2}` denotes a year from 1900 to 2099 |
| Periods.FindYear | src/App.tsx:16-20 | The regex search returns the leftmost boundary-delimited match at or after the start index, or reports that there is none |
| Periods.ParseYear | src/App.tsx:19-26 | `parseYearFast` is 0 when no boundary-delimited `19dd`/`20dd` occurs; otherwise it is `Date.UTC(y, 0, 1)` for the leftmost occurrence; its value is always 0 or such a year start |
| Periods.Segments | src/App.tsx:32-35 | The split, trimmed, non-empty pieces of the label; SegmentsTrimmed states their shape |
| Periods.SegmentsTrimmed | src/App.tsx:32-35 | Every segment is non-empty and starts and ends with a non-whitespace character |
| Periods.ExtractPeriodRange | src/App.tsx:30-46 | Each bound of the range is either 0 or the 1 January start of a year from 1900 to 2099 |
| Periods.YearTextRoundTrip | src/App.tsx:16-21 | A four-digit year written out is matched at index 0 and read back as the same year |
| Periods.ParseYearEmbedded | src/App.tsx:16-26 | Text around a year does not matter as long as it holds no earlier match and keeps the word boundaries: "Experiência 2021" gives the start of 2021 |
| Periods.NoDigitsNoYear | src/App.tsx:20-21 | A text without ASCII digits gives 0 |
| Periods.BlankLabel | src/App.tsx:31-36 | An absent label, or one made only of dashes and whitespace (such as "–" or " - "), gives {0, 0} |
| Periods.RangeBySegments | src/App.tsx:31-45 | The range of a label depends only on its segments: labels with equal segments get equal ranges |
| Periods.LeadingBlankPiece | src/App.tsx:32-45 | A blank piece before the first dash is dropped: the label without it has the same segments and the same range ("–2019–2021" reads as "2019–2021") |
| Periods.TrailingBlankPiece | src/App.tsx:32-45 | A blank piece after the last dash is dropped the same way ("2019 – 2021 – " reads as "2019 – 2021") |
| Periods.SinglePiece | src/App.tsx:38-41 | A label without a dash whose trim is non-empty gives start = end = the year parsed from the trimmed label |
| Periods.FramedSplit | src/App.tsx:33 | Splitting "first–middle–last" at dashes, with no dash in first or last, gives first, then the pieces of middle, then last |
| Periods.FramedSegments | src/App.tsx:32-35 | The segments of "first–middle–last", with non-blank dash-free ends, are the trimmed first piece, the segments of middle, and the trimmed last piece |
| Periods.PairSegments | src/App.tsx:32-35 | The segments of "first–last", with no dash in either piece, are the non-empty ones among the two trimmed pieces |
| Periods.FirstAndLastPieces | src/App.tsx:32-45 | For a label first–middle–last, the middle pieces are ignored: only the first and last pieces decide the range |
| Periods.TwoPieces | src/App.tsx:32-45 | A label a–b, with both pieces non-blank, ranges from the year parsed from a to the year parsed from b |
| Periods.YearRangeLabel | src/App.tsx:30-46 | "yyyy–yyyy" and "yyyy-yyyy" give the two years' 1 January starts |
| Periods.ParseYearText | src/App.tsx:19-26 | A year 1900..2099 written alone parses to its own 1 January start |
| Periods.SingleYearLabel | src/App.tsx:38-41 | A bare year gives a one-year range |
| Periods.OpenEndedLabel | src/App.tsx:32-41 | An open-ended label "yyyy–" or "yyyy-" has one segment and gives start = end = the start of the year |
| Periods.OpenStartLabel | src/App.tsx:32-41 | A label "–yyyy" likewise gives start = end = the start of the year |
| Periods.ThreeYearLabel | src/App.tsx:43-45 | "a–b–c" ranges from a to c |
| Periods.ParseYearExamples | src/App.tsx:19-26 | "Experiência 2021–2023" gives the start of 2021 |
| Periods.NoYearExample | src/App.tsx:20-21 | "abc" gives 0 |
| Periods.HyphenRangeExample | src/App.tsx:30-46 | "2018-2020" gives the starts of 2018 and 2020 |
| Periods.SingleYearExample | src/App.tsx:30-41 | "2025" gives the 2025 start twice; "" gives {0, 0} |
| Periods.ThreePieceExample | src/App.tsx:43-45 | "2019–2021–2023" ranges from 2019 to 2023 |
| Periods.EpochCollisionExample | src/App.tsx:25 | "1970–1975" starts at 0, the "no year" value |
| Sorting.InsertDesc | src/App.tsx:212-215 | Inserting one element lengthens the sorted prefix by one |
| Sorting.SortDesc | src/App.tsx:212-215 | The sort keeps the length |
| Sorting.InsertDescPermutes | src/App.tsx:212-215 | Insertion adds exactly the inserted element to the multiset |
| Sorting.InsertDescSorted | src/App.tsx:212-215 | Insertion keeps a non-increasing sequence non-increasing |
| Sorting.InsertDescWithKey | src/App.tsx:212-215 | Insertion appends the element to the end of its key's group and leaves the other groups alone |
| Sorting.InsertDescAt | src/App.tsx:212-215 | Inserting x lands it at the index j below which every key is at least key(x) and from which every key is smaller: the result is p[..j] + [x] + p[j..] |
| Sorting.SortDescSorted | src/App.tsx:212-215 | The result is non-increasing in key |
| Sorting.SortDescPermutes | src/App.tsx:212-215 | The result is a permutation of the input |
| Sorting.SortDescStable | src/App.tsx:212-215 | For every key, the elements with that key appear in their input order |
| Sorting.SortDescSpec | src/App.tsx:212-215 | The comparator `b.end - a.end` orders by non-increasing key; the result is a permutation of the input; each group of equal keys keeps its input order (stability) |
| Sorting.SortDescOfSorted | src/App.tsx:212-215 | Input that is already newest first comes back unchanged |
| Sorting.WithKeyNonEmpty | src/App.tsx:212-215 | A key's group is non-empty exactly when some element has that key |
| Sorting.StableSortUnique | src/App.tsx:212-215 | Two non-increasing sequences with the same group for every key are equal |
| Sorting.SortDescIsTheStableSort | src/App.tsx:212-215 | Any non-increasing order that keeps each group in input order, which is what a stable sort returns, is `SortDesc` |
| Sorting.InsertAt | src/App.tsx:214 | One step of the in-place sort: the prefix up to i becomes the insertion of a[i] into the sorted prefix; the rest of the array is untouched |
| Sorting.SortInPlace | src/App.tsx:214 | `.sort(...)` on the array leaves it equal to `SortDesc` of its old contents |
| Experiences.SortedExperiences | src/App.tsx:212-215 | `[...experiences].sort(...)`: a fresh array holding `SortDesc` of the experiences by end; the input array is unchanged |
| Experiences.NewestFirst | src/App.tsx:212-215 | The timeline is non-increasing in end, a permutation of the entries, and stable. Entries whose end is not positive (no year, 1970, or earlier) come after all entries with a positive end |
| Experiences.Range | src/App.tsx:214 | `extractPeriodRange(exp.period)` of one entry |
| Experiences.End | src/App.tsx:214 | The comparator key: the end of the entry's range |
| Experiences.TierOf | src/App.tsx:244-247 | Especialista exactly from 10 years of elapsed time; Sênior exactly from 6 up to 10; Pleno exactly from 3 up to 6; Júnior below 3. Each lower bound is inclusive, and a year is 31 557 600 000 ms |
| Experiences.TierName | src/App.tsx:244-247 | The four tier names "Júnior", "Pleno", "Sênior" and "Especialista" |
| Experiences.TierNamesDistinct | src/App.tsx:244-247 | Different tiers have different names, so the label tells the tier |
| Experiences.TierMonotone | src/App.tsx:244-247 | More elapsed time never gives a lower tier |
| Experiences.PositiveStarts | src/App.tsx:235-237 | `filter(r => r.start > 0)` keeps exactly the positive starts, each one from some range |
| Experiences.Min | src/App.tsx:241 | `Math.min` of a non-empty list is an element of it and at most every element |
| Experiences.ExperienceSummary | src/App.tsx:239-250 | The two outcomes of the summary: none (the `label: ""` of line 239) or an earliest start, the elapsed ms and the tier behind the label of line 250 |
| Experiences.SummaryOfRanges | src/App.tsx:234-251 | There is no summary (label "", years 0) exactly when no start is positive. Otherwise the earliest start is a positive start of some range and at most every positive start; elapsed is `now` minus it; the tier is `TierOf(elapsed)` |
| Experiences.Ranges | src/App.tsx:235-236 | `map(extractPeriodRange)` pairs each entry with its range |
| Experiences.SummaryOf | src/App.tsx:234-251 | `experienceSummary` with `Date.now()` as `now`: the summary of the entries' ranges; SummaryOfRanges states what it is |
| Experiences.SummaryDependsOnStarts | src/App.tsx:234-251 | The summary depends only on which positive starts occur |
| Experiences.SummaryOrderFree | src/App.tsx:234-251 | Reordering the entries newest first does not change the summary |
| Experiences.TierGrowsWithTime | src/App.tsx:241-247 | Once there is a summary, a later `now` keeps it and never lowers the tier |
| Experiences.IgnoredEntry | src/App.tsx:235-237 | An entry whose start is not positive does not change the summary |
| Experiences.EarlyLabelIgnored | src/App.tsx:235-237 | An entry labelled from 1970 or earlier is dropped by the filter: 1970 collides with the sentinel, and earlier years start before the epoch |
| Experiences.ExampleRanges | src/App.tsx:235-236 | Periods 2023–2025, 2021–2023 and 2020-2020 map to the 1 January starts of their years |
| Experiences.SummaryExample | src/App.tsx:234-247 | Those three ranges, seen on 1 January 2025, give the 2020 start, 157 852 800 000 ms elapsed, and Pleno |
| Initials.UpperCase | src/App.tsx:222 | `toUpperCase` of one character is one or two characters |
| Initials.Words | src/App.tsx:220-221 | The words are non-empty and contain no whitespace |
| Initials.WordsAtWhitespace | src/App.tsx:220-221 | A whitespace character separates words: the words of x c y are the words of x followed by the words of y |
| Initials.WordsOfWord | src/App.tsx:220-221 | A non-empty run without whitespace is exactly one word |
| Initials.WordsEmpty | src/App.tsx:220-221 | There are no words exactly when the name is empty or all whitespace |
| Initials.Initial | src/App.tsx:222 | `part[0]?.toUpperCase() ?? ""`: empty exactly for the empty word |
| Initials.Concat | src/App.tsx:223 | `join("")`: empty exactly when every part is empty |
| Initials.ProfileInitials | src/App.tsx:217-225 | At most two characters, and a prefix of the joined initials of all words. Shorter than two only if it is all of them |
| Initials.InitialsEmpty | src/App.tsx:217-225 | The initials are empty exactly when the name is empty or all whitespace |
| Initials.InitialsOfWords | src/App.tsx:217-225 | With two or more words whose initials are one character each, the result is the upper-cased first characters of the first two words, in order; a single word gives its own initial |
| Initials.ThreeWords | src/App.tsx:220-221 | Three words separated by single spaces split into those three words |
| Initials.InitialsOfThree | src/App.tsx:217-225 | A name of three words separated by single spaces, whose first two initials are one character each, gives those two initials |
| Initials.ProfileNameInitials | src/App.tsx:217-225 | "Daniel Machado Pintos" gives "DM" |
| Hooks.Reveal.constructor | src/App.tsx:58 | `visible` starts false |
| Hooks.Reveal.Mount | src/App.tsx:60-79 | Without an element or without IntersectionObserver, `visible` becomes true at once; otherwise observation starts and `visible` keeps its value |
| Hooks.Reveal.OnEntries | src/App.tsx:67-76 | A batch arrives only while the element is observed. Afterwards `visible` is true exactly if it was already or some entry intersects, and observation continues exactly if no entry intersects. `visible` never goes from true to false |
| Hooks.Reveal.Unmount | src/App.tsx:80 | Disconnecting stops observation and leaves `visible` alone |
| Hooks.ScrollProgress.constructor | src/App.tsx:88-89 | Progress 0, guard clear, no frame pending, no listener registered, invariant established |
| Hooks.ScrollProgress.Mount | src/App.tsx:116-119 | The effect sets the progress to the first `compute()` and registers the listeners, leaving the guard and the frame queue alone |
| Hooks.ScrollProgress.Scroll | src/App.tsx:107-110 | Events arrive only while the listeners are registered. While the guard is set, a scroll changes nothing. Otherwise it sets the guard and schedules exactly one frame. Progress is unchanged and at most one frame is pending |
| Hooks.ScrollProgress.Frame | src/App.tsx:110-113 | The frame clears the guard, removes itself from the queue and stores the computed progress. The invariant "a frame is pending exactly while the guard is set" is kept |
| Hooks.ScrollProgress.Unmount | src/App.tsx:120-123 | The cleanup removes the listeners; a frame already requested is not cancelled, and the guard, the queue and the progress are unchanged |
| Constants.LanguageMeta | src/constants.ts:208-249 | The five entries of `languageMeta`, Nativo, Avançado, Intermediário, Básico and default, field for field: percent, bar, track, iconWrap, badge and caption |
| Constants.LevelNames | src/constants.ts:208-249 | The four levels of `languageMeta` with their own entry, strongest first |
| Constants.DefaultLanguageStyle | src/constants.ts:241-248 | The `default` entry of `languageMeta`: percent 50 and an empty caption |
| Constants.ContactMeta | src/constants.ts:175-206 | The five entries of `contactMeta`, Telefone, E-mail, GitHub, LinkedIn and default, with their icons and the shared card and iconWrap classes |
| Constants.ContactLabels | src/constants.ts:175-206 | The four labels of `contactMeta` with their own entry |
| Constants.DefaultContactStyle | src/constants.ts:200-205 | The `default` entry of `contactMeta`: the mail icon with the shared classes |
| Constants.ProfileName | src/constants.ts:4 | `profile.name` |
| Constants.ShippedContacts | src/constants.ts:7-28 | The four entries of `profile.contacts`, label, value and href, in order |
| Constants.ShippedLanguages | src/constants.ts:45-49 | The three entries of `profile.languages`, name and level, in order |
| Constants.ShippedExperiences | src/constants.ts:100-172 | The six entries of `profile.experiences`, role, company, location and period, in order; the bullets and stack texts are not part of the model |
| Constants.LanguageStyleFor | src/App.tsx:158 | A level outside Nativo, Avançado, Intermediário and Básico resolves to the default: percent 50 and no caption. The caption is empty exactly for those other levels. Every percent lies in [0, 100] |
| Constants.LanguagePercentsDecrease | src/constants.ts:208-249 | Nativo 100 > Avançado 85 > Intermediário 65 > Básico 40 |
| Constants.ContactStyleFor | src/App.tsx:294 | An unknown label gets the default style, the mail icon. The phone, GitHub and LinkedIn icons go exactly to Telefone, GitHub and LinkedIn. All entries share the card and icon classes |
| Constants.ShippedLevelsKnown | src/constants.ts:45-49 | Every shipped language level has its own style, not the default |
| Constants.ShippedContactsKnown | src/constants.ts:7-28 | Every shipped contact label has its own `contactMeta` entry, so the default is never used |
| Constants.ShippedPeriodTexts | src/constants.ts:100-172 | The six shipped periods are "2023–2025", "2021–2023", "2020–2021", "2020-2020", "2018–2020" and "2017-2018" |
| Constants.ShippedLabelled | src/constants.ts:100-172 | The shipped entries are labelled entry by entry by the shipped year labels |
| Constants.LabelledRanges | src/App.tsx:30-46 | An entry labelled "a–b" or "a-b" ranges over the 1 January starts of a and b |
| Constants.LabelledPeriodsParse | src/App.tsx:30-46 | Labels with years after 1970 that run forward give 0 < start <= end |
| Constants.LabelledSorted | src/App.tsx:212-215 | Labels whose end years do not increase are already in timeline order |
| Constants.EarliestLabelledStart | src/App.tsx:235-241 | When every start is the start of a year after 1970, there is a summary and its earliest start is the start of the least such year |
| Constants.SummaryFromYears | src/App.tsx:234-247 | When every start is the start of a year after 1970, the summary is measured from the least such year |
| Constants.LabelledSummary | src/App.tsx:234-247 | Entries labelled by years after 1970 have the summary measured from the least labelled start year |
| Constants.ShippedPeriodsParse | src/constants.ts:100-172 | Every shipped period, en dash or hyphen, parses to 0 < start <= end |
| Constants.ShippedAlreadySorted | src/constants.ts:100-172 | The shipped ends (2025, 2023, 2021, 2020, 2020, 2018) are already non-increasing, so the timeline keeps the listed order |
| Constants.ShippedSummary | src/constants.ts:163-167 | Entries labelled as the shipped ones (ShippedExperiences among them) have their summary measured from 1 January 2017, from "2017-2018". It reaches Especialista exactly from ten years of 31 557 600 000 ms after that |
| Constants.ShippedInitials | src/constants.ts:4 | The shipped name gives "DM" |

## Left out

- Presentation: the JSX trees, Tailwind class composition, the icon components and `stackIconMap`.
- `Experiences.Experience`: `bullets` and `stack` are not modelled. They are only rendered.
- `Constants.ContactStyleFor`: it names icons by a small enumeration, not by the lucide components.
- Browser primitives: the IntersectionObserver and requestAnimationFrame objects, `window.addEventListener`/`removeEventListener`, and the element reference. They appear only as the events delivered to `Hooks.Reveal` and `Hooks.ScrollProgress` and as the `observing` and `listening` flags. The `threshold` and `rootMargin` options do not affect the state and are not modelled.
- `Date.now()` is a parameter `now`, so the clock is not modelled. The month/year label built with `toLocaleDateString("pt-BR")` is locale formatting and is left out.
- The geometry of `compute()` and `progressToScale` is floating-point layout arithmetic. `Hooks.ScrollProgress.Frame` and `Hooks.ScrollProgress.Mount` take compute()'s result as a parameter, required to lie in [0, 100] because compute() clamps it there.
- `Experiences.SummaryOfRanges`: the label text is not modelled. That covers `toFixed(1)`, `Math.round(totalYears * 12)` and the "anos"/"meses" wording, which are float formatting. The summary keeps the earliest start, the elapsed milliseconds and the tier, which determine `years` up to the float division.
- `Periods.ParseYear`: the `Number.isFinite` guard is not modelled. The regex only matches four ASCII digits, so that branch cannot be taken.
- `Initials.UpperCase`: it covers Basic Latin and Latin-1 only. Any other character is taken as its own upper case, which is not full Unicode `toUpperCase`.
- `Initials.ProfileInitials`: strings are sequences of scalar values, not UTF-16 code units. `part[0]` and `slice(0, 2)` therefore differ from the source for characters outside the Basic Multilingual Plane.
- `Constants.LanguageStyleFor` and `Constants.ContactStyleFor`: keys inherited from `Object.prototype` (such as "toString") are not modelled. The model treats them as missing, which selects the default.
- The `profile?.name || ""` and `profile?.experiences ?? []` guards are not modelled. They only apply when the profile is absent, and the shipped profile is always present.
- Contacts: the React `key` choice and the `http` test for external links are attribute selection for rendering, and are left out.
- `src/global.ts` is not part of this model. The page does not import it.
- `src/components/TimelineItem.tsx`, `Details.tsx`, `MoreDetails.tsx` and `Card.tsx` are not part of this model. They are rendering with open/close toggles.
