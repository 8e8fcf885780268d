# Watch progress and course counting for movie-stream-platform

This project is a Dafny model of the logic in a small video-course web
application. Nearly all of the application is page markup. The logic modelled
here is:

- **The watched-set hook** (`hooks/useVideoProgress.ts`). It keeps, per course,
  the set of video ids the viewer has finished. It adds to that set without
  creating duplicates and mirrors it to `localStorage` under the key
  `"video_progress_" + courseId` as a JSON array of strings. On load it reads
  the set back and tolerates bad data. It reports the course completion as a
  rounded percentage.
- **The catalog accessor** (`lib/courses.ts`). It returns the course list,
  and looks up a course by id: the first match, or null.
- **The counts the views derive.** `components/VideoList.tsx` gives the
  watched count, the percentage and the watched and current flags for each
  section. `components/CourseCard.tsx` gives each course's video total and its
  link. `app/page.tsx` gives the catalog-wide section and video totals, the
  featured course and the empty-catalog state. `components/ProgressBar.tsx`
  clamps the bar's width.
- **The records** of `types/course.ts`: `Video`, `Section` and `Course`.

## Layout

| file | module | models |
|---|---|---|
| options.dfy | `Options` | optional values (`T \| null`, optional props) |
| course.dfy | `CourseTypes` | the records, and the section-major flattening of a course's videos (its play order) |
| percent.dfy | `Percent` | `Math.round(part / total * 100)` as half-up integer rounding |
| json.dfy | `JsonCodec` | `JSON.stringify` of a `string[]`, and the part of `JSON.parse` the load effect can use |
| progress_store.dfy | `VideoProgress` | the hook: storage key, insertion-ordered set, load, `markAsWatched`, `isWatched`, `getProgress` |
| catalog.dfy | `Catalog` | `getCourses`, `getCourseById` |
| video_list.dfy | `VideoList` | per-section counts, percentages and per-video flags |
| course_card.dfy | `CourseCard` | per-course video total, card link and card contents |
| home_page.dfy | `HomePage` | catalog totals, featured course, empty state, course grid |
| progress_bar.dfy | `ProgressBar` | width clamp, label, percentage text and ARIA values |

The hook is a class, `VideoProgress.ProgressHook`. It holds the `watchedVideos`
state, the current `courseId` and the device's storage as a
`map<string, string>`. Its methods change these fields the way the source's
state updates do. A JavaScript `Set` iterates in insertion order, and that
order decides the text `Array.from` writes. So the watched set is a sequence
with no duplicates, and its members are `WatchedSet()`. Everything else is pure
functions and lemmas about them.

`JSON.parse` followed by `new Set(...)` is modelled as concrete text
processing, so the storage round trip is proved, not assumed. `Decode`
recognises three kinds of value:

- `null`, which gives the empty set;
- a JSON string, which gives its characters, because `new Set("ab")` iterates
  the string;
- an array of strings.

Anything else gives no value. That covers texts `JSON.parse` rejects, and
numbers, booleans and objects, on which `new Set` throws. Both kinds of
failure are caught in the source.

### Behaviour worth knowing

- **Missing or bad stored data.** A load that finds no entry, an empty entry
  or a malformed one keeps the set the hook already holds. It does not reset
  the set to empty (hooks/useVideoProgress.ts:12-20). The model follows the
  code (`ProgressHook.Load`).
- **A stored `null`.** This is valid JSON, and `new Set(null)` is empty, so
  loading it does clear the set (`RestoreNullClears`).
- **Changing course.** The hook's effect re-runs when `courseId` changes, but
  it does not clear the set first. When the new course has no stored entry,
  the previous course's ids carry over. The next `markAsWatched` then saves
  them under the new course's key (`ProgressHook.SwitchCourse`,
  `CarryOverScenario`).
- **Progress above 100.** `getProgress` divides the set's size, not the number
  of this course's videos in the set. Ids of videos no longer in the course
  can therefore push it above 100 (`ProgressCanPassHundred`). The bound
  `<= 100` holds only when the set is no larger than the total.
- **Raw progress on the bar.** `ProgressBar` clamps only the bar's width. Its
  percentage text and `aria-valuenow` show the raw value (`ProgressBar.Bar`).

## Model

| member | source | states |
|---|---|---|
| Percent.RoundedPercent | hooks/useVideoProgress.ts:52 | the result is the integer nearest 100·part/total, with halves rounded up: 2t·r <= 200·part + t < 2t·(r+1) |
| Percent.RoundedPercentUnique | components/VideoList.tsx:26 | any integer in that half-up bracket is the rounded percentage, so the bracket determines it |
| Percent.RoundedPercentZero | components/VideoList.tsx:26 | a count of 0 rounds to 0 % |
| Percent.RoundedPercentFull | components/VideoList.tsx:26 | a count equal to the total rounds to 100 % |
| Percent.RoundedPercentAtMost100 | components/VideoList.tsx:26 | a count no larger than the total gives at most 100 |
| Percent.RoundedPercentMonotone | hooks/useVideoProgress.ts:52 | a larger count never gives a smaller percentage |
| Percent.RoundedPercentZeroIff | components/VideoList.tsx:26 | the percentage is 0 exactly when the count is below half a percent of the total |
| Percent.RoundedPercentHundredIff | components/VideoList.tsx:26 | the percentage is 100 exactly when 199·t <= 200·part < 201·t |
| JsonCodec.EncodeStringArray | hooks/useVideoProgress.ts:32 | the stored text is a bracketed JSON array, so it is never empty |
| JsonCodec.SkipWhitespaceSuffix | hooks/useVideoProgress.ts:15 | everything skipped at the front is JSON whitespace, and what is left is a suffix of the text that is empty or starts with a non-blank |
| JsonCodec.ParseChars | hooks/useVideoProgress.ts:15 | a decoded string literal consumes input: the text after it is strictly shorter |
| JsonCodec.EscapeCharRoundTrip | hooks/useVideoProgress.ts:32 | each character as `JSON.stringify` escapes it decodes back to that character |
| JsonCodec.EscapeAllRoundTrip | hooks/useVideoProgress.ts:32 | an escaped string followed by a closing quote decodes back to the string and leaves the rest |
| JsonCodec.ElementsRoundTrip | hooks/useVideoProgress.ts:32 | the encoded elements of a non-empty array, then `]`, decode back to the same elements in order |
| JsonCodec.Decode | hooks/useVideoProgress.ts:15 | `JSON.parse`: a blank text is rejected and `"null"` is the null value; for every array of strings, the stringified text parses back to that array (`DecodeEncode`) |
| JsonCodec.DecodeEncode | hooks/useVideoProgress.ts:15-32 | `JSON.parse(JSON.stringify(xs))` is the array `xs` for every array of strings |
| VideoProgress.StorageKey | hooks/useVideoProgress.ts:5-12 | the key is the prefix `video_progress_` followed by exactly the course id |
| VideoProgress.StorageKeyInjective | hooks/useVideoProgress.ts:30-31 | two course ids give the same key if and only if they are the same id |
| VideoProgress.OtherCoursesUntouched | hooks/useVideoProgress.ts:30-33 | saving one course's set leaves every other course's entry as it was |
| VideoProgress.Lookup | hooks/useVideoProgress.ts:12 | `getItem` yields the stored text when the key exists, and null exactly when it does not |
| VideoProgress.SetAdd | hooks/useVideoProgress.ts:27-28 | `add(x)` keeps the old ids in their insertion order and appends at most one, so x is then a member; `SetAddMembers` and `SetAddSize` give the members and the size |
| VideoProgress.SetAddMembers | hooks/useVideoProgress.ts:27-28 | after `add(x)`, x is a member and every other id's membership is unchanged |
| VideoProgress.SetAddSize | hooks/useVideoProgress.ts:27-28 | `add` keeps ids distinct and grows the size by one exactly when the id was new |
| VideoProgress.SetAddIdempotent | hooks/useVideoProgress.ts:27-28 | adding an id already present changes neither contents, order nor size |
| VideoProgress.DistinctSize | hooks/useVideoProgress.ts:52 | for distinct ids, the set's size (`watchedVideos.size`) is the number of ids held |
| VideoProgress.SetFrom | hooks/useVideoProgress.ts:16 | `new Set(xs)` holds distinct ids, exactly the ids of `xs`, and is `xs` itself when `xs` has no duplicates (from `AddAllMembers` and `AddAllDistinct`) |
| VideoProgress.AddAllMembers | hooks/useVideoProgress.ts:16 | `new Set(ids)` holds distinct ids, and exactly the ids it was given |
| VideoProgress.AddAllDistinct | hooks/useVideoProgress.ts:16 | `new Set(ids)` over ids that are already distinct keeps them in the same order |
| VideoProgress.CodePoints | hooks/useVideoProgress.ts:16 | a string iterates to its characters, one single-character string per position |
| VideoProgress.Restore | hooks/useVideoProgress.ts:12-20 | the stored entry yields a set of distinct ids; the current set is kept exactly when the entry is missing, empty or undecodable |
| VideoProgress.RestoreSaved | hooks/useVideoProgress.ts:30-33 | the text saved for a set loads back as the same set in the same order |
| VideoProgress.RestoreNullClears | hooks/useVideoProgress.ts:15-16 | a stored `null` loads as the empty set |
| VideoProgress.RestoreArrayMembers | hooks/useVideoProgress.ts:15-16 | a stored array loads as exactly its ids, with duplicates dropped |
| VideoProgress.Progress | hooks/useVideoProgress.ts:49-53 | 0 when there are no videos; otherwise the half-up rounded 100·watched/total, which is at most 100 when watched <= total |
| VideoProgress.ProgressMonotone | hooks/useVideoProgress.ts:52 | more watched videos never lower the course progress |
| VideoProgress.ProgressEnds | hooks/useVideoProgress.ts:51-52 | all videos watched gives 100, none gives 0 |
| VideoProgress.ProgressCanPassHundred | hooks/useVideoProgress.ts:48-52 | the count is the set's size: 2 ids over 1 video gives 200 |
| VideoProgress.ProgressHook.constructor | hooks/useVideoProgress.ts:7-8 | the first render holds the empty set for the given course and storage |
| VideoProgress.ProgressHook.WatchedSet | hooks/useVideoProgress.ts:8 | the members of the `watchedVideos` state |
| VideoProgress.ProgressHook.Load | hooks/useVideoProgress.ts:11-21 | storage and course are unchanged; the set becomes the restored one, or stays as it was when nothing decodes |
| VideoProgress.ProgressHook.SwitchCourse | hooks/useVideoProgress.ts:11-21 | a new course id re-runs the load for the new key without clearing the set; the same id changes nothing |
| VideoProgress.ProgressHook.MarkAsWatched | hooks/useVideoProgress.ts:24-38 | the id becomes watched; other ids' membership is unchanged; an already watched id leaves the set as it was; only this course's key is rewritten, with the `JSON.stringify` text of the new set |
| VideoProgress.ProgressHook.IsWatched | hooks/useVideoProgress.ts:41-46 | true exactly when the id is in the watched set |
| VideoProgress.ReloadScenario | hooks/useVideoProgress.ts:11-33 | a new mount on the storage a session left after marking two videos loads exactly the set that session held, in marking order |
| VideoProgress.CarryOverScenario | hooks/useVideoProgress.ts:11-33 | after switching to a course with no entry, the next mark saves the previous course's ids followed by the new one under the new key, and the old key keeps its text |
| VideoProgress.ProgressHook.GetProgress | hooks/useVideoProgress.ts:49-55 | 0 for no videos; otherwise the half-up rounded 100·size/total of the set's size; at most 100 when size <= total |
| Catalog.GetCourses | lib/courses.ts:4-8 | returns the catalog records unchanged and in their stored order |
| Catalog.Find | lib/courses.ts:12 | null exactly when no course has the id; otherwise a member of the list with that id |
| Catalog.GetCourseById | lib/courses.ts:10-13 | null exactly when no catalog course has the id; otherwise a catalog course whose id is the requested one |
| Catalog.FindFirst | lib/courses.ts:12 | when several courses share the id, the one found is the first in list order |
| Catalog.GetCourseByIdFirst | lib/courses.ts:10-13 | `getCourseById` returns the first catalog course with the id |
| VideoList.WatchedCount | components/VideoList.tsx:21-23 | the section's watched count never exceeds its number of videos |
| VideoList.WatchedCountPositions | components/VideoList.tsx:21-23 | the count is the number of positions whose video id is in the watched set |
| VideoList.WatchedCountAll | components/VideoList.tsx:21-23 | the count equals the section's length if and only if every video is watched |
| VideoList.WatchedCountNone | components/VideoList.tsx:21-23 | the count is 0 if and only if no video is watched |
| VideoList.WatchedCountMonotone | components/VideoList.tsx:21-23 | adding ids to the watched set never lowers the count |
| VideoList.SectionProgress | components/VideoList.tsx:24-27 | 0 for a section without videos; otherwise the half-up rounded percentage of the count, always in [0,100] |
| VideoList.SectionProgressEnds | components/VideoList.tsx:24-27 | a non-empty, fully watched section shows 100; a section with nothing watched shows 0 |
| VideoList.SectionProgressMonotone | components/VideoList.tsx:24-27 | adding ids to the watched set never lowers the percentage |
| VideoList.Render | components/VideoList.tsx:12-53 | one view per section in order, one row per video in order; each header's count and percentage are the section's `WatchedCount` and `SectionProgress` over the given set; a row is watched iff its id is in the given set, and current iff its id equals `currentVideoId`; with no set given nothing is watched |
| VideoList.CountMatchesMarks | components/VideoList.tsx:21-68 | each header's count equals the number of check-marked rows below it |
| VideoList.DefaultShowsNothingWatched | components/VideoList.tsx:16-27 | with the default empty set, every count and percentage is 0 and no row is marked |
| VideoList.AtMostOneCurrent | components/VideoList.tsx:51-53 | when video ids are unique in the course, at most one row in the whole list is highlighted |
| CourseTypes.FlattenContains | types/course.ts:8-20 | a video is in a course's play order exactly when it is in one of the course's sections |
| CourseCard.TotalVideos | components/CourseCard.tsx:10-13 | the total is 0 exactly when every section is empty |
| CourseCard.TotalVideosIsFlattenLength | components/CourseCard.tsx:10-13 | the total equals the length of the section-major play order |
| CourseCard.TotalVideosAppend | components/CourseCard.tsx:10-13 | the total over concatenated section lists is the sum of their totals |
| CourseCard.CourseHref | components/CourseCard.tsx:17 | the link is `/courses/` followed by exactly the course id |
| CourseCard.CourseHrefInjective | components/CourseCard.tsx:17 | two courses share a link if and only if they share an id |
| CourseCard.Card | components/CourseCard.tsx:9-58 | the card links to the course, and shows its section count and the length of its play order |
| HomePage.TotalSections | app/page.tsx:13-16 | the section total is 0 exactly when no course has a section (so 0 for an empty catalog) |
| HomePage.TotalVideos | app/page.tsx:17-25 | the video total is 0 exactly when no section of any course has a video |
| HomePage.TotalSectionsIsLength | app/page.tsx:13-16 | the section total is the number of sections across the catalog |
| HomePage.TotalVideosOfAllSections | app/page.tsx:17-25 | the video total is the per-course video total of all the catalog's sections taken together |
| HomePage.TotalsAppend | app/page.tsx:13-25 | both totals are additive over concatenating catalogs |
| HomePage.TotalsAppendCourse | app/page.tsx:13-25 | appending a course raises the totals by exactly that course's section and video counts |
| HomePage.TotalsIncludeCourse | app/page.tsx:13-25 | every course's counts are at most the catalog totals |
| HomePage.WatchHref | app/page.tsx:76 | the featured course's watch link is its course link followed by `/watch` |
| HomePage.Home | app/page.tsx:11-215 | the catalog totals are `TotalSections` and `TotalVideos` of the data; the featured course is present iff the catalog is non-empty, and is then the first course, with its `WatchHref` watch link; its video count is its play-order length, the same as its card's; the empty state shows iff there are no courses; one card per course, in order |
| HomePage.EmptyCatalog | app/page.tsx:13-194 | an empty catalog shows zero totals, no featured course, no cards and the empty state |
| HomePage.FeaturedWithinTotals | app/page.tsx:144-156 | the featured course's section and video counts never exceed the catalog totals |
| ProgressBar.ClampWidth | components/ProgressBar.tsx:31 | the width is in [0,100]; it is the identity on [0,100], 0 below and 100 above |
| ProgressBar.ClampIdempotent | components/ProgressBar.tsx:31 | clamping an already clamped width changes nothing |
| ProgressBar.ClampMonotone | components/ProgressBar.tsx:31 | more progress never draws a shorter bar |
| ProgressBar.Bar | components/ProgressBar.tsx:9-40 | the width is the clamped progress; the percentage text and `aria-valuenow` are the raw progress; the label row shows only for a non-empty label, and the percentage only inside it unless `showPercentage` is false |

The methods `ReloadScenario` and `CarryOverScenario` in `VideoProgress` play
out two sessions. In the first, a reload on the same device sees the
saved set. In the second, the set carries over when the hook switches course.

## Left out

- The watch page (`app/courses/[id]/watch/`), with its initial-video choice,
  90 % auto-watched threshold, auto-advance and next-video lookup, is not part
  of this model. Only the hook it calls is modelled.
- `components/VideoPlayer.tsx` is not modelled. It drives the YouTube IFrame
  API, with script injection, a global ready callback, a sampling timer and
  floating-point progress. That is I/O, timers and a foreign API.
- `types/youtube.d.ts`, `app/error.tsx`, `components/Loading.tsx`, styling,
  `Image` and `Link` rendering, and the click handler `onVideoSelect` are
  presentation. `Link` targets are kept only as the strings they are given.
- React mechanics are not modelled: effect scheduling, the batching of state
  updaters and `useCallback` memoisation. Each effect or updater is one state
  transition, run when the source's dependency list says it re-runs.
- `localStorage` failures are not modelled. These are `setItem` throwing
  (quota) and `getItem` throwing when storage is disabled, both of which the
  source does not catch. `console.error` logging is not modelled either.
- `JsonCodec.Decode`: a valid JSON array holding a non-string element (`[1]`,
  `[null]`) makes the source install a set holding non-string values. The
  model treats it as undecodable and keeps the current set.
- `JsonCodec.ParseUnicodeEscape`: a `\u` escape of an unpaired surrogate is
  treated as undecodable. JavaScript strings are UTF-16 and can hold one,
  while the model's strings are sequences of Unicode scalar values.
- `Percent.RoundedPercent`: `Math.round` on a floating-point quotient is
  idealised as exact half-up rounding. Floating-point error at exact halves is
  not modelled.
- `VideoProgress.ProgressHook.GetProgress`: `totalVideos` is a natural number.
  Every caller passes a sum of lengths, so negative or fractional totals,
  which the JavaScript `number` would allow, are not modelled.
- `ProgressBar.ClampWidth`: progress is an integer. Fractional and `NaN`
  progress are not modelled.
- The catalog data, `data/courses.json`, is not part of this model. The
  catalog is an arbitrary sequence of courses, the parameter `data`.
