# Since I Last — a verified model of the tracker's core

Since I Last is an iOS app for recurring activities ("Things"): watering plants, calling a friend, a run. Each Thing keeps a list of logged Events. The app derives a few figures from them:

- days since the last event;
- the average gap between events;
- a suggested goal and the next suggested date;
- a streak;
- a status: no data, on track, upcoming, needs attention.

A `DataManager` object owns the list of Things. It does the following:

- it adds, updates, soft-deletes, restores and permanently deletes Things, and logs events;
- it sweeps Things that have been in the trash longer than seven days when it starts;
- it exports and imports Things;
- it schedules one local notification per Thing.

The home screen shows the active Things, filtered by category and search text and sorted by one of four options. The trash screen shows how many days each Thing has left.

This project models that core in Dafny:

- `model.dfy` (module `Model`): Things, Events, categories and statuses.
- `seqs.dfy` (module `Seqs`): the library `filter` and `sort` the app relies on. Sorting is modelled as an insertion sort by a lexicographic key.
- `analytics.dfy` (module `Analytics`): the derived figures.
  - The average gap and the streak are loops in the app. They are methods here, each proved equal to a specification function.
  - The properties are proved about those functions.
- `manager.dfy` (module `Manager`): the `DataManager` class.
  - Its fields are the list of Things, the notification centre's pending requests and the persistent store's entry. The store's entry is ghost.
  - Every method states its entire new state.
- `views.dfy` (module `Views`): the home list's filter and sort, and the trash countdown.

Instants are whole day numbers (`Day`), and "now" is a parameter. The model takes every instant as its day number, so "the days between two instants" is a subtraction of day numbers. The app instead counts the complete days elapsed; "## Left out" says where the two differ.

With a 10-day goal, 8 days since the last event is already "upcoming": the code (`Since-I-Last/ContentView.swift:160`) tests `days >= goal - 2`. `Analytics.StatusExample` proves the 8-day and the 7-day cases.

## Model

| member | source | states |
|---|---|---|
| Model.NewThing | Since-I-Last/ContentView.swift:86-98 | a new Thing carries the given fields, has no events, was created now, and is active with no deletion date |
| Model.NewNamedThing | Since-I-Last/ContentView.swift:86-98 | `init` with its default arguments: a personal Thing with no goal, no tags, reminders off and no emoji, besides what every new Thing has |
| Model.Times | Since-I-Last/ContentView.swift:111 | the timestamps of the events, position by position |
| Seqs.Filter | Since-I-Last/ContentView.swift:262 | `filter` keeps exactly the elements satisfying the condition, and each of them satisfies it |
| Seqs.FilterTwice | Since-I-Last/ContentView.swift:436-447 | filtering by one condition and then another equals filtering once by both |
| Seqs.FilterSame | Since-I-Last/ContentView.swift:436-447 | filtering by conditions that agree on every element gives the same list |
| Seqs.KeyLeTotal | Since-I-Last/ContentView.swift:449-463 | any two sort keys are comparable |
| Seqs.KeyLeTrans | Since-I-Last/ContentView.swift:449-463 | the key order is transitive |
| Seqs.KeyLeReflexive | Since-I-Last/ContentView.swift:449-463 | every key is ordered before or with itself |
| Seqs.KeyLeAt | Since-I-Last/ContentView.swift:460-462 | keys that first differ at position k compare as their entries at k do, which is how strings compare |
| Seqs.KeyLeSingle | Since-I-Last/ContentView.swift:451-456 | one-number keys compare as the numbers do |
| Seqs.Insert | Since-I-Last/ContentView.swift:451 | inserting adds exactly one copy of the element |
| Seqs.SortBy | Since-I-Last/ContentView.swift:451 | the sort returns a permutation of its input |
| Seqs.InsertSorted | Since-I-Last/ContentView.swift:451 | inserting into a list ordered by key keeps it ordered |
| Seqs.SortBySorted | Since-I-Last/ContentView.swift:451 | the sort's result is ordered by key |
| Seqs.SortByOfSorted | Since-I-Last/ContentView.swift:136 | the model's sort is stable, so sorting a list already ordered by key returns it unchanged; it is used only for integer keys, where equal keys are equal values (`Analytics.DescendingOfOrdered`) |
| Analytics.LastEvent | Since-I-Last/ContentView.swift:100-102 | none exactly when there are no events; otherwise one of the events, with a timestamp no earlier than any other event's |
| Analytics.DaysSinceLastEvent | Since-I-Last/ContentView.swift:104-107 | none exactly when there are no events; otherwise the days since some event, and no more than the days since any event |
| Analytics.Ascending | Since-I-Last/ContentView.swift:111 | the timestamps sorted earliest first are a permutation of the timestamps |
| Analytics.AscendingOrdered | Since-I-Last/ContentView.swift:111 | the earliest-first order is non-decreasing |
| Analytics.Descending | Since-I-Last/ContentView.swift:136 | the timestamps sorted latest first are a permutation of the timestamps |
| Analytics.DescendingOrdered | Since-I-Last/ContentView.swift:136 | the latest-first order is non-increasing |
| Analytics.Gaps | Since-I-Last/ContentView.swift:112-118 | one gap per adjacent pair, each gap being the later value minus the earlier |
| Analytics.MeanGap | Since-I-Last/ContentView.swift:109-122 | the average gap is absent exactly when there are fewer than two events |
| Analytics.AverageFrequency | Since-I-Last/ContentView.swift:109-122 | the loop that collects the gaps and divides their sum by their count computes the average gap |
| Analytics.GapsExtend | Since-I-Last/ContentView.swift:114-117 | helper of `Analytics.AverageFrequency`'s loop: each step appends exactly the gap between the new entry and the one before it |
| Analytics.TruncDiv | Since-I-Last/ContentView.swift:121 | Swift's integer division truncates toward zero: a non-negative sum gives a non-negative quotient, a non-positive sum a non-positive one |
| Analytics.SumAppend | Since-I-Last/ContentView.swift:121 | `reduce(0, +)` of a list split in two is the sum of the two pieces' sums |
| Analytics.SumOfGaps | Since-I-Last/ContentView.swift:121 | the gaps of a list add up to its last value minus its first |
| Analytics.SumBounds | Since-I-Last/ContentView.swift:121 | a sum of values within [lo, hi] lies within count·lo and count·hi |
| Analytics.MulLe | Since-I-Last/ContentView.swift:121 | helper of `Analytics.DivBounds`: multiplying by a positive count keeps the order |
| Analytics.DivBounds | Since-I-Last/ContentView.swift:121 | helper of `Analytics.MeanGapBetweenGaps`: a sum within count·lo and count·hi, divided by the count, lies within [lo, hi] |
| Analytics.AscendingGapsNonNegative | Since-I-Last/ContentView.swift:111-118 | gaps between events sorted earliest first are never negative |
| Analytics.MeanGapNonNegative | Since-I-Last/ContentView.swift:109-122 | the average gap is never negative |
| Analytics.MeanGapBetweenGaps | Since-I-Last/ContentView.swift:109-122 | the average gap lies between the smallest and the largest gap |
| Analytics.AscendingEnds | Since-I-Last/ContentView.swift:111 | sorted earliest first, the list starts at the earliest timestamp and ends at the latest |
| Analytics.MeanGapSpan | Since-I-Last/ContentView.swift:109-122 | the average gap is the span from the earliest to the latest event divided by the event count minus one |
| Analytics.MeanGapExample | Since-I-Last/ContentView.swift:109-122 | events on days 20, 0 and 10, logged in that order, average 10 days apart |
| Analytics.SuggestedGoalFrequency | Since-I-Last/ContentView.swift:124-127 | a suggestion exists exactly when there are at least three events, and it is the average gap |
| Analytics.NextSuggestedDate | Since-I-Last/ContentView.swift:129-132 | a date exists exactly when there are at least two events; it is the latest event's day plus the average gap |
| Analytics.ContinuesStreak | Since-I-Last/ContentView.swift:141-147 | a gap continues the streak exactly when it is within the larger of goal+3 and 10 days, so a gap of at most 10 days always does |
| Analytics.LeadingRun | Since-I-Last/ContentView.swift:139-148 | the count of consecutive gaps that continue the streak is at most the number of gaps |
| Analytics.StreakLength | Since-I-Last/ContentView.swift:134-151 | the streak is 0 without events, otherwise between 1 and the event count |
| Analytics.Streak | Since-I-Last/ContentView.swift:134-151 | the loop over the events sorted latest first, stopping at the first broken gap, computes the streak |
| Analytics.StreakCharacterized | Since-I-Last/ContentView.swift:139-148 | every gap inside the streak is within goal+3 days or within 10 days, and the gap just past a streak shorter than the event list is neither |
| Analytics.StreakGoalNeverStricter | Since-I-Last/ContentView.swift:141-144 | having a goal never shortens a streak |
| Analytics.StreakExample | Since-I-Last/ContentView.swift:134-151 | events 0, 5, 9 and 25 days ago give a streak of 3 with no goal and 4 with a 14-day goal |
| Analytics.DescendingOfOrdered | Since-I-Last/ContentView.swift:136 | timestamps already latest first are left as they are |
| Analytics.StreakOfExampleDays | Since-I-Last/ContentView.swift:139-148 | the streak of the example's days, counted gap by gap |
| Analytics.Status | Since-I-Last/ContentView.swift:153-165 | no data exactly when there is no event or no goal; otherwise needs attention exactly when the days since are at least goal+2, upcoming exactly when they are within [goal-2, goal+2), on track below that |
| Analytics.StatusWorsensOverTime | Since-I-Last/ContentView.swift:153-165 | with nothing logged, a Thing's status only gets more urgent as days pass |
| Analytics.StatusExample | Since-I-Last/ContentView.swift:158-164 | with a 10-day goal, 12 days since is needs attention, 9 and 8 are upcoming, and 7 is on track |
| Analytics.NewThingHasNoData | Since-I-Last/ContentView.swift:153-156 | a new Thing (events empty, as `init` at :91 leaves them) has status no data, no days since an event, and a streak of 0 |
| Analytics.StatusAfterLoggingToday | Since-I-Last/ContentView.swift:153-165 | for a Thing with no event dated after now and a goal above 2 days, logging an event today puts it on track |
| Manager.IdsOf | Since-I-Last/ContentView.swift:278 | the ids of the Things, position by position |
| Manager.Active | Since-I-Last/ContentView.swift:261-263 | exactly the Things not in the trash |
| Manager.FindIndex | Since-I-Last/ContentView.swift:278 | `firstIndex`: none exactly when no Thing has the id; otherwise the first position holding it |
| Manager.WithoutIds | Since-I-Last/ContentView.swift:306 | `removeAll`: keeps exactly the Things whose id is not among those removed |
| Manager.WithoutNoIds | Since-I-Last/ContentView.swift:359-361 | removing no ids changes nothing |
| Manager.WithoutIdsTwice | Since-I-Last/ContentView.swift:359-361 | removing a set of ids and then one more id equals removing them all at once |
| Manager.WithoutIdsUnique | Since-I-Last/ContentView.swift:306 | removal keeps ids unique |
| Manager.IdSetExtend | Since-I-Last/ContentView.swift:359-361 | helper of `Manager.DataManager.CleanupOldTrash`'s loop: the ids of a longer prefix add the next Thing's id |
| Manager.WithoutIdsValid | Since-I-Last/ContentView.swift:304-308 | removing Things keeps ids unique and every Thing's trash flag in step with its deletion date |
| Manager.Expired | Since-I-Last/ContentView.swift:353-356 | only a trashed Thing can expire; a trashed Thing with a deletion date expires exactly when that date plus seven days is before now |
| Manager.DeletedBefore | Since-I-Last/ContentView.swift:354-356 | the sweep's filter keeps a trashed Thing exactly when it has expired as of the cutoff plus seven days |
| Manager.SweepListsExpired | Since-I-Last/ContentView.swift:353-357 | the trashed Things deleted before the cutoff carry exactly the expired ids, and there are none exactly when nothing has expired |
| Manager.ExpiredIdsListed | Since-I-Last/ContentView.swift:353-357 | the list the sweep builds holds exactly the expired ids, and it is empty exactly when none have expired |
| Manager.SweepKeepsUnexpired | Since-I-Last/ContentView.swift:352-362 | after the sweep, exactly the Things that had not expired remain |
| Manager.DaysToWait | Since-I-Last/ContentView.swift:390 | the goal when there is one; with no goal never negative, and 7 days with fewer than two events |
| Manager.FireDay | Since-I-Last/ContentView.swift:390-398 | a reminder has a date exactly when the Thing has an event |
| Manager.ReminderDay | Since-I-Last/ContentView.swift:390-398 | the model's fire day (the date the app's day-of-month components are meant to denote) is the goal's days after the latest event; with no goal, the next suggested date when there is one; otherwise a week after the only event |
| Manager.ReminderAfterOnlyEvent | Since-I-Last/ContentView.swift:390-395 | with no goal and one event, the fire day is a week after that event |
| Manager.ReminderOnSuggestedDate | Since-I-Last/ContentView.swift:390-395 | with no goal and at least two events, the fire day is the next suggested date |
| Manager.Rescheduled | Since-I-Last/ContentView.swift:282-285 | after cancelling and rescheduling, the Thing has exactly one request, on its fire day, only if reminders are on, and other Things' requests are untouched |
| Manager.MarkedDeleted | Since-I-Last/ContentView.swift:289-292 | the copy is in the trash since now with nothing else changed, and restoring it gives back the original active Thing |
| Manager.MarkedRestored | Since-I-Last/ContentView.swift:297-300 | the copy is active with no deletion date, nothing else changed |
| Manager.WithEvent | Since-I-Last/ContentView.swift:310-312 | the copy has the old events followed by the new one, nothing else changed |
| Manager.MergeKeepsExisting | Since-I-Last/ContentView.swift:331-335 | the merge keeps the existing Things as a prefix and appends only imported Things with new ids, so ids stay unique |
| Manager.MergeCoversImported | Since-I-Last/ContentView.swift:331-335 | after the merge every imported id and every existing id is present |
| Manager.MergeOfKnownIds | Since-I-Last/ContentView.swift:331-335 | importing only known ids changes nothing |
| Manager.MergeOfFreshIds | Since-I-Last/ContentView.swift:331-335 | importing Things whose ids are all new appends them all, in order |
| Manager.MergeById | Since-I-Last/ContentView.swift:331-335 | the merge is at least as long as the existing list and at most as long as both lists together |
| Manager.ActiveUnique | Since-I-Last/ContentView.swift:261-263 | the active Things of a list with unique ids have unique ids |
| Manager.ExportImportRoundTrip | Since-I-Last/ContentView.swift:316-338 | importing an export into an empty app reproduces the export, and importing it back into the app it came from changes nothing |
| Manager.DataManager.constructor | Since-I-Last/ContentView.swift:254-259 | loads the stored Things (none if the entry is missing or undecodable), then sweeps the expired ones and their reminders, saving only if something was swept; the invariant (unique ids, trash flag in step with deletion date) holds whenever the stored Things satisfy it |
| Manager.DataManager.ActiveThings | Since-I-Last/ContentView.swift:261-263 | exactly the Things not in the trash |
| Manager.DataManager.TrashedThings | Since-I-Last/ContentView.swift:265-267 | exactly the Things in the trash |
| Manager.DataManager.AddThing | Since-I-Last/ContentView.swift:269-275 | appends and saves, and adds a reminder when reminders are on; keeps the invariant when the id is new and the new Thing's trash flag is in step with its deletion date |
| Manager.DataManager.UpdateThing | Since-I-Last/ContentView.swift:277-287 | replaces the first Thing with the id, saves and reschedules its reminder; with no such Thing nothing changes; ids are kept, and the invariant is kept when the new Thing's trash flag is in step with its deletion date |
| Manager.DataManager.SoftDeleteThing | Since-I-Last/ContentView.swift:289-295 | the Thing with the id becomes the trashed copy and its reminder is gone in every case |
| Manager.DataManager.RestoreThing | Since-I-Last/ContentView.swift:297-302 | the Thing with the id becomes the restored copy, and its reminder is rescheduled |
| Manager.DataManager.PermanentlyDeleteThing | Since-I-Last/ContentView.swift:304-308 | every Thing with the id and its reminder are removed, and the rest is saved |
| Manager.DataManager.AddEvent | Since-I-Last/ContentView.swift:310-314 | the Thing with the id becomes the caller's copy plus the event, saved and rescheduled |
| Manager.DataManager.ExportData | Since-I-Last/ContentView.swift:316-323 | the exported document holds exactly the active Things, in order |
| Manager.DataManager.ImportData | Since-I-Last/ContentView.swift:325-338 | succeeds exactly when the document decodes; on failure nothing changes; on success the merge by id is saved and ids stay unique; the invariant is kept when every imported Thing's trash flag is in step with its deletion date |
| Manager.DataManager.CleanupOldTrash | Since-I-Last/ContentView.swift:352-362 | removes every Thing deleted more than seven days ago and its reminder, saving once per removal, and keeps the invariant |
| Manager.DataManager.ScheduleReminder | Since-I-Last/ContentView.swift:381-404 | with reminders on, the Thing's single request fires on its fire day; otherwise nothing changes |
| Manager.DataManager.CancelReminder | Since-I-Last/ContentView.swift:406-408 | the Thing's pending request is removed and nothing else changes |
| Views.StatusRank | Since-I-Last/ContentView.swift:452-455 | no data ranks last, and otherwise the more pressing the status, the lower its rank |
| Views.RawValue | Since-I-Last/ContentView.swift:201-207 | every raw value is a non-empty, capitalised name |
| Views.SortKey | Since-I-Last/ContentView.swift:449-462 | a "Needs Attention First" key is one number, the last rank exactly for no data; a "Recently Done" key is [1] exactly for a Thing never done, otherwise [0, d] with d no greater than minus any event's day; an alphabetical key has one entry per character of the name |
| Views.MatchesSearch | Since-I-Last/ContentView.swift:443-446 | a Thing matches when its name or any tag contains the text; with no tags, exactly when the name does |
| Views.RawValueOrder | Since-I-Last/ContentView.swift:201-207 | comparing raw values orders the categories Health, Home, Life Admin, Personal, Relationships, Training |
| Views.CategoryStep | Since-I-Last/ContentView.swift:436-440 | the category step keeps the active Things in the selected category, or all active Things when none is selected |
| Views.SearchStep | Since-I-Last/ContentView.swift:442-447 | the search step keeps, of those, the ones whose name or a tag contains the text, or all of them when the text is empty |
| Views.FilteredThings | Since-I-Last/ContentView.swift:435-466 | the home list is a permutation of the active Things in the selected category that match the search, sorted by the chosen option's key |
| Views.NeedsAttentionFirstOrder | Since-I-Last/ContentView.swift:450-456 | under "Needs Attention First" the statuses run needs attention, upcoming, on track, no data |
| Views.RecentlyDoneOrder | Since-I-Last/ContentView.swift:457-458 | under "Recently Done" latest events come first, and Things never done come after all others |
| Views.ByCategoryOrder | Since-I-Last/ContentView.swift:461-462 | under "By Category" the categories run Health, Home, Life Admin, Personal, Relationships, Training |
| Views.DaysRemaining | Since-I-Last/ContentView.swift:1138-1143 | never negative; 0 without a deletion date and 0 for a Thing the sweep would remove; at most 7 for a Thing deleted by now |

## Left out

- Calendar arithmetic is left out: time zones, daylight saving and the time of day. Instants are day numbers, and the notification's 10:00 hour is not modelled.
- Analytics.DaysSinceLastEvent, Analytics.Status, Analytics.Gaps, Analytics.MeanGap, Analytics.MeanGapSpan, Analytics.Streak and Views.DaysRemaining: the app counts days with `Calendar.current.dateComponents([.day], from:to:).day` (`:106`, `:115`, `:140`, `:1141`), the number of complete days elapsed. The model subtracts day numbers. The app's count is one lower whenever the later instant's time of day is earlier than the earlier one's: an event at 23:00 and now at 01:00 the next day give 0 days in the app and 1 in the model. The average truncates each gap separately, so `MeanGapSpan`'s span-over-count form holds for day numbers, not for the app's counts.
- The sweep's cutoff is a whole day here. In the app it is `now` minus seven days to the second, so a Thing deleted exactly seven days earlier but at an earlier hour is swept by the app and kept by the model.
- JSON encoding and decoding, and the UserDefaults store, are left out. Decoding is an `Option` parameter, and the stored entry is a ghost field.
- `save` does not model a failed encode, which leaves the old entry in place; encoding a list of Things cannot fail.
- `ExportData` returns the exported Things rather than the JSON text. The empty string returned when encoding fails is not modelled.
- Asking for notification permission (`requestNotificationPermission`) and the notification's title, body and sound are left out.
- Theme selection (`setTheme`, `loadTheme`) and all colours, gradients and icons are left out, because they do not affect the data.
- The search uses the platform's locale-aware, case-insensitive `localizedCaseInsensitiveContains`. It is a parameter of `Views.FilteredThings`.
- Views.FilteredThings: Swift's `sort` is not guaranteed to be stable, so the contract states a permutation sorted by key, not a particular order among equal keys.
- Views.ByCategoryOrder: names and raw values are compared by character code. Swift's `String` `<` also applies Unicode canonical equivalence, which is not modelled.
- Views.RecentlyDoneOrder: a Thing with no events sorts as if last done at `.distantPast`. The model puts it after every Thing that has an event, which differs only for events dated before year 1.
- Analytics.Status: Swift `Int` arithmetic traps on overflow, and `goal + 2` and `goal - 2` (`Since-I-Last/ContentView.swift:158`, `:160`) do so for a goal within 2 of the 64-bit limits. The goal comes from a number-pad text field converted by `Int(_:)` (`:902`, `:1014`, `:1330`, `:1400`) or from an import, so such a goal can be entered. The model computes with unbounded integers and has no crash.
- Analytics.Streak: likewise `goal + 3` (`:141`) traps for a goal within 3 of `Int.max`; the model does not.
- Manager.FireDay: likewise `(dateComponents.day ?? 0) + daysToWait` (`:395`) traps when the goal is near the 64-bit limits; the model does not.
- Manager.FireDay: the app writes the day of the month plus the wait into date components without normalising them (`:393-398`), so the trigger may ask for, say, day 35 of a month, which no date matches; such a reminder may never fire (as the code reads). The model's fire day is the date the components are meant to denote.
- Day counts between real dates stay far below the 64-bit limits, so the sums of gaps and the streak counter do not overflow.
- Analytics.AverageFrequency: the `guard !gaps.isEmpty` can never fail once there are two events, since every gap is recorded. It is not a branch of the model, and `Analytics.MeanGap` states when the result is absent.
- Analytics.Streak: the `?? 0` fallback for a missing day count cannot fire with day numbers, so it is not a branch of the model.
- `firstIndex(of:) ?? 999` in the "Needs Attention First" sort is never reached, because every status is in the order list.
- The SwiftUI views other than `filteredThings` and `daysRemaining` are left out.
