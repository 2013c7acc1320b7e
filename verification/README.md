# schedule-generator, modelled in Dafny

This project models the logic of a university course-schedule planner. Students put whole courses or single sections
in a basket. The backend builds every conflict-free timetable from the sections' weekly hours, and explains an empty
result by naming clashing courses. Small import scripts fill the time-slot and course tables from spreadsheets. The
frontend sorts, pages and exports the timetables and translates the backend's messages.

The model is purely functional. Its parts follow the program:

- **Weekly masks** (`masks.dfy`). A section's weekly occupancy is five sets of hour indices 0..12. Bit `h` of a day's
  13-bit integer is set exactly when `h` is in that day's set, so `|`, `&` and `^` become union, intersection and
  symmetric difference.
- **Course data** (`organize.dfy`). The database rows are grouped into courses and sections, and the masks are
  built. The catalogue is then filtered to what the basket asks for.
- **Generator** (`generator.dfy`). The depth-first search picks one section per course with disjoint masks. It also
  builds the 5×13 timetable of a schedule and assembles the worker's result, capped at 120 schedules.
- **Diagnosis** (`diagnosis.dfy`). Pairwise and three-way conflict detection, with suggestions. It also models the
  guards of `generateSchedule`: empty basket, combination overload and complex conflict.
- **Basket routes** (`basket.dfy`, `admin.dfy`, `schedule_routes.dfy`, `legacy.dfy`). These are state machines over
  the session record: the course basket, the write-once major, saved baskets and the admin flag. The schedule routes'
  guards live here too, as do the older single-file server's search and credit list.
- **Imports** (`seed_import.dfy`, `import_service.dfy`, `arith_slots.dfy`, `slot_labels.dfy`). These cover the
  seeding of the time-slot grid and the parsing of "Day | HH:MM - HH:MM" session lines. They map sessions to slot
  ids by lookup or by arithmetic, and show how stored slots read back for display.
- **Selection tables and curriculum** (`regulate.dfy`, `curriculum.dfy`). `regulate` and `course_to_sections` of
  the command-line planner. The quote-aware CSV splitter, the semester parser and the bucketing of the curriculum
  converter.
- **Metadata cache** (`metadata_cache.dfy`). The one-hour cache of table columns.
- **Frontend** (`ics.dfy`, `sorting.dfy`, `schedule_list.dfy`, `focus_mode.dfy`, `translations.dfy`,
  `backend_errors.dfy`):
  - the iCalendar export, in the text format of RFC 5545;
  - the morning-load orderings, which are a stable sort;
  - paging, day names and the translation of backend errors.

Shared helpers sit in `wrappers.dfy` (`Option`), `strings.dfy` (the JavaScript and Python string operations the
source uses), `seqs.dfy` and `assoc.dfy`. The last models insertion-ordered JavaScript objects as association lists.

Conventions:

- Credits are integers in hundredths, because the database column is DECIMAL(5,2).
- The parsing of decimal text (`parseFloat`, Python's `float`) is a parameter.
- Database reads are parameters or maps; the clock is a parameter too.
- A JavaScript `undefined` or a thrown error becomes `None` where the caller can observe it.

## Model

| member | source | states |
|---|---|---|
| Masks.DayIndex | backend/src/services/scheduleService.js:7-13 | a day has an index exactly when it is one of the five Turkish weekday names, and the index points back at that name |
| Masks.BeforeColonIsSplitHead | backend/src/services/scheduleService.js:14-15 | the text read as the hour is `time.split(':')[0]`, the characters before the first colon |
| Masks.TimeToIndexOfLabel | backend/src/services/scheduleService.js:14-17 | `TimeToIndex`, the model of `timeToIndex`: "H:MM" maps to hour index H − 8 whatever the minutes, so an end time rewritten from ":40" to ":30" keeps its index |
| Masks.HexHourIndex | backend/src/services/scheduleService.js:14-17 | `parseInt` without a radix reads "0x1A:40" in base 16: hour 26, index 18, past the grid |
| Masks.SectionsConflict | backend/src/services/scheduleService.js:147-154 | two sections conflict exactly when some weekday has an hour in both masks, and the test is symmetric |
| Masks.XorUndoesOr | backend/src/services/scheduleWorker.js:64-75 | when the section's mask is disjoint from the running mask, XOR after OR gives back the mask from before the section was added |
| Masks.XorNeedsDisjointness | backend/src/services/scheduleWorker.js:57-75 | without the conflict check the undo is wrong: XOR clears an hour that was already set before the section came in |
| Masks.HourRange | backend/src/services/scheduleService.js:115-116 | the hours the loop marks are exactly those from the start index up to (not including) the end index that lie in 0..12 |
| Masks.AddSlot | backend/src/services/scheduleService.js:110-111 | a slot on a day outside the five leaves the mask unchanged |
| Masks.AddSlotHours | backend/src/services/scheduleService.js:110-120 | adding a slot keeps every hour already set and adds exactly the slot's hours on the slot's own day |
| Organize.GroupRows | backend/src/services/scheduleService.js:78-101 | `rawCourses` holds each course code once, and within a course each section name once |
| Organize.MaskOfCovers | backend/src/services/scheduleService.js:103-121 | a section's mask has hour h of day d exactly when one of its time slots covers that hour |
| Organize.AddRowLookup | backend/src/services/scheduleService.js:80-121 | one row changes only its own section: the row's fields create that section if it is new, and the row's slot is appended when all three slot columns are present |
| Organize.GroupRowsLookup | backend/src/services/scheduleService.js:78-122 | a section holds the fields of its first row, the complete slots of all its rows in row order, and the mask those slots build; a section no row names is absent |
| Organize.GroupRowsCourses | backend/src/services/scheduleService.js:80-88 | a course appears in `rawCourses` exactly when some row names it |
| Organize.SelectedNames | backend/src/services/scheduleService.js:129-131 | a section name is selected for a course exactly when the basket holds that (course, section) pair |
| Organize.GetPickSections | backend/src/services/scheduleService.js:133-139 | a course picked by section keeps a section exactly when it was selected and exists, and keeps it unchanged |
| Organize.FilterCatalog | backend/src/services/scheduleService.js:124-142 | the filter never invents a course that `rawCourses` lacks |
| Organize.GetFilterCatalog | backend/src/services/scheduleService.js:124-142 | a whole-basket course is kept with all its sections; otherwise it is kept only if some section of it was selected, and then only with the selected sections |
| Organize.OrganizeCourseData | backend/src/services/scheduleService.js:77-145 | every filtered course is a course of `rawCourses`, whose codes are unique |
| Organize.OrganizedSection | backend/src/services/scheduleService.js:77-145 | a filtered section is the section the rows describe, and it is kept exactly when its course is in the basket whole or the section itself was selected |
| Organize.OrganizeKeyed | backend/src/services/scheduleService.js:85-140 | both catalogs hold every section once, under its own section name, because sections are stored as `sections[section_name]` and the filter copies them by name |
| Generator.Options | backend/src/services/scheduleWorker.js:34-51 | the search sees one list per course, in key order, holding that course's sections in insertion order |
| Generator.ChoicesValid | backend/src/services/scheduleWorker.js:43-78 | the search yields exactly the valid schedules: one section of each course in course order, no two sharing an hour |
| Generator.ChoicesNoDups | backend/src/services/scheduleWorker.js:43-78 | when no course offers a section twice, the search yields no schedule twice |
| Generator.OptionsDistinct | backend/src/services/scheduleWorker.js:51 | `Object.values` of sections keyed by their own names lists each section once |
| Generator.KeyedChoicesOnce | backend/src/services/scheduleWorker.js:33-82 | for a catalog keyed by section name the search yields no schedule twice, and every valid schedule exactly once |
| Generator.ChoicesAtMost | backend/src/services/scheduleWorker.js:43-78 | the search never yields more schedules than the product of the section counts |
| Generator.TrySections | backend/src/services/scheduleWorker.js:53-77 | the loop over one course's sections appends each completion through a free section, in order, and leaves the mask as it found it |
| Generator.Backtrack | backend/src/services/scheduleWorker.js:43-78 | `backtrack(k)` appends every completion the later courses allow and restores `currentMask` |
| Generator.GenerateAllSchedules | backend/src/services/scheduleWorker.js:33-82 | a schedule is in the result exactly when it is valid; for a catalog keyed by section name, as `organizeCourseData` builds, every valid schedule is in it exactly once |
| Generator.PaintRow | backend/src/services/scheduleWorker.js:98-102 | painting a row sets exactly the cells of the slot's hours to the section id and keeps the others |
| Generator.PaintSlotsCell | backend/src/services/scheduleWorker.js:91-103 | after a section's slots are painted, a cell holds the section's id exactly when the section's mask has that hour |
| Generator.LastCovering | backend/src/services/scheduleWorker.js:90-104 | the last section whose mask has hour h of day d, with no later one having it; `None` when no section has it |
| Generator.MatrixCell | backend/src/services/scheduleWorker.js:87-106 | `CreateMatrix`, the model of `createMatrix`: a timetable cell holds the id of the last section occupying it, and 0 when none does |
| Generator.MatrixOfValid | backend/src/services/scheduleWorker.js:87-106 | for pairwise disjoint sections, a cell holds the id of the one section that occupies it, so the order of writes never matters |
| Generator.SumCreditsAppend | backend/src/services/scheduleWorker.js:124 | the credit total of a schedule is the sum of the totals of any split of its lessons |
| Generator.TransformSchedule | backend/src/services/scheduleWorker.js:111-131 | a transformed schedule has one lesson per section in schedule order, its `totalCredits` is the sum of those lessons' credits, and its timetable is the section matrix |
| Generator.WorkerOutput | backend/src/services/scheduleWorker.js:136-150 | the result counts all schedules and transforms at most the first 120; `limited` is set only when there are schedules, and is true exactly when more than 120 exist |
| Generator.RunWorker | backend/src/services/scheduleWorker.js:134-154 | the worker reports how many schedules the search yields and exactly the first min(total, 120) of them transformed, each valid, as `slice(0, maxSchedules)` keeps them; for a catalog keyed by section name the yielded schedules are distinct, so the count is the number of valid schedules |
| Diagnosis.Suggestion | backend/src/services/scheduleService.js:179-200 | a blocked pair gets a suggestion exactly when one of the two was picked by section and the full courses have a compatible pair |
| Diagnosis.InBlockedPairs | backend/src/services/scheduleService.js:160-178 | the pairs reported are exactly the pairs a < b of courses where every section of one conflicts with every section of the other |
| Diagnosis.NoBlockedPairs | backend/src/services/scheduleService.js:160-178 | no pair is reported exactly when every two courses have a compatible pair of sections |
| Diagnosis.HasCompatiblePair | backend/src/services/scheduleService.js:167-176 | the nested loops find a pair exactly when some section of one course shares no hour with some section of the other |
| Diagnosis.SuggestionFor | backend/src/services/scheduleService.js:179-200 | the loops over the full courses compute the suggestion rule |
| Diagnosis.ScanPairs | backend/src/services/scheduleService.js:160-210 | the pairwise loops produce one `COURSE_CONFLICT` record per blocked pair, in loop order |
| Diagnosis.HasCompatibleTrio | backend/src/services/scheduleService.js:228-245 | the three nested loops succeed exactly when some three sections, one per course, are pairwise free |
| Diagnosis.FindBadTrio | backend/src/services/scheduleService.js:216-259 | the loops stop at the first blocked trio in loop order, and find none only when no trio is blocked |
| Diagnosis.DetectConflicts | backend/src/services/scheduleService.js:156-263 | the result is the pairwise records; when there are none and at least three courses, it is the record of the first blocked trio, or empty when no trio is blocked |
| Diagnosis.DetectResultTrio | backend/src/services/scheduleService.js:247-256 | a non-empty result of the trio pass is a single three-course `COMPLEX_CONFLICT` naming a blocked trio |
| Diagnosis.ValidMeetsPairs | backend/src/services/scheduleService.js:160-178 | any valid schedule holds a compatible pair for every two courses, so a reported pair really has no schedule |
| Diagnosis.ScheduleMeansNoBlockedPair | backend/src/services/scheduleService.js:156-210 | when the search finds a schedule, the pairwise detection reports nothing |
| Diagnosis.ScheduleMeansNoBadTrio | backend/src/services/scheduleService.js:216-259 | when the search finds a schedule, no trio is blocked |
| Diagnosis.BasketCodes | backend/src/services/scheduleService.js:281-285 | the codes queried are duplicate-free, and are exactly the whole courses plus the courses of the selected sections |
| Diagnosis.PotentialCombos | backend/src/services/scheduleService.js:303-306 | the guard's `reduce` is the number of ways to take one section of each course |
| Diagnosis.GenerateSchedule | backend/src/services/scheduleService.js:268-390 | an empty basket and a basket with no rows are refused. Otherwise the answer is one of three: the overload refusal above 1,000,000 combinations, the diagnosis of an empty result (with the fallback record when detection is silent), or the first min(total, 120) valid schedules with `totalSchedules` their number and the true total |
| Basket.NormalizeName | backend/src/routes/courseRoutes.js:69 | the search key has no whitespace and no upper-case ASCII letter, and is no longer than the input |
| Basket.NormalizeIdempotent | backend/src/routes/courseRoutes.js:69 | normalising a key twice gives the same key as normalising it once, so keys built from keys agree |
| Basket.SearchKey | backend/src/routes/courseRoutes.js:47-69 | a search is refused exactly when the name is missing or shorter than two characters after trimming; otherwise the key is the normalised name |
| Basket.AddWholeCourse | backend/src/routes/courseRoutes.js:268-323 | a whole course is added exactly when it exists, is not already listed and has no section listed. Then it is appended and nothing else changes. A refusal is 404 for an unknown course, else 400, and changes nothing |
| Basket.AddSection | backend/src/routes/courseRoutes.js:325-400 | a section is added exactly when it exists, passes the name heuristic, is not already listed and its course is not listed whole. Then it is appended. A refusal is 404 or 400 and changes nothing |
| Basket.Add | backend/src/routes/courseRoutes.js:241-269 | a missing course code is 400; a missing section adds the whole course, otherwise the section |
| Basket.AddKeepsBasketOk | backend/src/routes/courseRoutes.js:288-381 | adding keeps the basket free of repeated courses and sections, and of courses taken both whole and by section |
| Basket.Without | backend/src/routes/courseRoutes.js:439 | the filter drops every copy of the course and keeps every other code |
| Basket.FindRef | backend/src/routes/courseRoutes.js:463-465 | the index found is the first entry equal to the requested pair, and there is none exactly when the pair is absent |
| Basket.RemoveWholeCourse | backend/src/routes/courseRoutes.js:428-452 | a whole course is removed exactly when listed, by dropping it from the course list; otherwise 400 with no change |
| Basket.RemoveSection | backend/src/routes/courseRoutes.js:454-487 | a section is removed exactly when listed, by splicing out its first occurrence; otherwise 400 with no change |
| Basket.Remove | backend/src/routes/courseRoutes.js:416-429 | a missing course code is 400; a missing section removes the whole course, otherwise the section |
| Basket.Splice | backend/src/routes/courseRoutes.js:475 | splicing at i drops exactly the entry at i and keeps the order of the others |
| Basket.RemoveKeepsBasketOk | backend/src/routes/courseRoutes.js:416-487 | removing keeps the basket invariant |
| Basket.RemoveAfterAdd | backend/src/routes/courseRoutes.js:241-487 | removing what was just added succeeds and gives back the session exactly as it was |
| Basket.ViewBasket | backend/src/routes/courseRoutes.js:503-518 | the basket view shows the session's lists and major, and `totalItems` is the number of entries in both lists |
| Basket.ClearBasket | backend/src/routes/courseRoutes.js:534-551 | clearing empties both lists and keeps the major and the saved baskets |
| Basket.TotalItemsTrack | backend/src/routes/courseRoutes.js:503-551 | the count shown goes up by one on each successful add, stays put on a refusal, and is 0 after clearing |
| Basket.SetMajor | backend/src/routes/courseRoutes.js:564-614 | a major is set exactly when one is given, none is set yet, and it is on the allow-list. Setting a second major is 403 and checks the allow-list only afterwards. A refusal changes nothing |
| Basket.MajorWriteOnce | backend/src/routes/courseRoutes.js:576-588 | once a major is set, every later request is refused and the major stays |
| Basket.SaveBasket | backend/src/routes/courseRoutes.js:655-668 | a non-blank name stores the live lists under that name and changes no other saved basket and no live field; a blank name is 400 |
| Basket.LoadBasket | backend/src/routes/courseRoutes.js:706-716 | an unknown name is 404 with no change; a known one replaces both live lists with the saved ones and touches nothing else |
| Basket.RemoveSaved | backend/src/routes/courseRoutes.js:737-744 | an unknown name is 404; a known one deletes only that saved basket |
| Basket.LoadAfterSave | backend/src/routes/courseRoutes.js:655-733 | loading a basket right after saving it under the same name succeeds and changes nothing |
| Basket.EditsKeepSessionOk | backend/src/routes/courseRoutes.js:241-551 | adding, removing and clearing keep the live basket and every saved one free of repeats and double takes |
| Basket.SavedHandlersKeepSessionOk | backend/src/routes/courseRoutes.js:564-757 | setting the major, saving, loading and deleting saved baskets keep that session invariant |
| Admin.AuthAdmin | backend/src/routes/adminRoutes.js:7-12 | the guarded handler runs exactly when the session's admin flag is set; otherwise the answer is 401 |
| Admin.Login | backend/src/routes/adminRoutes.js:15-31 | with no configured password the answer is 500 and nothing changes. The right password sets the flag; a wrong one is 401 and keeps the flag |
| Admin.Logout | backend/src/routes/adminRoutes.js:34-37 | logout always succeeds and clears the flag |
| Admin.LoginOpensGate | backend/src/routes/adminRoutes.js:7-37 | after a successful login the guard lets requests through, after logout it refuses them, and a failed login leaves the guard as it was |
| Admin.CoursesQuery | backend/src/routes/adminRoutes.js:99-111 | the parameter list has three entries with a search term and two without |
| Admin.PlaceholdersMatch | backend/src/routes/adminRoutes.js:101-111 | the last two placeholders of the SQL text are numbered after the parameters they bind, the limit and the offset, and the filter is present exactly when a pattern was pushed |
| Admin.DefaultPage | backend/src/routes/adminRoutes.js:101 | without query fields the page is limit 50 at offset 0 |
| ScheduleRoutes.Generate | backend/src/routes/scheduleRoutes.js:9-35 | an empty basket is 400 without calling the service; otherwise the service's answer is sent, with 400 when it reports failure |
| ScheduleRoutes.GetInfo | backend/src/routes/scheduleRoutes.js:51-67 | `totalItems` counts both lists, `canGenerate` holds exactly when it is positive, and the message follows `canGenerate` |
| ScheduleRoutes.InfoAgreesWithGenerate | backend/src/routes/scheduleRoutes.js:9-67 | `/info` says a basket can be generated exactly when `/generate` passes it to the service |
| Legacy.FirstCreditsNone | index.js:144-153 | a name has no group exactly when no row has that name |
| Legacy.FirstCreditsFirst | index.js:144-153 | a group's credits are those of the first row with its name |
| Legacy.GroupSearch | index.js:142-156 | each course name has one group, and the groups come in the order of their names' first rows, as a `Map` iterates |
| Legacy.GroupSearchGet | index.js:142-156 | a name's group holds the first such row's credits and the sections of all such rows in row order; no other name has a group |
| Legacy.Search | index.js:124-158 | a missing or empty name is 400; otherwise the answer is the grouping of the rows the query returns, one group per name in first-row order |
| Legacy.AddCourse | index.js:167-185 | a course is appended exactly when name and credits are given and the name is not listed yet, creating the list if need be; otherwise 400 with no change |
| Legacy.IndexOfName | index.js:197 | the index found is the first entry with the name, and there is none exactly when no entry has it |
| Legacy.RemoveCourse | index.js:187-205 | the first entry with the name is removed when name and credits are given and the list has the name; otherwise 400 with no change |
| Legacy.Totals | index.js:211-219 | without a list both totals are 0; otherwise `totalCredits` is the sum of the entries' credits and `totalLesson` the number of entries |
| Legacy.AddRaisesTotals | index.js:167-219 | a successful add raises the credit total by the new credits and the lesson count by one |
| Legacy.RemoveUndoesAdd | index.js:167-219 | removing a course right after adding it restores the list (an absent one comes back empty) and both totals |
| Legacy.AddKeepsNamesUnique | index.js:177-182 | adding never lists a name twice |
| SlotLabels.SlotLabelInjective | backend/database_python/database.py:150-156 | different hours get different `hour_of_day` labels, so a label names one hour |
| SlotLabels.Labels | backend/database_python/database.py:151-152 | the labels of a seeding are `"{h}:40"` for each hour of the range, in order |
| SlotLabels.LabelsNoDups | backend/database_python/database.py:151-152 | no label repeats within a day |
| SlotLabels.GridShape | backend/database_python/database.py:150-156 | the seeding writes one row per day and label, and every row names one of the days and one of the labels |
| SlotLabels.TimeId | backend/database_python/database.py:256-260 | the lookup finds an id exactly when the (day, label) row exists, and the id is the 1-based position of that row in insertion order |
| SlotLabels.GridTimeId | backend/database_python/database.py:150-156 | with distinct days, day k and hour h get id k × (hours per day) + (h − first hour) + 1 |
| SlotLabels.EndSlotLabel | backend/database_python/database.py:243-253 | an end is mapped exactly when it ends in ":30" or ":40", and always to a ":40" slot label |
| SlotLabels.EndRoundTrip | backend/src/services/scheduleService.js:56-61 | an end `X:30` is stored as the slot `X:40` and read back as `X:30`, and an end `X:40` also reads back as `X:30`: the stored end round-trips to the half-hour the timetable shows |
| SeedImport.SeedRowCount | backend/database_python/database.py:148-156 | `populate_time_slots` writes 70 rows |
| SeedImport.SeededIds | backend/database_python/database.py:148-156 | the row for day k and hour h gets id 14k + h − 7 |
| SeedImport.SeedLabelsUnpadded | backend/database_python/database.py:150-152 | every seeded row names one of the five days and a label that does not start with '0' |
| SeedImport.PaddedLabelMissing | backend/database_python/database.py:256-257 | a zero-padded label such as "08:40" names no seeded slot |
| SeedImport.PySession | backend/database_python/database.py:213-214 | a session line parses only when it splits into exactly two parts around " \| ", and the parts hold no further separator |
| SeedImport.Required | backend/database_python/database.py:209-217 | `required` exists exactly when every session line has a readable start and end hour |
| SeedImport.SessionSlot | backend/database_python/database.py:230-268 | a mapping row is written only for a ":40" start and a ":30" or ":40" end, with the ids the two exact-text lookups return, and exactly when both lookups succeed |
| SeedImport.ImportRow | backend/database_python/database.py:196-278 | a row commits exactly when it has seven cells, `float` accepts the credits, every session line parses and the database accepts the course INSERT. It then holds the name, the name glued to the section, the credits, the required hours and the mapped slots |
| SeedImport.SchemaOverflowRolledBack | backend/database_python/database.py:80-90 | credits of 1000 or more overflow DECIMAL(5,2), and a name glued to its section beyond VARCHAR(255) overflows its column; either row is rolled back |
| SeedImport.ImportAllAppend | backend/database_python/database.py:196-278 | `AddCoursesFromCsv` skips the header and imports the other rows through `ImportAll`: each row runs under its own savepoint, so importing two runs of rows is importing each |
| SeedImport.FailedRowLeavesNothing | backend/database_python/database.py:273-278 | a failing row is rolled back to its savepoint and the rows around it import as if it were absent |
| SeedImport.UnpaddedMorningUnreadable | backend/database_python/database.py:215 | as written, an unpadded morning start such as "8:40" makes `int("8:")` raise, so the whole row fails |
| SeedImport.PaddedMorningUnmapped | backend/database_python/database.py:239-266 | as written, a padded morning start such as "08:40" never finds its slot, whatever the day and the end |
| SeedImport.FixedSessionSlot | backend/database_python/database.py:230-268 | the corrected mapping looks the start up by its canonical label `"{hour}:40"` |
| SeedImport.FixedHourReadsBoth | backend/database_python/database.py:215 | with `PyInt` as Python's `int`: read as the integer before the colon, both "h:40" and "0h:40" give hour h |
| SeedImport.FixedStartMapped | backend/database_python/database.py:148-266 | corrected: a start at hour h of a seeded day, spelt "h:40" or "0h:40", names the slot with id 14k + h − 7 |
| ArithSlots.DayBase | scripts/database.py:133-143 | `day_id` is 13k + 1 for the k-th weekday and 0 for any other day |
| ArithSlots.ScriptRowCount | scripts/database.py:75-82 | `handle_time_table` writes 65 rows |
| ArithSlots.ScriptIds | scripts/database.py:75-82 | the row for day k and hour h gets id 13k + h − 7 |
| ArithSlots.ArithStartMatches | scripts/database.py:145-158 | the arithmetic start id of a session at hour a on a seeded day is the id of the slot `"{a}:40"` |
| ArithSlots.ArithEndMatches | scripts/database.py:145-158 | the arithmetic end id of a session ending at hour b is the id of the slot `"{b-1}:40"`, the last hour taken |
| ArithSlots.NoBoundsCheck | scripts/database.py:133-158 | nothing checks the ids: an unknown day counts from 0, and a Friday session from 21 names id 66, past the 65 seeded slots |
| ArithSlots.PaddedHourRead | scripts/database.py:146 | `int(t[0:2])` reads a zero-padded start as its hour |
| ArithSlots.LineIds | scripts/database.py:130-158 | a session line gets ids exactly when its hours are readable |
| ArithSlots.ScriptRow | scripts/database.py:109-159 | a row commits its course exactly when it has seven cells and every session line is readable. Its slot rows are the lines' id pairs in order, up to the first pair naming a missing slot, where the foreign key makes the row raise |
| ArithSlots.InsertSlots | scripts/database.py:127-158 | the slot loop inserts the id pairs in order and raises at the first one that names a slot the table does not hold |
| ArithSlots.MissingSlotRaises | scripts/database.py:58-60 | a readable row with a session naming a missing slot, such as one on an unknown day, commits its course and then raises |
| ArithSlots.AddToDb | scripts/database.py:102-161 | rows run in order until the first one that raises. What that row committed before raising stays, and no later row runs |
| ArithSlots.StopsAtFirstFailure | scripts/database.py:109-159 | the run stops exactly at the first row that raises, whether before its course INSERT or at a slot row whose foreign key fails |
| ImportService.ReplaceNonAlnum | backend/src/services/importService.js:31 | each character outside `[a-zA-Z0-9]` becomes '_' and every other character stays |
| ImportService.SanitizeTerm | backend/src/services/importService.js:31-33 | a sanitised term has the term's length, uses only `[a-z0-9_]`, and has '_' exactly where the term had a non-alphanumeric or '_' |
| ImportService.SanitizeIdempotent | backend/src/services/importService.js:31 | sanitising a sanitised term changes nothing |
| ImportService.SanitizeMerges | backend/src/services/importService.js:31-33 | two terms differing only in ASCII case, or in which non-alphanumeric stands at a place, write to the same tables |
| ImportService.CellOr | backend/src/services/importService.js:54-64 | `row[key] \|\| fallback` gives the cell unless it is missing or empty, and then the fallback |
| ImportService.Credits | backend/src/services/importService.js:59 | unreadable or missing credits become 0 |
| ImportService.SessionLines | backend/src/services/importService.js:76 | the session lines are the lines of the trimmed text that contain a '\|', each once |
| ImportService.MapSlot | backend/src/services/importService.js:96-141 | a slot row is written exactly for a ":40" start and a ":30" or ":40" end whose two lookups succeed, and it holds the ids found |
| ImportService.Sessions | backend/src/services/importService.js:78-80 | the sessions parse exactly when every line has a start and an end |
| ImportService.RequiredHours | backend/src/services/importService.js:74-84 | `requiredHours` is a number exactly when every span is |
| ImportService.ImportSheetRow | backend/src/services/importService.js:46-156 | a row fails for a missing code, then a session line without an end, then `NaN` required hours, then the database's refusal, each exactly when the earlier checks pass and it fails. A row passing all four commits. A failed row is logged with its subject and number. A committed row holds the glued code and section, the defaults for missing cells, the required hours and its slot rows |
| ImportService.UnreadableCreditsCommit | backend/src/services/importService.js:58 | credits `parseFloat` cannot read become 0 and do not make the row fail |
| ImportService.Tally | backend/src/services/importService.js:143-153 | successes and failures add up to the row count; row i is logged as number i + 2 exactly when it failed |
| ImportService.ImportFromExcel | backend/src/services/importService.js:15-159 | the counters add up to the row count, and a row is logged under its sheet number exactly when it failed |
| ImportService.MissingCodeLogged | backend/src/services/importService.js:66-68 | a row without a course code is logged under its sheet row number |
| ImportService.SlotsPerSession | backend/src/services/importService.js:96-141 | when every session maps, there is one slot row per distinct session line, in order |
| ImportService.UnpaddedStartRead | backend/src/services/importService.js:81 | unlike the Python seed script, `parseInt` reads an unpadded morning start: "8:40" gives 8 |
| Strings.JsParseIntHex | backend/src/services/scheduleService.js:15 | `JsParseInt`, the model of JavaScript's `parseInt`: with no radix, `parseInt` reads a `0x` or `0X` prefix as base 16, and a prefix with no digit after it is `NaN` |
| Regulate.MarkWholeGet | schedule.js:5-7 | after the first loop a course maps to `["all"]` exactly when it was added whole, and any other name is absent |
| Regulate.MarkWholeKeys | schedule.js:5-7 | the keys are the whole courses, each once, in the order they were first added |
| Regulate.AddPicksGet | schedule.js:8-14 | a pick's section is appended to its course's list when the course is already present, and starts a one-element list otherwise |
| Regulate.AddPicksKeys | schedule.js:8-14 | the picks' courses not yet present become new keys after the existing ones, in the order they were first picked |
| Regulate.Regulate | schedule.js:3-16 | the result holds each course under one key only |
| Regulate.RegulateKeys | schedule.js:3-16 | the keys are the whole courses followed by the courses picked, each once, in order of first insertion |
| Regulate.RegulateGet | schedule.js:3-16 | a whole course's list is `"all"` followed by its picks; a picked course's list is its picks in order; any other course is absent |
| Regulate.WholeIffAll | schedule.js:69 | comparing a list with the string `"all"` succeeds for the list `["all"]` only |
| Regulate.WholeAfterRegulate | schedule.js:69 | a course is taken whole exactly when it was added whole and no section was picked, or its single pick is a section literally named `all` |
| Regulate.Kept | schedule.js:69-100 | a whole course keeps every row, in order |
| Regulate.KeptCount | schedule.js:93-100 | outside a whole course a row is visited once for each entry of the course's list that equals its section name |
| Regulate.KeptEmptyList | schedule.js:93-100 | an empty list visits no row |
| Regulate.PlaceAll | schedule.js:71-91 | a section is created once, so its name is a key only once |
| Regulate.Flat | schedule.js:90 | each row adds its start hour and then its end hour |
| Regulate.PlaceAllTimes | schedule.js:83-90 | a section's list for a day is the start and end hours of that section's rows on that day, in the order visited |
| Regulate.PlaceAllFields | schedule.js:75-82 | lecturer, credits and required come from the first row naming the section; later rows only add hours |
| Regulate.CourseToSections | schedule.js:65-125 | the call throws exactly when a course with rows has no entry in the regulated object |
| Regulate.CourseEntry | schedule.js:65-125 | a course's entry is built from its kept rows; a course with no kept rows, or absent from the catalogue, has no entry |
| MetadataCache.GetTableColumns | backend/src/utils/dbUtils.js:13-38 | an entry younger than one hour answers without a query; otherwise the answer is stored with the call's time; a failed query gives `[]` and leaves the cache as it was |
| MetadataCache.TableExists | backend/src/utils/dbUtils.js:45-49 | a table exists when it has at least one column; the cache changes as it does in the column lookup |
| MetadataCache.Clear | backend/src/utils/dbUtils.js:54-56 | no table has an entry afterwards |
| MetadataCache.HitIgnoresQuery | backend/src/utils/dbUtils.js:17-19 | while an entry is fresh, what the database would answer makes no difference |
| MetadataCache.FetchedThenCached | backend/src/utils/dbUtils.js:6-33 | fetched columns are served for the next hour and fetched again after it; no other table's entry changes |
| MetadataCache.FailureNotCached | backend/src/utils/dbUtils.js:34-37 | after a failed query the next call queries again |
| MetadataCache.ClearedQueriesAgain | backend/src/utils/dbUtils.js:54-56 | after clearing, every lookup goes to the database |
| Curriculum.Separators | scripts/convert_curriculum.js:50-56 | the splitting commas lie in the line, in increasing order |
| Curriculum.SeparatorsAre | scripts/convert_curriculum.js:50-56 | a position splits the line exactly when it holds a comma with an even number of quotes before it |
| Curriculum.ScanFields | scripts/convert_curriculum.js:50-60 | after each character the quote flag is the parity of the quotes read so far; the finished cells are the fields read so far, unquoted and trimmed; the open cell is the current field, unquoted |
| Curriculum.ParseCsvLine | scripts/convert_curriculum.js:45-63 | there is one cell per field between splitting commas, and each cell is its field with the quotes removed and then trimmed |
| Curriculum.CellsClean | scripts/convert_curriculum.js:55-61 | no cell has a quote or surrounding white space |
| Curriculum.QuotedCommasKept | scripts/convert_curriculum.js:52-54 | a line whose commas are all inside quotes is one cell, and that cell keeps every comma |
| Curriculum.CellCount | scripts/convert_curriculum.js:54-61 | the number of cells is one more than the number of commas outside quotes |
| Curriculum.FirstYear | scripts/convert_curriculum.js:67 | the pattern `N. Yıl` is found at its leftmost match |
| Curriculum.ParseSemester | scripts/convert_curriculum.js:65-79 | the year is `Unknown` exactly when the pattern matches nowhere, and otherwise is the digits of the leftmost match; the season is spring when the label mentions `bahar` or `spring` in any ASCII casing, and fall otherwise |
| Curriculum.LabelYear | scripts/convert_curriculum.js:66-70 | a label `N. Yıl - ...` gives year `N` |
| Curriculum.SpringWord | scripts/convert_curriculum.js:68-73 | a label containing either spring word, in any ASCII casing, is a spring semester |
| Curriculum.Entry | scripts/convert_curriculum.js:165-172 | the stored titles, prerequisites and corequisites hold no quote, and credits that do not parse become 0 |
| Curriculum.Placed | scripts/convert_curriculum.js:112-116 | a line with fewer than seven cells is skipped; any other goes to the year and season its seventh cell names |
| Curriculum.NonBlank | scripts/convert_curriculum.js:89 | every kept line is a line of the file that is not blank after trimming, and every such line is kept |
| Curriculum.ConvertFile | scripts/convert_curriculum.js:81-173 | the conversion fails exactly when the file has no non-blank line, since the header line is then undefined |
| Curriculum.FirstYearsGet | scripts/convert_curriculum.js:106-108 | years 1 to 4 start with empty fall and spring lists, and no other year is present |
| Curriculum.UnnamedEmpty | scripts/convert_curriculum.js:110-120 | a year that no line names has no courses |
| Curriculum.BucketGet | scripts/convert_curriculum.js:106-172 | each year's lists hold the courses of exactly the lines labelled with that year and season, in file order; years 1 to 4 are always present, and another year is present exactly when a line names it |
| Ics.NextDay | frontend/src/utils/exportSchedule.js:170 | the next calendar day is a valid date one weekday further on |
| Ics.NextDayNumber | frontend/src/utils/exportSchedule.js:170 | the next day is one further on an independent running count of days since year 0 |
| Ics.YearStep | frontend/src/utils/exportSchedule.js:170 | the running count grows by 366 days over a Gregorian leap year and by 365 over any other year |
| Ics.AddDays | frontend/src/utils/exportSchedule.js:170 | adding `n` days gives a valid date `n` weekdays further on, month and year rolling over |
| Ics.AddDaysNumber | frontend/src/utils/exportSchedule.js:170 | adding `n` days moves `n` further on the running count of days |
| Ics.TargetDay | frontend/src/utils/exportSchedule.js:168 | timetable day `d` (Monday 0) is weekday `d + 1` of the `getDay()` numbering; the special case for Monday agrees with this |
| Ics.DaysToAdd | frontend/src/utils/exportSchedule.js:169 | the offset is below 7, reaches the target weekday, and no smaller offset does |
| Ics.EventDay | frontend/src/utils/exportSchedule.js:163-172 | the event falls on a valid date, and for an hour and minute within one day on the wanted weekday |
| Ics.StampRoundTrip | frontend/src/utils/exportSchedule.js:174-180 | a stamp of a four-digit year reads back, as an RFC 5545 local DATE-TIME, as the date, hour and minute it was written from |
| Ics.FormatIcsDateMeaning | frontend/src/utils/exportSchedule.js:163-181 | `FormatIcsDate`, the model of `formatICSDate`: the stamp reads back as the first date on or after the base whose weekday is the timetable day, at the requested hour and minute |
| Ics.ClockTime | frontend/src/utils/exportSchedule.js:172-178 | setting an hour and minute within one day carries no day and reads back as that hour and minute |
| Ics.SemesterDays | frontend/src/utils/exportSchedule.js:96 | with the fixed start, timetable day `d` of the first week is 3 + `d` February 2025 |
| Ics.FebruaryDays | frontend/src/utils/exportSchedule.js:96 | the four days after 3 February 2025 are 4 to 7 February |
| Ics.HoursOf | frontend/src/utils/exportSchedule.js:111-127 | the hours collected for one day are exactly the cells holding the lesson, in increasing order |
| Ics.MinOf | frontend/src/utils/exportSchedule.js:131 | the minimum is one of the hours and no hour is smaller |
| Ics.MaxOf | frontend/src/utils/exportSchedule.js:132 | the maximum is one of the hours and no hour is larger |
| Ics.DayEvent | frontend/src/utils/exportSchedule.js:130-135 | a day's event belongs to that day and lesson |
| Ics.DayOptions | frontend/src/utils/exportSchedule.js:112-127 | there is one optional event per timetable day, each that day's event |
| Ics.LessonEventsAscending | frontend/src/utils/exportSchedule.js:130 | the lesson has at most one event per day, in increasing order of day |
| Ics.EventOfDay | frontend/src/utils/exportSchedule.js:121-130 | an event of the lesson on day `d` is exactly that day's event |
| Ics.LessonEventExists | frontend/src/utils/exportSchedule.js:111-130 | the lesson has an event on day `d` exactly when it holds a cell that day |
| Ics.LessonEventSpan | frontend/src/utils/exportSchedule.js:131-135 | the event starts at the hour of the lesson's first cell that day plus 8 and ends at its last cell's hour plus 9, spanning every cell the lesson holds that day |
| Ics.RRuleAgreesWithStart | frontend/src/utils/exportSchedule.js:144 | the BYDAY code is the weekday of the event's first occurrence, as section 3.3.10 of RFC 5545 expects |
| Ics.CodesAgree | frontend/src/utils/exportSchedule.js:87-93 | the day map gives, for each timetable day, the RFC 5545 code of its `getDay()` weekday |
| Ics.EventLines | frontend/src/utils/exportSchedule.js:137-146 | each event is eight lines from `BEGIN:VEVENT` to `END:VEVENT` |
| Ics.EventBlocks | frontend/src/utils/exportSchedule.js:130-147 | there is one block per event, in order |
| Ics.BlocksTextLines | frontend/src/utils/exportSchedule.js:98-147 | appending each block followed by CRLF is joining the header and all the blocks' lines by CRLF |
| Ics.ExportIsLines | frontend/src/utils/exportSchedule.js:98-150 | `ExportAsIcs`, the model of `exportAsICS`: the file is its content lines separated by CRLF, as section 3.1 of RFC 5545 delimits them |
| Ics.FramedCalendar | frontend/src/utils/exportSchedule.js:98-150 | framing eight-line event blocks gives `BEGIN:VCALENDAR` first, `END:VCALENDAR` last, and block `i` from line `7 + 8 i` to line `14 + 8 i` |
| Ics.CalendarLinesShape | frontend/src/utils/exportSchedule.js:98-150 | the calendar is the seven header lines, eight lines per event in order, and `END:VCALENDAR` |
| Sorting.Sort | frontend/src/components/ScheduleList.jsx:72-83 | the sorted list is a permutation of the input, ordered by key |
| Sorting.InsertOrdered | frontend/src/components/ScheduleList.jsx:72-83 | inserting into an ordered list keeps it ordered |
| Sorting.SortStable | frontend/src/components/ScheduleList.jsx:72-83 | items with the same key keep their relative order, as `Array.prototype.sort` guarantees |
| Sorting.SortTies | frontend/src/components/ScheduleList.jsx:82 | a comparator that ties every pair leaves the list unchanged |
| Sorting.SortUnique | frontend/src/components/ScheduleList.jsx:72-83 | two ordered lists that hold each key's items in the same order are equal, so the stable order is determined |
| ScheduleList.DayLoad | frontend/src/components/ScheduleList.jsx:64-67 | a day weighs at most 10, exactly 10 when all four morning hours are busy, and 0 exactly when none is |
| ScheduleList.EarlierWeighsMore | frontend/src/components/ScheduleList.jsx:64-67 | moving a class one morning hour earlier adds one to the load |
| ScheduleList.DayLoadMonotone | frontend/src/components/ScheduleList.jsx:64-67 | a day busy in every morning hour another day is busy in weighs at least as much, equally exactly when the same hours are busy |
| ScheduleList.MorningLoad | frontend/src/components/ScheduleList.jsx:61-70 | the load is at most 10 per day, and 0 exactly when no day has a morning class |
| ScheduleList.MorningLoadAppend | frontend/src/components/ScheduleList.jsx:62-69 | the load of two runs of days is the sum of their loads |
| ScheduleList.MorningLoadBounds | frontend/src/components/ScheduleList.jsx:61-70 | a five-day timetable weighs at most 50, and the empty one 0 |
| ScheduleList.SortedSchedules | frontend/src/components/ScheduleList.jsx:56-84 | the result is a permutation of the schedules; the morning modes order them by load, descending or ascending, keeping the server's order among ties; every other mode keeps the server's order |
| ScheduleList.MorningOrderUnique | frontend/src/components/ScheduleList.jsx:72-83 | any stable ordering by morning load is the one shown |
| ScheduleList.MorningExtremes | frontend/src/components/ScheduleList.jsx:76-81 | the first schedule shown has the greatest load when descending and the least when ascending |
| ScheduleList.CurrentSchedule | frontend/src/components/ScheduleList.jsx:87 | the selected schedule when the index is in range, the first otherwise, and nothing only when there are no schedules |
| ScheduleList.SectionLetter | frontend/src/components/ScheduleList.jsx:169 | a section named by the course name plus a suffix shows the suffix; one not containing the course name shows whole |
| ScheduleList.HourLabels | frontend/src/components/ScheduleList.jsx:216-219 | there is one label per timetable row, each ending in `:40` |
| ScheduleList.HourLabelRead | frontend/src/components/ScheduleList.jsx:216-219 | row `h` reads as clock hour `h + 8` |
| ScheduleList.HourLabelsDistinct | frontend/src/components/ScheduleList.jsx:216-219 | no two rows share a label |
| ScheduleList.DayHeaders | frontend/src/components/ScheduleList.jsx:212-214 | there is one header per weekday |
| ScheduleList.DayHeadersAgree | frontend/src/components/ScheduleList.jsx:212-214 | the headers are the day names `getDayName` gives in either table language |
| FocusMode.TotalPages | frontend/src/components/FocusMode.jsx:22 | the pages hold every schedule and none of them is wholly empty |
| FocusMode.Page | frontend/src/components/FocusMode.jsx:23-26 | a page holds at most 50 schedules, in their order from position `50 p`; it is non-empty exactly when the page exists, and full when it is not the last |
| FocusMode.PagesPrefix | frontend/src/components/FocusMode.jsx:23-26 | the first `k` pages one after another are the first `50 k` schedules |
| FocusMode.PagesCoverAll | frontend/src/components/FocusMode.jsx:22-26 | all the pages together are the whole list, each schedule once, in order |
| FocusMode.Step | frontend/src/components/FocusMode.jsx:55-69 | Prev moves back one page unless on the first, and Next forward one unless on the last |
| FocusMode.StepInRange | frontend/src/components/FocusMode.jsx:55-69 | a click keeps the page in range |
| FocusMode.RunInRange | frontend/src/components/FocusMode.jsx:8-69 | from the reset on opening, any sequence of clicks keeps the page in range, so a non-empty list always shows a non-empty page |
| FocusMode.StepsUndo | frontend/src/components/FocusMode.jsx:55-69 | Next then Prev returns to the page, and so does Prev then Next |
| FocusMode.RangeLabel | frontend/src/components/FocusMode.jsx:77 | the label starts at position `50 p + 1` and ends no further than the list or the page |
| FocusMode.RangeLabelMatchesPage | frontend/src/components/FocusMode.jsx:77 | on an existing page the label names the 1-based positions of the first and last schedule shown |
| FocusMode.EmptyLabel | frontend/src/components/FocusMode.jsx:22-77 | with no schedules there are no pages and the label reads 1-0 |
| Translations.TablesShareKeys | frontend/src/utils/translations.js:1-153 | a key is defined in the Turkish table exactly when it is defined in the English one |
| Translations.ErrorSearching | frontend/src/utils/translations.js:49 | the fallback error text is never empty in either language |
| Translations.GetDayName | frontend/src/utils/translations.js:156-166 | a Turkish day key renders as its English name in English and as itself in Turkish; an unknown day or language renders unchanged |
| Translations.EnglishDayNames | frontend/src/utils/translations.js:156-166 | different days render differently in English, and rendering an English name again changes nothing |
| BackendErrors.NextQuote | frontend/src/App.jsx:59 | the first quote at or after a position, or none |
| BackendErrors.MatchFrom | frontend/src/App.jsx:59 | the leftmost match of `"([^"]+)"` at or after a position, or none |
| BackendErrors.FirstQuoted | frontend/src/App.jsx:59-60 | empty exactly when the message has no quoted name; otherwise its leftmost quoted name, quotes included |
| BackendErrors.QuotedName | frontend/src/App.jsx:59-60 | a message with one quoted name before any other quote yields that name in quotes |
| BackendErrors.FirstFiring | frontend/src/App.jsx:64-105 | the first rule whose phrases the message contains, no earlier one firing, or none |
| BackendErrors.ApplyRules | frontend/src/App.jsx:64-108 | English keeps the message; Turkish gives the quoted name and the first firing rule's text; with no rule firing the message is returned |
| BackendErrors.TranslateBackendError | frontend/src/App.jsx:55-108 | an empty message gives the search-error text; otherwise the rules apply as above |
| BackendErrors.SectionRuleFires | frontend/src/App.jsx:64 | a message with both phrases fires the section rule |
| BackendErrors.SectionRuleFirst | frontend/src/App.jsx:64-68 | a message mentioning a section already in the basket always gets the section text, even when a later rule fires too |

## Left out

- Database access is not modelled as such: SQL text, connections, pools, transactions and the term-table fallback queries. Lookups are parameters or maps, and a row's savepoint is modelled as all-or-nothing.
- Worker threads, promises, the request deduplication and the search cache of the course routes are left out; they concern concurrency and library caching, not results.
- The search route's SQL and the admin routes' create, update, delete, log and settings handlers are left out. Only the admin gate, login, logout and the course-list query builder are modelled.
- The `/term` and log routes of the course routes are left out; they read the database and write logs.
- The older server's `/generate-schedules`, which runs a Python program through the shell, and `/get-added-courses`, which echoes the session, are left out.
- `get_lessons_from_db` in `schedule.js` is left out; it is a database query and prints its result.
- Logging of every kind is left out: console output, the activity logger and the Telegram alerts.
- Credits are integers in hundredths. Floating-point addition of credits is not modelled, and decimal parsing is a parameter.
- File reading and writing are left out: CSV and XLSX input, JSON output, and deleting the converted CSV. So is the table of major names keyed by file name.
- The English-title lookup of the curriculum converter is a parameter: the translation table built from another file, and the fallback heuristics for common titles.
- Image and PDF export, and the Blob download of the calendar file, are left out; they are rendering and browser I/O.
- JavaScript `Date` parsing and time zones are left out. The semester start is a parameter, taken as Monday 3 February 2025, which is what a time zone at or east of UTC gives.
- JavaScript objects are association lists in insertion order. Prototype keys such as `constructor` are not modelled, and integer-like keys are assumed to be added in increasing order, as the day indices are.
- `toLowerCase` is modelled on ASCII letters only, so a Turkish `BAHAR` with dotted or dotless `I` is not covered.
- Basket.SectionMatches: `toUpperCase` is modelled on ASCII letters only. A course code with a non-ASCII lower-case letter, such as "çs101" against the section "ÇS101A", is refused with 400 where the source accepts it. Basket.AddSection inherits this.
- Legacy.AddCourse: `credits` is modelled as an integer. The source refuses only `undefined`, so a string such as "3" is stored, and `/get-total-credit-lesson` would then concatenate it ("03") rather than add it.
- SeedImport.ImportRow: which course records the database refuses is the parameter `accepts`; `FitsSchema` states only what the column types of `courses` force. PostgreSQL cuts a text whose excess over 255 characters is all spaces, and the model stores such a text uncut.
- ArithSlots.ScriptRow: the foreign-key check assumes the slot table holds exactly ids 1 to `slotCount`, as `handle_time_table` leaves a fresh database. The failure of the course INSERT itself, and of the connection, are not modelled.
- Only the `tr` and `en` tables are modelled. Of their values only `errorSearching` is modelled; the other texts appear only through their keys.
- Translations.TablesShareKeys: states that the two tables have the same keys, not that the keys within a table are distinct.
- BackendErrors.TranslateBackendError: the second quoted name of a message is computed by the source but never used, so it is not modelled.
- ScheduleList.SortedSchedules: the source sorts a copy, so the input list is unchanged. In a functional model this is automatic and is not stated.
- FocusMode.RunInRange: the list of schedules is taken as fixed while the view is open; a list that shrinks under an open view is not covered.
- With no schedules the focus view's range label reads 1-0; this is modelled as it is and not corrected (FocusMode.EmptyLabel).
- Diagnosis.DetectConflicts: `backend/src/services/scheduleService.js` does not parse as written. Lines 211-213 close `detectConflicts` early, and the three-way check then sits outside the function. The model follows the evident intent: the pairwise check, then the three-way check only when no pair clashes and there are at least three courses, then the list is returned.
- The React pages other than the pure functions modelled here, the admin dashboard and the static `public` page scripts are left out. The results page duplicates the focus-mode paging, and the curriculum page adds float credits.

## Findings

| source | as written | input that shows it | evidently intended | confidence | as-written member | corrected member |
|---|---|---|---|---|---|---|
| backend/database_python/database.py:215 | the start hour is `int(start[0:2])`, while the seeded labels are not zero-padded | a session starting at "8:40" makes `int("8:")` raise, and the row is rolled back; one starting at "08:40" parses but matches no seeded "8:40" label, so no mapping row is written | a morning start, spelt either way, reads as its hour and maps to its seeded slot | not executed | SeedImport.UnpaddedMorningUnreadable, SeedImport.PaddedMorningUnmapped | SeedImport.FixedStartMapped, SeedImport.FixedSessionSlot |
