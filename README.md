# charge-scolaire, modelled in Dafny

charge-scolaire is a React/Electron front end for the École Directe school
platform.  It pulls homework, tests, timetables and messages, turns them into
workload scores and warnings for students and teachers, lets staff plan
Saturday tests ("DST", devoirs surveillés) and keeps the session with École
Directe alive through a small proxy.  This project models the logic under the
user interface and the network code, and proves what that logic promises:

- the workload engine (weights, daily and weekly scores and statuses, Monday
  weeks and ISO 8601 week numbers, the Saturday-DST rules, conflict
  projection) and the workload service that stores per-day records;
- the parsers and normalisers: the smart DST importer, the École Directe
  response mappers and the teacher matching;
- the small state machines: the API client's session, the storage round trip
  of the authentication context, the DST editors, the autocomplete, the three
  cookie jars;
- the computations of the pages: the month calendars of the homework and
  teacher workload pages, the timetable layout and break detection of the
  schedule page, the daily and weekly chart series, the subject and class
  tables, the grouping, filtering and merging of lists, and the optimistic
  toggle of a homework's done flag;
- the integer geometry and path handling of the two asset scripts.

Dates are integer day numbers (day 0 is 1 January 1970, a Thursday); a
`YYYY-MM-DD` string is the day number it denotes.  Network replies, database
rows, the clock and generated identifiers are parameters.  Local storage is a
map.  Each module is one source file; `Wrappers`, `Dates`, `Text`,
`Collections` and `Assignments` hold the shared definitions.

## Model

| member | source | states |
|---|---|---|
| WorkloadCalculator.AssignmentWeight | src/utils/workloadCalculator.js:127-137 | the weight is 3 exactly for a test and 1 for every other assignment |
| WorkloadCalculator.WeightSumCounts | src/utils/workloadCalculator.js:145-164 | a summed weight is the number of assignments plus two per test |
| WorkloadCalculator.DueOnMembers | src/utils/workloadCalculator.js:145-153 | the day filter keeps exactly the assignments due on the target date |
| WorkloadCalculator.DueBetweenMembers | src/utils/workloadCalculator.js:172-183 | the week filter keeps exactly the dated assignments inside the closed range |
| WorkloadCalculator.DueBetweenEmpty | src/utils/workloadCalculator.js:172-183 | a range whose end precedes its start keeps nothing |
| WorkloadCalculator.DueBetweenSplit | src/utils/workloadCalculator.js:172-211 | extending a range by one day adds exactly that day's count and score |
| WorkloadCalculator.Classify | src/utils/workloadCalculator.js:216-235 | light up to the first threshold, medium up to the second, heavy up to the third, critical above, each as an if-and-only-if |
| WorkloadCalculator.ClassifyMonotone | src/utils/workloadCalculator.js:216-235 | a higher score never gives a lighter status |
| WorkloadCalculator.DailyStatusMonotone | src/utils/workloadCalculator.js:216-226 | the daily status (thresholds 2/4/6) is monotone in the score |
| WorkloadCalculator.WeeklyStatusMonotone | src/utils/workloadCalculator.js:228-235 | the weekly status (thresholds 8/15/20) is monotone in the score |
| WorkloadCalculator.DailyWorkload | src/utils/workloadCalculator.js:145-164 | the day's assignments are those due that day, count is their number, score is count plus two per test, status is the daily status of the score |
| WorkloadCalculator.WeekStart | src/utils/workloadCalculator.js:82-90 | the result is a Monday, on or before the date and less than a week before it |
| WorkloadCalculator.WeekEnd | src/utils/workloadCalculator.js:92-98 | the result is the Sunday six days after the week start, on or after the date |
| WorkloadCalculator.ThursdayOf | src/utils/workloadCalculator.js:107-111 | the Thursday computed by `getWeekNumber` is three days after the Monday week start |
| WorkloadCalculator.RoundExact | src/utils/workloadCalculator.js:112 | rounding a whole number of weeks divided by 7 is exact |
| WorkloadCalculator.MondayOf | src/utils/workloadCalculator.js:107-112 | the Monday arithmetic of `getWeekNumber` agrees with `getWeekStart` |
| WorkloadCalculator.FirstMonday | src/utils/workloadCalculator.js:109-112 | the Monday of the week holding 4 January |
| WorkloadCalculator.WeekNumberCounts | src/utils/workloadCalculator.js:107-113 | the week number counts whole weeks from the first Monday of the ISO year (section 4.1.4 of ISO 8601:2004) |
| WorkloadCalculator.FirstMondayRange | src/utils/workloadCalculator.js:107-113 | the first ISO Monday lies between 29 December and 4 January |
| WorkloadCalculator.WeekNumberRange | src/utils/workloadCalculator.js:107-113 | every week number lies in 1..53 |
| WorkloadCalculator.SameWeekSameNumber | src/utils/workloadCalculator.js:107-113 | all days of one Monday week have the same number |
| WorkloadCalculator.FourthOfJanuaryIsWeekOne | src/utils/workloadCalculator.js:107-113 | the week holding 4 January is week 1 of its year |
| WorkloadCalculator.NextWeekNextNumber | src/utils/workloadCalculator.js:107-113 | within one ISO year the next week has the next number |
| WorkloadCalculator.DayScoresAppend | src/utils/workloadCalculator.js:185-196 | the score of a list of days grows by the added day's score |
| WorkloadCalculator.DayLoadsFrom | src/utils/workloadCalculator.js:185-196 | one daily workload per day of the range, whose scores add up to the weight due in the range |
| WorkloadCalculator.WeeklyWorkload | src/utils/workloadCalculator.js:172-211 | Monday-to-Sunday bounds and ISO number; the assignments due in the week, count, score and weekly status; exactly seven daily breakdowns whose scores sum to the week's; dstCount the number of the week's assignments of type `dst` or weight `DST` |
| WorkloadCalculator.NotSaturdayOnlyInforms | src/utils/workloadCalculator.js:257-265 | a DST off a Saturday only adds an 'info' NOT_SATURDAY warning and moves neither the run nor the last Saturday |
| WorkloadCalculator.LastSaturdayIsSaturday | src/utils/workloadCalculator.js:254-294 | the remembered last Saturday is always a Saturday |
| WorkloadCalculator.ConsecutiveWarningsAreWeekApart | src/utils/workloadCalculator.js:267-279 | a consecutive-Saturdays warning names two Saturdays exactly one week apart |
| WorkloadCalculator.ScanSaturdays | src/utils/workloadCalculator.js:250-294 | the first loop produces the warnings of the step function folded over the sorted DSTs |
| WorkloadCalculator.GroupByWeek | src/utils/workloadCalculator.js:296-317 | the warnings are the scanned ones followed by one TOO_MANY_PER_WEEK per DST that takes its week over the limit; the keys are exactly the weeks of the DSTs and each bucket holds exactly its week's DSTs in sorted order |
| WorkloadCalculator.ByWeekMeaning | src/utils/workloadCalculator.js:248 | buckets filed from the sorted copy hold exactly the DSTs of the original list in each week, in date order, one bucket per week that has a DST |
| WorkloadCalculator.AnalyzeDstSchedule | src/utils/workloadCalculator.js:246-325 | total is the input length; the warnings are the Saturday scan of the sorted copy, then the week warnings; every bucket holds exactly its week's DSTs in date order and there is one per week that has a DST; each week warning names an overfull week and every overfull week is named; hasHighSeverity holds iff some warning is 'high' |
| WorkloadCalculator.SaturdayOnOrAfter | src/utils/workloadCalculator.js:345-349 | the candidate is moved to the Saturday on or after it, less than a week later |
| WorkloadCalculator.SuggestionOrderIsTotal | src/utils/workloadCalculator.js:371-375 | the comparator (recommended first, then ascending score) is a total preorder |
| WorkloadCalculator.DstFields | src/utils/workloadCalculator.js:358 | the DST records are read as assignments one for one |
| WorkloadCalculator.SuggestionFor | src/utils/workloadCalculator.js:339-367 | no suggestion iff a DST already falls on the Saturday; otherwise the suggestion for that offset, on a Saturday |
| WorkloadCalculator.SuggestDstDates | src/utils/workloadCalculator.js:334-376 | at most two suggestions per week of range (none for a negative range), each a free Saturday for a non-zero offset, every free Saturday in the range suggested, no date twice, sorted recommended-first then by score |
| WorkloadCalculator.CollectSuggestions | src/utils/workloadCalculator.js:339-368 | the loop's suggestions are valid, at most two per week of range |
| WorkloadCalculator.UndatedOutsideRanges | src/utils/workloadCalculator.js:172-183 | assignments without a due date fall in no range |
| WorkloadCalculator.DstsWithoutDueDateAllRecommended | src/utils/workloadCalculator.js:358-365 | because DSTs are scored through their `dueDate` field, DST records without one give score 0 and are all recommended |
| WorkloadCalculator.ConflictWarnings | src/utils/workloadCalculator.js:411-452 | a DAILY_OVERLOAD first iff the projected day is heavy, DAILY_CRITICAL first iff critical, WEEKLY_OVERLOAD iff the week is heavy or critical, one ADJACENT_DAY per overloaded neighbour |
| WorkloadCalculator.CheckForConflicts | src/utils/workloadCalculator.js:388-463 | projected scores are the existing day and week scores plus the new weight; canAdd iff the projected day is not critical; hasHighSeverity iff the projected day is heavy or critical |
| WorkloadCalculator.DayWithinRange | src/utils/workloadCalculator.js:393-400 | a day's score never exceeds that of a range holding it |
| WorkloadCalculator.ProjectedDayWithinWeek | src/utils/workloadCalculator.js:393-400 | the projected daily score never exceeds the projected weekly score |
| WorkloadCalculator.DueBetweenIdempotent | src/utils/workloadCalculator.js:481-489 | filtering the period and then each day by the same range changes nothing |
| WorkloadCalculator.ScoreOrderIsTotal | src/utils/workloadCalculator.js:494 | the comparator `b.score - a.score` is a total preorder |
| WorkloadCalculator.PeakDays | src/utils/workloadCalculator.js:494-495 | at most five days, all with a positive score, taken from the days, sorted by descending score |
| WorkloadCalculator.PeakDaysStartAtMaximum | src/utils/workloadCalculator.js:494-495 | when some day scores, the first peak day has the highest score |
| WorkloadCalculator.StatusTally | src/utils/workloadCalculator.js:498-501 | only statuses that occur are keys |
| WorkloadCalculator.StatusTallyTotals | src/utils/workloadCalculator.js:498-532 | the status counts add up to the number of days and overloadDays is the heavy plus critical count |
| WorkloadCalculator.SubjectTally | src/utils/workloadCalculator.js:504-512 | each subject key (or 'Autre') counts its assignments, with a total weight between the count and three times it; absent keys have none |
| WorkloadCalculator.PeriodScore | src/utils/workloadCalculator.js:481-491 | the days of the period cover exactly the period's assignments |
| WorkloadCalculator.GenerateWorkloadStats | src/utils/workloadCalculator.js:476-534 | totals are the count and weight of the period's assignments; peaks, status counts (summing to the number of days), overload days and subject tally as above |
| Dates.Weekday | src/utils/workloadCalculator.js:100-103 | the weekday is in 0..6, numbered as `getDay` (0 Sunday, 6 Saturday) |
| Dates.WeekdayShift | src/utils/workloadCalculator.js:82-90 | shifting a date by k days shifts its weekday by k modulo 7 |
| Dates.CivilOf | src/utils/workloadCalculator.js:72-80 | the calendar date of a day number is valid, maps back to it and lies in the year `getFullYear` reports |
| Dates.CivilRoundTrip | src/utils/workloadCalculator.js:72-80 | every valid calendar date is the image of its own day number |
| Dates.YearUnique | src/utils/workloadCalculator.js:300 | the year of a day is the only one whose span holds it |
| Dates.IsoDateShape | src/utils/workloadCalculator.js:72-80 | for four-digit years `formatDate` gives ten characters with dashes at positions 4 and 7 |
| WorkloadService.DetectAssignmentType | src/services/workloadService.js:161-176 | 'test' iff the type is test/evaluation/dst or the type or title contains one of the listed keywords, case-insensitively; otherwise 'homework' |
| WorkloadService.DetectionIgnoresCase | src/services/workloadService.js:161-176 | upper-casing the type and title does not change the detected type |
| WorkloadService.CalculatorTestsAreTests | src/services/workloadService.js:161-176 | whatever the calculator weighs as a test, the service detects as a test |
| WorkloadService.TypeWeight | src/services/workloadService.js:98-99 | the weight is 3 for a test and 1 for homework |
| WorkloadService.DetectedTests | src/services/workloadService.js:96-108 | never more tests than assignments |
| WorkloadService.DueDays | src/services/workloadService.js:56-66 | a day is listed iff some assignment is due on it |
| WorkloadService.SyncDatesAreTheDueDays | src/services/workloadService.js:56-67 | the sync dates are strictly increasing, are exactly the due days, and are never more than the assignments |
| WorkloadService.DueDaysLength | src/services/workloadService.js:56-66 | at most one due day per assignment |
| WorkloadService.ScoreDay | src/services/workloadService.js:89-117 | test and homework counts add up to the day's assignments, the score is homework plus three per test, details one per assignment, the tested subjects without repetition |
| WorkloadService.BuildRecords | src/services/workloadService.js:76-135 | one record per date, in order, each describing the assignments due on that date |
| WorkloadService.SyncStudentWorkload | src/services/workloadService.js:47-156 | missing edId or class name fails before any write; no dated assignment succeeds with count 0; otherwise one record per distinct due date in order, and the upsert's error decides the outcome |
| WorkloadService.SyncedRecordsAreOrdered | src/services/workloadService.js:56-79 | records have strictly increasing dates, each the due date of some assignment, never more than the assignments |
| WorkloadService.RecordScoreBounds | src/services/workloadService.js:89-117 | a record's score lies between its day's size and three times it, and equals the size iff the day has no test |
| WorkloadService.RowsOfClass | src/services/workloadService.js:224-233 | the rows filed under a class all belong to it and come from the data |
| WorkloadService.GetAllClassesWorkload | src/services/workloadService.js:210-240 | a query error gives no classes; otherwise the keys are the rows' classes and each holds exactly that class's rows in their original order |
| WorkloadService.NoRowsOfAbsentClass | src/services/workloadService.js:224-233 | a class no row names gets no rows |
| WorkloadService.RowFiledOnce | src/services/workloadService.js:224-233 | each row is filed under its own class and under no other |
| WorkloadService.StatusOfRatio | src/services/workloadService.js:414-420 | the status of a score, or of a summed score over a number of days, with 0 as 'none' and the 2/4/6 thresholds, each as an if-and-only-if |
| WorkloadService.StatusFromScore | src/services/workloadService.js:414-420 | 0 is 'none', then light up to 2, medium up to 4, heavy up to 6, critical above |
| WorkloadService.StatusAgreesWithCalculator | src/services/workloadService.js:414-420 | for a positive score the service's status is the calculator's daily status |
| WorkloadService.StatusMonotone | src/services/workloadService.js:414-420 | on non-negative scores a larger score never has a lower status |
| WorkloadService.LoadStatusInfo | src/services/workloadService.js:369-409 | an unknown status gives the 'none' entry; every answer is one of the five entries |
| WorkloadService.StatusInfoDistinguishes | src/services/workloadService.js:369-409 | distinct statuses get distinct labels and colours |
| WorkloadService.StatusCount | src/services/workloadService.js:291-302 | never more rows with a status than rows |
| WorkloadService.SaturdayCount | src/services/workloadService.js:304-314 | never more Saturday rows than rows |
| WorkloadService.CriticalAlertsAppend | src/services/workloadService.js:287-322 | alert counts add over concatenation |
| WorkloadService.CriticalDaysMatchAlerts | src/services/workloadService.js:287-322 | criticalDays equals the number of critical-day alerts |
| WorkloadService.OverloadAlertsExact | src/services/workloadService.js:326-336 | a week overload alert is raised iff the week is listed and its summed score exceeds 25 |
| WorkloadService.TallyRows | src/services/workloadService.js:287-322 | the first loop counts the days, statuses and Saturdays, raises the per-day alerts and sums the score of each Monday week |
| WorkloadService.TallyDay | src/services/workloadService.js:287-322 | one turn of the first loop keeps the tally exact for one more row |
| WorkloadService.AddWeekScore | src/services/workloadService.js:316-322 | the day's score is added to its week only, weeks listed in first-seen order |
| WorkloadService.AbsentKeySumsToZero | src/services/workloadService.js:316-322 | a week no row falls in sums to 0 |
| WorkloadService.WeekAlerts | src/services/workloadService.js:326-336 | one overload alert per week above 25, in week order |
| WorkloadService.AnalyzeWorkload | src/services/workloadService.js:270-339 | empty input gives no alerts and zero stats; the counters are the status and Saturday counts; weekly sums are per Monday week; alerts are the day alerts then the week overloads |
| WorkloadService.WeekOverloadIff | src/services/workloadService.js:270-339 | a week_overload alert appears iff some row falls in that week and its scores sum above 25 |
| WorkloadService.NoWeekAlertsAmongDays | src/services/workloadService.js:287-322 | per-day alerts are never week alerts |
| WorkloadService.CalculateWeeklySummary | src/services/workloadService.js:437-470 | one summary per week in first-seen order, holding that week's day count, homework, tests, score and heavy days, with the status of its average over five days |
| WorkloadService.SummariseWeeks | src/services/workloadService.js:463-468 | each week in insertion order gets the status of its score over five days |
| WorkloadService.AddToWeek | src/services/workloadService.js:440-461 | one turn of the grouping loop keeps every week's totals exact |
| WorkloadService.WeekTotalsStep | src/services/workloadService.js:440-461 | a day changes only its own week's totals, by its own values |
| WorkloadService.EmptyWeek | src/services/workloadService.js:440-461 | a week without rows has zero totals |
| WorkloadService.AbsentKeyCountsZero | src/services/workloadService.js:440-461 | a week without rows counts no days |
| WorkloadService.AbsentKeyNoHeavy | src/services/workloadService.js:440-461 | a week without rows has no heavy days |
| WorkloadService.HeavyDaysWithinWeek | src/services/workloadService.js:440-461 | a week never has more heavy days than days |
| WorkloadService.SummaryCoversEveryDay | src/services/workloadService.js:437-470 | the weeks' day counts add up to the number of rows |
| SmartDstParser.ClassMatchesSound | src/services/smartDSTParser.js:153-156 | every match of the class pattern is a whole-word `[12T][A-Z]` occurrence |
| SmartDstParser.ClassMatchesComplete | src/services/smartDSTParser.js:153-156 | every whole-word class occurrence is matched |
| SmartDstParser.ExtractedClasses | src/services/smartDSTParser.js:153-156 | the classes are duplicate-free upper-cased class names, and a name is listed iff it occurs as a whole word in the text |
| SmartDstParser.Canonical | src/services/smartDSTParser.js:163-168 | MATHS/MATH, PC, HG and PHILO are never reported under their short names |
| SmartDstParser.ExtractSubjects | src/services/smartDSTParser.js:158-174 | the canonical names of the known subjects found in the upper-cased text, each once, in table order |
| SmartDstParser.CollectMentioned | src/services/smartDSTParser.js:159-173 | the loop collects the distinct canonical names of the mentioned subjects |
| SmartDstParser.CollectStep | src/services/smartDSTParser.js:161-171 | one turn adds the canonical name iff the subject is mentioned and the name is new |
| SmartDstParser.FoundSubjects | src/services/smartDSTParser.js:158-174 | the found subjects are distinct, and a name is found iff some known subject with that canonical name occurs in the text |
| SmartDstParser.MentionedMembers | src/services/smartDSTParser.js:161-168 | a name is mentioned iff one of its subjects occurs in the text |
| SmartDstParser.TimeAfterHours | src/services/smartDSTParser.js:180 | a time match after the hours has two-digit minutes when it has any |
| SmartDstParser.TimeMatchAt | src/services/smartDSTParser.js:180 | a time match has one or two hour digits and optional two-digit minutes |
| SmartDstParser.FormattedTime | src/services/smartDSTParser.js:183-185 | a time is "HH:MM" with the hours zero-padded and missing minutes as "00" |
| SmartDstParser.TimesFrom | src/services/smartDSTParser.js:182-186 | every collected time is a clock time |
| SmartDstParser.CollectTimes | src/services/smartDSTParser.js:182-186 | the exec loop collects exactly the times of the text |
| SmartDstParser.ExtractTimeSlots | src/services/smartDSTParser.js:176-199 | consecutive times are paired, a trailing unpaired time is dropped, and with fewer than two times the only slot is 08:00–12:00; never empty |
| SmartDstParser.StripAccents | src/services/smartDSTParser.js:130 | accents are removed character by character |
| SmartDstParser.MonthAlternative | src/services/smartDSTParser.js:125 | the month alternative found matches the text |
| SmartDstParser.SpaceRunEnd | src/services/smartDSTParser.js:125 | `\s*` consumes the whole run of white space |
| SmartDstParser.TextDateAfterDay | src/services/smartDSTParser.js:125-126 | a text date match keeps its day digits |
| SmartDstParser.TextDateAt | src/services/smartDSTParser.js:125-126 | every text date match is well formed |
| SmartDstParser.TextDateFrom | src/services/smartDSTParser.js:125-126 | the leftmost text date match is well formed |
| SmartDstParser.YearDigits | src/services/smartDSTParser.js:137 | a year has two to four digits |
| SmartDstParser.NumericAfterMonth | src/services/smartDSTParser.js:137-138 | a numeric date match is well formed |
| SmartDstParser.NumericAfterDay | src/services/smartDSTParser.js:137-138 | a numeric date match is well formed |
| SmartDstParser.NumericAt | src/services/smartDSTParser.js:137-138 | a numeric date match is well formed |
| SmartDstParser.NumericFrom | src/services/smartDSTParser.js:137-138 | the leftmost numeric date match is well formed |
| SmartDstParser.ExtractMainDate | src/services/smartDSTParser.js:123-151 | some date string is always returned |
| SmartDstParser.MonthKeys | src/services/smartDSTParser.js:8-12 | every month spelling lowers and loses its accents to a key of the month table |
| SmartDstParser.MonthLookupNeverFallsBack | src/services/smartDSTParser.js:130-131 | a matched month name is always in the table, so the '01' fallback never applies |
| SmartDstParser.MonthTable | src/services/smartDSTParser.js:8-12 | the month table maps each key to its month number |
| SmartDstParser.MainDateFromText | src/services/smartDSTParser.js:128-134 | a text date gives year (or the current year), month number and zero-padded day, dash-separated |
| SmartDstParser.MainDateFromNumbers | src/services/smartDSTParser.js:140-146 | otherwise a numeric date gives a two-digit year prefixed with "20" and zero-padded day and month |
| SmartDstParser.NumericDateStringShape | src/services/smartDSTParser.js:141-145 | the numeric date string is the year (a two-digit one prefixed by "20", any other kept as written), a dash, the month on two digits, a dash and the day on two digits |
| SmartDstParser.DashedParts | src/services/smartDSTParser.js:145 | the dash-joined date splits back into its parts |
| SmartDstParser.MainDateDefault | src/services/smartDSTParser.js:148-150 | with no date in the text, today's date is used |
| SmartDstParser.LineSubjectsMembers | src/services/smartDSTParser.js:207 | a line's subjects are exactly the found subjects it mentions |
| SmartDstParser.LinksOf | src/services/smartDSTParser.js:209-213 | each class key of a line is linked to that line's subjects |
| SmartDstParser.AddSubjects | src/services/smartDSTParser.js:212 | adding subjects to a set keeps it the distinct list of everything added |
| SmartDstParser.LinkedToAbsent | src/services/smartDSTParser.js:211 | a class never seen has no subjects |
| SmartDstParser.ProximityStep | src/services/smartDSTParser.js:209-213 | one class sighting keeps the map exact |
| SmartDstParser.LinkedValuesStep | src/services/smartDSTParser.js:209-213 | one class sighting keeps every set exact |
| SmartDstParser.LinksOfSnoc | src/services/smartDSTParser.js:209-213 | links of a line grow one class at a time |
| SmartDstParser.LinksOfPrefix | src/services/smartDSTParser.js:209-213 | links of a prefix of a line's classes |
| SmartDstParser.BuildProximityMap | src/services/smartDSTParser.js:201-222 | the map holds each class seen once, each with the distinct subjects of the lines that mention it |
| SmartDstParser.LinkedToAppend | src/services/smartDSTParser.js:205-214 | a class's subjects over two runs of lines add up |
| SmartDstParser.LinkedToLine | src/services/smartDSTParser.js:205-214 | on one line a class is linked to exactly that line's subjects |
| SmartDstParser.AllLinksMeaning | src/services/smartDSTParser.js:205-214 | a class is a key iff it occurs on some line, and a subject is linked to it iff both occur on the same line |
| SmartDstParser.ProximityMeaning | src/services/smartDSTParser.js:201-222 | the proximity map has distinct keys, exactly the classes on some line, each mapped to the distinct subjects sharing a line with it |
| SmartDstParser.RoomDigitsEnd | src/services/smartDSTParser.js:226 | a room's digits are two or three, then possibly a letter |
| SmartDstParser.RoomSuffixEnd | src/services/smartDSTParser.js:226 | the optional letter is followed by a word boundary |
| SmartDstParser.RoomCodeEnd | src/services/smartDSTParser.js:226 | a room match spans a room code |
| SmartDstParser.RoomAt | src/services/smartDSTParser.js:226 | a room match at a position spans a room code |
| SmartDstParser.RoomFrom | src/services/smartDSTParser.js:226-227 | the first room match spans a room code |
| SmartDstParser.ExtractRoom | src/services/smartDSTParser.js:224-231 | the room is empty exactly when the text holds no room match; otherwise it is the code of the first match, the optional "salle" removed |
| SmartDstParser.ClassEntries | src/services/smartDSTParser.js:78-94 | one entry per subject of the class, in order |
| SmartDstParser.ProximityLookup | src/services/smartDSTParser.js:216-219 | each key of the map holds the distinct subjects linked to it |
| SmartDstParser.ParseSmartDst | src/services/smartDSTParser.js:43-119 | no class gives []; otherwise the proximity entries when there are any, else the class × subject cross-product |
| SmartDstParser.CrossProductWithoutSubjects | src/services/smartDSTParser.js:97 | with no subject the fallback gives nothing |
| SmartDstParser.ProximityEntriesMembers | src/services/smartDSTParser.js:78-94 | the proximity entries are exactly the (class, linked subject) pairs |
| SmartDstParser.ProximityEntriesDistinct | src/services/smartDSTParser.js:78-94 | no (class, subject) pair is emitted twice |
| SmartDstParser.NoDuplicatesConcat | src/services/smartDSTParser.js:78-94 | joining two disjoint duplicate-free lists keeps them duplicate-free |
| SmartDstParser.CrossProductMembers | src/services/smartDSTParser.js:97-115 | the fallback has every class with every subject and nothing else |
| SmartDstParser.ClassMatchName | src/services/smartDSTParser.js:206-210 | an upper-cased class match is a class name |
| SmartDstParser.LinkKeysAreClassNames | src/services/smartDSTParser.js:206-211 | the map's keys are upper-case class names |
| SmartDstParser.ProximityEntriesOfText | src/services/smartDSTParser.js:76-94 | the entries are distinct, exactly the pairs of the map, each with an upper-case class, a found subject, the main date and source 'smart_import' |
| SmartDstParser.ClassNameIsUpper | src/services/smartDSTParser.js:85 | a class name is already upper case |
| SmartDstParser.CrossProductOfText | src/services/smartDSTParser.js:96-115 | the fallback entries carry found classes and subjects, the main date and the 08:00–12:00 slot |
| SmartDstParser.FallbackEntries | src/services/smartDSTParser.js:99-113 | the fallback entries are well formed, 08:00–12:00, of the given classes |
| WebEncoding.Latin1Of | src/api/realEcoleDirecte.js:102-107 | the binary string built from bytes has one Latin-1 character per byte, each with the byte's value |
| WebEncoding.BytesOf | src/api/realEcoleDirecte.js:124-127 | reading back char codes of a Latin-1 string gives one byte per character with that character's code |
| WebEncoding.BytesOfLatin1 | src/api/realEcoleDirecte.js:102-107 | bytes turned into a binary string and read back with charCodeAt are the original bytes |
| WebEncoding.Reverse | src/api/realEcoleDirecte.js:878 | split-reverse-join keeps the length and puts character i at position length-1-i |
| WebEncoding.ReverseReverse | src/api/realEcoleDirecte.js:877-887 | reversing twice (obfuscate then deobfuscate) gives back the string |
| WebEncoding.ReverseAscii | src/api/realEcoleDirecte.js:878 | the reversed percent-encoding is still ASCII, so btoa accepts it |
| WebEncoding.Utf8Char | src/api/realEcoleDirecte.js:102 | TextEncoder writes each code point as one to four bytes |
| WebEncoding.Utf8Encode | src/api/realEcoleDirecte.js:102 | the UTF-8 encoding is at least as long as the text |
| WebEncoding.Utf8EncodeConcat | src/api/realEcoleDirecte.js:102 | UTF-8 encoding distributes over concatenation |
| WebEncoding.DecodeSequence | src/api/realEcoleDirecte.js:883 | a byte group decodeURIComponent accepts is the UTF-8 encoding of the character it yields |
| WebEncoding.DecodedBytes | src/api/realEcoleDirecte.js:883 | a well-formed, shortest-form byte group is the UTF-8 encoding of its decoded value |
| WebEncoding.ValueOfChar | src/api/realEcoleDirecte.js:883 | decoding the UTF-8 bytes of a character yields its code point, in shortest form |
| WebEncoding.DecodeSequenceOfChar | src/api/realEcoleDirecte.js:883 | the UTF-8 bytes of any character are accepted by the sequence decoder and yield that character |
| WebEncoding.HexDigit | src/api/realEcoleDirecte.js:878 | percent-encoding writes each nibble as an ASCII hex digit |
| WebEncoding.HexValue | src/api/realEcoleDirecte.js:883 | a hex digit read back denotes a value below 16 |
| WebEncoding.HexRoundTrip | src/api/realEcoleDirecte.js:877-887 | reading back a written hex digit gives its nibble |
| WebEncoding.PercentByte | src/api/realEcoleDirecte.js:878 | each escaped byte takes three characters |
| WebEncoding.PercentBytes | src/api/realEcoleDirecte.js:878 | an escaped byte group takes three characters per byte |
| WebEncoding.PercentBytesAscii | src/api/realEcoleDirecte.js:878 | escaped bytes are ASCII |
| WebEncoding.EncodeUriComponentAscii | src/api/realEcoleDirecte.js:878 | encodeURIComponent output is all ASCII, so btoa never fails on it |
| WebEncoding.ContinuationsAt | src/api/realEcoleDirecte.js:883 | the escapes read after a lead byte are exactly the expected number of continuation bytes |
| WebEncoding.ByteAtPercent | src/api/realEcoleDirecte.js:877-887 | an escaped byte is read back as that byte |
| WebEncoding.ContinuationsOfPercent | src/api/realEcoleDirecte.js:877-887 | escaped continuation bytes are read back unchanged |
| WebEncoding.DecodeEncodedChar | src/api/realEcoleDirecte.js:877-887 | decodeURIComponent undoes the encoding of one character and continues with the rest |
| WebEncoding.UriRoundTrip | src/api/realEcoleDirecte.js:877-887 | decodeURIComponent(encodeURIComponent(s)) succeeds and returns s for every string |
| WebEncoding.Base64Digit | src/api/realEcoleDirecte.js:108 | each six-bit value is written as an ASCII base64 digit other than '=' |
| WebEncoding.Base64Value | src/api/realEcoleDirecte.js:123 | a recognised base64 digit denotes a value below 64 that is written back as the same digit |
| WebEncoding.Base64DigitValue | src/api/realEcoleDirecte.js:108-123 | reading back a written digit gives its value |
| WebEncoding.Quad | src/api/realEcoleDirecte.js:108 | three bytes become four digits |
| WebEncoding.Unpadded | src/api/realEcoleDirecte.js:108 | the digits of an encoding are valid base64 and their count is fixed by the input length modulo 3 |
| WebEncoding.EncodeLatin1 | src/api/realEcoleDirecte.js:108 | a padded btoa result has a length divisible by four |
| WebEncoding.Btoa | src/api/realEcoleDirecte.js:108 | btoa succeeds exactly on Latin-1 strings |
| WebEncoding.RemoveWhitespace | src/api/realEcoleDirecte.js:123 | atob's whitespace removal never lengthens its input |
| WebEncoding.StripPadding | src/api/realEcoleDirecte.js:123 | removing padding never lengthens its input |
| WebEncoding.Triple | src/api/realEcoleDirecte.js:123 | four digits decode to three Latin-1 characters |
| WebEncoding.DecodeDigits | src/api/realEcoleDirecte.js:123 | decoded base64 is a Latin-1 binary string |
| WebEncoding.Atob | src/api/realEcoleDirecte.js:123 | a successful atob returns a Latin-1 binary string |
| WebEncoding.RemoveWhitespaceOfBase64 | src/api/realEcoleDirecte.js:123 | a base64 text has no whitespace for atob to remove |
| WebEncoding.StripPaddingOfEncoding | src/api/realEcoleDirecte.js:108-123 | atob's whitespace and padding removal on btoa output leaves exactly the unpadded digits |
| WebEncoding.TripleOfBytes | src/api/realEcoleDirecte.js:108-123 | the digits written for three bytes decode to those three bytes |
| WebEncoding.DecodeDigitsStep | src/api/realEcoleDirecte.js:123 | decoding proceeds one group of four digits at a time |
| WebEncoding.DecodeQuad | src/api/realEcoleDirecte.js:108-123 | a written group of four digits decodes to its three bytes, then the rest is decoded |
| WebEncoding.DecodeUnpadded | src/api/realEcoleDirecte.js:108-123 | decoding the digits of any Latin-1 string, partial final group included, gives the string back |
| WebEncoding.BtoaAtob | src/api/realEcoleDirecte.js:108-123 | atob(btoa(s)) == s for every Latin-1 string |
| WebEncoding.LeadOf | src/api/realEcoleDirecte.js:128 | TextDecoder expects at most three continuation bytes after a lead byte |
| WebEncoding.AcceptedCount | src/api/realEcoleDirecte.js:128 | TextDecoder accepts no more continuation bytes than needed or available |
| WebEncoding.AcceptedBytes | src/api/realEcoleDirecte.js:128 | a fully accepted sequence has its second byte in the lead's range and continuation bytes after |
| WebEncoding.AcceptAll | src/api/realEcoleDirecte.js:128 | well-formed continuation bytes are all accepted |
| WebEncoding.AcceptedSequence | src/api/realEcoleDirecte.js:128 | a sequence TextDecoder accepts whole is one decodeURIComponent also accepts |
| WebEncoding.Utf8CharAccepted | src/api/realEcoleDirecte.js:102-128 | TextDecoder accepts the whole UTF-8 encoding of every character |
| WebEncoding.DecodeLossyChar | src/api/realEcoleDirecte.js:102-128 | TextDecoder decodes one encoded character and continues with the rest |
| WebEncoding.DecodeLossyEncode | src/api/realEcoleDirecte.js:102-128 | decoding the UTF-8 encoding of any text, without replacement characters, gives the text back |
| WebEncoding.ByteOrderMark | src/api/realEcoleDirecte.js:128 | the only character whose encoding starts EF BB BF is U+FEFF |
| WebEncoding.MarkEncoding | src/api/realEcoleDirecte.js:128 | U+FEFF is encoded EF BB BF |
| WebEncoding.NoByteOrderMark | src/api/realEcoleDirecte.js:128 | text that does not start with U+FEFF does not start with a byte order mark once encoded |
| WebEncoding.TextRoundTrip | src/api/realEcoleDirecte.js:102-128 | TextDecoder undoes TextEncoder except that it drops a leading U+FEFF |
| RealEcoleDirecte.UrlSafeToStandard | src/api/realEcoleDirecte.js:121 | each '-' becomes '+' and each '_' becomes '/', every other character and the length are kept |
| RealEcoleDirecte.EncodeBase64 | src/api/realEcoleDirecte.js:99-111 | the encoding is empty exactly when the text is empty |
| RealEcoleDirecte.AtobAlphabet | src/api/realEcoleDirecte.js:118-123 | text atob accepts contains no URL-safe digits, so the URL-safe rewrite leaves it unchanged |
| RealEcoleDirecte.DecodeBase64Fallback | src/api/realEcoleDirecte.js:129-133 | when the rewritten text is not base64 the plain atob fails too, and decodeBase64 returns its input |
| RealEcoleDirecte.EncodingHasNoUrlDigits | src/api/realEcoleDirecte.js:108-121 | standard base64 output has no '-' or '_', so the URL-safe rewrite keeps it |
| RealEcoleDirecte.Base64RoundTrip | src/api/realEcoleDirecte.js:99-134 | decodeBase64(encodeBase64(s)) == s for every text not starting with U+FEFF |
| RealEcoleDirecte.ParsedAccount | src/api/realEcoleDirecte.js:749-810 | typeCompte E gives a student, P a teacher, anything else a parent; id, names and modules are copied; a student's class falls back to a non-empty default; a teacher without profile has no classes or subjects; a parent has one child per listed pupil |
| RealEcoleDirecte.TitleLength | src/api/realEcoleDirecte.js:1393-1395 | a recognised title is a prefix of the raw name |
| RealEcoleDirecte.FindLastName | src/api/realEcoleDirecte.js:1398-1401 | the chosen part is an all-capitals word of the name; none is chosen only when no part qualifies |
| RealEcoleDirecte.NormalizedName | src/api/realEcoleDirecte.js:1389-1406 | an empty name stays empty; the result is upper case; otherwise it is the upper-cased first all-capitals part, or the first part when there is none |
| RealEcoleDirecte.FirstLastName | src/api/realEcoleDirecte.js:1398-1401 | when some part is all capitals, the first such part is chosen |
| RealEcoleDirecte.DocumentedDupont | src/api/realEcoleDirecte.js:1385-1387 | "M. DUPONT P." normalises to "DUPONT", as documented |
| RealEcoleDirecte.DocumentedMartin | src/api/realEcoleDirecte.js:1385-1387 | "Mme MARTIN" normalises to "MARTIN", as documented |
| RealEcoleDirecte.TitleAt | src/api/realEcoleDirecte.js:1394 | the first title in list order that prefixes the name is the one removed |
| RealEcoleDirecte.MrsAsWritten | src/api/realEcoleDirecte.js:1394 | with "Mr" tried before "Mrs", a name starting "Mrs " keeps a stray "s" |
| RealEcoleDirecte.TitleStripped | src/api/realEcoleDirecte.js:1394 | with longer titles tried first, every title followed by a space is removed whole |
| RealEcoleDirecte.MrsShadowed | src/api/realEcoleDirecte.js:1389-1406 | "Mrs Li" normalises to "S" as written and to "LI" once "Mrs" is tried before "Mr" |
| RealEcoleDirecte.SenderParts | src/api/realEcoleDirecte.js:1710-1713 | the sender's non-empty civility, first name and last name are kept, and only those |
| RealEcoleDirecte.FormatSender | src/api/realEcoleDirecte.js:1707-1715 | a formatted sender is never empty |
| RealEcoleDirecte.JoinHas | src/api/realEcoleDirecte.js:1714 | joining keeps every part |
| RealEcoleDirecte.SenderShown | src/api/realEcoleDirecte.js:1707-1715 | a plain-text sender is shown as is; each non-empty name field appears in the result; a record with no name shows the unknown-sender text |
| RealEcoleDirecte.FolderMapping | src/api/realEcoleDirecte.js:1428-1440 | sent, archived and draft are the only kinds with a folder id; a folder id -1, -2 or -4 selects its kind with folder 0; any other id is kept with the requested kind; a zero classeur falls back to the kind's id |
| RealEcoleDirecte.Utf16Length | src/api/realEcoleDirecte.js:1742 | a string's UTF-16 length is between its code point count and twice it |
| RealEcoleDirecte.EstimateWeight | src/api/realEcoleDirecte.js:1729-1747 | the weight is one of CONTROL, DST, HEAVY, LIGHT and MEDIUM |
| RealEcoleDirecte.WeightPriority | src/api/realEcoleDirecte.js:1729-1747 | a test is CONTROL; otherwise DST, HEAVY and LIGHT keywords are tried in that order, each iff none before matched; MEDIUM iff nothing matched |
| RealEcoleDirecte.KeywordsAppend | src/api/realEcoleDirecte.js:1734-1743 | a keyword list matches iff either of its halves does |
| RealEcoleDirecte.EncodedWeight | src/api/realEcoleDirecte.js:1732 | the weight of base64-encoded homework is computed from its decoded lower-cased text |
| RealEcoleDirecte.Obfuscate | src/api/realEcoleDirecte.js:877-879 | obfuscated credentials are base64 text |
| RealEcoleDirecte.ObfuscationRoundTrip | src/api/realEcoleDirecte.js:877-887 | deobfuscating an obfuscated string gives it back, for every string |
| RealEcoleDirecte.MalformedObfuscation | src/api/realEcoleDirecte.js:881-887 | text that is not base64, or whose reversed content is not valid percent-encoding, deobfuscates to null |
| RealEcoleDirecteClient.InitialSession | src/api/realEcoleDirecte.js:153-190 | a new client is not authenticated and has no pending QCM; it stores its device id under the device key and keeps every other stored entry; its token, user name and saved cn/cv are the stored ones, with no cn/cv when the stored record is not JSON |
| RealEcoleDirecteClient.ErrorMessage | src/api/realEcoleDirecte.js:515 | the authentication error message is never empty: the known text for the code, else the server message, else the unknown-error text |
| RealEcoleDirecteClient.CredentialsRoundTrip | src/api/realEcoleDirecte.js:892-929 | non-empty credentials stored less than a day ago are read back unchanged and leave the session as it was |
| RealEcoleDirecteClient.CredentialsExpire | src/api/realEcoleDirecte.js:909-921 | credentials older than a day are not returned and are removed, so a second read finds none |
| RealEcoleDirecteClient.LogoutEndsSession | src/api/realEcoleDirecte.js:1002-1027 | after logout nothing is authenticated or pending, no stored credentials remain, the session keys are removed from storage, every other stored entry and the device id are kept |
| RealEcoleDirecteClient.LoginSucceeds | src/api/realEcoleDirecte.js:471-498 | code 200 yields the first account parsed, every account parsed and their module codes, clears the QCM state and authenticates the client |
| RealEcoleDirecteClient.LoginRemembers | src/api/realEcoleDirecte.js:483-486 | with rememberMe and a non-empty access token the token and username are saved for silent relogin |
| RealEcoleDirecteClient.LoginAsksQcm | src/api/realEcoleDirecte.js:499-512 | code 250 keeps the credentials, records the QCM and fails with a QCM-required error carrying its question and propositions |
| RealEcoleDirecteClient.LoginRejected | src/api/realEcoleDirecte.js:513-517 | any other code fails with an authentication error carrying the code and a non-empty message |
| RealEcoleDirecteClient.AnswerWithoutQcm | src/api/realEcoleDirecte.js:697-700 | answering with no pending QCM or no saved credentials fails and changes nothing |
| RealEcoleDirecteClient.QcmFlow | src/api/realEcoleDirecte.js:697-743 | a QCM login, an accepted answer and a successful relogin end authenticated, with cn/cv stored and no QCM state left |
| RealEcoleDirecteClient.LoginKeepsCnCv | src/api/realEcoleDirecte.js:402-537 | a login attempt never removes stored cn/cv |
| RealEcoleDirecteClient.GroupIds | src/api/realEcoleDirecte.js:2047-2049 | the group ids are distinct and none is zero |
| RealEcoleDirecteClient.GroupIdsMembers | src/api/realEcoleDirecte.js:2047-2049 | a group id is listed iff it is non-zero and some class carries it |
| RealEcoleDirecteClient.ClassesInGroupMembers | src/api/realEcoleDirecte.js:2099-2123 | a group lists exactly the classes that carry its id |
| RealEcoleDirecteClient.TeacherGroupsMeaning | src/api/realEcoleDirecte.js:2099-2123 | one group per distinct non-zero id in first-seen order, each holding exactly the classes with that id |
| RealEcoleDirecteClient.NoClassesInGroup | src/api/realEcoleDirecte.js:2099-2123 | an id no class carries has no classes |
| RealEcoleDirecteClient.PlacementsOf | src/api/realEcoleDirecte.js:2061-2069 | a successful group reply places each of its students once |
| RealEcoleDirecteClient.StudentIds | src/api/realEcoleDirecte.js:2054-2075 | the merged student ids are distinct |
| RealEcoleDirecteClient.StudentIdsMembers | src/api/realEcoleDirecte.js:2054-2075 | a student id is merged iff some group lists that student |
| RealEcoleDirecteClient.MergedEntry | src/api/realEcoleDirecte.js:2063-2068 | a student keeps the record of its first listing and gains one group per listing, the first listing's group first |
| RealEcoleDirecteClient.NoEarlierListing | src/api/realEcoleDirecte.js:2063-2068 | an unlisted student has no groups |
| RealEcoleDirecteClient.MergedMeaning | src/api/realEcoleDirecte.js:2054-2075 | one entry per distinct student in first-seen order, with the first record and one group per listing |
| RealEcoleDirecteClient.FirstListing | src/api/realEcoleDirecte.js:2063-2068 | a listed student has a first listing |
| RealEcoleDirecteClient.CacheReused | src/api/realEcoleDirecte.js:2029-2088 | a fetched non-empty student list is stored and returned again without fetching for a day |
| RealEcoleDirecteClient.PlacementsStep | src/api/realEcoleDirecte.js:2054-2073 | the groups are merged one reply after another |
| RealEcoleDirecteClient.AddClass | src/api/realEcoleDirecte.js:2105-2118 | adding one class keeps the groups built so far equal to the groups of the classes seen |
| RealEcoleDirecteClient.AddPlacement | src/api/realEcoleDirecte.js:2063-2069 | adding one student keeps the merged map equal to the merge of the placements seen |
| RealEcoleDirecteClient.AddReply | src/api/realEcoleDirecte.js:2061-2069 | adding one group's students keeps the merged map equal to the merge of the placements seen |
| RealEcoleDirecteClient.MergeStudents | src/api/realEcoleDirecte.js:2054-2075 | the loop over groups returns exactly the merge of all replies |
| RealEcoleDirecteClient.MergedSoFar | src/api/realEcoleDirecte.js:2075 | listing the map in insertion order gives the merge |
| RealEcoleDirecteClient.EcoleDirecteClient.constructor | src/api/realEcoleDirecte.js:153-190 | the new client's state is the initial session |
| RealEcoleDirecteClient.EcoleDirecteClient.SaveAccessToken | src/api/realEcoleDirecte.js:283-290 | the access token and username are kept and stored |
| RealEcoleDirecteClient.EcoleDirecteClient.FetchQcm | src/api/realEcoleDirecte.js:646-691 | the client state and the result are those of the QCM fetch specification |
| RealEcoleDirecteClient.EcoleDirecteClient.Login | src/api/realEcoleDirecte.js:402-537 | the client state and result are those of the login specification, whose properties the Login lemmas state |
| RealEcoleDirecteClient.EcoleDirecteClient.Reply | src/api/realEcoleDirecte.js:450-517 | the server reply is handled by code as the login specification says |
| RealEcoleDirecteClient.EcoleDirecteClient.Accept | src/api/realEcoleDirecte.js:471-498 | an accepted login updates the client as the login specification says |
| RealEcoleDirecteClient.EcoleDirecteClient.AskQcm | src/api/realEcoleDirecte.js:499-512 | a QCM request updates the client as the login specification says |
| RealEcoleDirecteClient.EcoleDirecteClient.AnswerQcm | src/api/realEcoleDirecte.js:697-743 | the client state and result are those of the QCM answer specification |
| RealEcoleDirecteClient.EcoleDirecteClient.SaveCnCv | src/api/realEcoleDirecte.js:268-271 | cn/cv are kept and stored |
| RealEcoleDirecteClient.EcoleDirecteClient.Logout | src/api/realEcoleDirecte.js:1002-1027 | the client state is the logged-out session of LogoutEndsSession |
| RealEcoleDirecteClient.EcoleDirecteClient.ClearAccessToken | src/api/realEcoleDirecte.js:295-300 | the access token and username are dropped and unstored |
| RealEcoleDirecteClient.EcoleDirecteClient.StoreCredentials | src/api/realEcoleDirecte.js:892-905 | the obfuscated credentials and time are stored |
| RealEcoleDirecteClient.EcoleDirecteClient.ClearStoredCredentials | src/api/realEcoleDirecte.js:934-936 | the stored credentials are removed |
| RealEcoleDirecteClient.EcoleDirecteClient.GetStoredCredentials | src/api/realEcoleDirecte.js:909-929 | the result and new state follow the credential-reading specification of CredentialsRoundTrip and CredentialsExpire |
| RealEcoleDirecteClient.EcoleDirecteClient.TeacherGroupsFromAccount | src/api/realEcoleDirecte.js:2099-2123 | a non-teacher is refused with code 403; a teacher gets exactly the groups of TeacherGroupsMeaning |
| RealEcoleDirecteClient.EcoleDirecteClient.AllTeacherStudents | src/api/realEcoleDirecte.js:2021-2093 | the client state and result are those of the student-list specification, merged as MergedMeaning says and cached as CacheReused says |
| ApiConfig.ApiMode | src/api/config.js:61-69 | the mode is always one of the two client names, `real` or `mock` |
| ApiConfig.ApiModeChoice | src/api/config.js:14-69 | the real client is chosen exactly when `VITE_API_MODE` is `real`, `VITE_USE_REAL_API` is the text `true`, or the mode is `auto` in a production build; an unset mode without the flag gives the mock client |
| ApiConfig.ApiBase | src/api/config.js:33-37 | Electron talks to the École Directe API directly, a production build to the Railway backend, a development build to `VITE_API_URL` when set and else to the Vite proxy path |
| ApiConfig.ApiBaseNonEmpty | src/api/config.js:33-37 | the base address is never empty |
| ApiConfig.ElectronHeaders | src/api/config.js:48-56 | outside Electron no header; inside, exactly `Origin`, `Referer` and `User-Agent`, with the École Directe site as origin and referer and the fixed browser agent |
| ApiConfig.HeadersOnlyInElectron | src/api/config.js:48-56 | the headers are non-empty exactly in Electron, and there the referer starts with the origin |
| StudentAutocomplete.Suggestions | src/components/StudentAutocomplete.jsx:55-67 | under two characters nothing is suggested; otherwise at most eight students, each a matching student of the list, and every matching student when there are no more than eight |
| StudentAutocomplete.Autocomplete.constructor | src/components/StudentAutocomplete.jsx:16-21 | the box starts with the given value, the dropdown closed and no highlight |
| StudentAutocomplete.Autocomplete.HandleChange | src/components/StudentAutocomplete.jsx:72-79 | typing sets the text, opens the dropdown and clears the highlight, and keeps the student list |
| StudentAutocomplete.Autocomplete.HandleSelect | src/components/StudentAutocomplete.jsx:81-88 | choosing a student writes its class, last and first name into the box and closes the dropdown |
| StudentAutocomplete.Autocomplete.HandleKeyDown | src/components/StudentAutocomplete.jsx:90-105 | a closed or empty dropdown ignores every key; the down arrow moves the highlight down but not past the last suggestion, the up arrow moves it up but not above the first; Enter chooses a student exactly when one is highlighted; Escape closes |
| ConvertIcon.LastIndex | convert_icon.py:11 | the result is -1 or an index holding the character, and no later index holds it |
| ConvertIcon.SplitExtParts | convert_icon.py:11 | the stem and the extension put back together give the path; a non-empty extension starts with a dot and holds no other dot and no slash, and the file name before it holds some character other than a dot |
| ConvertIcon.PngPathKeepsStem | convert_icon.py:11 | the PNG path is the ICO path with its final extension replaced by `.png`; directory and stem are kept |
| ConvertIcon.PngPathAppends | convert_icon.py:11 | a file name without an extension gets `.png` appended |
| ConvertIcon.PngPathExamples | convert_icon.py:11 | only the final extension goes; a dot in a directory name or a leading dot of the file name is not an extension |
| ConvertIcon.LastIndexIs | convert_icon.py:11 | the last index of a character is the one position holding it with none after it |
| ConvertIcon.RunOutcome | convert_icon.py:5-28 | fewer than two arguments give the usage message and exit status 1 with no file written; otherwise the PNG is written before the ICO, which embeds the six sizes; the run exits 0 exactly when nothing failed, and a failure prints `Error: ` and exits 1, leaving a PNG already written in place |
| ElectronMain.CookieStore.constructor | electron/main.cjs:23-27 | the store starts with no token, an empty jar and no session id |
| ElectronMain.CookieStore.OnHeadersReceived | electron/main.cjs:57-90 | the jar becomes the old jar with every `Set-Cookie` pair that has a non-blank value filed in order (replacing the entry of the same name, else appended), the token the value of the last pair named `gtk` in any letter case, and the session id is unchanged |
| ElectronMain.CookieStore.Store | electron/main.cjs:66-83 | one pair replaces the stored entry of its name or is appended, ends up in the jar, and sets the token when its name is `gtk` in any case |
| ElectronMain.CookieStore.OnBeforeSendHeaders | electron/main.cjs:95-122 | the origin, referer and user agent are always set; `X-GTK` is set exactly when a non-empty token is held; when the jar is not empty `Cookie` is the stored pairs followed by the request's own cookie, joined by `; `; every other header is kept |
| ElectronMain.CookieStore.ClearCookies | electron/main.cjs:184-190 | the token, the jar and the session id are all cleared, and the handler answers true |
| ElectronMain.CookieHeaderOrder | electron/main.cjs:111-118 | the `Cookie` header starts with the first stored pair and ends with the request's own cookies |
| ViteProxy.Rewrite | vite.config.js:20 | a path starting with `/api/ed` loses exactly that prefix; any other path is kept |
| ViteProxy.RewriteOnce | vite.config.js:20 | only the leading `/api/ed` is removed, a second one stays |
| ViteProxy.Session.constructor | vite.config.js:24-27 | the session starts with no GTK cookie, no token and an empty jar |
| ViteProxy.Session.ProxyReq | vite.config.js:29-45 | origin, referer and user agent are set; when the jar is not empty `Cookie` is the stored pairs followed by the request's own cookies; every other header is kept |
| ViteProxy.Session.Store | vite.config.js:60-76 | one pair is filed into the jar (replacing its name's entry, else appended); a pair named exactly `GTK` sets the token and is reported for exposure |
| ViteProxy.Session.ProxyRes | vite.config.js:47-90 | every non-blank `Set-Cookie` pair is filed in order, the token becomes the last exact-`GTK` value and is exposed as `X-GTK-Token`, and a non-empty `2fa-token` is exposed as `X-2FA-Token` |
| ViteProxy.ExposedTokenIsLast | vite.config.js:71-75 | the exposed `X-GTK-Token` is the value of the last `Set-Cookie` line named exactly `GTK` with a value; with none the response headers are untouched, so a lower-case `gtk` is never exposed |
| WorkloadChart.Band | src/components/charts/WorkloadChart.jsx:48-62 | band 0 exactly up to the light threshold, 1 up to medium, 2 up to heavy, 3 above, each as an if-and-only-if |
| WorkloadChart.BandMonotone | src/components/charts/WorkloadChart.jsx:56-62 | a higher score never gets a lighter colour |
| WorkloadChart.ScoreColorThresholds | src/components/charts/WorkloadChart.jsx:48-62 | daily bars are light up to 4, heavy from 8 to 10, critical above 10; weekly bars light up to 15, medium from 16 to 25, critical above 35 |
| WorkloadChart.DailyStatusMatchesColor | src/components/charts/WorkloadChart.jsx:110-118 | the tooltip's status word (Léger, Modéré, Chargé, Critique) is the one of the bar's colour band |
| WorkloadChart.MaxScore | src/components/charts/WorkloadChart.jsx:136 | at least 15, at least every score, and equal to 15 or to one of the scores |
| WorkloadChart.YAxisMax | src/components/charts/WorkloadChart.jsx:136 | the axis ends at least at 17, two or more above every score, and exactly two above the highest score when that exceeds 15 |
| WorkloadChart.SubjectOrderSorted | src/components/charts/WorkloadChart.jsx:248-251 | the subject chart is a permutation of the subjects, heaviest total weight first |
| DashboardPage.Greeting | src/pages/DashboardPage.jsx:29-34 | `Bonjour` exactly before noon, `Bon après-midi` exactly from 12 to 17, `Bonsoir` exactly from 18 on |
| DashboardPage.DailyBars | src/pages/DashboardPage.jsx:37-80 | at most seven bars, in strictly increasing date order, each a day from today on with at least one assignment and the count, score and assignments of that day; every dated assignment due today or later has its day shown unless seven earlier days already fill the chart |
| DashboardPage.GetStatusAgrees | src/pages/DashboardPage.jsx:260-265 | the dashboard's `getStatus` classifies a day's score exactly as the workload engine's daily status (2/4/6) does |
| EdTypes.FirstHit | src/api/ed-types.js:58-64 | the index of the first colour rule the code hits, or the number of rules when it hits none: no earlier rule is hit |
| EdTypes.NeonColorChoice | src/api/ed-types.js:52-67 | without a subject code the original colour, purple by default; with one, the colour of the first rule the upper-cased code hits, and when none is hit the original colour, white by default |
| EdTypes.NeonColorIgnoresCase | src/api/ed-types.js:56 | the case of the subject code makes no difference |
| EdTypes.NeonColorFirstRuleWins | src/api/ed-types.js:58-59 | a code that contains both a French and a maths marker takes the French colour, the earlier rule |
| CookieJar.NameOf | server/index.js:89-90 | the name holds no `=` and is the start of the pair |
| CookieJar.ValueOf | server/index.js:102 | a value exists exactly when the pair holds a `=`, and holds no `=` itself |
| CookieJar.FindIndex | server/index.js:93 | the first entry filed under the name (starting with `name=`), or the jar's length when there is none |
| CookieJar.Upsert | server/index.js:93-98 | storing a pair leaves the jar as long or one entry longer |
| CookieJar.FiledIffNamed | server/index.js:93 | for an entry holding a `=`, starting with `name=` is the same as having that name |
| CookieJar.UpsertKeepsNamesUnique | electron/main.cjs:72-77 | storing a pair keeps one entry per name: the pair is in the jar, entries of other names stay in place, nothing else is added, and the jar grows exactly when no entry had the pair's name |
| CookieJar.AbsorbKeepsNamesUnique | electron/main.cjs:64-84 | skipping the pairs without a value, the jar keeps one entry per name however many `Set-Cookie` lines arrive |
| CookieJar.AbsorbAllKeepsNamesUnique | server/index.js:88-103 | without the skip, the jar keeps one entry per name as long as every pair carries a `=` |
| CookieJar.LastCapture | vite.config.js:51-76 | the index of the last line whose GTK pair the jar takes, with no later one, or -1 |
| CookieJar.GtkFromLastLine | electron/main.cjs:79-82 | after a batch of `Set-Cookie` lines the token is the value of the last line bringing a GTK pair, or stays what it was when none does |
| CookieJar.BareCookieRepeats | server/index.js:89-98 | a cookie line without any `=` is appended again each time it arrives, since no entry starts with its name followed by `=` |
| DstLiveBoard.FormatDate | src/components/DSTLiveBoard.jsx:24-30 | no date gives `DATE NON DÉFINIE`; a date gives a title starting with `DST` and the French weekday of that date |
| DstLiveBoard.MixteCountAtMostClass | src/components/DSTLiveBoard.jsx:33-38 | a MIXTE row never counts more students than the whole class, and no count exceeds the student list |
| DstLiveBoard.DispositifMembers | src/components/DSTLiveBoard.jsx:41 | the dispositif list holds exactly the students whose id is listed, and none without a list |
| DstLiveBoard.Subtitle | src/components/DSTLiveBoard.jsx:44-47 | no class gives the prompt `Sélectionnez des classes` |
| DstLiveBoard.SubtitleNamesClasses | src/components/DSTLiveBoard.jsx:44-47 | with classes, the subtitle starts with the first class, contains every class, and ends with ` : ` and the subject, `MATIÈRE` when there is none |
| DstLiveBoard.TimeDisplay | src/components/DSTLiveBoard.jsx:50-52 | without time slots the range is `08:00-12:00` |
| DstLiveBoard.TimeDisplayParts | src/components/DSTLiveBoard.jsx:50-52 | the range is the start, a dash and the end, each falling back to 08:00 and 12:00 when empty |
| MockData.AddDays | src/data/mockData.js:14-18 | the `YYYY-MM-DD` text of the day `days` after the given one |
| MockData.DaysToSaturday | src/data/mockData.js:20-26 | the step forward is one to seven days |
| MockData.NextSaturdayIsNext | src/data/mockData.js:20-26 | the next Saturday lies one to seven days ahead, is a Saturday, and no day in between is one, so from a Saturday it is the one a week later |
| MockData.WeightScore | src/data/mockData.js:382-385 | each assignment scores one to five points, an unknown weight two |
| MockData.ScoreBounds | src/data/mockData.js:382-385 | a list of assignments scores between its length and five times its length |
| MockData.DueBetweenMembers | src/data/mockData.js:374-380 | the statistics count exactly the assignments of the class, or of every class when none is given, due from the start to the end of the range |
| MockData.WeeklyStats | src/data/mockData.js:369-397 | nine weeks, the k-th being the statistics of the Monday week `k - 4` weeks from the current one |
| MockData.WeeklyStatsShape | src/data/mockData.js:369-397 | the weeks follow each other seven days apart, only the middle one is current, and each score lies between the count and five times the count |
| MockData.DailyStats | src/data/mockData.js:399-429 | fifteen days, the k-th being the statistics of the day `k - 7` days from today |
| MockData.DailyStatsShape | src/data/mockData.js:399-429 | the days run from a week before today to a week after, only the middle one is today, each score lies between the count and five times the count, and the weekend flag repeats every seven days |
| ProcessAssets.CropBoxInside | process_assets.py:14-23 | the crop box lies inside the image |
| ProcessAssets.WideCropKeepsHeight | process_assets.py:14-18 | an image wider than 164:314 keeps its full height, and the kept width is the largest whole width within 164:314 of that height |
| ProcessAssets.TallCropKeepsWidth | process_assets.py:19-23 | any other image keeps its full width, and the kept height is the largest whole height within 314:164 of that width |
| ProcessAssets.CropCentred | process_assets.py:17-23 | the two margins the crop removes differ by at most one pixel, the extra one on the right or at the bottom |
| ProcessAssets.SidebarOutcome | process_assets.py:5-34 | the sidebar is written exactly when the image opened with a positive height and saving raised nothing; it is then the 164×314 BMP at the destination cut with the centred box, and the output says `Created` exactly then and `Error` otherwise |
| ProcessAssets.MainOutcome | process_assets.py:36-41 | the exit status is 1 exactly with fewer than two arguments, which print the usage and open nothing; otherwise the script exits normally, errors included, and writes to the second argument |
| TeacherMessages.Int32 | src/pages/teacher/TeacherMessages.jsx:67 | the value read as a signed 32-bit integer: in range and equal to the input modulo 2^32 |
| TeacherMessages.AvatarColor | src/pages/teacher/TeacherMessages.jsx:63-70 | the loop's colour is the palette entry of the name's 32-bit hash, always a palette colour, and the first one for an empty name |
| TeacherMessages.Initials | src/pages/teacher/TeacherMessages.jsx:73-78 | an empty name gives `?`; a name of two words or more gives the upper-cased first letters of its first and last words; otherwise its first two characters upper-cased |
| TeacherMessages.FilterKeepsSubset | src/pages/teacher/TeacherMessages.jsx:81-87 | the filter keeps a sub-list of the messages, each matching the search in sender name, first name or subject, and an empty search keeps them all |
| TeacherMessages.ReplaceById | src/pages/teacher/TeacherMessages.jsx:45 | the list keeps its length, every message with the id replaced by the update and every other unchanged |
| TeacherMessages.MessagesView.constructor | src/pages/teacher/TeacherMessages.jsx:7-8 | the view starts with the loaded messages and nothing selected |
| TeacherMessages.MessagesView.SelectMessage | src/pages/teacher/TeacherMessages.jsx:31-54 | a message with content, or whose detail could not be fetched, is shown and the list kept; otherwise the merged message replaces every listed message with that id and is shown |
| TeacherMessages.MergeFields | src/pages/teacher/TeacherMessages.jsx:42 | the merge takes every field the fetched message has and keeps every other field of the listed one, and merging the same detail again changes nothing |
| ProxyServer.ApiPath | server/index.js:45 | the forwarded path is what follows the `/api/ed/` prefix: prefix plus result gives back the request path |
| ProxyServer.TargetUrlSwapsPrefix | server/index.js:45-47 | the target URL starts with École Directe's `v3/` base, carries the rest of the request path unchanged and ends with the query string |
| ProxyServer.RequestHeaders | server/index.js:52-57 | the form content type, the origin, the referer and the user agent are always sent, and no header outside the known names |
| ProxyServer.RequestHeadersFromSession | server/index.js:60-67 | `Cookie` is sent exactly when the jar is non-empty, as the pairs joined by `; `, and `X-GTK` exactly when a token is held, with its value |
| ProxyServer.RequestHeadersForwarded | server/index.js:70-77 | `X-Token` and `2FA-Token` are forwarded exactly when the client sent non-empty ones, with the client's values |
| ProxyServer.Forwarded | server/index.js:80-84 | the upstream request carries a body exactly for POST, and that body is the client's |
| ProxyServer.ReplyHeaders | server/index.js:111-118 | the answer carries the session id and JSON type, and `X-Token`/`2FA-Token` exactly when École Directe sent them, with its values |
| ProxyServer.Reached | server/index.js:88-105 | the lines the loop reaches are a prefix of the `Set-Cookie` list, with no bare GTK line before the last, ending either at the list's end or at a bare GTK line |
| ProxyServer.CapturedStops | server/index.js:101-103 | on the first bare `GTK` line the loop stops: the session is what the lines up to and including it made of it |
| ProxyServer.CapturedAll | server/index.js:88-105 | without a bare `GTK` line every line is filed |
| ProxyServer.File | server/index.js:89-104 | one pair is filed as the specification of a single step says: it replaces the entry of its name or is appended, and a `GTK` pair sets the token |
| ProxyServer.KnownId | server/index.js:31-32 | the chosen id is the header's value when that names a stored session; otherwise the header is absent, empty or unknown |
| ProxyServer.CapturedWellFormed | server/index.js:88-105 | when every line holds a `=`, the jar keeps one entry per name and the token becomes the value of the last `GTK` pair, or stays as it was |
| ProxyServer.BareGtkStopsFiling | server/index.js:101-103 | a `GTK` line with no `=` is filed bare, loses the token and stops the loop before the next line |
| ProxyServer.Server.constructor | server/index.js:14 | the server starts with no sessions |
| ProxyServer.Server.GetSession | server/index.js:30-37 | a header naming a stored session selects it and leaves the store alone; otherwise the fresh id is stored with an empty session |
| ProxyServer.Server.CaptureCookies | server/index.js:86-105 | the chosen session becomes the captured one, every other session is unchanged, and failure is reported exactly when a bare `GTK` line was met |
| ProxyServer.Server.Handle | server/index.js:40-126 | the request goes upstream with the session's cookies and token; a failed fetch or a bare GTK line answers 500 with the error text; otherwise the session keeps the captured cookies and the answer has École Directe's status, body and token headers |
| RealEcoleDirecteClient.LoadCnCv | src/api/realEcoleDirecte.js:245-263 | a stored text that is not JSON gives none; the editor's record with both halves wins; any pair returned is stored under one of the two keys, and under the client's own key when the editor's record is absent or not a pair |
| RealEcoleDirecteClient.AcceptedOutcome | src/api/realEcoleDirecte.js:471-498 | code 200 succeeds exactly when there is an account; then the first account is logged in with its modules, the new token is kept and the questionnaire state is cleared; on failure account and credentials stay |
| RealEcoleDirecteClient.QcmAskedFails | src/api/realEcoleDirecte.js:499-511 | code 250 always ends in an error, keeping the account and the stored credentials |
| RealEcoleDirecteClient.RepliedKeepsCnCv | src/api/realEcoleDirecte.js:465-528 | whatever the login reply, the kept cn/cv pair and its stored entry are unchanged |
| RealEcoleDirecteClient.QcmAskedKeeps | src/api/realEcoleDirecte.js:499-511 | asking for the questionnaire leaves local storage and the kept cn/cv pair alone |
| RealEcoleDirecteClient.AcceptedKeepsCnCv | src/api/realEcoleDirecte.js:471-498 | a successful login keeps the kept cn/cv pair and its stored entry |
| RealEcoleDirecteClient.EcoleDirecteClient.ClearQcm | src/api/realEcoleDirecte.js:489-491 | only the pending questionnaire and the questionnaire credentials are cleared |
| RealEcoleDirecteClient.EcoleDirecteClient.ForgetTokens | src/api/realEcoleDirecte.js:1003-1005 | only the three tokens are cleared |
| RealEcoleDirecteClient.EcoleDirecteClient.ForgetAccount | src/api/realEcoleDirecte.js:1006-1007 | only the account and the module list are cleared |
| RealEcoleDirecteClient.EcoleDirecteClient.ForgetQcm | src/api/realEcoleDirecte.js:1008-1010 | only the questionnaire state and the kept cn/cv pair are cleared |
| RealEcoleDirecteClient.EcoleDirecteClient.RemoveStored | src/api/realEcoleDirecte.js:1017-1019 | exactly the named keys leave local storage and nothing else changes |
| Assignments.TestCount | src/pages/DashboardPage.jsx:106 | the number of tests in a list is at most its length |
| Assignments.TestCountAppend | src/pages/AssignmentsPage.jsx:210 | counting tests distributes over concatenation, so a list's count is the sum of its parts' |
| Assignments.DoneCount | src/pages/AssignmentsPage.jsx:209 | the number of done assignments is at most the list's length |
| AuthContext.Get | src/contexts/AuthContext.jsx:71-73 | a stored value is found exactly when the key is present, and it is the stored text |
| AuthContext.Saved | src/contexts/AuthContext.jsx:96-105 | the preference is written to localStorage; token, account and type go to localStorage when kept and to sessionStorage otherwise, and the other area is untouched |
| AuthContext.Cleared | src/contexts/AuthContext.jsx:107-116 | the three session keys leave both areas, the preference leaves localStorage, and every other entry stays |
| AuthContext.Restored | src/contexts/AuthContext.jsx:64-90 | a session is restored or found corrupt exactly when the area the preference picks holds a non-empty token and account; a restored user always has a type |
| AuthContext.SaveRestoreRoundTrip | src/contexts/AuthContext.jsx:96-105 | saving then restoring gives back the saved account, with the student type when the saved type is empty |
| AuthContext.ClearedRestoresNobody | src/contexts/AuthContext.jsx:107-116 | after the storage is cleared a restore finds nobody |
| AuthContext.DemoTeacher | src/contexts/AuthContext.jsx:222-247 | a teacher logs in exactly when the lower-cased address is a demo address and the password is the demo one, and gets that address's teacher account |
| AuthContext.DemoLogins | src/contexts/AuthContext.jsx:222-247 | both demo addresses log in with the demo password, and a differently cased password is refused |
| AuthContext.DemoLoginIgnoresCase | src/contexts/AuthContext.jsx:243 | upper-casing the address never changes the outcome of a demo login |
| AuthContext.Auth.constructor | src/contexts/AuthContext.jsx:46-58 | the provider starts loading, logged out, with no user, type, error, questionnaire or relogin prompt |
| AuthContext.Auth.SaveToStorage | src/contexts/AuthContext.jsx:96-105 | the two storage areas become Saved of the old ones and the rest of the state is unchanged |
| AuthContext.Auth.ClearStorage | src/contexts/AuthContext.jsx:107-116 | the two storage areas become Cleared of the old ones and the rest of the state is unchanged |
| AuthContext.Auth.RestoreSession | src/contexts/AuthContext.jsx:64-90 | loading ends; a restored session logs its user in with its type, a corrupt one clears the storage, and otherwise nothing else changes |
| AuthContext.Auth.SignIn | src/contexts/AuthContext.jsx:131-134 | a login sets the user, the type and the flag, saves the session and reports success with the account |
| AuthContext.Auth.Fail | src/contexts/AuthContext.jsx:153-154 | a failed login reports the error's message and shows it, or the fallback text when it has none |
| AuthContext.Auth.LoginAsStudent | src/contexts/AuthContext.jsx:122-158 | a successful login signs the student in and saves the session; a questionnaire error asks for it with its question; any other error is shown; loading ends |
| AuthContext.Auth.AnswerQcm | src/contexts/AuthContext.jsx:164-193 | a right answer signs the student in, clears the questionnaire and saves with the stored preference; an error shows its message or "wrong answer" |
| AuthContext.Auth.CancelQcm | src/contexts/AuthContext.jsx:199-206 | the questionnaire and the error are cleared and nothing else of the provider changes |
| AuthContext.Auth.LoginAsTeacher | src/contexts/AuthContext.jsx:212-263 | success exactly when DemoTeacher accepts, then the teacher is signed in with a token made of the clock, otherwise the error is shown; loading ends |
| AuthContext.Auth.Logout | src/contexts/AuthContext.jsx:269-277 | nobody is signed in, the error and relogin prompt are cleared and the storage is cleared |
| DstManager.Removed | src/pages/admin/DSTManager.jsx:88 | the filtered list holds exactly the elements other than the id, each as often as at most in the original |
| DstManager.ToggleMembership | src/pages/admin/DSTManager.jsx:87-89 | toggling flips the membership of the id and of nothing else |
| DstManager.ToggleTwice | src/pages/admin/DSTManager.jsx:87-89 | toggling twice restores every membership, and the very list when the id was absent |
| DstManager.ToggleKeepsDistinct | src/pages/admin/DSTManager.jsx:87-89 | a list without repeats stays without repeats |
| DstManager.DetailUpdated | src/pages/admin/DSTManager.jsx:80-85 | the class gets the new value for the field and keeps its other field, every other class is unchanged |
| DstManager.OrNull | src/pages/admin/DSTManager.jsx:107-108 | an empty or missing text becomes null and any other text is kept |
| DstManager.ClassOf | src/pages/admin/DSTManager.jsx:112 | a class is found exactly when some student has the id, and it is the class of the first such student |
| DstManager.IdsOfClass | src/pages/admin/DSTManager.jsx:114 | the kept ids are exactly the selected ids whose student is in the class, without new repeats |
| DstManager.EntryFor | src/pages/admin/DSTManager.jsx:101-116 | each row names its class and the form's date, subject and population, takes professor and room from that class's details, and lists only the picked students of that class, the mixed-room ones only for a mixed room |
| DstManager.Entries | src/pages/admin/DSTManager.jsx:101 | one row per chosen class, in the form's order |
| DstManager.SelectedStudentInOwnRow | src/pages/admin/DSTManager.jsx:111-113 | in a mixed room a picked student appears in the row of their own class and in no other |
| DstManager.VisibleStudents | src/pages/admin/DSTManager.jsx:52-54 | the visible students are exactly the directory's students whose name contains the lower-cased search |
| DstManager.EmptySearchShowsAll | src/pages/admin/DSTManager.jsx:52-54 | an empty search shows the whole directory, in order |
| DstManager.DstForm.constructor | src/pages/admin/DSTManager.jsx:11-23 | the form starts with the default fields, no class details and no picked students |
| DstManager.DstForm.ClassToggle | src/pages/admin/DSTManager.jsx:56-78 | adding a third class to a mixed room is refused and changes nothing; otherwise the class is toggled, its details dropped on removal and emptied on addition |
| DstManager.DstForm.UpdateClassDetail | src/pages/admin/DSTManager.jsx:80-85 | the class details become DetailUpdated of the old ones and nothing else changes |
| DstManager.DstForm.ToggleStudent | src/pages/admin/DSTManager.jsx:87-89 | only the picked students change, toggled by the id |
| DstManager.DstForm.ToggleDispositif | src/pages/admin/DSTManager.jsx:91-94 | only the students with support arrangements change, toggled by the id |
| DstManager.DstForm.ResetForm | src/pages/admin/DSTManager.jsx:128-133 | the form is back to its defaults with no details and no picked students |
| DstManager.DstForm.Submit | src/pages/admin/DSTManager.jsx:96-126 | with no class nothing is written; otherwise the rows of Entries are written and the form is reset exactly when the write succeeds |
| EcoleDirecte.ParseResponse | src/api/ecoleDirecte.js:58-73 | success exactly for code 200, with the payload; bad credentials, a blocked account and maintenance give their fixed messages; any other code keeps its message or "unknown error" |
| EcoleDirecte.DecodeContent | src/api/ecoleDirecte.js:430-444 | only a Base64-looking text longer than 20 characters can change, and then into what atob gives; everything else is kept |
| EcoleDirecte.DecodeContentOfBtoa | src/api/ecoleDirecte.js:435-436 | the Base64 text of a Latin-1 text longer than 20 digits decodes back to that text |
| EcoleDirecte.PlainTextKept | src/api/ecoleDirecte.js:435 | a text with a space is never decoded |
| EcoleDirecte.EstimateHomeworkWeight | src/api/ecoleDirecte.js:448-469 | HEAVY exactly when the lower-cased content has a heavy keyword, LIGHT exactly when it has none but a light keyword or fewer than 50 characters, MEDIUM otherwise |
| EcoleDirecte.SameWeightAsRealClient | src/api/ecoleDirecte.js:448-469 | without a DST keyword this estimate agrees with the real client's |
| EcoleDirecte.WeightIgnoresCase | src/api/ecoleDirecte.js:449 | upper-casing the content never changes the weight |
| EcoleDirecte.ParseSchedule | src/api/ecoleDirecte.js:267-282 | a non-array gives no course; otherwise one course per entry, in order, with its id, times and cancelled flag |
| EcoleDirecte.GroupResults | src/api/ecoleDirecte.js:292-309 | a group gives at most one result per item |
| EcoleDirecte.GroupResultsSound | src/api/ecoleDirecte.js:292-309 | every result of a group is made from one of its selected items |
| EcoleDirecte.GroupResultsComplete | src/api/ecoleDirecte.js:292-309 | every selected item of a group gives its result |
| EcoleDirecte.CollectedSound | src/api/ecoleDirecte.js:291-311 | every result comes from a selected item of an array group |
| EcoleDirecte.CollectedComplete | src/api/ecoleDirecte.js:291-311 | every selected item of an array group gives its result |
| EcoleDirecte.Collect | src/api/ecoleDirecte.js:291-311 | the loops over groups and items yield Collected, in order |
| EcoleDirecte.ParseHomework | src/api/ecoleDirecte.js:287-314 | null throws, a non-object gives no homework, and date groups give the homework Collected selects |
| EcoleDirecte.HomeworkParsed | src/api/ecoleDirecte.js:296-307 | exactly the items with a due date become homework, each with a due date, its group's date and the homework type |
| EcoleDirecte.ParseTests | src/api/ecoleDirecte.js:380-405 | null throws, a non-object gives no test, and date groups give the tests Collected selects |
| EcoleDirecte.TestsParsed | src/api/ecoleDirecte.js:388-397 | exactly the items flagged as a test or mentioning a contrôle become tests, typed test and weighted CONTROL |
| EcoleDirecte.MarkerIgnoresCase | src/api/ecoleDirecte.js:388 | the contrôle marker is found in upper case too |
| EcoleDirecte.MarkerLowered | src/api/ecoleDirecte.js:388 | the upper-case marker lowers to the searched word |
| EcoleDirecte.SanitizeAccount | src/api/ecoleDirecte.js:160-173 | id, type and school are copied; class and class id are present exactly when the profile has non-empty ones |
| EcoleDirecte.Client.constructor | src/api/ecoleDirecte.js:98-102 | the client starts with no token, account or modules |
| EcoleDirecte.Client.Login | src/api/ecoleDirecte.js:110-139 | a refused code throws its error and changes nothing; an accepted one stores the token, then the first account and its modules, and throws after storing the token when there is no account |
| EcoleDirecte.Client.Logout | src/api/ecoleDirecte.js:144-148 | no token, account or modules remain and the client is not authenticated |
| EcoleDirecte.Client.EnsureAuthenticated | src/api/ecoleDirecte.js:258-262 | an error exactly when the client is not authenticated, with code 401 |
| EcoleDirecte.MockAccountFor | src/api/ecoleDirecte.js:503-530 | the guest account exactly for guest/secret, the demo student otherwise |
| EcoleDirecte.MockClient.constructor | src/api/ecoleDirecte.js:485-489 | the mock starts with no token and no account |
| EcoleDirecte.MockClient.Login | src/api/ecoleDirecte.js:491-535 | an empty username or password is refused and changes nothing; otherwise a clock-based token and the picked account are stored and returned |
| EcoleDirecte.MockClient.Logout | src/api/ecoleDirecte.js:537-540 | no token and no account remain |
| EcoleDirecte.DaysToSaturday | src/api/ecoleDirecte.js:622 | the days to the next Saturday lie in 0..6 and land on a Saturday |
| EdApiInterceptor.ParseBody | tools/ed-api-interceptor.js:49-67 | an empty body gives null and a body that is not text is kept as it is |
| EdApiInterceptor.ParseBodyOfString | tools/ed-api-interceptor.js:51-66 | a text body is kept as it is or replaced by a parse: of the decoded remainder after `data=`, or of the whole text otherwise |
| EdApiInterceptor.ParseBodyRoundTrip | tools/ed-api-interceptor.js:53-59 | a `data=` body of the URI-encoded JSON text parses back to that JSON's value, and is kept as text when the JSON does not parse |
| EdApiInterceptor.SchemaBounded | tools/ed-api-interceptor.js:91-110 | a schema nests at most six levels below the depth it starts at, and keeps an object's keys in order |
| EdApiInterceptor.DropV3 | tools/ed-api-interceptor.js:73 | a path without `/v3` is kept as it is |
| EdApiInterceptor.DropV3Leading | tools/ed-api-interceptor.js:73 | a leading `/v3/` is removed |
| EdApiInterceptor.DropDigits | tools/ed-api-interceptor.js:73 | what is dropped is a run of digits at the start and what is left starts with a non-digit |
| EdApiInterceptor.ReplaceDigitsClean | tools/ed-api-interceptor.js:73 | the endpoint text has no digit left, and a text without digits is kept |
| EdApiInterceptor.IdsCollapse | tools/ed-api-interceptor.js:73 | two paths that differ only in one run of digits give the same endpoint |
| EdApiInterceptor.EndpointHasNoIds | tools/ed-api-interceptor.js:70-77 | an endpoint read from a URL holds no digit |
| EdApiInterceptor.EndpointOfId | tools/ed-api-interceptor.js:70-77 | a `/v3/` path with one numeric id becomes the path with `{id}` in its place |
| EdApiInterceptor.ReplaceDigitsRun | tools/ed-api-interceptor.js:73 | one run of digits between digit-free parts becomes `{id}` |
| EdApiInterceptor.VerbOf | tools/ed-api-interceptor.js:209 | the given method when non-empty, GET otherwise |
| EdApiInterceptor.ParseResponse | tools/ed-api-interceptor.js:118-123 | a response that parses gives its value, any other is kept as text |
| EdApiInterceptor.TokenAfter | tools/ed-api-interceptor.js:127-135 | each of the three tokens is replaced by a non-empty header value and kept otherwise |
| EdApiInterceptor.GroupedKeepsGrouping | tools/ed-api-interceptor.js:164-180 | filing a record keeps every group's calls equal to the calls of its endpoint; the first record of an endpoint sets its sample and schema, later ones keep them |
| EdApiInterceptor.RecordKeepsConsistent | tools/ed-api-interceptor.js:141-183 | recording a call keeps the counters in step: one more request, the bytes grown by its size, one more endpoint exactly when it is new |
| EdApiInterceptor.RecordOf | tools/ed-api-interceptor.js:141-161 | the record has the call's number, URL, method, status, duration and endpoint, the parsed bodies, the response headers, and the response text's length in UTF-16 units |
| EdApiInterceptor.Entries | tools/ed-api-interceptor.js:279-282 | one entry per line |
| EdApiInterceptor.Gather | tools/ed-api-interceptor.js:279-282 | an entry with an empty name is never filed |
| EdApiInterceptor.GatherLastWins | tools/ed-api-interceptor.js:305-310 | a name gets the value of its last entry, and a name without entries keeps its old value |
| EdApiInterceptor.GatherEach | tools/ed-api-interceptor.js:305-310 | the loop over the entries yields Gather |
| EdApiInterceptor.CookieEntryRoundTrip | tools/ed-api-interceptor.js:306 | a `name=value` entry after the separating space gives back the name and the value |
| EdApiInterceptor.HeaderLineQuirks | tools/ed-api-interceptor.js:280-281 | a header line without `: ` gets the value undefined, and a value holding `: ` is cut at it |
| EdApiInterceptor.HeaderWithoutSeparator | tools/ed-api-interceptor.js:280-281 | a header line without `: ` gets the value undefined |
| EdApiInterceptor.HeaderValueCut | tools/ed-api-interceptor.js:280-281 | a header value holding `: ` keeps only its part before it |
| EdApiInterceptor.ValueCutAtSeparator | tools/ed-api-interceptor.js:280-281 | any header line cut by a second `: ` gives the lower-cased name and the first part of the value |
| EdApiInterceptor.Capture.constructor | tools/ed-api-interceptor.js:30-43 | the capture starts with no group, request, cookie, token or error |
| EdApiInterceptor.Capture.CaptureRequest | tools/ed-api-interceptor.js:113-196 | the new record is RecordOf with the next number; it is appended, filed into its group, its tokens noted and its size added |
| EdApiInterceptor.Capture.Append | tools/ed-api-interceptor.js:152-180 | the record is appended and filed, the bytes grow by its size, and the endpoint count grows exactly when the endpoint is new |
| EdApiInterceptor.Capture.OnFetch | tools/ed-api-interceptor.js:201-246 | a call elsewhere leaves the capture alone; a failed call adds one error; a completed one is captured with its method or GET |
| EdApiInterceptor.Capture.OnXhrLoad | tools/ed-api-interceptor.js:268-297 | a call elsewhere leaves the capture alone; otherwise one record is added whose headers are gathered from the header lines |
| EdApiInterceptor.Capture.CaptureCookies | tools/ed-api-interceptor.js:304-311 | the cookies become Gather of the old ones over the entries of document.cookie, and nothing else changes |
| EdApiInterceptor.Capture.Clear | tools/ed-api-interceptor.js:392-398 | requests, groups, errors and counters are reset; cookies and tokens are kept |
| TeacherMatching.DropTrailingInitial | src/services/teacherMatching.js:19 | the result is a prefix; a name without a trailing initial is kept, and one with it loses the initial and the spaces before it |
| TeacherMatching.NormalizeWith | src/services/teacherMatching.js:14-22 | an empty name gives the empty text, and the result is upper case |
| TeacherMatching.NormalizeForMatchingAsWritten | src/services/teacherMatching.js:14-22 | the source's title list, where `Mr` shadows `Mrs`: an empty name gives the empty text |
| TeacherMatching.NormalizeForMatching | src/services/teacherMatching.js:14-22 | as intended, with `Mrs` matched before `Mr`: an empty name gives the empty text, and the result is upper case |
| TeacherMatching.TitleAndInitialDropped | src/services/teacherMatching.js:17-21 | a name written `M. Last I.` is matched as the upper-cased last name |
| TeacherMatching.MrsShadowedInMatching | src/services/teacherMatching.js:18 | as written, `Mrs Last` keeps an `S` before the last name; the corrected normalisation gives the last name alone |
| TeacherMatching.InitialDropped | src/services/teacherMatching.js:19 | a trailing space, initial and dot are removed |
| TeacherMatching.FindTeacherByName | src/services/teacherMatching.js:29-58 | the name is normalised as written (so "Mrs Li" is looked up as "S LI"); a normalised name shorter than two characters finds nobody; any teacher found is one the query returned for the normalised name |
| TeacherMatching.FindNormalized | src/services/teacherMatching.js:31-58 | a name shorter than two characters finds nobody; any teacher found is one of the query's rows |
| TeacherMatching.FindPrefersExactMatch | src/services/teacherMatching.js:46-51 | with rows, the first row whose teacher name, normalised as written, equals the name is chosen, and the first row when none does |
| TeacherMatching.MatchingSubject | src/services/teacherMatching.js:87-90 | a subject is found exactly when one of the student's subjects matches the group by code or upper-cased name, and it is one of them |
| TeacherMatching.LinksIff | src/services/teacherMatching.js:86-97 | a group is linked exactly when a subject matches and the class matches |
| TeacherMatching.UndefinedCodesMatch | src/services/teacherMatching.js:88 | a group without subject matches a subject without code, since both codes are undefined |
| TeacherMatching.UnnamedGroupFailsClass | src/services/teacherMatching.js:93-94 | with a student class, a group without a name never matches |
| TeacherMatching.ClassMatchIgnoresCase | src/services/teacherMatching.js:94 | the class match ignores the letter case of the student's class |
| TeacherMatching.MergedClasses | src/services/teacherMatching.js:310-312 | the merged classes have no empty entry and no repeat, and are exactly the non-empty stored classes and the student's class |
| TeacherMatching.MergedSubjects | src/services/teacherMatching.js:304-307 | the merged subjects have no repeat and are exactly the stored and the seen ones |
| TeacherMatching.SubjectDuplicated | src/services/teacherMatching.js:304-307 | as written, a stored subject seen again is listed twice; the corrected merge lists it once |
| TeacherMatching.RecordOne | src/services/teacherMatching.js:291-336 | one sighting touches only the teacher's key (upper-cased name, establishment or unknown) and leaves every other row alone; a new key gets the teacher's subjects, the student's class, a count of 1 and no claim; a known one counts one more sighting, keeps its claim, keeps its stored subjects in front and adds the seen ones (a repeat kept, as written), and its classes stay clean and gain the student's class |
| TeacherMatching.RecordDetectedTeachers | src/services/teacherMatching.js:288-337 | the loop over the teachers yields Recorded, the sightings applied one by one with the subject merge as written |
| TeacherMatching.ClaimCountsSightings | src/services/teacherMatching.js:288-337 | a key is present exactly when it was or one teacher has that name; its claim count grows by the number of sightings, and its claimer is kept |
| TeacherMatching.RecordedClassesClean | src/services/teacherMatching.js:310-312 | class lists never gain an empty entry or a repeat |
| TeacherMatching.RecordedListsClass | src/services/teacherMatching.js:310-331 | with a student class, every sighted teacher's row lists that class |
| TeacherMatching.VerifyTeacherClaim | src/services/teacherMatching.js:418-441 | valid exactly when a given subject is known to the detected teacher and a given class is contained in one of its classes, ignoring case; an invalid claim carries an error |
| TeacherMatching.NoAnswersPass | src/services/teacherMatching.js:418-441 | a claim with no answers is accepted |
| TeacherMatching.KnownClassPasses | src/services/teacherMatching.js:431-434 | naming one of the teacher's classes in upper case is accepted |
| TeacherMatching.ClaimTeacherIdentity | src/services/teacherMatching.js:370-412 | a missing teacher and an already claimed one fail with their messages; success needs an unclaimed teacher, valid answers and a successful write, and records the claimer and the teacher's name |
| TeacherMatching.ClaimedStaysClaimed | src/services/teacherMatching.js:380-382 | a claimed identity can never be claimed again |
| Text.Upper | src/services/teacherMatching.js:21 | `toUpperCase` maps each character to its upper-case form, keeping the length |
| Text.Lower | src/api/ecoleDirecte.js:449 | `toLowerCase` maps each character to its lower-case form, keeping the length |
| Text.UpperIdempotent | src/services/teacherMatching.js:21 | upper-casing twice is upper-casing once |
| Text.LowerIdempotent | src/api/ecoleDirecte.js:449 | lower-casing twice is lower-casing once |
| Text.LowerOfUpper | src/services/teacherMatching.js:94 | lower-casing an upper-cased text is lower-casing the text |
| Text.UpperOfLower | src/services/teacherMatching.js:94 | upper-casing a lower-cased text is upper-casing the text |
| Text.TrimStart | src/services/teacherMatching.js:20 | only leading white space is removed, and what is left starts with a non-space |
| Text.TrimEnd | src/services/teacherMatching.js:20 | only trailing white space is removed, and what is left ends with a non-space |
| Text.Trim | src/services/teacherMatching.js:20 | `trim` gives a text no longer than the input that neither starts nor ends with white space |
| Text.TrimKeeps | src/services/teacherMatching.js:20 | a text that neither starts nor ends with white space is kept |
| Text.TrimEmptyIffBlank | src/services/smartDSTParser.js:47 | trimming gives the empty text exactly when the text is all white space |
| Text.Split | tools/ed-api-interceptor.js:305 | `split` on a character gives at least one part, no part holds the separator, and joining the parts with it gives back the text |
| Text.SplitSpaces | src/api/realEcoleDirecte.js:1398 | splitting on white-space runs gives at least one part |
| Text.IndexOfChar | tools/ed-api-interceptor.js:306 | the first position of the character, or the length when it is absent |
| Text.IndexOfSpace | src/api/realEcoleDirecte.js:1398 | the first white-space position, or the length when there is none |
| Text.ContainsAny | src/api/ecoleDirecte.js:452-455 | true exactly when the text contains one of the keywords |
| Text.ContainsInContext | src/api/ecoleDirecte.js:452 | a text contained in a middle part is contained in the whole |
| Text.CodeUnits | tools/ed-api-interceptor.js:153 | a text's UTF-16 code units, each below 0x10000, whose count is JavaScript's `length` |
| Collections.Filter | src/pages/AssignmentsPage.jsx:209 | `filter` keeps exactly the elements the predicate accepts, never more often than they occur |
| Collections.Count | src/pages/AssignmentsPage.jsx:210 | a `filter(...).length` count is at most the list's length |
| Collections.FilterAppend | src/pages/AssignmentsPage.jsx:209 | filtering a concatenation is concatenating the filtered parts |
| Collections.FilterAll | src/pages/AssignmentsPage.jsx:209 | a filter that accepts every element keeps the list |
| Collections.FilterSorted | src/utils/workloadCalculator.js:495 | filtering a sorted list keeps it sorted |
| Collections.FirstWhere | server/index.js:93 | `findIndex`: the first position the predicate accepts, or the length when none does |
| Collections.LastWhere | tools/ed-api-interceptor.js:305-310 | the last position the predicate accepts, or -1 when none does |
| Collections.Take | src/components/StudentAutocomplete.jsx:66 | `slice(0, n)` keeps the first n elements, or all when there are fewer |
| Collections.Distinct | src/services/teacherMatching.js:310-312 | `[...new Set(s)]` has no repeat and holds exactly the elements of the list |
| Collections.DistinctMembers | src/services/teacherMatching.js:310-312 | an element is in the de-duplicated list exactly when it is in the list |
| Collections.Insert | src/pages/DashboardPage.jsx:78 | inserting adds exactly one element |
| Collections.SortBy | src/pages/DashboardPage.jsx:78 | `sort` with a comparator gives a permutation of the list |
| Collections.InsertSorted | src/pages/DashboardPage.jsx:78 | inserting into a sorted list keeps it sorted under any total preorder |
| Collections.SortBySorted | src/pages/DashboardPage.jsx:78 | the sorted list is sorted under any total preorder |
| Collections.LexPreorder | src/pages/SchedulePage.jsx:191 | the text order used for tie-breaks is a total preorder |
| Collections.Tabulate | src/data/mockData.js:399-429 | a list built from its indices has the requested length |
| Collections.TabulateAt | src/data/mockData.js:399-429 | its k-th element is the function at k |
| Collections.Map | src/api/ecoleDirecte.js:270 | `map` keeps the length and applies the function at every position |
| Collections.SumWhereBounds | src/services/workloadService.js:455-457 | a sum over the elements with a key lies between the count times the lower and the upper bound |
| Collections.PartitionCount | src/services/workloadService.js:440-460 | the counts per key over a list of keys that covers every element add up to the list's length |
| Collections.Where | src/pages/AssignmentsPage.jsx:191-199 | the elements with a key number as many as CountKey says |
| Collections.WhereMembers | src/pages/AssignmentsPage.jsx:191-199 | an element is selected exactly when it is in the list and has the key |
| Collections.GroupByMeaning | src/pages/AssignmentsPage.jsx:191-199 | every element's key is a group, every group's key belongs to some element, and each group is exactly that key's elements in order, never empty |
| Collections.GroupByKeys | src/pages/AssignmentsPage.jsx:191-199 | the groups' keys are exactly the elements' keys |
| DstBoardEditor.FormatHeaderDate | src/pages/admin/DSTBoardEditor.jsx:50-56 | no date gives the placeholder header; a date gives a header starting `DST ` that differs from the placeholder |
| DstBoardEditor.HeaderMatchesLiveBoard | src/pages/admin/DSTBoardEditor.jsx:50-56 | for a date the editor's header is the live board's date line |
| DstBoardEditor.MaxId | src/pages/admin/DSTBoardEditor.jsx:77 | `Math.max(...ids, 0)` is at least 0, at least every id, and is 0 or one of the ids |
| DstBoardEditor.NextIdFresh | src/pages/admin/DSTBoardEditor.jsx:77 | the new id is at least 1 and above every id in the table |
| DstBoardEditor.AppendFreshKeepsUnique | src/pages/admin/DSTBoardEditor.jsx:76-79 | appending a row with the new id keeps the ids unique |
| DstBoardEditor.Without | src/pages/admin/DSTBoardEditor.jsx:82-84 | deleting keeps exactly the rows with other ids, and keeps the ids unique |
| DstBoardEditor.FilterKeepsUnique | src/pages/admin/DSTBoardEditor.jsx:83 | filtering rows keeps their ids unique |
| DstBoardEditor.EditRow | src/pages/admin/DSTBoardEditor.jsx:60 | the edited row takes the new field value and keeps every other field |
| DstBoardEditor.UpdatedRows | src/pages/admin/DSTBoardEditor.jsx:59-61 | the rows with the id are edited, every other row is kept, and the ids stay as they were |
| DstBoardEditor.SetProf | src/pages/admin/DSTBoardEditor.jsx:67-68 | the teacher list gets the value at the index, keeps its other entries, and grows with empty holes when the index is past its end |
| DstBoardEditor.UpdatedProfs | src/pages/admin/DSTBoardEditor.jsx:64-72 | the rows with the id get the teacher set, every other row is kept, and the ids stay as they were |
| DstBoardEditor.UpdatedTiers | src/pages/admin/DSTBoardEditor.jsx:98-101 | the extra-time rows with the id are edited, every other one is kept, and the ids stay as they were |
| DstBoardEditor.SameIdsKeepUnique | src/pages/admin/DSTBoardEditor.jsx:59-61 | a table with the same ids as one with unique ids has unique ids |
| DstBoardEditor.BlankRow | src/pages/admin/DSTBoardEditor.jsx:78 | a new row has the given id, two empty teachers and no students |
| DstBoardEditor.BlankTiers | src/pages/admin/DSTBoardEditor.jsx:90 | a new extra-time row has the given id and no computer |
| DstBoardEditor.BoardEditor.constructor | src/pages/admin/DSTBoardEditor.jsx:14-41 | the editor starts with no date, rows 1 to 4, extra-time rows 1 to 4 and second-group rows 1 to 5, all ids unique |
| DstBoardEditor.BoardEditor.UpdateRow | src/pages/admin/DSTBoardEditor.jsx:59-61 | only the rows change, to UpdatedRows, and the ids stay unique |
| DstBoardEditor.BoardEditor.UpdateProf | src/pages/admin/DSTBoardEditor.jsx:64-72 | only the rows change, to UpdatedProfs, and the ids stay unique |
| DstBoardEditor.BoardEditor.AddRow | src/pages/admin/DSTBoardEditor.jsx:76-79 | a blank row with the next id is appended and nothing else changes |
| DstBoardEditor.BoardEditor.DeleteRow | src/pages/admin/DSTBoardEditor.jsx:82-84 | the rows with the id are removed and nothing else changes |
| DstBoardEditor.BoardEditor.AddTiersTemps | src/pages/admin/DSTBoardEditor.jsx:87-95 | group 1 gets a blank row with its next id, any other group number the second table, and the other table is unchanged |
| DstBoardEditor.BoardEditor.UpdateTiersTemps | src/pages/admin/DSTBoardEditor.jsx:98-101 | the chosen group's table is edited and the other is unchanged |
| DstBoardEditor.BoardEditor.DeleteTiersTemps | src/pages/admin/DSTBoardEditor.jsx:104-110 | the chosen group's rows with the id are removed and the other table is unchanged |
| WorkloadCalculator.DueOn | src/utils/workloadCalculator.js:147-150 | the assignments due on a day are drawn from the list, never more of them |
| WorkloadCalculator.DueBetween | src/utils/workloadCalculator.js:481-484 | the assignments due in the period are drawn from the list, never more of them |
| WorkloadCalculator.ThursdayCounts | src/utils/workloadCalculator.js:107-113 | for the Thursday of a week starting on a Monday, the week number counts the weeks since the first Monday of the ISO year |
| WorkloadCalculator.MondaysApart | src/utils/workloadCalculator.js:107-113 | two Mondays are a whole number of weeks apart |
| WorkloadCalculator.PeriodDays | src/utils/workloadCalculator.js:487-491 | one daily load per day of the period, each dated that day and holding the assignments due on it |
| WorkloadCalculator.PeriodLoads | src/utils/workloadCalculator.js:481-491 | the period's assignments are those due in it, the daily loads cover its days, and their scores add up to the period's weight, one plus two per test |
| WorkloadCalculator.Summarise | src/utils/workloadCalculator.js:493-534 | the summary counts the days, the assignments and their weight, keeps at most five scoring peak days by falling score, and tallies one status per day |
| WorkloadCalculator.PeakDaysAreTopFive | src/utils/workloadCalculator.js:494-495 | a scoring day left out of the peaks means five peaks were kept, each scoring at least as much |
| WorkloadCalculator.MissedPeakDay | src/utils/workloadCalculator.js:494-495 | in a list sorted by falling score, a scoring day not kept lies after five scoring days at least as high |
| WorkloadCalculator.DstOrderIsTotal | src/utils/workloadCalculator.js:248 | the date comparison used to sort DSTs is a total preorder |
| WorkloadCalculator.FileDst | src/utils/workloadCalculator.js:303-306 | filing a DST appends it to its week's bucket, creating it when missing, and leaves the other weeks alone |
| WorkloadCalculator.InWeek | src/utils/workloadCalculator.js:297-307 | a week's bucket is drawn from the list |
| WorkloadCalculator.InWeekMeaning | src/utils/workloadCalculator.js:297-307 | a bucket holds exactly the DSTs of its week, in date order when the list is sorted, and its key is a week of some DST |
| WorkloadCalculator.WeekWarningsMeaning | src/utils/workloadCalculator.js:308-316 | each per-week warning names a week whose bucket is over the limit, and every such week is named |
| WorkloadCalculator.AnalyzeByWeekKey | src/utils/workloadCalculator.js:246-325 | with the week key as a parameter: the total, the warnings of the scan and of the overfull weeks, buckets per week, and the severity flag as an if-and-only-if |
| WorkloadCalculator.GroupingMeaning | src/utils/workloadCalculator.js:297-318 | the buckets hold the original list's DSTs per week and every overfull week is warned about |
| WorkloadCalculator.WarningsOfByWeek | src/utils/workloadCalculator.js:308-316 | the pushed warnings name exactly the overfull weeks |
| WorkloadCalculator.SortedKeepsSuggestions | src/utils/workloadCalculator.js:371-375 | sorting the suggestions keeps every one valid and every free Saturday suggested |
| WorkloadCalculator.DatesStayDistinct | src/utils/workloadCalculator.js:371-375 | sorting keeps the suggestions' dates distinct |
| WorkloadCalculator.DailyWarningFirst | src/utils/workloadCalculator.js:410-450 | only the daily warning, pushed first, can be severe, and it alone can open the list |
| SchedulePage.FirstKeyIn | src/pages/SchedulePage.jsx:68-73 | the index of the first table key the text contains, or the table's length when it contains none |
| SchedulePage.ColorIn | src/pages/SchedulePage.jsx:65-75 | no subject gives gray; otherwise the colour of the first key the upper-cased subject contains, and gray when it contains none |
| SchedulePage.GetSubjectColorClass | src/pages/SchedulePage.jsx:65-75 | the loop over the table gives ColorIn |
| SchedulePage.ColorFromTable | src/pages/SchedulePage.jsx:65-75 | every colour is gray or one of the table's colours |
| SchedulePage.EdPhysiqueIsRed | src/pages/SchedulePage.jsx:19-62 | with the key `ED.PHYSIQUE` placed before `PHYSIQUE`, physical education is coloured red |
| SchedulePage.EdPhysiqueAsWritten | src/pages/SchedulePage.jsx:19-62 | as written, `PHYSIQUE` comes before `ED.PHYSIQUE`, so a physical-education subject is never red |
| SchedulePage.AsWrittenEntries | src/pages/SchedulePage.jsx:19-62 | the table as written has `PHYSIQUE` at entry 18, no red before it, and `ED.PHYSIQUE` red at entry 23 |
| SchedulePage.Before | src/pages/SchedulePage.jsx:157 | `split(sep)[0]` is a prefix without the separator, followed by it when shorter than the text |
| SchedulePage.DayKey | src/pages/SchedulePage.jsx:157 | the intended day key is a prefix of the start with neither a space nor a `T` |
| SchedulePage.DayKeyOfTimestamp | src/pages/SchedulePage.jsx:157 | a date followed by a space or a `T` and a time has the date as its day key |
| SchedulePage.DayKeyAsWrittenOfSpaced | src/pages/SchedulePage.jsx:157 | a start written as École Directe sends it, date, space, time, is keyed by its date as written |
| SchedulePage.DayKeyAsWrittenKeepsTime | src/pages/SchedulePage.jsx:157 | as written, an ISO start with a `T` and no space keeps its time in the key, so it is not the date |
| SchedulePage.TimeToMinutes | src/pages/SchedulePage.jsx:78-82 | no time gives 0; any time gives a minute of the day, 0 to 1439 |
| SchedulePage.Place | src/pages/SchedulePage.jsx:159-178 | the placed course keeps the course, its start and end minutes, its top is its start less 8:00 but never negative, its height its length but at least 30, and its colour ColorIn of the table as written (cyan for `ED.PHYSIQUE`) |
| SchedulePage.DayEntries | src/pages/SchedulePage.jsx:156-181 | a day gets at most one placed course per course |
| SchedulePage.DayEntriesMeaning | src/pages/SchedulePage.jsx:156-181 | a day holds exactly the placed courses whose start has its key, as written: the text before the first space, and before the first `T` only when that is empty |
| SchedulePage.DayEntriesSound | src/pages/SchedulePage.jsx:156-181 | every placed course of a day is a course whose start has that day's key as written |
| SchedulePage.DayEntriesComplete | src/pages/SchedulePage.jsx:156-181 | every course whose start has a day's key as written is placed in that day |
| SchedulePage.GroupByDay | src/pages/SchedulePage.jsx:149-181 | each shown day gets exactly its placed courses in schedule order, keyed and coloured as written, and a course whose key is not a shown day is dropped (an ISO start with a `T` among them) |
| SchedulePage.DayOrderIsTotal | src/pages/SchedulePage.jsx:189-192 | ordering by start then subject is a total preorder |
| SchedulePage.OverlapsGroup | src/pages/SchedulePage.jsx:218-221 | true exactly when some course of the group overlaps the other one |
| SchedulePage.GroupGrows | src/pages/SchedulePage.jsx:223-226 | a later overlapping course joins the group at its end |
| SchedulePage.LayGroup | src/pages/SchedulePage.jsx:230-237 | giving a finished group of two or more the next id keeps the columns laid |
| SchedulePage.LayCourses | src/pages/SchedulePage.jsx:230-237 | after a group is given its id every course is laid out |
| SchedulePage.FormGroup | src/pages/SchedulePage.jsx:204-228 | course i leads a group of untaken later courses that overlap it, the taken set grows by exactly the group, and a course left out overlaps none of the group before it |
| SchedulePage.LayOut | src/pages/SchedulePage.jsx:232-236 | the group's courses get columns 0, 1, ... in order, the group's size and its id; other courses are unchanged |
| SchedulePage.AssignColumns | src/pages/SchedulePage.jsx:195-238 | every course of the day ends laid out: alone in one column, or in a group with one column each and a shared fresh id |
| SchedulePage.LayDay | src/pages/SchedulePage.jsx:185-239 | a day is sorted by start then subject and laid out with ids from the counter on |
| SchedulePage.LayWeek | src/pages/SchedulePage.jsx:184-239 | each day is laid out with its own range of group ids, and no two ranges overlap |
| SchedulePage.ScheduleByDay | src/pages/SchedulePage.jsx:148-242 | each shown day gets its placed courses as GroupByDay files them, sorted and laid out, and two days never share a group id |
| SchedulePage.GroupWithinDay | src/pages/SchedulePage.jsx:231 | two courses of the week that share a group id sit on the same day |
| SchedulePage.TopOrderIsTotal | src/pages/SchedulePage.jsx:278 | ordering by grid position is a total preorder |
| SchedulePage.FirstGap | src/pages/SchedulePage.jsx:296-319 | the first gap from a course on that holds the click, with no gap holding it before, or none at all |
| SchedulePage.BreakTextRoundTrip | src/pages/SchedulePage.jsx:303-307 | the text of every break reads back as its length |
| SchedulePage.HoursRoundTrip | src/pages/SchedulePage.jsx:303-307 | a break of an hour or more reads back as its length |
| SchedulePage.HoursShape | src/pages/SchedulePage.jsx:305-306 | an hour or more is written as the hours, an `h`, and the minutes over as digits |
| SchedulePage.MinutesRoundTrip | src/pages/SchedulePage.jsx:303-307 | a break under an hour reads back as its length |
| SchedulePage.MinutesText | src/pages/SchedulePage.jsx:307 | a break under an hour is written as its minutes then ` min` |
| SchedulePage.Pad2Value | src/pages/SchedulePage.jsx:306 | two-digit padding keeps the digits and their value |
| SchedulePage.HandleDayBodyClick | src/pages/SchedulePage.jsx:265-322 | a click on a course shows nothing; otherwise the popup is BreakAt of the courses sorted by position at the clicked minute |
| SchedulePage.FindBreak | src/pages/SchedulePage.jsx:296-321 | within the day the scan gives BreakAt |
| SchedulePage.GapPopup | src/pages/SchedulePage.jsx:301-317 | the popup for the first gap holding the click is BreakAt |
| SchedulePage.BreakAtGap | src/pages/SchedulePage.jsx:300-317 | the first gap holding the click is never negative, and the popup is the one for that gap |
| SchedulePage.BreakAtMeaning | src/pages/SchedulePage.jsx:278-321 | a popup is shown exactly when the click lies within the day and a gap between consecutive courses holds it |
| SchedulePage.BreakAtShown | src/pages/SchedulePage.jsx:300-317 | the popup is for the first gap holding the click; its break is positive and its text reads back as the gap's length |
| SchedulePage.ShownGap | src/pages/SchedulePage.jsx:300-317 | a popup comes from the first gap holding the click, which is positive |
| SchedulePage.GapWithinDay | src/pages/SchedulePage.jsx:286-292 | where boxes are no shorter than their courses, a gap holding the click lies within the day, so the bounds check never changes the answer |
| SchedulePage.GetWeekDates | src/pages/SchedulePage.jsx:85-101 | five or six days from the Monday of the date's week, Monday first, one a day |
| SchedulePage.DefaultDayIndex | src/pages/SchedulePage.jsx:107-111 | the first day shown is a column from Monday to Saturday |
| SchedulePage.DefaultDayIsToday | src/pages/SchedulePage.jsx:107-111 | except on Sunday, the first day shown is today |
| SchedulePage.PreviousWeek | src/pages/SchedulePage.jsx:245-249 | going back keeps the weekday and moves earlier |
| SchedulePage.NextWeek | src/pages/SchedulePage.jsx:251-255 | going forward keeps the weekday and moves later |
| SchedulePage.WeekNavigationRoundTrip | src/pages/SchedulePage.jsx:245-255 | going forward then back, or back then forward, returns to the same week |
| SchedulePage.CurrentWeek | src/pages/SchedulePage.jsx:257-262 | the current week starts on the Monday of today's week |
| AssignmentsPage.GridOf | src/pages/AssignmentsPage.jsx:45-48 | the month starts in a Monday-first column 0..6 and has 28 to 31 days |
| AssignmentsPage.MiniCalendar | src/pages/AssignmentsPage.jsx:34-74 | the calendar is whole weeks, holds every day of the month at its place and fewer than seven padding days after it, each cell as the grid defines it |
| AssignmentsPage.LayOut | src/pages/AssignmentsPage.jsx:53-74 | the three loops lay out the leading days of the previous month, the month's days and the trailing padding, in whole weeks |
| AssignmentsPage.CalendarColumns | src/pages/AssignmentsPage.jsx:47 | each day of the month sits in the column of its weekday, Monday first as in the header row |
| AssignmentsPage.DayClick | src/pages/AssignmentsPage.jsx:84-90 | a click opens a day exactly when the cell has a date and homework, and opens that date |
| AssignmentsPage.CalendarClick | src/pages/AssignmentsPage.jsx:60-90 | on the calendar a click opens exactly the days of the month that have homework |
| AssignmentsPage.SubjectsMeaning | src/pages/AssignmentsPage.jsx:178-181 | the subject filter lists each non-empty subject of the list once, sorted, and nothing else |
| AssignmentsPage.FilteredMeaning | src/pages/AssignmentsPage.jsx:184-188 | the filter keeps exactly the assignments of the chosen subject, and all of them for 'all' |
| AssignmentsPage.GroupedByDate | src/pages/AssignmentsPage.jsx:191-199 | one entry per due date of the list (and one for the undated), distinct, in date order, each holding exactly that date's assignments in list order, and every assignment has its entry |
| AssignmentsPage.GroupInto | src/pages/AssignmentsPage.jsx:192-197 | the forEach's keys are the distinct dates in first-seen order and its groups are the assignments grouped by date |
| AssignmentsPage.AddDated | src/pages/AssignmentsPage.jsx:194-196 | one step opens the date's group when it is new and pushes the assignment at its end |
| AssignmentsPage.DatesWithHomework | src/pages/AssignmentsPage.jsx:202-204 | the calendar's dates are exactly the due dates present in the list |
| AssignmentsPage.StatsOf | src/pages/AssignmentsPage.jsx:207-211 | the total is the list's length and neither done nor tests exceeds it |
| AssignmentsPage.MinDue | src/pages/AssignmentsPage.jsx:146-147 | the start date is the earliest due date of the list, and there is none only when no assignment has one |
| AssignmentsPage.FetchedDays | src/pages/AssignmentsPage.jsx:150-163 | the fetched homework is exactly what the fourteen days before the start returned |
| AssignmentsPage.MergedMeaning | src/pages/AssignmentsPage.jsx:166-170 | the merge keeps every listed assignment, adds exactly the fetched ones whose id is not listed, and leaves the list in due date order |
| AssignmentsPage.LoadPastHomework | src/pages/AssignmentsPage.jsx:143-176 | loading past homework merges into the list what the fourteen days before the earliest due date (or today) returned |
| AssignmentsPage.WithDone | src/pages/AssignmentsPage.jsx:219-221 | every assignment with the id gets the new flag, every other one is unchanged |
| AssignmentsPage.ToggleOutcome | src/pages/AssignmentsPage.jsx:214-243 | a toggle of an id in flight does nothing; otherwise the id's assignments end flipped when the server accepted and with their old flag when not, all others untouched, and the busy set as before |
| AssignmentsPage.FailedToggleRestores | src/pages/AssignmentsPage.jsx:231-235 | a failed toggle of an assignment shown with its current flag leaves the page exactly as it was |
| ChartData.SubjectOf | src/pages/StatisticsPage.jsx:220 | an assignment is filed under its own subject, or under 'Autre' when it has none, never under an empty name |
| ChartData.Upcoming | src/pages/DashboardPage.jsx:45-73 | the days of the date map are distinct, in first-seen order |
| ChartData.UpcomingMembers | src/pages/DashboardPage.jsx:45-73 | the days of the date map are exactly the due dates from today on |
| ChartData.DailyChart | src/pages/DashboardPage.jsx:37-80 | each daily bar is the bar of its day, a day from today on with work; bars are in strictly increasing date order, at most cap of them, and every assignment due from today on is on a bar unless the chart is full of earlier days |
| ChartData.Tally | src/pages/DashboardPage.jsx:45-73 | the forEach leaves in the date map exactly the bars of the days from today on, keyed in first-seen order |
| ChartData.ChartOfValues | src/pages/DashboardPage.jsx:77-79 | sorting the bars by date and keeping the first cap gives the chart the page promises |
| ChartData.TallyStep | src/pages/DashboardPage.jsx:58-70 | one more assignment opens an empty bar for a new day from today on, then grows its day's bar by it |
| ChartData.PointsStep | src/pages/DashboardPage.jsx:68-70 | one more assignment changes only the bar of its own day |
| ChartData.FullOrListed | src/pages/DashboardPage.jsx:77-79 | a day on the sorted list is on the first cap, or those are full of earlier days |
| ChartData.PointScore | src/pages/DashboardPage.jsx:68-70 | a day's bar scores one point per assignment and two more per test, equal to the calculator's daily score, and holds exactly that day's assignments |
| ChartData.WeeklyChart | src/pages/DashboardPage.jsx:82-125 | four weekly bars, the i-th one the bar of the i-th week from today |
| ChartData.WeekPointMeaning | src/pages/DashboardPage.jsx:86-124 | each weekly bar splits its count into tests and homework, scores one point per assignment and two more per test, counts exactly the assignments due in its seven days, starts the day after the previous bar ends, and only the first is current |
| StatisticsPage.DailyBars | src/pages/StatisticsPage.jsx:134-172 | at most ten daily bars, each the bar of a day from today on with work, in strictly increasing date order, and every assignment due from today on is on a bar unless ten earlier days fill the chart |
| StatisticsPage.StatCounts | src/pages/StatisticsPage.jsx:218-229 | a subject's row counts that subject's assignments, its tests among them and the rest |
| StatisticsPage.SubjectStats | src/pages/StatisticsPage.jsx:217-236 | at most eight rows, each the row of a subject with assignments, no subject twice, by decreasing count, and every subject of the list has a row unless eight subjects with at least as many assignments fill the table |
| StatisticsPage.TallySubjects | src/pages/StatisticsPage.jsx:219-229 | the forEach leaves a row for exactly the subjects of the list, each with its counts, keyed in first-seen order |
| StatisticsPage.AddSubject | src/pages/StatisticsPage.jsx:220-228 | one pass creates the subject's row when missing and then counts the assignment in it |
| StatisticsPage.StatsStep | src/pages/StatisticsPage.jsx:220-228 | one more assignment changes only the row of its own subject |
| StatisticsPage.NamesMembers | src/pages/StatisticsPage.jsx:219-229 | the subjects that have a row are exactly those of the list |
| StatisticsPage.StatMeaning | src/pages/StatisticsPage.jsx:218-229 | a row splits its assignments into tests and the rest, holds exactly that subject's assignments, and a subject has a non-empty row exactly when it is on the list |
| StatisticsPage.RowsOfEntries | src/pages/StatisticsPage.jsx:231-234 | sorting the rows by decreasing count and keeping eight gives the table the page promises |
| StatisticsPage.RankedOne | src/pages/StatisticsPage.jsx:233-234 | a sorted row is among the first eight, or eight rows at least as large come first |
| StatisticsPage.TypeStatsOf | src/pages/StatisticsPage.jsx:239-243 | tests and homework split the total, which is the list's length, and tests are the list's tests |
| StatisticsPage.TypeStatsAppend | src/pages/StatisticsPage.jsx:239-243 | the split of two lists together is the sum of their splits |
| StatisticsPage.RoundPercent | src/pages/StatisticsPage.jsx:249 | the whole percentage nearest n out of d, halves rounded up |
| StatisticsPage.CompletionRate | src/pages/StatisticsPage.jsx:246-250 | 0 for no assignments, else the whole percentage nearest the share done |
| StatisticsPage.CompletionRateBounds | src/pages/StatisticsPage.jsx:246-250 | the rate lies in 0..100, is 0 when nothing is done and 100 when everything is |
| StatisticsPage.StatusColorAgrees | src/pages/StatisticsPage.jsx:257-266 | the page colours a score as the workload engine classifies it, with the daily or weekly thresholds |
| StatisticsPage.ShouldOpen | src/pages/StatisticsPage.jsx:99-104 | the tutorial opens exactly on a first visit once assignments are loaded |
| StatisticsPage.NextStepCloses | src/pages/StatisticsPage.jsx:119-131 | from any step, pressing next as often as steps remain closes the tutorial and marks it seen so it never opens again, whatever the loading state and assignment count; one press fewer leaves it open on the last step |
| TeacherWorkload.MonthOf | src/pages/teacher/TeacherWorkload.jsx:15-18 | the month shown first is the one holding today: today lies between its 1st and its last day |
| TeacherWorkload.DateRange | src/pages/teacher/TeacherWorkload.jsx:35-43 | the range runs from the 1st to the last day of the shown month |
| TeacherWorkload.MondayOnOrBefore | src/pages/teacher/TeacherWorkload.jsx:86-90 | the grid starts on the Monday of the week holding the 1st, a Sunday going back six days |
| TeacherWorkload.CalendarDays | src/pages/teacher/TeacherWorkload.jsx:78-107 | 42 cells, cell i being the day i after the Monday on or before the 1st, each as its date defines it |
| TeacherWorkload.FillDays | src/pages/teacher/TeacherWorkload.jsx:93-104 | the loop lays 42 consecutive days from its start, each cell read off its date |
| TeacherWorkload.DayCell | src/pages/teacher/TeacherWorkload.jsx:94-103 | one cell carries its date and the fields that date defines |
| TeacherWorkload.CalendarSpan | src/pages/teacher/TeacherWorkload.jsx:78-107 | the grid starts on a Monday, holds the whole month, and a cell is of the current month exactly when its date lies between the 1st and the last, numbered from the 1st |
| TeacherWorkload.WorkloadForDate | src/pages/teacher/TeacherWorkload.jsx:110-113 | the first row of the class for that day; none for an unknown class or a day without a row |
| TeacherWorkload.ListedDays | src/pages/teacher/TeacherWorkload.jsx:260-269 | the list view shows at most 14 rows of the class from today on; when fewer than 14, every such row is shown |
| TeacherWorkload.MergeAssignments | src/pages/teacher/TeacherWorkload.jsx:346-356 | the detail modal aggregates the day's assignments by subject, type and text, and the counts add up to the number of assignments |
| TeacherWorkload.MergeStudent | src/pages/teacher/TeacherWorkload.jsx:348-355 | the inner forEach keeps the aggregation in step with the assignments seen so far |
| TeacherWorkload.MergeOne | src/pages/teacher/TeacherWorkload.jsx:350-354 | one assignment opens its entry with a zero count when new, then counts it once |
| TeacherWorkload.MergedTotal | src/pages/teacher/TeacherWorkload.jsx:346-356 | each assignment is counted under exactly one key, so the counts add up to the total |
| TeacherClasses.ConnectedTeacher | src/pages/teacher/TeacherClasses.jsx:28-31 | for an account parsed from a login reply, the page counts as connected exactly for a teacher's account with a token |
| TeacherClasses.AddListing | src/pages/teacher/TeacherClasses.jsx:67-90 | one pass opens the group's entry when new, then counts the listing and records the student's class for a group |
| TeacherClasses.JoinStudent | src/pages/teacher/TeacherClasses.jsx:66-91 | the inner loop over one student's groups fails exactly when a listing has no group, and otherwise adds each listing to its group's entry |
| TeacherClasses.JoinOne | src/pages/teacher/TeacherClasses.jsx:67-90 | one listing keeps every entry the summary of its group's listings so far |
| TeacherClasses.LoadEdData | src/pages/teacher/TeacherClasses.jsx:60-104 | no list when a listing has no group; otherwise one row per group, classes before groups and each by name, each row summarising that group's listings |
| TeacherClasses.EntryMeaning | src/pages/teacher/TeacherClasses.jsx:67-90 | a row takes its name, code and kind from its group's first listing, counts one student per listing, is a group or a class by that kind, and lists no classes unless it is a group |
| TeacherClasses.EntryClasses | src/pages/teacher/TeacherClasses.jsx:94-97 | a group's classes are sorted, listed once each, and are exactly the non-empty classes of its students |
| TeacherClasses.SummaryPermuted | src/pages/teacher/TeacherClasses.jsx:97-101 | sorting the rows keeps every row the summary of its group |
| TeacherClasses.ClassesAndGroups | src/pages/teacher/TeacherClasses.jsx:244-245 | every row is counted as a class or as a group |
| TeacherClasses.SubtitleMeaning | src/pages/teacher/TeacherClasses.jsx:241-253 | disconnected, the subtitle is the management hint; connected, it says none found exactly for an empty list and otherwise names the class and group counts with the plural following the number of rows |
| TeacherClasses.DeleteGroup | src/pages/teacher/TeacherClasses.jsx:214-225 | without confirmation or when the delete fails the list stays; otherwise exactly the rows with that id leave it |
| TeacherDashboard.ClassSetStep | src/pages/teacher/TeacherDashboard.jsx:67-70 | one more student adds its class to the set when non-empty and not yet there |
| TeacherDashboard.AddGroup | src/pages/teacher/TeacherDashboard.jsx:73-80 | a group seen for the first time is recorded once; a known one changes nothing |
| TeacherDashboard.CollectStudent | src/pages/teacher/TeacherDashboard.jsx:73-81 | the inner loop over a student's groups fails exactly when a listing has no group, and otherwise records every group first seen |
| TeacherDashboard.CollectOne | src/pages/teacher/TeacherDashboard.jsx:74-80 | one listing keeps the group map holding each group as first seen |
| TeacherDashboard.Collect | src/pages/teacher/TeacherDashboard.jsx:66-82 | the loop over the students fails exactly when a listing has no group; otherwise it yields the set of class names and each group as first seen, in first-seen order |
| TeacherDashboard.UpcomingMeaning | src/pages/teacher/TeacherDashboard.jsx:114-118 | at most five slots, each from the schedule and still ahead, in start order; every other slot ahead starts no earlier than all of them, and with fewer than five none is left out |
| TeacherDashboard.InTakeOrLater | src/pages/teacher/TeacherDashboard.jsx:117-118 | a slot of the sorted list is among the first five or starts no earlier than each of them |
| TeacherDashboard.Pending | src/pages/teacher/TeacherDashboard.jsx:127 | the pending count is at most the five slots shown |
| TeacherDashboard.LoadEdData | src/pages/teacher/TeacherDashboard.jsx:57-140 | nothing is shown when a listing has no group; otherwise one card per group named after its first listing, the class, student and group counts, the next slots when they could be fetched, and the pending count |
| TeacherDashboard.CardNamed | src/pages/teacher/TeacherDashboard.jsx:74-90 | a card carries its group's id and the name of that group's first listing |
| TeacherDashboard.GreetingMeaning | src/pages/teacher/TeacherDashboard.jsx:221 | the greeting names the teacher's first word, or Professeur when there is no name or it starts with a space |
| TeacherStudents.LastWithId | src/pages/teacher/TeacherStudents.jsx:33-35 | the group a Map keeps under an id is the last one set with that id |
| TeacherStudents.MapValues | src/pages/teacher/TeacherStudents.jsx:33-35 | the Map's values list each id once at the place it was first set, holding the last group set under it |
| TeacherStudents.GroupsMeaning | src/pages/teacher/TeacherStudents.jsx:33-35 | the group choices are sorted by name, list each id once and every id of the students' groups, each holding the last group seen with it |
| TeacherStudents.ClassesMeaning | src/pages/teacher/TeacherStudents.jsx:38 | the class choices are sorted, listed once each, and are exactly the students' classes |
| TeacherStudents.FilteredStudents | src/pages/teacher/TeacherStudents.jsx:145-155 | exactly the students that match the search, the group and the class are kept, each as often as before |
| TeacherStudents.SearchIgnoresCase | src/pages/teacher/TeacherStudents.jsx:146-150 | the search ignores case, in the term as in the names |
| TeacherStudents.NoFilterKeepsAll | src/pages/teacher/TeacherStudents.jsx:145-155 | an empty search with both selects on all shows every student |
| TeacherStudents.HarvestPartition | src/pages/teacher/TeacherStudents.jsx:124-129 | the harvest files each student under its class (or UNKNOWN without one), each class holds exactly its students in order, and the classes together hold every student once |
| Dates.DaysInMonth | src/pages/AssignmentsPage.jsx:46-48 | a month has 28 to 31 days, the distance between its first day and the next month's |
| Dates.DaysBeforeMonth | src/pages/AssignmentsPage.jsx:45-46 | the days of a year before a month lie within the year, none before January and the whole year before the next New Year |
| Dates.YearOf | src/utils/workloadCalculator.js:72-76 | the year of a day is the one whose New Year is not after it and whose next New Year is after it |
| Dates.YearLength | src/utils/workloadCalculator.js:72-76 | consecutive New Years are one year length apart |
| Dates.NatToStringValue | src/pages/AssignmentsPage.jsx:61 | reading back the digits of String(n) gives n |
| Dates.PadZero | src/pages/AssignmentsPage.jsx:61 | padStart with zeros gives the width (or the string when longer), the string at its end and zeros before it |
| Dates.MonthNavigation | src/pages/AssignmentsPage.jsx:76-82 | the month arrows undo each other, the next month starts the day after this one ends, and the previous month is as long as the calendar padding assumes |
| RealEcoleDirecte.DupontWith | src/api/realEcoleDirecte.js:1386 | "M. DUPONT P." normalises to "DUPONT", with the titles as written and with the longer ones tried first |
| RealEcoleDirecte.MartinWith | src/api/realEcoleDirecte.js:1387 | "Mme MARTIN" normalises to "MARTIN", with the titles as written and with the longer ones tried first |
| SmartDstParser.UpperMatches | src/services/smartDSTParser.js:154-155 | the upper-cased class matches are exactly the upper-cased class occurrences of the text |
| SmartDstParser.UpperClassName | src/services/smartDSTParser.js:154-155 | a class occurrence upper-cased is a well-formed class name |
| SmartDstParser.PairTimes | src/services/smartDSTParser.js:188-191 | the pairing loop yields half as many slots as times, slot k running from time 2k to time 2k+1 |
| SmartDstParser.TextDateStringIs | src/services/smartDSTParser.js:126-136 | a text date's string uses the month number of the matched alternative, the day padded to two digits and the current year when none is written |
| SmartDstParser.AddLink | src/services/smartDSTParser.js:209-213 | one class occurrence creates the key's set when needed and adds the line's subjects to it, keeping the map the proximity of the links seen |
| SmartDstParser.AddLine | src/services/smartDSTParser.js:205-214 | one line adds its class occurrences in order, keeping the map the proximity of the links seen |
| SmartDstParser.AllLinksKeys | src/services/smartDSTParser.js:205-214 | a key is in the map exactly when some line mentions that class |
| SmartDstParser.AllLinksNear | src/services/smartDSTParser.js:205-214 | a subject is linked to a class exactly when some line mentions both |
| SmartDstParser.EmitClass | src/services/smartDSTParser.js:79-95 | one class emits one entry per subject of its set, appended in order |
| SmartDstParser.EmitProximity | src/services/smartDSTParser.js:78-95 | the proximity loop emits exactly the proximity entries of the map, in key order |
| SmartDstParser.EmitCrossProduct | src/services/smartDSTParser.js:99-113 | the fallback emits one entry for each class and subject, classes outermost |
| SmartDstParser.ProximityEntriesOfLines | src/services/smartDSTParser.js:76-95 | the proximity entries of any lines are distinct, are exactly one per linked class and subject, and are each well formed for the date and the subjects |
| WorkloadService.ScoreStep | src/services/workloadService.js:96-116 | one more assignment adds one test when detected as a test, appends its detail, and adds its subject to the tested subjects once |
| WorkloadService.CountDay | src/services/workloadService.js:287-314 | the counters and alerts part of one pass keeps them the tallies of the rows seen, weekly scores untouched |
| WorkloadService.TallyStep | src/services/workloadService.js:287-314 | one more row adds one day, one to the count of its status, one Saturday when due, and its critical and Saturday alerts in that order |
| CookieJar.AbsorbStep | server/index.js:88-103 | one more Set-Cookie line skips an empty value when asked and otherwise stores its pair, and moves the token only for a GTK pair |
| CookieJar.AfterLinesStep | electron/main.cjs:64-84 | one more line files its pair into the jar the earlier lines left |
| CookieJar.ReplaceKeepsNamesUnique | server/index.js:93-95 | replacing the entry of the same name keeps one entry per name |
| CookieJar.AppendKeepsNamesUnique | server/index.js:96-98 | appending a pair with a new name keeps one entry per name |
| DashboardPage.BySubjectMeaning | src/pages/DashboardPage.jsx:252-257 | each assignment of a chart day is filed under its subject (Autre without one), a subject is listed only when one of the day's assignments has it, and it holds exactly those assignments in the day's order |

## Left out

- Network and database I/O: every `fetch` of the two École Directe clients, the Supabase queries and the HTTP forwarding of the proxies. Their replies, rows and errors are parameters.
- Concurrency and timers: the request-slot rate limiter (src/api/realEcoleDirecte.js:192-227), the shared-promise silent relogin (src/api/realEcoleDirecte.js:544-566), `setTimeout` navigation and the interceptor's `setInterval`. Each operation is modelled as one atomic step.
- MergeStudents: the random 500 to 1300 ms pause before each group request (src/api/realEcoleDirecte.js:2058) and the client's request spacing are left out; only the replies and their order are modelled.
- Randomness: `generateUUID`, the `Math.random` ids of the smart DST parser and the proxy's session ids are parameters or are dropped (the parser's entry `id`).
- Time zones and clock time: a JavaScript `Date` is the day number of its calendar day. The gap between the UTC `toISOString` and the local getters is not modelled, nor the time of day where a page only compares days, nor a date string that does not parse (`NaN`).
- Upper, Lower and the search and matching built on them: case mapping covers ASCII and Latin-1 only. JavaScript also maps 'ß' to "SS" and changes the case of every other script.
- EncodeUriComponent: the model's characters are Unicode scalar values. A lone surrogate, for which `encodeURIComponent` throws `URIError`, cannot be given to it, so that error path is not modelled and UriRoundTrip holds for every string of the model.
- FindLastName, NormalizedName, FirstLastName: the all-capitals test and the final upper-casing use the Latin-1 mapping. So "Mme Strauß" gives "STRAUß" here where the source gives "STRAUSS".
- Ordering of strings: `localeCompare` and the default `sort()` become code-point order. JavaScript's default sort compares UTF-16 code units and `localeCompare` follows the locale's collation. The two differ from the model on accents and on characters outside the Basic Multilingual Plane.
- Key order of JavaScript objects: `Object.keys` and `Object.entries` are modelled in insertion order. JavaScript lists integer-like keys first, in numeric order.
- GenerateWorkloadStats: `averageDailyLoad` (a float) and the formatted `period.start`/`period.end` strings are dropped. The day loop steps over day numbers, so a day that a daylight-saving change makes local-time `setDate` skip or repeat is not modelled. `days` is the exact difference, which `Math.ceil` gives only without such a change.
- PeakDays: ties between equally loaded days are not stated to keep their day order, although the sort used is stable.
- SuggestDstDates: suggestions that tie on both recommendation and score are not stated to keep the order in which they were collected, although the sort used is stable.
- SubjectStats: subjects with the same number of assignments are not stated to keep their first-seen order, although the sort used is stable.
- AnalyzeWorkload: a day's `avg_score` is an integer, so a fractional database average (2.5, or the `avg_score > 3` Saturday test on 3.5) cannot be expressed. The `averageScore` text from `toFixed(1)` is dropped.
- CalculateWeeklySummary: weekly totals add integer day scores, for the same reason; the `toFixed` averages are dropped.
- GetAllClassesWorkload: both failure paths give the empty map. The source returns an empty array on a query error and an empty object when the call throws (src/services/workloadService.js:219-237).
- AnalyzeDstSchedule: a TOO_MANY_PER_WEEK warning carries its year and week but not the `dsts` array of the source, which aliases that week's bucket.
- Floating point elsewhere: the donut percentages of the statistics page, the "score moyen" of the teacher workload modal, `formatBytes`, and the float `int(h*164/314)` of the asset script. The model computes the last one with exact rationals, and the float result may be one pixel off at exact-ratio heights.
- CompletionRate: the percentage is rounded from the exact fraction. The page rounds the double `(done / total) * 100`, which can fall just below an exact half: for 23 done out of 40 the double gives 57 and the model 58.
- RoundPercent: the same exact rounding as CompletionRate, for the same reason.
- LoadPastHomework: each day's request is a function. A request that throws counts as an empty reply, and the UTC date string of each requested day is not modelled.
- Merged: undated assignments are sorted after the dated ones. JavaScript's comparator returns `NaN` for them, which leaves their place up to the engine.
- GroupedByDate: the `_no_date` group is placed after every dated group. The source's comparator gives `NaN` against it, so its place is up to the engine.
- ScheduleByDay: the day arrays that the source sorts and annotates in place (`column`, `totalColumns`, `groupId`) are rebuilt as new sequences, so aliasing with the fetched list is not modelled. A course's clock time and `toLocaleTimeString` text are parameters.
- FilteredStudents: the group select is the parsed id (`Choice<int>`); a select value that `parseInt` cannot read (`NaN`) is not modelled.
- TeacherDashboard.LoadEdData: the Supabase fallback after a failed École Directe load, and the 45-day window of the slot request (the slots are a parameter), are not modelled.
- TeacherClasses: the relogin modal, `handleCreateGroup` and the Supabase fallback list are not modelled.
- Presentation: JSX, CSS classes, tooltip positions, `toLocaleDateString` labels, the statistics tutorial's half-second `setTimeout` and its window listeners, and `downloadFile` on the homework page.
- EdApiInterceptor: `formatBytes`, the read-only `ED_EXPORT`/`ED_STATS`/`ED_ENDPOINTS`/`ED_SCHEMA` helpers and console output are not modelled. `Object.prototype` names used as endpoint keys are not modelled either. The header lines are given already split, and the `duration + 'ms'` text is kept as a number.
- DstBoardEditor: the plain setters of the tiers-temps caption, title and subtitle are not modelled.
- Pillow, ICO/BMP encoding and Lanczos resampling in the two asset scripts: the opened size and any exception message are parameters.

## Findings

| source | as written | input that shows it | evidently intended | confidence | as-written member | corrected member |
|---|---|---|---|---|---|---|
| src/api/realEcoleDirecte.js:1394 | the title pattern tries `Mr\.?` before `Mrs\.?`, so `Mrs` followed by a space loses only `Mr` | "Mrs Li" normalises to "S" | strip the whole title, giving "LI" | high, not executed | RealEcoleDirecte.MrsShadowed | RealEcoleDirecte.TitleStripped |
| src/services/teacherMatching.js:18 | the same pattern in `normalizeForMatching` | "Mrs Li" matches as "S LI" | "LI", the bare last name | high, not executed | TeacherMatching.MrsShadowedInMatching | TeacherMatching.NormalizeForMatching |
| src/services/teacherMatching.js:304-307 | stored subjects are objects and the new ones JSON text, so the `Set` never drops a repeat | a stored subject seen again is listed twice | each subject once, in order of first sighting | high, not executed | TeacherMatching.SubjectDuplicated | TeacherMatching.MergedSubjects |
| src/pages/SchedulePage.jsx:38-43 | the first key contained in the subject wins, and "PHYSIQUE" comes before "ED.PHYSIQUE" | "ED.PHYSIQUE & SPORT." is coloured cyan | red, as its own entry says | medium, not executed | SchedulePage.EdPhysiqueAsWritten | SchedulePage.EdPhysiqueIsRed |
| src/pages/SchedulePage.jsx:157 | `split(' ')[0]` is never empty for a timestamp, so the `'T'` split never runs | "2025-01-06T08:00" keeps its time as the day key | the date before the space or the 'T' | medium, not executed | SchedulePage.DayKeyAsWrittenKeepsTime | SchedulePage.DayKeyOfTimestamp |
