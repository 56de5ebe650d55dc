# Couples journal backend: a Dafny model

The system is a shared journal for couples. Users write dated journal
entries and moods and link with a partner through an invite code. The
relational variant inserts every entry as a new row, so a user may have
several on one day; the document variant keeps one journal and one mood
per user and day.
A language model turns the two partners' entries for a day into a "shared
reflection", either on request or in a nightly pass. A calendar shows a
month of entries, moods and reflections, and statistics report writing
streaks and the days both partners wrote.

The backend exists in two variants, and both are modelled:

- `backend/server.py` runs on a relational store.
  - **Modelled there:**
    - the streak computation;
    - the nightly reflection pass: pairing entries into couples, eligibility, the existence check, the count;
    - on-demand and backfilled reflections;
    - partner linking with re-sharing of existing entries;
    - read receipts;
    - partial entry updates;
    - audio upload names;
    - the month calendar.
  - **Files:**
    - `streaks.dfy` (module `Streaks`);
    - `couples.dfy` (`Couples`);
    - `helpers.dfy` (`Helpers`);
    - `calendar.dfy` (`MonthCalendar`);
    - `supabase.dfy` (`Supabase`), which holds the class `Tables` with one field per table.
- `backend/server_mongodb_backup.py` runs on a document store.
  - **Modelled there:**
    - registration;
    - partner linking;
    - the journal and mood upserts;
    - the month view grouped by date;
    - reflection generation;
    - statistics.
  - **File:** `mongo.dfy` (module `Mongo`), which holds the class `MongoDb` with one sequence per collection.

Shared pieces live in `common.dfy` (module `Common`) and `records.dfy`
(`Records`). `common.dfy` holds:

- options and results;
- error kinds;
- Python's string order and the sorted couple key;
- first-match lookup and filtering;
- `str.strip`.

**Tables and collections.** Each is a sequence in storage order, so that a
query's first row and an update's first match are the ones the server sees.
The relational reflections table is a map keyed by date and sorted user
pair. Every writer stores `user_ids` sorted, and the nightly existence
check looks a couple up by date and members. The on-demand upserts are
read as replacing the text under that key, which the source intends but
does not pin down (see `Supabase.Tables.ReflectOn` under "Left out").

**Values from outside.** Clock readings, generated uuids and the language
model's outcome arrive as parameters. The model's outcome is a reply
(whose content may be missing) or a failure. Store calls may fail in four
places only: the audio upload, the receipt insert, the streak query and
the nightly pass's per-couple calls, each with a parameter. Every other
store call is taken to succeed (see "Left out").

**Loops.** Loops in the source are loops here, each proved against a
specification function:

- the streak loops;
- the cron grouping and writing loops;
- the calendar day loop;
- the receipt loop;
- the reflection-partner lookup;
- the three month-view loops;
- the shared-day counter.

## Model

| member | source | states |
|---|---|---|
| Common.StrLtTrichotomy | backend/server.py:728 | The string order `sorted` uses is a strict total order on user ids |
| Common.CoupleKey | backend/server.py:728 | The couple key holds exactly the two ids, the smaller one first |
| Common.CoupleKeySymmetric | backend/server.py:728 | (A, B) and (B, A) give the same couple key |
| Common.CoupleKeyOfSorted | backend/server.py:737 | A key already sorted is its own couple key, so the cron pass's `(user1_id, user2_id)` is the stored key |
| Common.FirstMeaning | backend/server.py:448-454 | `next(...)` yields nothing exactly when no row matches, and otherwise the earliest matching row |
| Common.StripMeaning | backend/server.py:408 | The stripped reply is the reply minus leading and trailing whitespace, and it neither starts nor ends with whitespace |
| Common.StripIdempotent | backend/server.py:408 | Stripping a stripped text changes nothing |
| Streaks.SortDedup | backend/server.py:533 | `sorted(set(dates))` is ascending and has the same dates as the input |
| Streaks.AscendingUnique | backend/server.py:533 | Two ascending date lists with the same dates are equal, so the deduplicated list depends only on the set of dates |
| Streaks.AscendingCard | backend/server.py:533 | The deduplicated list has one position per distinct date |
| Streaks.CalculateStreaks | backend/server.py:521-565 | A failed query gives (0, 0); otherwise the result is the pair of the current and longest streak of the dates |
| Streaks.CurrentStreak | backend/server.py:541-550 | The backward loop computes the current streak: the run ending at the latest date if that is today or yesterday, else 0 |
| Streaks.LongestStreak | backend/server.py:552-560 | The forward loop, with the final `max`, computes the longest run of consecutive days |
| Streaks.StreaksIgnoreOrderAndDuplicates | backend/server.py:533 | The streaks depend neither on the order of the dates nor on duplicates |
| Streaks.RunBackIsMaximalRun | backend/server.py:546-550 | The run the backward loop counts is made of consecutive days present in the history, and the day before it is absent |
| Streaks.RunInBoundsRunBack | backend/server.py:546-550 | No run of present days ending at a date is longer than the counted run |
| Streaks.MaxRunFacts | backend/server.py:553-560 | The longest run bounds every counted run, is reached by one of them, and is at most the number of dates |
| Streaks.CurrentStreakMeaning | backend/server.py:542-550 | The current streak is 0 unless the latest date is today or yesterday; otherwise it is the maximal run ending at the latest date, hence at least 1 |
| Streaks.LongestStreakMeaning | backend/server.py:553-560 | For a non-empty history the longest streak lies between 1 and the number of distinct dates, and no run of present days is longer |
| Streaks.CurrentAtMostLongest | backend/server.py:542-560 | The current streak never exceeds the longest streak |
| Streaks.TwoRunsExample | backend/server.py:521-565 | A history with runs of 3 and 4 days, the second ending today, gives (4, 4) |
| Couples.LastFor | backend/server.py:722-733 | The entry kept for an author under a key is that author's last entry shared under the key, and none exists exactly when the author wrote none |
| Couples.GroupByCoupleMeaning | backend/server.py:721-733 | Entries with an empty `shared_with` are dropped; a group exists exactly when someone shared under its key; each author maps to their last entry under the key |
| Couples.GroupMembersAreKeyMembers | backend/server.py:726-733 | A group holds only the two members of its key |
| Couples.EligibleIffBothWrote | backend/server.py:738 | A group has two entries exactly when the key's two members are distinct and both shared under it; the lookups at lines 744-745 then succeed |
| Couples.GroupCouples | backend/server.py:721-733 | The grouping loop builds the couple map of the spec function `GroupByCouple` |
| Couples.SubsetCard | backend/server_mongodb_backup.py:375-381 | A subset is no larger than its superset, which bounds the shared-day count |
| Couples.LastBy | backend/server.py:355-359 | The row kept for a user is that user's last row of the day, and none exists exactly when the user wrote none |
| Couples.FindPairEntries | backend/server.py:352-362 | The lookup loop finds both entries exactly when both users wrote that day and the two ids differ (the `elif`); otherwise it gives the "both partners" error |
| Helpers.UpdateData | backend/server.py:244-248 | The update keeps exactly the given fields with their values, and refuses an update with none |
| Helpers.ApplyUpdate | backend/server.py:250 | An update changes the given fields and keeps the id, author, date, sharing and every other field |
| Helpers.ApplyUpdateOwnValues | backend/server.py:244-250 | Updating an entry with the values it holds leaves it unchanged |
| Helpers.AfterLastDot | backend/server.py:631 | The extension holds no dot and is what follows the last dot of the name |
| Helpers.Extension | backend/server.py:631 | The extension is what follows the last dot, or `mp3` for a name without a dot |
| Helpers.AudioFilename | backend/server.py:623-632 | Non-audio content types are refused; the stored name is `<user>/<uuid>.<extension>` |
| Helpers.GenerateAiReflection | backend/server.py:385-411 | A failed call or a reply without content gives the fixed fallback sentence; otherwise the stripped reply |
| Helpers.ReceiptsFor | backend/server.py:576-587 | Every receipt names the viewer as reader, an owner other than the viewer, and the entry type |
| Helpers.ReceiptsForExact | backend/server.py:576-587 | The receipts are exactly those of the rows owned by someone else, one per row, in row order |
| Helpers.ReceiptsForOrder | backend/server.py:577-587 | The receipt of a row owned by someone else comes right after the receipts of the rows before it |
| Helpers.ReceiptsForEmpty | backend/server.py:589 | There is nothing to insert exactly when the viewer owns every row |
| Helpers.BuildAccessLogs | backend/server.py:576-587 | The loop collects the receipts of the spec function `ReceiptsFor` |
| Supabase.OneReflectionPerCouple | backend/server.py:368 | With sorted keys, a stored reflection holding `a` and `b` is the one under `CoupleKey(a, b)`, in either argument order |
| Supabase.OnDate | backend/server.py:718 | The day's query returns exactly the rows of that date |
| Supabase.Chosen | backend/server.py:737-743 | A couple is written exactly when it is eligible, its store calls do not fail, and no reflection for it is stored that day |
| Supabase.CronCouples | backend/server.py:721-743 | The written couples are eligible, not failing and new; each is a sorted pair of two distinct users whose group holds exactly their entries |
| Supabase.GroupByCoupleHoldsBothMembers | backend/server.py:738-745 | Every eligible group holds an entry of each key member |
| Supabase.Writes | backend/server.py:744-757 | One reflection per written couple, keyed by the day and the pair, holding the text generated from the lower id's entry and then the higher id's |
| Supabase.CronRunAddsOnly | backend/server.py:737-758 | The pass only adds: stored reflections keep their text, the new keys are exactly the written couples, and the table grows by their number |
| Supabase.AddWrites | backend/server.py:741-757 | Inserting reflections for new sorted couples keeps the keys sorted and the old rows, and adds one row per couple |
| Supabase.CronRunIdempotent | backend/server.py:741-743 | A second pass over the same day writes nothing: the existence check makes the pass idempotent |
| Supabase.RunOnIdempotent | backend/server.py:741-743 | Over any grouping, after one pass no couple is chosen again and the table stays the same |
| Supabase.WriteStep | backend/server.py:737-758 | One turn of the loop picks exactly the chosen couples and keeps the loop invariant (table so far, count) |
| Supabase.WriteReflections | backend/server.py:736-758 | The writing loop returns `existing + Writes(Chosen ...)` and counts exactly the chosen couples |
| Supabase.WriteDone | backend/server.py:736-758 | When every couple is visited, the table is the old table plus the chosen reflections, and the count is their number |
| Supabase.SetPartner | backend/server.py:143-144 | Setting a partner keeps the number of profiles and every id, email and invite code |
| Supabase.LinkPartnersSymmetric | backend/server.py:139-144 | Linking two distinct users makes each name the other as partner and leaves every other profile unchanged |
| Supabase.LinkingKeepsFormerLinks | backend/server.py:142-144 | Linking does not unlink: any third profile that named the invited user as partner still names them, while the invited user now names the inviter, so that partnership is no longer mutual |
| Supabase.LinkingLeavesFormerPartner | backend/server.py:142-144 | A concrete instance: after `c` links with `a`, who was linked with `b`, `b` still names `a` while `a` names `c` |
| Supabase.ShareJournals | backend/server.py:158-161 | After linking, every journal entry of the user is shared with exactly the new partner; other entries are unchanged |
| Supabase.ShareMoods | backend/server.py:163-166 | After linking, every mood of the user is shared with exactly the new partner; other moods are unchanged |
| Supabase.SharedEntriesKeyedByCouple | backend/server.py:147 | After linking, the user's existing entries are grouped under the couple key of the two partners |
| Supabase.UpdateRows | backend/server.py:250 | The update touches only rows with that id and keeps the id, author, date and sharing of every row |
| Supabase.Tables.CronGenerateReflections | backend/server.py:704-764 | A missing, empty or wrong secret is refused; otherwise the table becomes `CronRun` of yesterday and the count is the number of written couples |
| Supabase.Tables.ReflectOn | backend/server.py:352-375 | With both users' entries the generated text is upserted under the sorted pair; otherwise the error changes nothing |
| Supabase.Tables.GenerateReflection | backend/server.py:333-383 | A missing profile or partner is an error; with a partner, a reflection is made exactly when caller and partner are distinct and both wrote that day, else the "both partners" error; its text is generated from their last entries and upserted under the sorted pair |
| Supabase.Tables.BackfillReflection | backend/server.py:769-812 | Any two distinct users who both wrote that day get the text generated from their last entries, upserted under their sorted pair, with no partnership check; otherwise the error changes nothing |
| Supabase.Tables.InvitePartner | backend/server.py:121-166 | An unknown code or the caller's own code is an error that changes nothing; a code of someone else always links both profiles and shares the caller's entries and moods with the partner |
| Supabase.Tables.LogEntryAccess | backend/server.py:571-594 | The receipts of rows owned by others are appended in order; an empty batch or a failed insert changes nothing |
| Supabase.Tables.UpdateJournalEntry | backend/server.py:234-258 | No field is an error; a missing id is an error; otherwise the update succeeds, the given fields of the rows with that id change and the first updated row is returned |
| Supabase.Tables.UploadAudio | backend/server.py:616-648 | Non-audio uploads and failed uploads store nothing; otherwise the upload succeeds and the file is stored under `<user>/<uuid>.<extension>` |
| Supabase.Tables.UserStreaks | backend/server.py:521-565 | Streaks of the caller's journal dates, or (0, 0) when the query fails |
| Supabase.DatesOf | backend/server.py:527 | The fetched dates are exactly the dates of the caller's entries |
| MonthCalendar.DaysInMonth | backend/server.py:433 | A month has 28 to 31 days |
| MonthCalendar.DaysBeforeMonth | backend/server.py:432 | At most 335 days precede the first of a month |
| MonthCalendar.LeapFebruary | backend/server.py:433 | February has 29 days exactly in leap years |
| MonthCalendar.MonthsFollowEachOther | backend/server.py:465 | The day after a month's last day is the first of the next month |
| MonthCalendar.YearsFollowEachOther | backend/server.py:465 | The day after December 31st is January 1st of the next year; a year has 366 days exactly when it is a leap year |
| MonthCalendar.YearLength | backend/server.py:465 | A year has 366 days exactly when it is a leap year |
| MonthCalendar.YearEndBound | backend/server.py:465 | Day numbers stay within 9999-12-31, which is reached only in year 9999 |
| MonthCalendar.MonthEndBound | backend/server.py:433-465 | A valid month ends on or before 9999-12-31, and on it only for December 9999 |
| MonthCalendar.Window | backend/server.py:436-438 | The month's query returns only rows dated inside the month |
| MonthCalendar.FirstInWindow | backend/server.py:436-454 | Looking a day up among the month's rows finds what looking it up among all rows would |
| MonthCalendar.DayRecordMeaning | backend/server.py:448-462 | A day's record holds the user's earliest entry and mood of that day, none exactly when there is none; the same for the partner when there is one, and no partner rows without one; and the day's earliest reflection of anyone |
| MonthCalendar.DayRecordWindow | backend/server.py:436-454 | A day of the month gets the same record from the month's rows as from all rows |
| MonthCalendar.MonthDaysMeaning | backend/server.py:441-465 | The month holds one record per day, the `i`-th being the record of day `first + i` |
| MonthCalendar.MonthDaysLength | backend/server.py:441-465 | The month holds as many records as days |
| MonthCalendar.GetCalendarData | backend/server.py:417-470 | Errors for a missing profile, an invalid month and December 9999; otherwise one record per day of the month, starting on day 1, as many as the month has days |
| MonthCalendar.WalkMonth | backend/server.py:441-465 | The day loop builds the records of `first..last`, and fails after the last record exactly when `last` is 9999-12-31 |
| Mongo.InviteCodeOf | backend/server_mongodb_backup.py:149 | An invite code is the first eight characters of the uuid text |
| Mongo.RegisterKeepsEmailsUnique | backend/server_mongodb_backup.py:139-155 | Inserting an account whose email nobody has keeps emails unique |
| Mongo.LinkFirst | backend/server_mongodb_backup.py:190-191 | An `update_one` keeps the number of documents and every id, email, invite code and name |
| Mongo.LinkFirstEffect | backend/server_mongodb_backup.py:190 | `update_one` changes the partner of the first document with that id and no other document |
| Mongo.LinkBothMeaning | backend/server_mongodb_backup.py:190-191 | After both updates, the first document of each user names the other as partner and every other document is unchanged |
| Mongo.UpsertJournalMeaning | backend/server_mongodb_backup.py:195-216 | One journal per user and date is kept; only content and mood of that document change; a document is appended exactly when none existed; it holds the submitted values |
| Mongo.UpsertJournalIdempotent | backend/server_mongodb_backup.py:195-216 | Submitting the same entry twice is the same as submitting it once |
| Mongo.UpsertMoodMeaning | backend/server_mongodb_backup.py:218-238 | One mood per user and date is kept; only the mood changes; a document is appended exactly when none existed |
| Mongo.FillKeepsSlots | backend/server_mongodb_backup.py:269-296 | Filling a day with a document of that day keeps every slot with a document of its owner and day |
| Mongo.PlaceKeepsShape | backend/server_mongodb_backup.py:270-296 | Placing a document keeps one day per date with well-filled slots, and adds its date |
| Mongo.PlaceAllShape | backend/server_mongodb_backup.py:266-296 | After placing documents, the days have distinct dates, well-filled slots, and exactly the documents' dates |
| Mongo.PlaceAllAppend | backend/server_mongodb_backup.py:266-296 | The three loops one after the other equal one pass over all documents |
| Mongo.CalendarViewMeaning | backend/server_mongodb_backup.py:240-298 | No partner gives an empty view; otherwise each date appears once, `my_*` slots hold only the user's documents of that day, `partner_*` slots only the partner's, and the dates are exactly those of the month's documents |
| Mongo.PlaceDayAt | backend/server_mongodb_backup.py:270-296 | Placing a document acts on `calendar_data[date]`: that day (or a new empty one) gets the document in its slot, and every other date keeps its day |
| Mongo.PlaceAllFilled | backend/server_mongodb_backup.py:269-296 | After the loops, the slot of every placed document is filled on the day of its date |
| Mongo.PlaceAllHolds | backend/server_mongodb_backup.py:269-296 | A placed document that no later document of the same date and slot replaces is what its slot holds at the end |
| Mongo.CalendarViewPlaces | backend/server_mongodb_backup.py:240-298 | Every journal entry, mood and reflection of the month fills its slot on its day, `my_*` for the user's own and `partner_*` for the partner's; with one journal and one mood per user and date, those slots hold exactly those documents |
| Mongo.MongoReflectionText | backend/server_mongodb_backup.py:325-348 | A failed call or a reply without content gives the fixed fallback sentence; otherwise the stripped reply |
| Mongo.FirstJournalKey | backend/server_mongodb_backup.py:310-311 | `find_one` by user and date finds a document exactly when the user wrote that day |
| Mongo.FirstCouple | backend/server_mongodb_backup.py:317-320 | `find_one` with `$all` finds a reflection exactly when one of that date names both users, in any order |
| Mongo.ReflectMeaning | backend/server_mongodb_backup.py:300-358 | No partner and a missing entry are errors that change nothing; an existing reflection naming both is returned unchanged; otherwise exactly one is appended |
| Mongo.ReflectFallback | backend/server_mongodb_backup.py:300-357 | When the model call fails for a user with a partner, both of whom wrote that day and who have no reflection for it yet, a reflection holding the fallback sentence is still saved |
| Mongo.ReflectIdempotent | backend/server_mongodb_backup.py:316-323 | Asking again for the same day returns the same reflection and stores nothing more |
| Mongo.DistinctDatesMeaning | backend/server_mongodb_backup.py:375 | The distinct dates hold each of the user's dates exactly once |
| Mongo.HasEntryDates | backend/server_mongodb_backup.py:379-380 | A partner's document on a date exists exactly when the date is one of the partner's dates |
| Mongo.SharedStep | backend/server_mongodb_backup.py:378-381 | Visiting a new date adds one to the count exactly when the partner wrote on it |
| Mongo.CountStep | backend/server_mongodb_backup.py:378-381 | One turn of the counting loop adds one exactly when the partner's lookup succeeds |
| Mongo.SharedDaysBound | backend/server_mongodb_backup.py:370-381 | The shared days are at most the user's distinct dates |
| Mongo.MongoDb.Register | backend/server_mongodb_backup.py:137-158 | A known email is refused and nothing is inserted; otherwise one account without partner and with an eight-character code cut from the 36-character uuid text is appended |
| Mongo.MongoDb.InvitePartner | backend/server_mongodb_backup.py:179-193 | An unknown code and the user's own code are errors that change nothing; a code of another user always links both users and returns the partner's name |
| Mongo.MongoDb.CreateJournalEntry | backend/server_mongodb_backup.py:195-216 | The journal collection becomes the upsert by user and date, and the returned document holds the submitted values |
| Mongo.MongoDb.CreateMoodEntry | backend/server_mongodb_backup.py:218-238 | The mood collection becomes the upsert by user and date, and the returned document holds the submitted mood |
| Mongo.MongoDb.GetCalendarData | backend/server_mongodb_backup.py:240-298 | The three loops return the month view `CalendarView` |
| Mongo.MongoDb.PlaceEach | backend/server_mongodb_backup.py:269-296 | Each loop places its documents one by one, as `PlaceAll` does |
| Mongo.MongoDb.CountShared | backend/server_mongodb_backup.py:378-381 | The counting loop counts the given dates on which the partner wrote |
| Mongo.MongoDb.GenerateReflection | backend/server_mongodb_backup.py:300-358 | The collection and the answer are those of `Reflect`, and no other collection changes |
| Mongo.MongoDb.GetStats | backend/server_mongodb_backup.py:360-390 | An unknown user is an error; otherwise the user's entry count, the reflections naming the user, the partner flag, and the number of the user's dates the partner also wrote on (0 without a partner, at most the user's dates) |

## Left out

- **Authentication.** JWT creation and decoding and bcrypt hashing are library calls. Handlers receive the caller's id. `backend/auth.py` is not part of this model apart from the profile lookup, which is `ProfileById`.
- **The store clients and row-level security.** The model lets every query see every row. One consequence: the relational calendar's reflection lookup takes the first reflection of the day whoever it belongs to, as the handler's query does not filter by user.
- **Prompt wording, model parameters and HTTP plumbing.** Routing, status codes and the wrapping of every error into a 400 are left out. The calendar's invalid month and its December 9999 overflow are distinct error kinds here, where the server gives both one 400.
- **Clock, uuids, storage and model outcomes.** `date.today()`, `uuid.uuid4()`, the storage upload's success and the language model's outcome are parameters.
- **Concurrency.** The race between an on-demand reflection and the nightly pass is left out.
- **Iteration order of the nightly pass.** `WriteReflections` visits couples in any order. The result does not depend on it, because each couple touches only its own key.
- **Other endpoints.** Out of scope:
  - entry creation and deletion in `backend/server.py`;
  - the entry and mood listings;
  - private notes;
  - the access-log listing;
  - `get_statistics` apart from its streaks;
  - Mongo login and `/me`.
- **Other files.** `backend/server_minimal.py`, `backend/models.py` (used only for the record shapes), `backend/supabase_client.py`, `backend/apply_migration.py` and `backend_test.py` are not part of this model.
- **Store calls taken to succeed.** Apart from the four places named above, no store call fails in the model. This covers the profile updates and re-sharing updates of the invite, and every call of the document-store variant.
- **Supabase.Tables.ReflectOn:** the `.upsert(reflection_dict)` of `generate_reflection` and `backfill_reflection` is modelled as replacing the text under (date, sorted pair). The source names no conflict target and passes no `id`, and the relational record has its own uuid `id`. So a second reflection for the same couple and day might add a row or be refused by a unique index. Because the table is a map, "at most one reflection per couple per day" holds by construction.
- **Supabase.Tables.GenerateReflection:** does not model the "Failed to save reflection" error when the upsert returns no rows. Nothing is saved in that case.
- **Supabase.Tables.BackfillReflection:** does not model the "Failed to save reflection" error when the upsert returns no rows, as for `generate_reflection`.
- **Supabase.Tables.CronGenerateReflections:** the day's journal query is taken to succeed. Its failure, which the server answers with a 500, is not modelled, so the only error is a refused secret.
- **Supabase.Tables.InvitePartner:** returns the partner's `full_name` (possibly absent). It does not model the fallback to the email when the column itself is missing from the row.
- **Mongo.CalendarViewMeaning:** the month filter `{"$regex": "^" + month}` is read as a literal prefix test. A month string holding regular-expression metacharacters is not modelled.
- **Mongo.MongoDb.Register:** returns the stored document. The access token and the removal of the password hash from the answer are not modelled.
- **Mongo.MongoDb.GetStats:** the order in which `distinct` returns the dates is taken as first-seen order. The count does not depend on it.
