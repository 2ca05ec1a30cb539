# Gym booking and credit ledger, modelled in Dafny

This project models the booking engine and credit ledger of a gym's backend (a FastAPI/SQLModel service).
The engine covers:

- **The store.** Users, gym classes, bookings, fixed schedules ("abonos fijos") and credit entries, held as `map`s
  keyed by id. The credit ledger is an append-only `seq<Credit>`. A single fresh-id counter stands in for `uuid4`.
- **The credit ledger.** Debits always count. A positive entry counts while `expires_at` is unset or later than
  `now`. The shown value is floored at zero. The admin user-detail view uses a different sum: positive, unexpired
  entries only.
- **The class catalog.** A single class or a 12-week series shares one fresh recurrence group. Only the first
  instance of a series has `recurrence`. Creation auto-books every active fixed schedule of a non-deleted user on
  the class's exact weekday and time. On a date in the holiday table, the rule's owner gets a +1 credit instead
  of a booking. Classes are cancelled softly. Cancelling a single class refunds its confirmed bookings; cancelling
  a series does not refund.
- **Booking admission.** The client `book_class` checks, in order: trial account, pause setting, missing class,
  class in the past, an existing confirmed row, balance, capacity. It then debits one credit. The admin
  `manual_book` resolves (or creates) a shadow user and checks capacity before duplicates. It never debits.
  Both reactivate a cancelled row rather than insert a second one.
- **Cancellation.**
  - A client cancellation refunds only before the window set by `cancel_minutes_before` (default 10 minutes).
  - An admin cancellation always refunds.
  - Disabling an account, or deleting one's own account, cancels the user's future confirmed bookings without a
    refund.
- **Fixed schedules.** Creating a rule reactivates a cancelled one or rejects an active duplicate. It then
  backfills the future classes that match the rule's weekday, hour and minute; there is no capacity check and no
  debit. Deleting a rule cancels the owner's confirmed bookings in future active classes at the rule's exact
  weekday and time, with one refund per cancelled booking.
- **Account merge.** When a profile update claims a DNI held by a LOCAL (shadow) account:
  - the shadow's bookings move to the user unless the user already has a row for that class;
  - every shadow credit entry moves to the user;
  - the shadow's fixed schedules move unless the user already holds that slot;
  - the trial flag and the medical certificate are carried over;
  - the shadow is deleted.
- **Settings.** `get_setting_int` and `get_setting_bool` are a lookup over a key→string map.

## Structure

- **Values.** `datatype`s model the entities and the enums (`Models`).
- **Time.** `Calendar` holds integer seconds since 1970-01-01, a weekday and a clock time, the day-name map and
  the holiday table.
- **Endpoints.** Each endpoint is a spec function `(Db, args) -> (Db, Result<T>)`:
  `Catalog`, `Admission`, `Cancellation`, `Schedules`, `Accounts`, `Profile`.
- **Imperative form.** The endpoints are methods on the mutable `Store.Database` class, with `modifies db`:
  `AdminEndpoints` and `ClientEndpoints`. Each one ensures that the new table contents and the result are the spec
  function applied to the old contents.
- **Loops.** The source's loops appear as `while` loops with invariants. They cover the series insert, the
  auto-booking, the class cancellation loop, the backfill, the release of a fixed schedule, the balance
  accumulators and the merge's three transfers. Each loop is proved against a fold function.
- **Proved properties.** The properties are proved about the spec functions. The main ones include:
  - each endpoint's error cases, and that every error leaves the tables unchanged;
  - each endpoint's exact effect;
  - every endpoint keeps the database invariant `Store.Valid`. This invariant is the uniqueness constraints of the
    models (one booking per (user, class), one fixed schedule per (user, day, time), unique e-mail, DNI and
    (provider, social_id)), plus references that resolve and ids that came from the counter;
  - ledger facts, for example that a merge preserves the multiset of credit amounts.

Where the code and its comments disagree, the model follows the code:

- `book_class` accepts a cancelled class and rejects only `start_time < now`.
- Holiday instances never get `cancelled_at`.
- The backfill compares only hour and minute and includes cancelled classes.
- The auto-booking and the fixed-schedule cancellation compare the exact time.
- The duplicate checks match a row of any status.

## Model

| member | source | states |
|---|---|---|
| Text.Strip | backend/app/api/clientEP.py:173-186 | The result has no leading or trailing Python whitespace, and is the input with exactly those runs removed. It is empty iff the input is all whitespace. |
| Text.StripTrimmed | backend/app/api/clientEP.py:184-188 | Stripping an already trimmed string returns it unchanged. |
| Text.ParseIntToString | backend/app/utils.py:19-20 | `int()` of the decimal text of any integer, negatives included, gives that integer back. |
| Utils.Lower | backend/app/utils.py:34 | ASCII lower-casing keeps the length and every character that is not an upper-case letter. |
| Utils.AbsentKeyGivesDefault | backend/app/utils.py:17-18 | A missing key makes both readers return their default. |
| Utils.StoredIntReadsBack | backend/app/utils.py:19-20 | A stored integer literal reads back as that integer. |
| Utils.NonNumericGivesDefault | backend/app/utils.py:19-22 | A value with no digit at all is not an integer literal, so the reader returns the default. |
| Utils.BoolIsCaseInsensitiveTrue | backend/app/utils.py:32-34 | A present value reads true iff it is "true" in any mix of letter cases. |
| Utils.BoolExamples | backend/app/utils.py:34 | "True" reads true; "1" and "yes" read false. |
| Calendar.Weekday | backend/app/api/adminEP.py:180 | `weekday()` is in 0..6. |
| Calendar.Hour | backend/app/api/adminEP.py:617 | The hour of a clock time is in 0..23. |
| Calendar.Minute | backend/app/api/adminEP.py:617 | The minute of a clock time is in 0..59. |
| Calendar.DayMapsInverse | backend/app/api/adminEP.py:70-78 | `INT_TO_DAY_MAP` and the reverse weekday map used by the backfill are inverse bijections between 0..6 and the day enum. |
| Calendar.DayOfMatches | backend/app/api/adminEP.py:677-681 | Comparing a class's mapped day with a rule's day is the same as comparing weekday numbers. |
| Calendar.WeeksLater | backend/app/api/adminEP.py:156-169 | Adding k weeks moves the date by 7k days and keeps the weekday and the time of day. |
| Calendar.CivilAnchors | backend/app/api/adminEP.py:81-83 | The day numbering puts 1970-01-01 at 0; 2026-01-01 is a Thursday and 2026-10-12 a Monday. |
| Calendar.HolidayDates2026 | backend/app/api/adminEP.py:82-97 | Each 2026 entry of the holiday table is the day number of that calendar date. |
| Calendar.HolidayDates2027 | backend/app/api/adminEP.py:98-110 | Each 2027 entry of the holiday table is the day number of that calendar date. |
| Calendar.HolidayExamples | backend/app/api/adminEP.py:184-186 | Every instant of 2026-10-12 falls on a holiday and the following day does not. |
| Ledger.Displayed | backend/app/api/clientEP.py:150 | The shown credits are non-negative, at least the balance, and equal to the balance or zero. |
| Ledger.AvailableCredits | backend/app/api/clientEP.py:118-125 | The accumulator loop computes the balance: all debits plus the unexpired positive entries of the user. |
| Ledger.PositiveCredits | backend/app/api/adminEP.py:869-873 | The summing loop computes the user-detail sum: positive unexpired entries only. |
| Ledger.BalanceAppend | backend/app/api/clientEP.py:118-125 | The balance of two concatenated ledgers is the sum of their balances. |
| Ledger.DebitLowersByOne | backend/app/api/clientEP.py:626-627 | Appending a −1 entry lowers its owner's balance by one and leaves every other balance alone. |
| Ledger.RefundRaisesByOne | backend/app/api/clientEP.py:742-743 | Appending a +1 entry raises its owner's balance by one and leaves every other balance alone. |
| Ledger.BalanceNonIncreasingInTime | backend/app/api/clientEP.py:121-125 | With entries fixed, the balance can only fall as time passes, since positive entries expire. |
| Ledger.PositiveBoundsDisplayed | backend/app/api/adminEP.py:869-877 | The positive-only sum is non-negative and never below the shown balance. |
| Ledger.PositiveEqualsBalanceWithoutDebits | backend/app/api/adminEP.py:869-873 | On a ledger with no negative entries the two sums agree. |
| Ledger.VariantsDiffer | backend/app/api/adminEP.py:869-873 | On a ledger with one +1 and two −1 entries, the client shows 0 and the admin detail shows 1. |
| Ledger.Reassign | backend/app/api/clientEP.py:221-226 | Reassignment keeps the ledger's length and changes the owner of exactly the shadow's entries. |
| Ledger.ReassignBalances | backend/app/api/clientEP.py:221-226 | After reassignment the target's balance is the sum of both balances, the shadow's is 0, and every other user's is unchanged. |
| Ledger.ReassignKeepsAmounts | backend/app/api/clientEP.py:221-226 | Reassignment preserves the total and the multiset of amounts. |
| Store.RowFor | backend/app/api/clientEP.py:576-580 | The lookup finds a row of that user and class, or proves none exists. |
| Store.ScheduleFor | backend/app/api/adminEP.py:565-571 | The lookup finds the user's rule for that day and time, or proves none exists. |
| Store.UserByDni | backend/app/api/adminEP.py:377-378 | The lookup finds a user with that DNI, or proves none exists. |
| Store.UserByEmail | backend/app/api/adminEP.py:382-386 | The lookup finds a user with that e-mail, or proves none exists. |
| Store.ConfirmedOn | backend/app/api/adminEP.py:489-493 | It lists exactly the CONFIRMED bookings of the class, in ascending id order. |
| Store.FutureConfirmedOf | backend/app/api/clientEP.py:324-333 | It lists exactly the user's CONFIRMED bookings in classes that start after `now`. |
| Store.UpdateUserKeepsValid | backend/app/models.py:46-54 | Rewriting a user without a clash on e-mail, DNI or (provider, social_id) keeps every invariant. |
| Shadows.AddShadow | backend/app/api/adminEP.py:393-410 | A shadow insert either fails on a unique column with nothing changed, or adds the shadow under a fresh id. |
| Shadows.ResolveForBookingShape | backend/app/api/adminEP.py:369-413 | `manual_book`'s user resolution either changes nothing, or commits exactly one new shadow user. |
| Shadows.ResolveForScheduleShape | backend/app/api/adminEP.py:533-562 | The same holds for `add_fixed_schedule`'s resolution. |
| Shadows.ResolveReusesDni | backend/app/api/adminEP.py:374-378 | An existing holder of the DNI is reused by both resolutions, with nothing created. |
| Shadows.ResolveCreatesShadow | backend/app/api/adminEP.py:381-410 | An unknown DNI with a name creates a LOCAL, non-login user. Its e-mail is `<dni>@local.placeholder`, its social id is `local_<dni>`, it has the requested trial flag, and bookings, credits and classes stay as they were. |
| Shadows.AddShadowKeepsValid | backend/app/models.py:46-54 | Shadow creation keeps every invariant. |
| Shadows.ResolveForBookingKeepsValid | backend/app/api/adminEP.py:369-413 | `manual_book`'s resolution keeps every invariant. |
| Shadows.ResolveForScheduleKeepsValid | backend/app/api/adminEP.py:533-562 | `add_fixed_schedule`'s resolution keeps every invariant. |
| Effects.CancelAll | backend/app/api/clientEP.py:335-338 | Exactly the listed bookings become CANCELLED with `cancelled_at = now`; the others stay. |
| Effects.Refunds | backend/app/api/adminEP.py:500-503 | One +1 entry per listed owner, in order. |
| Effects.BalanceAfterRefunds | backend/app/api/adminEP.py:500-503 | Refunds raise each user's balance by the number of times that user is listed. |
| Effects.CancelAllKeepsValid | backend/app/models.py:121-124 | Cancelling bookings keeps every invariant. |
| Effects.InsertBooking | backend/app/api/clientEP.py:619-624 | An insert adds the row under the next id and changes no other table. |
| Effects.InsertBookingKeepsValid | backend/app/models.py:121-124 | Inserting a row for a (user, class) pair that has none keeps every invariant. |
| Effects.ConfirmedCountUp | backend/app/api/clientEP.py:614-624 | Confirming a row that was not CONFIRMED raises the class's confirmed count by one. |
| Effects.ConfirmedCountDown | backend/app/api/clientEP.py:751-752 | Cancelling a CONFIRMED row lowers the class's confirmed count by one. |
| Effects.CancelBookings | backend/app/api/adminEP.py:494-503 | The cancellation loop cancels the listed bookings, appends one refund per booking iff asked to, and reports the number refunded. |
| Catalog.InsertInstances | backend/app/api/adminEP.py:156-169 | Inserting instances changes only the class table and the counter, by the number of instances. |
| Catalog.MatchingSchedules | backend/app/api/adminEP.py:192-202 | It lists exactly the active rules of non-deleted users on the class's exact weekday and time. |
| Catalog.AutoBookAll | backend/app/api/adminEP.py:179-235 | The auto-booking never touches users, classes or rules. |
| Catalog.SeriesTargets | backend/app/api/adminEP.py:470-478 | It lists exactly the group's classes that start after `now` and are not cancelled. |
| Catalog.CancelClass | backend/app/api/adminEP.py:483-503 | A class cancellation keeps users, rules and ids, and only appends to the ledger. |
| Catalog.CancelClasses | backend/app/api/adminEP.py:482-503 | The same holds over all the targets. |
| CatalogFacts.CreateSeriesShape | backend/app/api/adminEP.py:152-169 | An accepted request returns the first new id, and instance i is stored under the i-th following id. |
| CatalogFacts.InstanceFields | backend/app/api/adminEP.py:156-166 | Instance i starts i weeks after the first, on the same weekday and time. It carries the group, the requested name and slots, and is not cancelled. Only instance 0 has `recurrence`. |
| CatalogFacts.SeriesGroupFresh | backend/app/api/adminEP.py:152-153 | A series gets a group no stored class uses; a single class has no group. |
| CatalogFacts.CreateClassesExactly | backend/app/api/adminEP.py:153-171 | Creation adds exactly 12 instances (a series) or 1 instance (single), and leaves every old class unchanged. |
| CatalogFacts.CreateRejectsPast | backend/app/api/adminEP.py:130-134 | A start not after `now` is rejected, iff that holds, and nothing changes. |
| CatalogFacts.AutoBookWorkdayKeeps | backend/app/api/adminEP.py:219-235 | Booking a non-holiday class keeps every stored row. |
| CatalogFacts.AutoBookWorkdayNew | backend/app/api/adminEP.py:219-235 | Each row it adds is a fresh CONFIRMED booking of a listed rule's owner. |
| CatalogFacts.AutoBookWorkdayCovers | backend/app/api/adminEP.py:219-235 | Afterwards, every listed owner has a row of some status in the class. |
| CatalogFacts.AutoBookClassKeeps | backend/app/api/adminEP.py:205-235 | One class's pass keeps every stored row and appends only +1 entries; on a holiday it adds no row. |
| CatalogFacts.AutoBookClassNew | backend/app/api/adminEP.py:205-235 | A row one class's pass adds is a fresh CONFIRMED booking of a listed rule's owner, on a working day only. |
| CatalogFacts.AutoBookAllKeeps | backend/app/api/adminEP.py:179-235 | Auto-booking keeps every stored row and appends only +1 entries. |
| CatalogFacts.AutoBookAllNew | backend/app/api/adminEP.py:179-235 | Every added row is a fresh CONFIRMED booking, on a listed non-holiday class, for the owner of a rule matching it. |
| CatalogFacts.AutoBookAllCovers | backend/app/api/adminEP.py:179-235 | On every listed non-holiday class, the owner of every matching rule has a row. |
| CatalogFacts.AutoBookStepLedger | backend/app/api/adminEP.py:205-217 | On a holiday a class's pass appends one +1 per matching rule's owner and adds no row. Otherwise it appends nothing. |
| CatalogFacts.CreateNeverDebits | backend/app/api/adminEP.py:175-238 | Creation keeps stored bookings, appends only +1 entries, and never lowers a balance. |
| CatalogFacts.CreateBookingsSound | backend/app/api/adminEP.py:179-235 | Each booking creation adds is a fresh CONFIRMED row, on a new non-holiday instance, for the owner of a matching rule. |
| CatalogFacts.CreateBookingsCover | backend/app/api/adminEP.py:179-235 | Each new non-holiday instance has a row for the owner of every rule matching it. |
| CatalogFacts.CancelClassEffect | backend/app/api/adminEP.py:483-503 | One target is stamped and its CONFIRMED bookings are cancelled. The ledger gains one +1 per such booking iff refunds are on. |
| CatalogFacts.CancelClassesStamps | backend/app/api/adminEP.py:482-486 | The loop stamps every target with `now` and no other class. |
| CatalogFacts.CancelClassesCancels | backend/app/api/adminEP.py:489-497 | The loop cancels exactly the CONFIRMED bookings on the targets. |
| CatalogFacts.CancelClassesNoRefund | backend/app/api/adminEP.py:500 | Without refunds the ledger is unchanged. |
| CatalogFacts.DeleteRejects | backend/app/api/adminEP.py:461-465 | An unknown class, or one already cancelled, is rejected iff that holds, and nothing changes. |
| CatalogFacts.DeleteEffect | backend/app/api/adminEP.py:467-510 | An accepted deletion stamps the targets and cancels their CONFIRMED bookings. A series deletion leaves the ledger unchanged. It reports the number of targets. |
| CatalogFacts.DeleteTargets | backend/app/api/adminEP.py:468-478 | The targets are the class alone, or, for a series deletion of a grouped class, the group's future active members. |
| CatalogFacts.DeleteSingleRefunds | backend/app/api/adminEP.py:480-510 | A single deletion refunds each CONFIRMED booking once to its owner, and reports (1, number refunded). |
| CatalogFacts.UpdateEffect | backend/app/api/adminEP.py:267-291 | An unknown class, then an instructor not registered as active, is rejected iff so, without change. Otherwise only that class changes: each sent field is written, every other field is kept. |
| CatalogFacts.UpdateGymClassKeepsValid | backend/app/api/adminEP.py:259-291 | update_gym_class keeps every invariant. |
| CatalogFacts.InsertInstancesKeepsValid | backend/app/api/adminEP.py:152-171 | Inserting the instances under fresh ids, with a fresh group, keeps every invariant. |
| CatalogFacts.AutoBookAllKeepsValid | backend/app/api/adminEP.py:179-235 | The auto-booking keeps every invariant, one row per (user, class) included. |
| CatalogFacts.CreateGymClassKeepsValid | backend/app/api/adminEP.py:117-238 | create_gym_class keeps every invariant. |
| CatalogFacts.CancelClassKeepsValid | backend/app/api/adminEP.py:483-503 | Cancelling one target, with or without refunds, keeps every invariant. |
| CatalogFacts.DeleteGymClassKeepsValid | backend/app/api/adminEP.py:452-510 | delete_gym_class keeps every invariant. |
| Admission.ManualAdmit | backend/app/api/adminEP.py:415-448 | Admission after resolution never touches credits, users or classes; a rejection changes nothing. |
| Admission.BookClassRejections | backend/app/api/clientEP.py:557-573 | book_class rejects for a trial account, then paused reservations, then a missing class, then a class in the past, each iff the earlier checks pass and its own fails. Every rejection changes nothing. |
| Admission.BookClassLaterRejections | backend/app/api/clientEP.py:576-611 | After those checks: an existing CONFIRMED row, a balance below 1 and a full class reject in that order, each iff; otherwise it succeeds. |
| Admission.AdmitLeavesOneRow | backend/app/api/clientEP.py:614-624 | Admission leaves exactly one row for (user, class): CONFIRMED and not cancelled. An existing row is reactivated in place and no id is spent; every other row is kept. |
| Admission.AdmitCounts | backend/app/api/clientEP.py:605-624 | Admitting into a class where the user holds no CONFIRMED row raises its confirmed count by one. |
| Admission.BookClassSucceeds | backend/app/api/clientEP.py:605-628 | A successful booking leaves one CONFIRMED row for (user, class) and adds no row when one existed. It appends exactly one −1 entry and lowers the balance by one. The confirmed count goes up by one and stays within `max_slots`. |
| Admission.AdmitKeepsValid | backend/app/models.py:121-124 | Admission keeps every invariant, the one-row-per-(user, class) constraint included. |
| Admission.BookClassKeepsValid | backend/app/api/clientEP.py:541-630 | book_class keeps every invariant. |
| Admission.ManualBookKeepsValid | backend/app/api/adminEP.py:348-448 | manual_book keeps every invariant. |
| Admission.ManualBookNoDebit | backend/app/api/adminEP.py:362-448 | manual_book never changes the ledger or the classes, and a rejection adds no booking. A missing class is rejected iff it is missing. |
| Admission.ManualBookCapacityFirst | backend/app/api/adminEP.py:416-432 | A full class is rejected before the duplicate check, whatever row the user has. |
| Admission.ManualAdmitCases | backend/app/api/adminEP.py:425-446 | With room left: a CONFIRMED row rejects without change; a cancelled row is reactivated in place; otherwise one new CONFIRMED row is inserted. |
| Admission.ShadowSurvivesRejection | backend/app/api/adminEP.py:402-422 | A shadow created for a full class stays committed although the booking is refused. |
| Admission.ManualBookSucceeds | backend/app/api/adminEP.py:415-448 | A successful manual booking leaves a CONFIRMED row for the resolved user. The confirmed count goes up by one and stays within `max_slots`. |
| Cancellation.CancelBookingRejections | backend/app/api/clientEP.py:715-730 | cancel_booking rejects a trial user, then a missing or foreign booking, then a non-CONFIRMED one, then a started class, each iff. No rejection changes anything. |
| Cancellation.CancelBookingEffect | backend/app/api/clientEP.py:733-753 | An accepted cancellation cancels the booking with `now`. It refunds +1 iff `now` is before start minus the window, and the balance and confirmed count move accordingly. Users, classes and rules are unchanged. |
| Cancellation.DefaultWindow | backend/app/api/clientEP.py:733-734 | Without the setting the window is 10 minutes. |
| Cancellation.CancelBookingKeepsValid | backend/app/api/clientEP.py:702-760 | cancel_booking keeps every invariant. |
| Cancellation.AdminCancelEffect | backend/app/api/adminEP.py:995-1014 | admin_cancel_booking rejects a missing or non-CONFIRMED booking, each iff, without change. Otherwise it cancels the booking and always appends +1 for its owner. |
| Cancellation.AdminCancelKeepsValid | backend/app/api/adminEP.py:995-1014 | admin_cancel_booking keeps every invariant. |
| Cancellation.CancelFutureEffect | backend/app/api/adminEP.py:899-915 | Exactly the user's CONFIRMED bookings in classes after `now` are cancelled; every other row stays. |
| Cancellation.CancelFutureClears | backend/app/api/clientEP.py:323-338 | Afterwards the user holds no CONFIRMED booking in a future class. |
| Cancellation.ToggleEffect | backend/app/api/adminEP.py:891-921 | An unknown user is rejected iff unknown. Otherwise the flag flips; disabling cancels the future bookings, enabling touches none, and the ledger never changes. |
| Cancellation.ToggleTwiceRestoresUser | backend/app/api/adminEP.py:895-896 | Toggling twice restores the user table. |
| Cancellation.CancelFutureKeepsValid | backend/app/api/clientEP.py:323-338 | Cancelling future bookings keeps every invariant. |
| Cancellation.ToggleKeepsValid | backend/app/api/adminEP.py:883-921 | toggle_user_disabled keeps every invariant. |
| Cancellation.DeleteMyAccountEffect | backend/app/api/clientEP.py:304-350 | The user is anonymised: deleted, disabled, no DNI, phone or certificate, the fixed name, and the `deleted_<id>_<ts>` e-mail. Exactly the user's future CONFIRMED bookings are cancelled and the ledger is unchanged. A commit failure changes nothing. |
| Cancellation.DeleteMyAccountKeepsValid | backend/app/api/clientEP.py:304-345 | delete_my_account keeps every invariant. |
| Schedules.FutureClasses | backend/app/api/adminEP.py:608-610 | It lists exactly the classes starting after `now`, cancelled ones included. |
| Schedules.BackfillEffect | backend/app/api/adminEP.py:613-636 | The backfill loop keeps every stored row. It adds only CONFIRMED rows of the user in listed matching classes, and reaches every listed matching class. |
| Schedules.AddFixedScheduleRejections | backend/app/api/adminEP.py:530-584 | Resolution errors change nothing. An active duplicate rule is rejected iff it exists, but a shadow already committed stays. The ledger and the classes never change. |
| Schedules.PlaceRuleEffect | backend/app/api/adminEP.py:565-593 | The placed rule is active for (user, day, time). It is either a cancelled rule reactivated in place or a new rule under a fresh id, and other rules stay. |
| Schedules.AddFixedScheduleResolves | backend/app/api/adminEP.py:530-593 | A success is placement plus backfill on the resolved state, which has the same bookings, classes and ledger. |
| Schedules.PlaceAndBackfillRule | backend/app/api/adminEP.py:565-636 | After success the rule is active, the ledger is unchanged, and every stored booking is kept. |
| Schedules.PlaceAndBackfillRows | backend/app/api/adminEP.py:608-636 | Every future class on the rule's weekday, hour and minute has a row of the user, full or cancelled classes alike. Each new row is a CONFIRMED booking in such a class, and `booked` counts the new rows. |
| Schedules.BackfillCoarserThanExact | backend/app/api/adminEP.py:614-617 | An exact weekday and time match implies the backfill's hour:minute match. |
| Schedules.ActiveFutureClasses | backend/app/api/adminEP.py:666-670 | It lists exactly the classes starting after `now` that are not cancelled. |
| Schedules.ConfirmedRowFor | backend/app/api/adminEP.py:685-691 | The lookup finds the owner's CONFIRMED row in the class, or proves none exists. |
| Schedules.ReleaseAllEffect | backend/app/api/adminEP.py:675-702 | The release loop cancels exactly the owner's CONFIRMED rows in listed exactly-matching classes. It appends only +1 entries to the owner, one per cancelled booking: the ledger grows by the size of the released set. |
| Schedules.ReleaseAllRows | backend/app/api/adminEP.py:675-702 | The release loop cancels exactly the owner's CONFIRMED rows in listed exactly-matching classes, keeps every other row, and appends only +1 entries to the owner. |
| Schedules.ReleaseAllCount | backend/app/api/adminEP.py:685-702 | The number of entries the release loop appends equals the number of bookings it releases. |
| Schedules.DeleteFixedScheduleRejections | backend/app/api/adminEP.py:652-656 | An unknown or already cancelled rule is rejected iff so, without change; otherwise the call succeeds. |
| Schedules.TargetsReleased | backend/app/api/adminEP.py:666-691 | Over the active future classes, the released bookings are exactly the owner's CONFIRMED rows at the rule's exact slot. |
| Schedules.DeleteFixedScheduleEffect | backend/app/api/adminEP.py:652-709 | The rule is stamped, exactly those target bookings are cancelled, and the ledger gains only +1 entries to the owner, one per target booking. Both reported counts are the number of target bookings. |
| Schedules.DeleteFixedScheduleBalance | backend/app/api/adminEP.py:693-709 | The owner's balance rises by the reported refund count, which is the number of cancelled bookings. |
| Schedules.PlaceRuleKeepsValid | backend/app/models.py:144-147 | Reactivating or adding a rule for an existing user keeps every invariant, one rule per (user, day, time) included. |
| Schedules.BackfillKeepsValid | backend/app/api/adminEP.py:608-636 | The backfill keeps every invariant. |
| Schedules.AddFixedScheduleKeepsValid | backend/app/api/adminEP.py:515-640 | add_fixed_schedule keeps every invariant. |
| Schedules.DeleteFixedScheduleKeepsValid | backend/app/api/adminEP.py:644-709 | delete_fixed_schedule keeps every invariant. |
| Accounts.CreateUserEffect | backend/app/api/adminEP.py:1107-1123 | The call is rejected iff some user holds the DNI, and the rejection changes nothing. Otherwise one LOCAL non-admin user is added under a fresh id, with the placeholder e-mail and `local_` social id; nothing else changes. |
| Accounts.CreateUserKeepsValid | backend/app/models.py:46-54 | create_user keeps every invariant; a clash on a unique column is an IntegrityError with no change. |
| Accounts.AddUserCreditsEffect | backend/app/api/adminEP.py:1166-1183 | An unknown user is rejected iff unknown. Otherwise exactly one entry with the signed amount and expiry is appended. The user's balance moves by the amount when it counts, and every other balance is unchanged. |
| Accounts.AddUserCreditsKeepsValid | backend/app/api/adminEP.py:1166-1183 | add_user_credits keeps every invariant. |
| Profile.HolderOf | backend/app/api/clientEP.py:191-193 | It finds another user holding the DNI, or proves none exists. |
| Profile.Edited | backend/app/api/clientEP.py:172-180 | Name and phone get their stripped values. An empty phone clears the field and an absent one keeps it. The identity columns, trial flag and certificate are kept. |
| Profile.BookingsOf | backend/app/api/clientEP.py:199-201 | It lists exactly the shadow's bookings. |
| Profile.SchedulesOf | backend/app/api/clientEP.py:229-233 | It lists exactly the shadow's fixed schedules. |
| Profile.MoveShadowBookings | backend/app/api/clientEP.py:199-218 | The booking transfer loop computes the fold over the shadow's bookings: delete on a duplicate, reassign otherwise. |
| Profile.MoveShadowCredits | backend/app/api/clientEP.py:221-226 | The credit transfer loop reassigns every shadow entry. |
| Profile.MoveShadowSchedules | backend/app/api/clientEP.py:229-249 | The schedule transfer loop computes the fold over the shadow's rules. |
| Profile.MergeShadow | backend/app/api/clientEP.py:197-266 | The merge's three loops and final steps compute the merge. |
| Profile.MoveBookingsFollowRule | backend/app/api/clientEP.py:202-218 | Each processed shadow booking follows the rule, judged against the original rows. |
| Profile.MoveBookingsMerged | backend/app/api/clientEP.py:199-218 | Under the invariants, the in-order transfer equals the order-free rule: dropped iff the user has a row for the class. |
| Profile.MoveSchedulesFollowRule | backend/app/api/clientEP.py:234-249 | Each processed shadow rule follows the rule, judged against the original rows. |
| Profile.MoveSchedulesMerged | backend/app/api/clientEP.py:229-249 | Under the invariants, the in-order transfer equals the order-free rule: dropped iff the user holds the slot. |
| Profile.MergeFollowsRules | backend/app/api/clientEP.py:197-250 | The merged bookings and schedules are the order-free results. |
| Profile.MergedBookingsEffect | backend/app/api/clientEP.py:199-218 | Non-shadow rows stay. A shadow row survives iff the user has no row for its class, and then belongs to the user. The shadow owns nothing afterwards. |
| Profile.MergedSchedulesEffect | backend/app/api/clientEP.py:229-249 | Non-shadow rules stay. A shadow rule survives iff the user has no rule at that day and time, and then belongs to the user. |
| Profile.MergeKeepsCredits | backend/app/api/clientEP.py:221-226 | The merge keeps the ledger's length, multiset of amounts and total. The user's balance becomes the sum of both, the shadow's becomes 0, and every other balance is unchanged. |
| Profile.MergeUsers | backend/app/api/clientEP.py:252-269 | The shadow is deleted and the user takes the DNI. The user is trial iff either account was, and takes the shadow's certificate only when it has none. All other users are unchanged. |
| Profile.UpdateProfileRejections | backend/app/api/clientEP.py:172-188 | An empty name, an empty DNI, a non-numeric DNI and no field at all are rejected, each iff, and without change. |
| Profile.ApplyDniOutcomes | backend/app/api/clientEP.py:191-279 | The DNI step is rejected as taken iff a non-LOCAL account holds the DNI; every rejection changes nothing. |
| Profile.UpdateProfileDniTaken | backend/app/api/clientEP.py:271-275 | update_profile refuses a DNI iff the earlier checks pass and a non-LOCAL account holds it, without change. |
| Profile.UpdateProfileNoClash | backend/app/api/clientEP.py:262-286 | On a valid database update_profile never fails at commit: the shadow is gone before its DNI is taken. |
| Profile.UpdateProfileMerges | backend/app/api/clientEP.py:195-270 | A DNI held by a LOCAL account merges that account into the edited user. |
| Profile.UpdateProfileAssigns | backend/app/api/clientEP.py:276-279 | A free DNI is assigned with the edits, and no other table changes. |
| Profile.MergedBookingsUnique | backend/app/models.py:121-124 | The merged bookings still hold one row per (user, class). |
| Profile.MergedSchedulesUnique | backend/app/models.py:144-147 | The merged rules still hold one rule per (user, day, time). |
| Profile.MergeKeepsValid | backend/app/api/clientEP.py:197-266 | The merge keeps every invariant. |
| Profile.UpdateProfileKeepsValid | backend/app/api/clientEP.py:155-287 | update_profile keeps every invariant. |
| Views.Slots | backend/app/api/clientEP.py:511-526 | The confirmed count is the class's CONFIRMED rows; available plus confirmed is `max_slots`; full iff confirmed ≥ `max_slots`; mine iff the user holds a CONFIRMED row. |
| Views.ShownCredits | backend/app/api/clientEP.py:150 | Shown credits are non-negative, at least the balance, and equal to it when it is not negative. |
| Views.FullMeansBookingRefused | backend/app/api/clientEP.py:605-611 | When all earlier checks pass, booking is refused as full iff the grid shows the class as full. |
| Views.MineMeansAlreadyBooked | backend/app/api/clientEP.py:576-582 | After the first four checks, booking is refused as already booked iff the grid shows the class as mine. |
| Views.CanCancelMeansAccepted | backend/app/api/clientEP.py:673-675 | For an owned booking of a non-trial user, `can_cancel` holds iff cancel_booking accepts. |
| AdminEndpoints.CreateGymClass | backend/app/api/adminEP.py:130-238 | The endpoint's new tables and result are `create_gym_class` of the old tables. |
| AdminEndpoints.InsertSeries | backend/app/api/adminEP.py:152-169 | The series loop inserts the instances under consecutive ids and returns those ids. |
| AdminEndpoints.AutoBookCreated | backend/app/api/adminEP.py:179-235 | The loop over the created classes computes the auto-booking. |
| AdminEndpoints.AutoBookSchedules | backend/app/api/adminEP.py:205-235 | The loop over one class's matching rules computes that class's pass. |
| AdminEndpoints.AutoBookRule | backend/app/api/adminEP.py:205-235 | One pass of the rule loop extends the fold by that rule: a +1 entry on a holiday, else a booking unless a row exists. |
| AdminEndpoints.UpdateGymClass | backend/app/api/adminEP.py:267-291 | The endpoint follows `update_gym_class`: an unknown class or inactive instructor is rejected, otherwise the sent fields are patched. |
| AdminEndpoints.DeleteGymClass | backend/app/api/adminEP.py:461-510 | The endpoint's new tables and result are `delete_gym_class` of the old tables. |
| AdminEndpoints.CancelEach | backend/app/api/adminEP.py:480-503 | The target loop computes the cancellation and counts the refunds appended. |
| AdminEndpoints.CancelOneClass | backend/app/api/adminEP.py:483-503 | One class of the deletion loop is cancelled as the specification says, and `refunded` counts the entries appended. |
| AdminEndpoints.ManualBook | backend/app/api/adminEP.py:362-448 | The endpoint's new tables and result are `manual_book` of the old tables. |
| AdminEndpoints.ManualBookOn | backend/app/api/adminEP.py:362-448 | The steps on the tables give exactly the new tables and result of `manual_book`. |
| AdminEndpoints.AddFixedSchedule | backend/app/api/adminEP.py:530-640 | The endpoint's new tables and result are `add_fixed_schedule` of the old tables. |
| AdminEndpoints.AddFixedScheduleOn | backend/app/api/adminEP.py:530-640 | The steps on the tables give exactly the new tables and result of `add_fixed_schedule`. |
| AdminEndpoints.Backfill | backend/app/api/adminEP.py:608-636 | The backfill loop computes the fold, and its counter is the number of rows inserted. |
| AdminEndpoints.DeleteFixedSchedule | backend/app/api/adminEP.py:652-709 | The endpoint's new tables and result are `delete_fixed_schedule` of the old tables. On a valid database, both reported counts are the number of target bookings. |
| AdminEndpoints.ReleaseSchedule | backend/app/api/adminEP.py:660-709 | For an active rule, stamping and releasing give exactly the new tables and result of `delete_fixed_schedule`. With issued ids and unique pairs, both counts are the number of target bookings. |
| AdminEndpoints.ReleaseFuture | backend/app/api/adminEP.py:666-702 | The release over the active future classes computes the fold. Both counters equal the refunds appended, and, with unique pairs and issued booking ids, the number of bookings released. |
| AdminEndpoints.Release | backend/app/api/adminEP.py:672-702 | The release loop computes the fold. Both counters equal the refunds appended, and, with unique pairs and issued booking ids, the number of bookings released. |
| AdminEndpoints.ToggleUserDisabled | backend/app/api/adminEP.py:891-921 | The endpoint's new tables and result are `toggle_user_disabled` of the old tables. |
| AdminEndpoints.AdminCancelBooking | backend/app/api/adminEP.py:995-1014 | The endpoint's new tables and result are `admin_cancel_booking` of the old tables. |
| AdminEndpoints.AddUserCredits | backend/app/api/adminEP.py:1166-1183 | The endpoint's new tables and result are `add_user_credits` of the old tables. |
| AdminEndpoints.CreateUser | backend/app/api/adminEP.py:1107-1136 | The endpoint's new tables and result are `create_user` of the old tables. |
| AdminEndpoints.SearchUserCredits | backend/app/api/adminEP.py:842-850 | `credits_available` of a listed user is the floored balance, never negative. |
| AdminEndpoints.UserDetailCredits | backend/app/api/adminEP.py:863-877 | An unknown user is rejected iff unknown. Otherwise the value is the positive-only sum, which is never below the client's shown credits. |
| ClientEndpoints.GetProfile | backend/app/api/clientEP.py:111-150 | `credits_available` is the floored balance, never negative. |
| ClientEndpoints.BookClass | backend/app/api/clientEP.py:557-630 | The endpoint's new tables and result are `book_class` of the old tables. |
| ClientEndpoints.CancelBooking | backend/app/api/clientEP.py:715-760 | The endpoint's new tables and result are `cancel_booking` of the old tables. |
| ClientEndpoints.DeleteMyAccount | backend/app/api/clientEP.py:304-345 | The endpoint's new tables and result are `delete_my_account` of the old tables. |
| ClientEndpoints.UpdateProfile | backend/app/api/clientEP.py:170-287 | The endpoint's new tables and result are `update_profile` of the old tables. |
| ClientEndpoints.ApplyDni | backend/app/api/clientEP.py:191-280 | The DNI branch, with its merge loops, computes the DNI step or its rejection. |

## Left out

- Concurrency: each endpoint is one atomic step. The `SELECT ... FOR UPDATE` lock and the async sessions are not
  modelled, so the capacity bound holds per step.
- Authentication, push notifications, e-mail, image upload and compression, announcements, instructor CRUD,
  feedback, `toggle_user_admin`, `update_user_details`, `update_setting`, and HTTP status codes and response
  shapes (DTOs): these are I/O or plain CRUD outside the booking engine.
- Instructors are a set of active names. `create_gym_class` registers an unknown name in that set, and
  `update_gym_class` accepts only a registered name. The model keeps no inactive instructors and no unique
  `Instructor.name` (backend/app/models.py:93). So it does not model the source's failure when `create_gym_class`
  inserts a name an inactive instructor already holds (an IntegrityError there, a success here). On update, such
  a name is rejected in both.
- The separate commits inside one request are not modelled, except where a later rejection can observe them
  (the shadow user committed by `manual_book` and `add_fixed_schedule`). Each loop is otherwise one atomic update.
- Database row order: a query's result is taken in ascending id order. Only the merge depends on order. Its
  transfers are proved equal to the order-free rule under the integrity invariants (`Store.Valid`).
- `.scalar()` lookups that could see several rows return the lowest id. Uniqueness of the columns involved
  follows from `Store.Valid`.
- Time: `datetime.now`, `datetime.utcnow` and the stripping of time zones are one integer `now` parameter, in
  seconds. Sub-second precision is dropped. `created_at` and `updated_at` are not modelled.
- UUIDs: one fresh-id counter stands in for `uuid4`. The deleted-account e-mail is written with the counter id and
  integer seconds.
- `cancel_booking` on a booking whose class row is missing raises an attribute error in the source (a server
  error). The model returns `ClassNotFound` without change.
- `search_users`: the name/DNI filter, the ordering and the pagination are not modelled; only the per-user balance
  loop is. `get_gym_classes` and `get_my_bookings` are modelled as the pure slot fields they derive, not as
  queries.
- Text: `str.isdigit` and `int()` accept only ASCII digits here (Python also accepts other Unicode digits).
  `lower()` folds only ASCII letters.
- Settings: `ParseInt` accepts Python's integer literal shapes: surrounding whitespace, a sign, and underscores
  between digits.
- Catalog.AutoBookAll: its own contract states only what it leaves alone. Its effect is stated by
  CatalogFacts.AutoBookAllKeeps, AutoBookAllNew and AutoBookAllCovers.
