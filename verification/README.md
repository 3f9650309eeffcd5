# The arithmetic of OpenGewerk, proved

A Dafny 4.11 model of the pure computations in `packages/domain` that promise
something over unbounded inputs, with proofs of those promises. `dafny verify dfyconfig.toml`
takes all files.

Days are whole numbers counted from 1 January of the year 0, months are `year * 12 + month`, moments are
milliseconds in UTC, money is whole cents, rates are basis points. Code that computes by expressions is a
function here. Code that works through a loop is a method with the same loop, proved against a function or
a predicate that says what the loop is for, and the promises are lemmas about that function.

| file | what it models |
|---|---|
| `Calendar`, `BerlinTime` | the Gregorian calendar, `addMonths` with its clamping, German wall-clock time and back |
| `Series`, `RepeatRules`, `Appointments` | the days of a series, the RRULE that names them, the windowed searches |
| `CalendarFeed`, `CalendarText`, `CalendarEvents` | folding, escaping, the lines of a calendar, and reading it back |
| `Prices`, `PriceStability`, `Markups` | selling prices that follow a purchase price |
| `Invoices`, `InvoiceChains`, `ReceivedShares`, `Cancellations` | totals, progress and final invoices, payments, cancellations |
| `Outlines` | numbers, section sums and moving lines of a document |
| `LateInterests` | interest across leap years |
| `Contracts` | terms, notices, visits and billing periods |
| `WorkingTime` | joined stretches of work, breaks and the longest run |
| `Ibans` | the check digits of an IBAN |
| `Rounding`, `Sorting`, `Text`, `Wrappers` | what the others share |

Where the code does less than its own description says or suggests, the model follows the code. For each such place
a lemma says exactly when it happens, and another shows an input:

- `receivedShare` promises parts that add up. On an invoice that comes to zero a payment goes to no rate, even where
  the invoice has some, and is called tax; that is the only case that fails (`ReceivedShares.ShareAddsUp`,
  `ReceivedShares.ShareOfNothing`). A final invoice still asks for the rest to the cent, but its own figures add up
  only if such payments come to nothing together (`ReceivedShares.FinalInvoiceAsksTheRest`).
- It promises zero for a payment of nothing. On an invoice that comes to zero such a payment is one in full and gives
  the invoice's own figures, which are zero only if all of them are (`ReceivedShares.NoPayment`,
  `ReceivedShares.NoPaymentOnRatesThatCancelOut`).
- A contract that runs on after its first term can be ended before that term by a notice that is one day late: from
  31 March for a year with a month's notice, a notice of 28 February ends it on 28 March
  (`Contracts.NoticeCanCutTheFirstTerm`). One condition decides that a notice never cuts the first term, that a later
  notice never ends the contract earlier, and that a running first term is kept (`Contracts.NoticeKeepsTheFirstTerm`,
  `Contracts.LaterNoticeEndsLaterIfTheTermIsKept`, `Contracts.NoticeReachesTheFirstTermIfItIsKept`); by the calendar it
  is `Contracts.BackAndForthIsADayShort`, and all contracts that start by the 29th meet it.
- A part of an RRULE that comes again is refused only where its own key is written in capitals, however the earlier
  one was written; in small letters it replaces the earlier one (`RepeatRules.RepeatedKeyIsRefused`,
  `RepeatRules.SecondFrequencyReplacesTheFirst`).
- An UNTIL in the years 0 to 99 does not come back as the day it was (`RepeatRules.UntilReadsBackFromTheYear100`).
- The IBAN test notices every swap of neighbours that stay neighbours but that of 1 and B, 2 and M, 3 and X behind the
  check digits: both orders spell the same decimal digits (`Ibans.SwappedNeighboursAreNoticed`,
  `Ibans.TwinsAreNotNoticed`).
- Work, breaks and gaps of a day are rounded one by one. They come to its span exactly where the roundings cancel out,
  as when all of them take whole minutes, and are never off by more than half a minute for each
  (`WorkingTime.DayIsWorkAndGaps`, `WorkingTime.HalfMinutesAreRoundedUp`).
- Monthly and yearly series stop after 100,000 steps (`Series.MonthlyDays`, `Series.StepsRunOut`), which no two days
  less than 8333 years apart come near (`Series.StepsReachFarEnough`).
- `nextOccurrence` says null where an occurrence is still to come but starts after its twelve windows
  (`Appointments.NextOccurrence`, `Appointments.SearchStopsTooEarly`).

## Model

| member | source | states |
|---|---|---|
| `Calendar.AddMonthsIs` | packages/platform/domain/src/model/calendar.ts:27-39 | so many months later is the month so many further on, on the same date or, where that month is too short, on its last day |
| `Calendar.AddMonthsStrict` | packages/platform/domain/src/model/calendar.ts:27-39 | counted from one day, more months are always a later day, despite the clamping |
| `Calendar.AddMonthsMonotone` | packages/platform/domain/src/model/calendar.ts:27-39 | the later of two days never comes before the earlier once the same months are added |
| `Calendar.AddMonthsThereAndBack` | packages/platform/domain/src/model/calendar.ts:27-39 | going months one way and back loses exactly the days the month between lacks |
| `Calendar.YearLength` | packages/domain/src/rules/payment.ts:18-22 | the calendar's year is as long as `daysInYear` says, leap years by the rule of 4, 100 and 400 |
| `Calendar.FourHundredYears` | packages/domain/src/rules/payment.ts:18-22 | 400 years have 146,097 days, and the calendar with its weekdays repeats after them |
| `Calendar.WeekdaysOfTheCalendar` | packages/domain/src/model/appointment.ts:92-97 | a weekday follows the one of the day before, and 1 January 2000 is a Saturday, 5 when Monday is 0 |
| `BerlinTime.BerlinOffset` | packages/domain/src/model/appointment.ts:66-73 | reading the clock and subtracting the moment gives the offset of the zone, which is never asked itself |
| `BerlinTime.InstantReadsBack` | packages/domain/src/model/appointment.ts:75-85 | for any offsets whose changes lie apart: outside the gap the moment found shows the time asked for, inside it an hour later; the gap is exactly where no moment shows the time, and of two passes of an hour the second is found |
| `BerlinTime.InstantIsOnItsDay` | packages/domain/src/model/appointment.ts:75-85 | in the German zone the gap lies between two and three, the day is always the one asked for, and outside the gap so is the minute |
| `BerlinTime.WallDayNeverGoesBack` | packages/platform/domain/src/model/calendar.ts:76-97 | of two moments the later never lies on an earlier day in Germany, though the clock goes back |
| `Series.DailyDays` | packages/domain/src/model/appointment.ts:317-336 | the loop that skips ahead gives exactly the days of the series up to the last one asked for, ascending, and ends |
| `Series.WeeklyDays` | packages/domain/src/model/appointment.ts:338-362 | the same for weeks counted from Monday and the weekdays of the rule, skipping whole steps of weeks |
| `Series.MonthlyDays` | packages/domain/src/model/appointment.ts:364-384 | the same for months and years, leaving out months without the day, as far as the 100,000 steps go |
| `Series.RecursInPlainWords` | packages/domain/src/model/appointment.ts:317-384 | the days of a series without its stepping: so many days, weeks from Monday to Monday, months or years after the first in whole steps of the interval, on one of the weekdays or the same day of the month |
| `Series.StepsReachFarEnough` | packages/domain/src/model/appointment.ts:366 | the bound on the steps is out of reach for days less than 8333 years apart |
| `Series.StepsRunOut` | packages/domain/src/model/appointment.ts:366 | the day 100,000 months after the first is of the monthly series and no longer reached |
| `Series.SkippedSteps` | packages/domain/src/model/appointment.ts:322-344 | steps are skipped only without a count and never past the day asked for |
| `RepeatRules.ParseRule` | packages/domain/src/model/appointment.ts:147-209 | the text is taken apart, looked up and refused as `Parsed` says |
| `RepeatRules.Parsed` | packages/domain/src/model/appointment.ts:147-209 | every rule given out has an interval of at least one, ascending distinct weekdays and only when weekly, and not both UNTIL and COUNT |
| `RepeatRules.AcceptedExactly` | packages/domain/src/model/appointment.ts:160-208 | the parts of a text are a rule if and only if only the six keys come, with a frequency, different weekdays and those of a weekly rule only, weeks from Monday, a whole interval of at least one, and a whole count or an end that can be read but not both |
| `RepeatRules.AcceptedAsItReads` | packages/domain/src/model/appointment.ts:160-208 | the rule has the frequency, the interval, the weekdays counted from Monday as 0, the end and the count its parts name, and an interval of one without one |
| `RepeatRules.RepeatedKeyIsRefused` | packages/domain/src/model/appointment.ts:150-158 | a list of keys and values of any length is refused if and only if some key that comes again is written in capitals; an accepted one keeps, of each key, the value that comes last |
| `RepeatRules.RefusedIfAPartIs` | packages/domain/src/model/appointment.ts:150-158 | any list of parts is refused if and only if a part is no key and value, or its key as it stands is in capitals the key of an earlier part |
| `RepeatRules.SecondFrequencyReplacesTheFirst` | packages/domain/src/model/appointment.ts:147-209 | `freq=DAILY;freq=WEEKLY` and `FREQ=DAILY;freq=WEEKLY` are the weekly rule, `freq=DAILY;FREQ=WEEKLY` is refused |
| `RepeatRules.UntilReadsBackFromTheYear100` | packages/domain/src/model/appointment.ts:211-228 | a day written as its last second in UTC is read back as that day, in winter and in summer, if and only if its year is not below 100; for every day that can be written |
| `RepeatRules.UntilIsADate` | packages/domain/src/model/appointment.ts:211-216 | an UNTIL of eight digits is read whatever they are, and a day is within it if and only if its year, month and day do not come after those digits |
| `RepeatRules.DateReadsBack` | packages/domain/src/model/appointment.ts:211-216 | the date of any day with a year of four digits is read as that day |
| `RepeatRules.RuleReadsBack` | packages/domain/src/model/appointment.ts:235-265 | `parseRule(ruleOf(rule))` is the rule, for every rule that is understood and has an end that can be written |
| `Appointments.SeriesDays` | packages/domain/src/model/appointment.ts:315-384 | every frequency: no day is given that is not of the series, and none between the first asked for and the last is lost |
| `Appointments.OccurrencesBetween` | packages/domain/src/model/appointment.ts:386-426 | exactly the times the appointment takes place that touch the window, in order and each once; a text that is no rule makes a single appointment |
| `Appointments.EveryTimeIsLikeTheFirst` | packages/domain/src/model/appointment.ts:413-422 | each time of a series goes over as many days as the first and begins and ends when the German clock shows what it showed the first time, or an hour later in the hour the clock leaves out |
| `Appointments.SameTimeOfDay` | packages/domain/src/model/appointment.ts:413-422 | outside the hour from two to three that is the very day and minute on the German clock |
| `Appointments.SingleTimeIsItsOwn` | packages/domain/src/model/appointment.ts:399-403 | without a rule the appointment takes place once, at its own moments on their own days |
| `Appointments.IsSeriesDay` | packages/domain/src/model/appointment.ts:428-437 | yes exactly for the days on which a time of the series begins and does not end before, taken out or not; of an appointment that ends no earlier than it begins these are all its days |
| `Appointments.EarlierDayStartsEarlier` | packages/domain/src/model/appointment.ts:413-422 | of two times of one appointment the one on the earlier day starts earlier, whatever the clocks do |
| `Appointments.NextOccurrence` | packages/domain/src/model/appointment.ts:439-454 | of all times not over the one that starts first, and null if and only if none starts within the twelve windows |
| `Appointments.SearchStopsTooEarly` | packages/domain/src/model/appointment.ts:439-454 | a series of every twenty years has a time not over, and all of them start after the twelve windows |
| `CalendarFeed.OctetsAreCounted` | packages/domain/src/model/calendar-feed.ts:230-235 | the octets counted are the length of the text in UTF-8, section 3 of RFC 3629 |
| `CalendarFeed.Folded` | packages/domain/src/model/calendar-feed.ts:237-266 | the line is cut into parts that together are the line, as late as 75 and then 74 octets allow and never inside a character |
| `CalendarFeed.FoldsUndone` | packages/domain/src/model/calendar-feed.ts:242-266 | taking out every fold gives the line back, whatever follows it |
| `CalendarFeed.PhysicalLinesAreShort` | packages/domain/src/model/calendar-feed.ts:237-266 | with the space it begins with, every physical line has at most 75 octets, section 3.1 of RFC 5545 |
| `CalendarFeed.CalendarFile` | packages/domain/src/model/calendar-feed.ts:97-114 | a reader that undoes the folds and splits at the line breaks gets the content lines of the calendar back, and no physical line was longer than 75 octets |
| `CalendarEvents.EventOf` | packages/domain/src/model/calendar-feed.ts:161-206 | the pushes make the lines of the event, those of the rule and of the words where there are any |
| `CalendarEvents.EventSaysWhen` | packages/domain/src/model/calendar-feed.ts:161-171 | the digits of DTSTART and DTEND, each in its line, are day and time of the start and of the end on the German clock |
| `CalendarEvents.EventSaysHowOftenItChanged` | packages/domain/src/model/calendar-feed.ts:164-166 | UID and SEQUENCE hold the name and the number of changes, never below 0 |
| `CalendarEvents.EventSaysWhichVersion` | packages/domain/src/model/calendar-feed.ts:167-169 | DTSTAMP and LAST-MODIFIED read back as the second of the last change, CREATED as that of the creation, from the year 100 on |
| `CalendarEvents.EventSaysWhichDaysAreOut` | packages/domain/src/model/calendar-feed.ts:174-184 | split at its commas, EXDATE names each day taken out in its place, at the time of day the series begins |
| `CalendarEvents.EventIsContent` | packages/domain/src/model/calendar-feed.ts:161-217 | whatever was typed into an appointment, each of its lines stays one content line |
| `CalendarEvents.WrittenRuleIsOneLine` | packages/domain/src/model/appointment.ts:235-265 | a rule as it is stored is on one line |
| `CalendarEvents.CalendarOf` | packages/domain/src/model/calendar-feed.ts:97-115 | the whole feed reads back as its lines, each physical line with at most 75 octets |
| `CalendarText.InOrderIsEscape` | packages/domain/src/model/calendar-feed.ts:211-217 | the four replacements one after the other escape each character on its own |
| `CalendarText.TextReadsBack` | packages/domain/src/model/calendar-feed.ts:206-217 | unescaping (section 3.3.11 of RFC 5545) gives the cleaned value back, and what is written holds no line break and no control character but the tab |
| `CalendarText.CleanedKeeps` | packages/domain/src/model/calendar-feed.ts:219-228 | cleaning leaves a value alone if and only if it holds nothing to clean |
| `CalendarText.BreaksAreKept` | packages/domain/src/model/calendar-feed.ts:219-228 | a return, a line feed or both together become one line feed where they stand, and the text around them is cleaned by itself |
| `Prices.PriceOn` | packages/domain/src/model/article.ts:407-421 | no price begun by the day began later than the one found, and none is found only if none had begun |
| `Prices.OnePriceApplies` | packages/server/migrations/0058_articles_suppliers.sql:128 | with one price a day, which the table holds, there is one answer whatever the order |
| `Prices.FollowedPrices` | packages/domain/src/model/markup.ts:164-237 | the loops make the edit that `Change` says |
| `Prices.FollowsThePurchase` | packages/domain/src/model/markup.ts:181-237 | after the edit every day from the first on costs what its purchase price and the markup make, for the same unit; where that is no price that may be asked, the day keeps the price from before that stretch |
| `Prices.NeverBackwards` | packages/domain/src/model/markup.ts:173-237 | the price of every day before the first is what it was |
| `Prices.NoPriceRepeats` | packages/domain/src/model/markup.ts:205-214 | no price from the day on repeats the amount and the price unit in force the day before it |
| `Prices.NoSmallerTable` | packages/domain/src/model/markup.ts:164-237 | no table with the same price on every day holds fewer prices: each of those from the day on is in any other such table |
| `PriceStability.ChangesNothingAgain` | packages/domain/src/model/markup.ts:175-237 | applied to its own result, on the same or any later day, the edit removes nothing and adds nothing |
| `Markups.SellingIsRounded` | packages/domain/src/model/markup.ts:122-132 | the selling price is the nearest cent to the price with the markup, half a cent up, or none above the largest price |
| `Markups.SameUnitSamePrice` | packages/domain/src/model/markup.ts:245-259 | the rounding of a position and that of the catalogue agree in the same price unit |
| `Markups.UnitIsRounded` | packages/domain/src/model/markup.ts:245-259 | for any price unit of the position it is the nearest cent to the purchase price of so much with the markup, half a cent up |
| `Markups.OnlyTheRatioOfTheUnitsMatters` | packages/domain/src/model/markup.ts:245-259 | both price units taken so many times as large make the same price |
| `Markups.SellingNeverFalls` | packages/domain/src/model/markup.ts:122-132 | a dearer purchase or a higher markup never sells for less |
| `Invoices.TotalsFor` | packages/domain/src/rules/invoice.ts:81-127 | the loop over the lines and the sorted rates makes the totals that `Totals` says |
| `Invoices.TotalsAddUp` | packages/domain/src/rules/invoice.ts:63-127 | rates sum to the header, gross is net and tax, titles count nothing, and each rate is taxed once, at the basis points of its own rate, on the sum of its own positions |
| `Invoices.TaxIsRoundedOncePerRate` | packages/domain/src/rules/invoice.ts:104-120 | the tax of each rate is the nearest cent to its net times its basis points by ten thousand, an exact half away from zero |
| `Invoices.LineNetIsRoundedOnce` | packages/domain/src/rules/invoice.ts:33-38 | the net of a position is the nearest cent to quantity in thousandths times price by a thousand price units, an exact half away from zero |
| `Invoices.BilledAfter` | packages/domain/src/rules/invoice.ts:265-335 | what is billed once all deductions are taken off, or the number of the first deduction that is taxed differently |
| `InvoiceChains.BilledAndTakenMakeTheTotals` | packages/domain/src/rules/invoice.ts:265-335 | what is billed and what is taken off make the totals, in every rate and in the header |
| `InvoiceChains.BilledKeepsItsRates` | packages/domain/src/rules/invoice.ts:254-335 | every rate billed has the basis points the totals have for it |
| `InvoiceChains.OneDeductionMore` | packages/domain/src/rules/invoice.ts:265-335 | one deduction more takes off, in the header and in every rate, what was received for its invoice once that is on record, and until then what the invoice billed |
| `InvoiceChains.BilledAddsUp` | packages/domain/src/rules/invoice.ts:265-335 | where the totals and the deductions add up, so does what is billed, and the gross amounts are conserved |
| `InvoiceChains.ChainBillsTheLastTotals` | packages/domain/src/rules/invoice.ts:235-335 | all invoices of a chain of any length together bill exactly the last totals: net and tax per rate, and the header |
| `ReceivedShares.ReceivedShare` | packages/domain/src/rules/invoice.ts:173-223 | the loop with what is left makes the share that `Share` says |
| `ReceivedShares.NoPayment` | packages/domain/src/rules/invoice.ts:161-223 | a payment of nothing is zero in the header and in every rate, if and only if the invoice asks for something or is zero throughout |
| `ReceivedShares.NoPaymentOnRatesThatCancelOut` | packages/domain/src/rules/invoice.ts:173-176 | an invoice of gross zero whose figures add up, with 100 and -90 net in its rates: a payment of nothing gives all of them back |
| `ReceivedShares.ShareAddsUp` | packages/domain/src/rules/invoice.ts:161-223 | net and tax make the gross in every rate and the rates make the payment, if and only if the invoice is not one of zero with a payment on it |
| `ReceivedShares.SharesAreProportional` | packages/domain/src/rules/invoice.ts:161-223 | whatever is paid on an invoice that asks for something, every rate but the last is within half a cent of its proportional share, the last within half a cent for each of the others |
| `ReceivedShares.SharesAreSplitLikeTheirRates` | packages/domain/src/rules/invoice.ts:173-223 | in every share the net is the nearest cent to the part of it the rate has in its gross amount, all of it where the rate comes to nothing; likewise in the header of an invoice without rates |
| `ReceivedShares.FinalInvoiceAsksTheRest` | packages/domain/src/rules/invoice.ts:245-335 | a final invoice that takes off the amounts received asks, with all payments, for the gross amount of the work to the cent, and its figures add up if and only if what was paid on invoices of zero comes to nothing together |
| `Cancellations.LineNetTurned` | packages/domain/src/rules/invoice.ts:19-38 | the net worked out from the turned quantity is the turned net: the rounding has no side |
| `Cancellations.TotalsTurned` | packages/domain/src/rules/cancellation.ts:29-31 | totals of turned lines are the turned totals |
| `Cancellations.BilledTurned` | packages/domain/src/rules/cancellation.ts:15-27 | what turned totals bill after turned deductions is the turned bill |
| `Cancellations.CancellationFollows` | packages/domain/src/rules/cancellation.ts:33-98 | worked out again from its own quantities and deductions, a cancellation comes to the figures it mirrors |
| `Cancellations.CancellationTakesBack` | packages/domain/src/rules/cancellation.ts:52-98 | invoice and cancellation come to nothing in every line, rate, deduction and header, and a cancellation cannot be cancelled |
| `Outlines.OutlineRows` | packages/domain/src/rules/outline.ts:20-78 | the loop with its open section writes the rows of `Layout`: what stands before the first title, then section after section, numbered, each sum below its last position |
| `Outlines.SubtotalsMakeTheNet` | packages/domain/src/rules/outline.ts:37-78 | without the sums the rows are the lines in their order, and the sums with the positions before the first title come to the net total |
| `Outlines.NumbersAreDistinct` | packages/domain/src/rules/outline.ts:20-78 | however the lines are ordered, no two positions have the same number |
| `Outlines.MoveKeepsTheLines` | packages/domain/src/rules/outline.ts:80-149 | a move loses no line and makes none, and the line stands where it moved to |
| `Outlines.StepBackRestores` | packages/domain/src/rules/outline.ts:80-149 | the opposite step at the new place brings the old order back |
| `Outlines.TitleMovesDownWhole` | packages/domain/src/rules/outline.ts:124-135 | a title on its way down takes exactly its own positions along, and so does the one it passes |
| `Outlines.TitleMovesUpWhole` | packages/domain/src/rules/outline.ts:137-148 | the same on its way up |
| `Outlines.TitleCanMove` | packages/domain/src/rules/outline.ts:127-141 | a title can move if and only if there is another title on that side |
| `Outlines.SectionEndHas` | packages/domain/src/rules/outline.ts:151-156 | no title stands inside a section, and one stands behind it unless the document ends there |
| `Outlines.TotalsOfTheSameLines` | packages/domain/src/rules/invoice.ts:104-115 | the totals do not depend on the order of the lines, rate by rate |
| `Outlines.MoveKeepsTheTotals` | packages/domain/src/rules/outline.ts:99-149 | moving changes no figure of the document, and its rows still add up to it |
| `LateInterests.YearPartsOf` | packages/domain/src/rules/payment.ts:27-53 | the loop over the turns of the year makes the sum day by day, each day at the parts of its own year |
| `LateInterests.PeriodSplits` | packages/domain/src/rules/payment.ts:27-53 | a period may be split anywhere without a part gained or lost |
| `LateInterests.DaysAreParts` | packages/domain/src/rules/payment.ts:27-53 | so many days are between 365 and 366 parts each |
| `LateInterests.CalendarYearsAreWhole` | packages/domain/src/rules/payment.ts:24-53 | any number of calendar years is exactly so many years, leap years or not |
| `LateInterests.InterestNeverFalls` | packages/domain/src/rules/payment.ts:189-215 | interest on a principal and at a rate that are not negative never falls as days go by |
| `LateInterests.CalendarYearsCarryTheAnnualRate` | packages/domain/src/rules/payment.ts:169-211 | full calendar years carry exactly the annual interest each, which is the nearest cent to the rate of the principal |
| `LateInterests.InterestIsItsPart` | packages/domain/src/rules/payment.ts:169-215 | for any days: the annual interest at the base rate and the premium of the debtor, in parts of 133,590 to the year, to the nearest cent; the flat fee is owed by a business only |
| `LateInterests.SplittingCostsAtMostACent` | packages/domain/src/rules/payment.ts:202-211 | billed in two periods at the same rates the interest differs by a cent at most |
| `Contracts.CalendarCounts` | packages/platform/domain/src/model/calendar.ts:27-39 | the months of the calendar keep the three rules the contracts rest on |
| `Contracts.TermEndOn` | packages/domain/src/model/maintenance-contract.ts:122-147 | the loop finds the term that `TermEnd` says |
| `Contracts.RunningTermInDates` | packages/domain/src/model/maintenance-contract.ts:103-147 | for terms that renew: the day after the term found is the first term and so many times the renewal after the start, not before the day asked for, while the term before it is; beyond 1200 there is none |
| `Contracts.NoRenewalInDates` | packages/domain/src/model/maintenance-contract.ts:122-157 | without renewal the end is that of the first term, whatever the day and whenever notice is given |
| `Contracts.EndAfterNotice` | packages/domain/src/model/maintenance-contract.ts:149-182 | the branches and the loop find the day that `NoticeEnd` says |
| `Contracts.NoticeInDates` | packages/domain/src/model/maintenance-contract.ts:103-182 | for terms that renew: the notice came in before the day that lies the notice period ahead of the end found, and not before that of the term before it |
| `Contracts.RunningOnInDates` | packages/domain/src/model/maintenance-contract.ts:122-170 | for a contract that runs on: no end but that of the first term; a notice in time for it ends it then, any later one after its months |
| `Contracts.NoticeEndsItsTerm` | packages/domain/src/model/maintenance-contract.ts:149-182 | for terms that renew: the end is that of the first term whose last notice day the notice still met, every later term would do too, and the notice period has run by then |
| `Contracts.LaterNoticeEndsLater` | packages/domain/src/model/maintenance-contract.ts:149-182 | for terms that renew: a later notice never ends the contract earlier |
| `Contracts.LaterNoticeEndsLaterIfTheTermIsKept` | packages/domain/src/model/maintenance-contract.ts:149-170 | for a contract that runs on: a later notice never ends it earlier, if and only if the earliest notice that is too late does not end it before its first term |
| `Contracts.NoticeReachesTheRunningTerm` | packages/domain/src/model/maintenance-contract.ts:122-182 | for terms that renew: the term that is running when notice is given is never cut |
| `Contracts.NoticeReachesTheFirstTermIfItIsKept` | packages/domain/src/model/maintenance-contract.ts:122-170 | for a contract that runs on: a first term that is running when notice is given is never cut, on that same condition |
| `Contracts.NoticeKeepsTheFirstTerm` | packages/domain/src/model/maintenance-contract.ts:149-170 | for a contract that runs on: no notice ends it before its first term, if and only if the earliest notice that is too late does not |
| `Contracts.BackAndForthIsADayShort` | packages/domain/src/model/maintenance-contract.ts:110-113 | by the calendar that is so exactly where the month the notice period reaches back to lacks at most one of the days |
| `Contracts.EarlyStartIsADayShort` | packages/domain/src/model/maintenance-contract.ts:103-113 | and so for every contract that starts by the 29th |
| `Contracts.NoticeCanCutTheFirstTerm` | packages/domain/src/model/maintenance-contract.ts:149-170 | a contract from 31 March for a year with a month's notice, and the notice that ends it two days early |
| `Contracts.NextVisitOn` | packages/domain/src/model/maintenance-contract.ts:199-234 | the first day so many times the interval after the first visit that is later than the last one dealt with and due at all, none among 1200 unless the contract has ended by then |
| `Contracts.AllInARow` | packages/domain/src/model/maintenance-contract.ts:199-234 | fed back call by call, the days come strictly ascending, none is skipped, and it ends only at the last day or after 1200 |
| `Contracts.NextPeriod` | packages/domain/src/model/maintenance-contract.ts:268-311 | the first period of one, three or twelve months still due, counted from the start each time, up to the day before the one after it or, if earlier, cut by the last day |
| `Contracts.PeriodsTile` | packages/domain/src/model/maintenance-contract.ts:268-311 | fed back by its start, each period begins the day after the one before ends, and only the last may be cut |
| `Contracts.EveryDayIsBilledOnce` | packages/domain/src/model/maintenance-contract.ts:268-311 | every day from the first period to the end of the last lies in one period and in no other |
| `WorkingTime.Merged` | packages/domain/src/rules/working-time.ts:79-94 | stretches in order with a real gap between neighbours that cover exactly the moments the entries cover |
| `WorkingTime.JoinedInOneWay` | packages/domain/src/rules/working-time.ts:79-94 | there is one such list only, so the order the entries came in does not matter |
| `WorkingTime.Overlaps` | packages/domain/src/rules/working-time.ts:121-133 | looking at neighbours in order only finds whether two different entries, in whatever order they came, each begin before the other ends, when each takes some time |
| `WorkingTime.BreaksAndLongestRun` | packages/domain/src/rules/working-time.ts:142-167 | the total, the sum of the gaps of at least a block, and the longest run between such gaps: one of them, and none is longer |
| `WorkingTime.DayIsWorkAndGaps` | packages/domain/src/rules/working-time.ts:142-167 | for any times: work, breaks and short gaps differ from the time from the first start to the last end by the sum of the roundings, which is at most half a minute for each stretch and gap; they agree if and only if that sum is zero |
| `WorkingTime.WholeMinutesAddUp` | packages/domain/src/rules/working-time.ts:142-167 | they agree when every stretch and every gap takes whole minutes |
| `WorkingTime.HalfMinutesAreRoundedUp` | packages/domain/src/rules/working-time.ts:75-77 | three half minutes become three minutes: the bound is met |
| `Ibans.IbanIsValid` | packages/domain/src/model/letterhead.ts:129-151 | valid if and only if the text is well formed and the whole number of the rearranged characters leaves 1 modulo 97 |
| `Ibans.FormOfAnIban` | packages/domain/src/model/letterhead.ts:132-134 | well formed are two letters, two digits and 11 to 30 of either behind them, and nothing else |
| `Ibans.SpacesDoNotMatter` | packages/domain/src/model/letterhead.ts:129-130 | a space anywhere makes no difference, and a text without one stays as it is |
| `Ibans.Remainder` | packages/domain/src/model/letterhead.ts:136-150 | piece by piece the loop comes to the remainder of the whole number |
| `Ibans.OneWrongCharacterIsNoticed` | packages/domain/src/model/letterhead.ts:121-128 | a digit for another digit or a letter for another letter makes every valid IBAN invalid |
| `Ibans.SwappedNeighboursAreNoticed` | packages/domain/src/model/letterhead.ts:121-128 | two different neighbours that stay neighbours, swapped, make it invalid, if and only if they are not one of three pairs of a digit and a letter behind the check digits |
| `Ibans.TwinsAreNotNoticed` | packages/domain/src/model/letterhead.ts:121-151 | GB671B000000000 is valid, and so it is with its 1 and B swapped |

## Left out

- Appointments.SeriesDays: the generator gives one day at a time and its caller stops it; here the caller's last day is a parameter and the days come as a sequence.
- Series.MonthlyDays: the days after 100,000 steps are not part of what it lists, as in the source.
- RepeatRules.ParseRule: `toUpperCase` and `Number` are parameters, which only have to keep plain capitals and digits and to read back what `String` writes; a count or interval too large for a double is not told apart from its neighbour.
- RepeatRules.RuleReadsBack: rules with an end from the year 100 on, as below it UNTIL does not read back, and before 31 December 9999, whose next day the source cannot write.
- BerlinTime.BerlinInstant: takes days of the years 0 to 99 as they are, where `Date.UTC` moves them to the twentieth century; an UNTIL there comes back as another day either way.
- RepeatRules.UntilDay: a day that is no day of the calendar, such as 31 April, is kept as text by the source; here it is the last day not after that text, which compares the same with every day.
- BerlinTime.BerlinClock: the data of the time zone is a parameter; what is asked of it is 60 or 120 minutes and changes at 01:00 UTC only.
- Appointments.NextOccurrence: asks that an appointment does not end before it starts.
- Invoices.BilledAfter: the totals list each rate once and in order, as `totalsFor` makes them.
- ReceivedShares.ReceivedShare: the share of an invoice without rates is worked out exactly, where the source divides two doubles first.
- LateInterests.YearPartsOf: years of more than four digits, which the source cannot write, are counted like all others.
- CalendarEvents.CalendarOf: entries whose name is on one line and whose times have a year of four digits; half a surrogate pair is no character here, and the invitation of a single appointment is left out.
- WorkingTime.Overlaps: with an entry of no length it says only what the neighbours in order say, which then depends on the order of equal starts.
- Floating point: all figures are exact integers; withoutNegativeZero has nothing to do then.
- The rule packages and their lookup errors: the rates, limits and values of a day are parameters.
- Recipient, site, tax note and other fields a cancellation copies unchanged.
- The sentences of the warnings, the rest period and the thresholds in workingTimeWarnings: tables read by one comparison each.
- The field validators, markupOf, markupFrom, lastServiceDay and treatmentFor: each is settled by reading one branch.
- currentContent, mandatory-details.ts and e-invoice.ts: long, but each case is a copy or an entry of a decision table.
- Sync, forms, deadlines, fingerprints, routes, storage and everything else with input and output.
