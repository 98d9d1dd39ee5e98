# Support desk backend: a verified model

The backend serialises reports (PDF, CSV, spreadsheet XML), draws trend charts over calendar buckets, keeps a
knowledge base with votes and version history, runs satisfaction surveys from the resolved ticket to completion or
expiry, and hands out verification links, refresh tokens and announcements. These files model that logic and prove
what it promises: over every input, and for the stateful services over every run of calls.

| file | part of the backend |
|---|---|
| Text, Tables | numerals, joining and splitting of text; the table handed to every exporter |
| Escaping | chained replacements; PDF literal strings and XML text, each with a reader |
| Csv | both CSV writers, and an RFC 4180 reader |
| PdfFile | objects, cross-reference table and trailer, and a reader that starts from the end of the file |
| PdfDocument | numbering of page and content objects, and a reader that walks the page tree |
| PdfLayout | pagination of a report, as the loop and in closed form |
| PdfReport | readers of the whole exported file, from its last byte to the texts on its pages and their places |
| PdfWrap, PdfPages | the line breaker with its width tables, what it keeps of a text, and the page breaker of the second PDF writer |
| Calendar, TimeSeries, Trends | Gregorian calendar, chart buckets, and the counting loops over them |
| Slugs | the two slug pipelines and the search for a free slug |
| KnowledgeBase | articles, votes, versions |
| Batches | row-limited queries and what a sweep leaves |
| FeedbackLifecycle, FeedbackValidation | feedback requests; validation of submitted answers |
| AuthTokens | verification links and refresh tokens |
| Announcements | scheduling, publication and broadcast |

Each stateful service appears three times: as pure functions on the tables (`State -> State`), as a class whose
methods update the tables step by step and are proved equal to those functions, and as runs, sequences of calls in
any order from any caller. What a call stores is stated field by field, from its arguments and the rows before it
(the lemmas that end in `Stores`); invariants and what may never happen are lemmas about runs. History that the database
does not store (where a token came from, which announcements were broadcast) is kept in the state beside the tables.

## Assumptions

- Every service call is one atomic step and reads its clock once; clocks need not agree or even run forward. The
  services read, check and write without a transaction, so two overlapping calls can break what is proved here.
- Failing writes are modelled for the publication of announcements, whose sweep catches them (of the status, of the
  notices, and of the audit log behind the notices), and for expiries and reminders of feedback requests, whose sweeps
  end at the first failure. Everywhere else every step that starts also finishes.
- Text is a sequence of Unicode scalar values. Where the code counts UTF-16 units (cutting a cell to 95) the units
  are counted and a cut surrogate pair becomes U+FFFD, as encoding it as UTF-8 makes it.
- Lower-casing, NFKD, number and date parsing, `String(v)`, `JSON.stringify` and `toISOString` are parameters or
  values; what a lemma needs of them is in its `requires`.
- Times are whole milliseconds at a fixed UTC offset; money is whole cents; answer numbers are reals.
- Random tokens, digests and new ids are parameters, constrained only to be unused. A refresh token is represented
  by the digest it is stored under.

## Where the code does less than one might expect

- A PDF literal string loses carriage returns: it survives exactly when it has none (`Escaping.PdfLiteralRoundTrip`).
- A spreadsheet cell loses its carriage returns, and a character no XML document may hold, such as U+0000 or U+FFFF,
  makes the workbook unreadable, since neither escaper touches them (`Escaping.XmlRoundTrip`; `Escaping.XmlLosses`
  has an input of each kind).
- A report whose last object starts at byte 10^10 or later has cross-reference entries that are too wide, and loses
  the first object that starts there (`PdfFile.XrefIsCorrect`, `PdfFile.FirstFarObjectIsLost`).
- The texts of a report are written in UTF-8 and shown in fonts that take one byte for one character, so the codes
  shown are those of the text exactly if it is ASCII without a carriage return; the bullet between subtitle and date
  never is (`PdfReport.ReportIsShown`, `PdfReport.BulletIsNotShown`).
- A CSV file without columns does not read back as its table (`Csv.RoundTripNeedsAColumn`); `toCsv` without rows
  writes a header that no table makes equal to the exporter's (`Csv.HeaderOnlyFilesDiffer`).
- In the second PDF writer each line moves relative to the line before it, so only the first line of a page is shown
  where its operands say (`PdfPages.OnlyFirstLineIsInPlace`).
- A chart stops after 4000 buckets, and loses the rows behind them (`TimeSeries.BucketsTile`,
  `Trends.LostBehindTheCap`).
- Keys have no sign, so a date before year 1 has the key of the same date in a year after it, 0 like 1, -1 like 2 and so
  on. A range that holds such a pair counts a row twice: one row in January of year 0 gives a chart of months up to
  January of year 1 the sum 2 (`Trends.CountedTwice`). The points add up to what was fetched exactly if every unit of
  the range shares its key with exactly one bucket, which below the cap means exactly if the range holds no such pair
  (`Trends.CountsAreConserved`, `Trends.NothingIsLost`, `TimeSeries.MirrorsInRange`).
- A form that allows one response does not limit a customer to one per ticket: completing a request never counts
  earlier responses, so a direct one followed by the request makes two (`FeedbackLifecycle.TwoResponsesAtMost`;
  `FeedbackLifecycle.TwoResponsesHappen` is such a run).
- Registration reports a taken organization slug as a taken address (`AuthTokens.Service.RegisterOrganization`).
- The sweep that means to leave failed announcements for the next one does so only for those that fail before their
  status is stored. Of the others, those that fail before their notices are never broadcast, and those that fail behind
  them have been, but are not counted (`Announcements.FailedStaysDue`, `Announcements.AttemptDecides`,
  `Announcements.Service.PublishDue`).
- An expiry is announced and audited exactly once only if neither write fails: a failure loses the notice or the audit
  entry for good and ends the sweep, while a reminder whose note in the row fails goes out again
  (`FeedbackLifecycle.RunKeepsInv`, `FeedbackLifecycle.ReminderRepeats`).
- An organization's slug has no fallback: it is no slug when the pipeline leaves nothing of the name
  (`Slugs.UniqueOrganizationSlug`). An explicit article slug skips the search for a free one
  (`KnowledgeBase.OnlyExplicitSlugsConflict`).
- Restoring an archived article that was published once and is now a draft publishes it again
  (`KnowledgeBase.RestoreUndoesArchive`).
- Rotating a refresh token always gives seven days, so a remembered session loses its thirty with its first
  rotation, and rotation does not look at the user's status (`AuthTokens.RefreshConserves`,
  `AuthTokens.RefreshSucceeds`).
- An announcement created for immediate publication is never broadcast, and one set from expired back to published is
  not either (`Announcements.ImmediateIsNeverBroadcast`, `Announcements.RepublishingIsSilent`).

## Model

| member | source | states |
|---|---|---|
| Escaping.ChainIsOnePass | src/dashboard/exporters/pdf-exporter.ts:134-139 | Replacing characters one kind after the other equals one pass over the text, whatever it is, provided no replacement introduces a character replaced later |
| Escaping.XmlRoundTrip | src/dashboard/exporters/excel-exporter.ts:113-119 | For both spreadsheet escapers, an XML 1.0 reader gets back the text with its line ends normalised (section 2.11) if and only if a document may hold all its characters (section 2.2), the text itself if and only if it has no carriage return either, and no markup survives |
| Escaping.AmpersandMustComeFirst | src/dashboard/utils/excel.util.ts:1-9 | Of all orders of an escaper's replacements, exactly those that start with the ampersand keep different texts apart |
| Escaping.PdfLiteralReadsBack | src/dashboard/exporters/pdf-exporter.ts:134-139 | A reader of ISO 32000-1 section 7.3.4.2 literals stops at the writer's closing parenthesis and reads the text with line ends normalised |
| Escaping.PdfLiteralRoundTrip | src/dashboard/exporters/pdf-exporter.ts:97-107 | The text itself is read back if and only if it has no carriage return |
| Tables.CellsReadBack | src/dashboard/exporters/excel-exporter.ts:97-111 | Every spreadsheet cell decodes to the string the other exporters print, line ends normalised, if and only if a document may hold it, and to the string itself if and only if it has no carriage return either, although numbers and dates skip the escaper; it is typed as a number exactly for finite numbers, as a date for dates and as a text otherwise |
| Csv.Export | src/dashboard/exporters/csv-exporter.ts:5-17 | The loop writes a byte-order mark and each record closed by CRLF |
| Csv.RecordsPrint | src/dashboard/exporters/csv-exporter.ts:5-24 | The records are the labels and then, row by row, the value of every column as it is printed: nothing for a missing one, ISO dates, JSON for objects, `String` of the rest |
| Csv.ToCsv | src/dashboard/utils/csv.util.ts:15-26 | The loop writes the same kind of records without the last CRLF, under the given columns or else the keys of the first row; without rows the bare header and a line feed, or nothing |
| Csv.UtilRecordsPrint | src/dashboard/utils/csv.util.ts:1-26 | The records are the header and then, row by row, the value of every key as `String` prints it, objects included |
| Csv.ParseFieldReadsBack | src/dashboard/exporters/csv-exporter.ts:26-34 | A written field followed by a comma or line end is read back whole, whatever commas, quotes and line ends it holds |
| Csv.ParseInvertsWriting | src/dashboard/exporters/csv-exporter.ts:5-34 | An RFC 4180 section 2 reader recovers any list of records with at least one field each |
| Csv.FileTextInjective | src/dashboard/exporters/csv-exporter.ts:5-34 | Two lists of such records are written alike if and only if they are equal |
| Csv.RoundTripNeedsAColumn | src/dashboard/exporters/csv-exporter.ts:5-34 | An exported table reads back as its labels and cells if and only if it has a column |
| Csv.WritersAgree | src/dashboard/utils/csv.util.ts:1-26 | With labels equal to keys, the two writers produce the same file but for byte-order mark and last CRLF if and only if there are rows and no cell is an object they print differently |
| Csv.HeaderOnlyFilesDiffer | src/dashboard/utils/csv.util.ts:19 | Without rows the two writers differ for every header |
| Csv.OwnKeysKeepTheFirstRow | src/dashboard/utils/csv.util.ts:20-25 | Under its own keys the first row loses no cell: reading the file back gives every key with its value |
| PdfFile.Assemble | src/dashboard/exporters/pdf-exporter.ts:147-172 | The chunk loop, the table loop and the trailer write the file in which object k starts at the total length of everything before it |
| PdfFile.FileFrame | src/dashboard/exporters/pdf-exporter.ts:147-172 | The file opens with its version and closes with the table, whose first entry is the free one, and a trailer that counts the entries and names object 1 as the root |
| PdfFile.WriteObjects | src/dashboard/exporters/pdf-exporter.ts:151-159 | The first loop records for every object the byte index at which it is written |
| PdfFile.WriteXref | src/dashboard/exporters/pdf-exporter.ts:163-166 | The second loop writes one entry per object, in order |
| PdfFile.TotalLengthIsLength | src/dashboard/exporters/pdf-exporter.ts:174-176 | The sum over the chunks is the byte index at which the next chunk will stand |
| PdfFile.EntryWidth | src/dashboard/exporters/pdf-exporter.ts:164-166 | A cross-reference entry has exactly 20 bytes if and only if the offset is below 10^10 |
| PdfFile.EntryReadsBack | src/dashboard/exporters/pdf-exporter.ts:164-166 | The ten digits of such an entry decode to the offset |
| PdfFile.Utf8RoundTrip | src/dashboard/exporters/pdf-exporter.ts:141-176 | What is written in UTF-8 is decoded (RFC 3629 section 3) as the text itself, whatever it is |
| PdfFile.XrefIsFound | src/dashboard/exporters/pdf-exporter.ts:161-169 | `startxref` decodes to the byte index of the cross-reference table, for any objects |
| PdfFile.ObjectReadsBack | src/dashboard/exporters/pdf-exporter.ts:147-172 | From the end of the file through startxref and entry k (ISO 32000-1 section 7.5.4) a reader finds `k 0 obj` and the body of object k, whatever the objects contain |
| PdfFile.FirstFarObjectIsLost | src/dashboard/exporters/pdf-exporter.ts:164-166 | The first object at or behind byte 10^10 cannot be read |
| PdfFile.XrefIsCorrect | src/dashboard/exporters/pdf-exporter.ts:147-172 | All objects can be read through the table if and only if the last one starts below byte 10^10 |
| PdfDocument.BuildObjects | src/dashboard/exporters/pdf-exporter.ts:20-42 | The loop that pushes two objects a page and fills in object 2 afterwards builds the numbered objects: page i is 5+2i, its content 6+2i |
| PdfDocument.KidsReadBack | src/dashboard/exporters/pdf-exporter.ts:42 | The /Kids array reads back as the list of page ids, in order, for any number of pages |
| PdfDocument.PageIdsReadBack | src/dashboard/exporters/pdf-exporter.ts:42 | Read from the file, /Kids lists exactly the page objects in order and /Count is their number |
| PdfDocument.StreamReadsBack | src/dashboard/exporters/pdf-exporter.ts:37-39 | /Length is the number of bytes between the stream keywords (ISO 32000-1 section 7.3.8), in UTF-8 |
| PdfDocument.PageReadsBack | src/dashboard/exporters/pdf-exporter.ts:29-40 | Page object 5+2i leads to content object 6+2i, which holds page i byte for byte |
| PdfDocument.FontsReadBack | src/dashboard/exporters/pdf-exporter.ts:23-27 | From the end of the file object 1 is a catalog that leads to object 2, object 3 is Helvetica and object 4 its bold face |
| PdfDocument.PageResources | src/dashboard/exporters/pdf-exporter.ts:33-36 | Every page is a sheet of 612 by 792 points on which F1 is object 3 and F2 object 4 |
| PdfDocument.DocumentReadsBack | src/dashboard/exporters/pdf-exporter.ts:17-45 | A reader walking the page tree from the end of the file recovers every page, byte for byte and in order |
| PdfLayout.UnitsOfText | src/dashboard/exporters/pdf-exporter.ts:129-132 | The length of a cell counts every character once, and those above U+FFFF twice |
| PdfLayout.TruncateBound | src/dashboard/exporters/pdf-exporter.ts:129-132 | A cell of up to 95 UTF-16 units stays as it is; of a longer one the first 92 stay, followed by three dots |
| PdfLayout.Layout | src/dashboard/exporters/pdf-exporter.ts:48-91 | The loop over rows gives the closed-form pages: 1 page for n <= c rows, else 1 + ceil((n-c)/51), with c = 48 under a subtitle and 49 otherwise |
| PdfLayout.EveryRowHasItsPlace | src/dashboard/exporters/pdf-exporter.ts:77-87 | Every row is on exactly one page, at a baseline between 50 and 752: the first at 714, or 730 without a subtitle, every other one 14 below the row before it, unless that is below 50, and then at 752 on the next page |
| PdfLayout.RowsAppearOnceInOrder | src/dashboard/exporters/pdf-exporter.ts:77-90 | The pages one after the other hold every row once, in table order |
| PdfLayout.Export | src/dashboard/exporters/pdf-exporter.ts:17-45 | The whole export writes the file of the objects of the closed-form pages |
| PdfLayout.ExportReadsBack | src/dashboard/exporters/pdf-exporter.ts:17-45 | A reader of the exported file recovers exactly the laid-out pages |
| PdfReport.ReportReadsBack | src/dashboard/exporters/pdf-exporter.ts:17-139 | From the last byte of the exported file a reader recovers the bytes of title, subtitle, column labels and every row, cells cut to size, in order, line ends read as line feeds |
| PdfReport.ReportSurvives | src/dashboard/exporters/pdf-exporter.ts:97-139 | The bytes of the report are recovered unchanged if and only if none of its lines has a carriage return |
| PdfReport.ReportIsShown | src/dashboard/exporters/pdf-exporter.ts:20-139 | The codes a reader is given to show are the characters of the report if and only if every line is ASCII without a carriage return |
| PdfReport.ReportIsDrawn | src/dashboard/exporters/pdf-exporter.ts:48-107 | A reader that takes the operands of every operator finds on the first page the title at (40, 770) in bold 16, the subtitle at (40, 752) and the labels at (40, 730) or (40, 746) in their colors, and on each page exactly its rows, in order, at x = 40 and their baselines, in Helvetica 9 |
| PdfWrap.TextWidth | src/dashboard/utils/pdf.util.ts:214-218 | The accumulating loop gives the sum of the character widths times the size |
| PdfWrap.Wrap | src/dashboard/utils/pdf.util.ts:220-236 | The lines are a split of the words in which every line with several words fits, join back to the words, and no such split has fewer lines; told by the characters alone: no line has a space but single ones between words, the characters that are no spaces are those of the text, in order, neighbours stay neighbours and no others become so, no line of several words is wider than 532 points, and no other such lines are fewer; blank text gives one space |
| PdfWrap.BreakWords | src/dashboard/utils/pdf.util.ts:223-235 | The loop gives a split into fitting lines each of which is full: the next word would not have fitted |
| PdfWrap.GreedyStaysAhead | src/dashboard/utils/pdf.util.ts:225-233 | After equally many lines the greedy split has placed at least as many words as any other split into allowed lines |
| PdfWrap.GreedyIsOptimal | src/dashboard/utils/pdf.util.ts:220-236 | No split into allowed lines uses fewer lines than a full one |
| PdfWrap.LinesJoinBack | src/dashboard/utils/pdf.util.ts:226-234 | The lines joined with spaces are the words joined with spaces |
| PdfWrap.NoTies | src/dashboard/utils/pdf.util.ts:217-227 | At the sizes 9 and 12 no width equals the page width, so whole-number arithmetic decides every comparison as exact arithmetic would |
| PdfPages.PageBreaker.EmitLine | src/dashboard/utils/pdf.util.ts:298-306 | A line is added behind all earlier ones, on the open page or as the first of a new one, exactly when it would not fit |
| PdfPages.PageBreaker.EnsureSpace | src/dashboard/utils/pdf.util.ts:298-300 | Afterwards the needed space is there; the open page is closed exactly when it was not |
| PdfPages.BuildPages | src/dashboard/utils/pdf.util.ts:308-334 | The header and each section say, character by character, what was handed in, in the font it belongs in; the wrapped lines are written once each, in order, as escaped Latin-1 literals, each where steps of its size and 4, the gaps between sections and the page breaks put it, inside the page body, and no page is empty |
| PdfPages.LineReadsBack | src/dashboard/utils/pdf.util.ts:238-252 | A line is written with its font, size and height, and its literal reads back as the line with characters above U+00FF replaced by question marks, and as the line itself if and only if it has none |
| PdfPages.OnlyFirstLineIsInPlace | src/dashboard/utils/pdf.util.ts:302-306 | A line is shown where its operands say if and only if it is the first of its page |
| TimeSeries.BuildBuckets | src/dashboard/utils/time-series.util.ts:20-43 | The cursor loop gives the numbered buckets between the two ends, at most 4000 |
| TimeSeries.StartIsIndexed | src/dashboard/utils/time-series.util.ts:45-59 | The start of a bucket is the start of the one numbered calendar unit around the time, for all four granularities |
| TimeSeries.NextIsIndexed | src/dashboard/utils/time-series.util.ts:66-72 | Stepping from one bucket start reaches the start of the next unit, across month ends, leap years and weeks |
| TimeSeries.UnitLengths | src/dashboard/utils/time-series.util.ts:45-72 | Units last a day, a week from Monday, a month of the Gregorian calendar, or a year of 365 or 366 days, and stand where 1 January 1970 has them |
| TimeSeries.BucketLengths | src/dashboard/utils/time-series.util.ts:20-64 | The first bucket holds the start of the range, and each lasts exactly as long as its day, week, month or year |
| TimeSeries.KeyShowsDate | src/dashboard/utils/time-series.util.ts:74-80 | A key reads as year, month and day of the first day of its bucket, as far as the granularity shows them, years before 1 without their sign |
| TimeSeries.BucketsTile | src/dashboard/utils/time-series.util.ts:20-64 | Buckets are contiguous (each end plus 1 ms is the next start), begin at or before the range, and reach its end if and only if it spans at most 4000 units |
| TimeSeries.KeysEqual | src/dashboard/utils/time-series.util.ts:74-80 | For all four granularities two buckets share a key if and only if they are equal, or their years add up to 1 and month and day, as far as shown, are the same |
| TimeSeries.MirrorsInRange | src/dashboard/utils/time-series.util.ts:74-80 | A range holds two buckets with one key if and only if it reaches from the innermost mirrored bucket on or after its start to that bucket's mirror |
| TimeSeries.KeysDistinct | src/dashboard/utils/time-series.util.ts:20-43 | The keys of a chart are distinct if and only if no two of its buckets are mirrored, which its first and last bucket tell |
| TimeSeries.KeyFindsBucket | src/dashboard/utils/time-series.util.ts:74-87 | A time of the range lies in a bucket if and only if its number is the bucket's, and has the bucket's key if and only if it lies in it or in one mirrored to it |
| TimeSeries.EveryTimeHasItsBucket | src/dashboard/utils/time-series.util.ts:20-87 | Every time of the range lies in at most one bucket, and in one if and only if the cap was not hit before it |
| TimeSeries.KeysTellBuckets | src/dashboard/utils/time-series.util.ts:74-87 | Over the whole range lying in a bucket and having its key are the same, if and only if nothing in the range is mirrored to a bucket |
| TimeSeries.UnmirroredRange | src/dashboard/utils/time-series.util.ts:20-43 | Whether anything is mirrored can be told from the first and last unit of the range, below the cap exactly |
| TimeSeries.ResolveRange | src/dashboard/utils/time-series.util.ts:89-99 | The range is never reversed: it ends at the given end or now, starts at the given start, ninety days earlier without one, and collapses to its end if the two are reversed |
| Calendar.MonthIsUnique | src/dashboard/utils/time-series.util.ts:58 | A day lies in exactly one month of the Gregorian calendar |
| Calendar.MonthLengths | src/dashboard/utils/time-series.util.ts:58 | Months last 31 and 30 days in their order and February 28, or 29 exactly in the Gregorian leap years; January 1970 starts on day 0 |
| Calendar.LeapDay | src/dashboard/utils/time-series.util.ts:66-72 | The sixtieth day of a year is the 29th of a month if and only if the year is a leap year |
| Trends.Trend | src/dashboard/services/analytics.service.ts:193-225 | Every point has the total of the rows with its key, and the points add up to every amount taken once for each bucket with its key; where nothing in the range is mirrored a point is the total of the rows in its bucket |
| Trends.KeyTotalIsBucketTotal | src/dashboard/services/analytics.service.ts:214-224 | Where nothing is mirrored, counting through string keys equals asking of each row whether it lies in the bucket |
| Trends.RightUnlessMirrored | src/dashboard/services/analytics.service.ts:214-224 | Charts over a range count each bucket right, whatever is fetched, if and only if nothing in the range is mirrored to a bucket |
| Trends.SumCountsKeys | src/dashboard/services/analytics.service.ts:557-582 | For all rows and buckets the points add up to every amount taken once for each bucket with the key of its row |
| Trends.CopiesOf | src/dashboard/services/analytics.service.ts:649-667 | A row is counted once if its own bucket is below the cap, and once more if a bucket of the chart is mirrored to it, so never, once or twice |
| Trends.CountsAreConserved | src/dashboard/services/analytics.service.ts:557-582 | For every range, capped or not: the points of its charts add up to everything fetched, whatever that is, if and only if every unit of the range shares its key with exactly one bucket |
| Trends.NothingIsLost | src/dashboard/services/revenue.service.ts:116-145 | For every range of at most 4000 units: the points of its charts add up to everything fetched, for amounts as for counts, if and only if no two of its buckets share a key, which the first and last unit tell |
| Trends.LostBehindTheCap | src/dashboard/services/analytics.service.ts:557-582 | With nothing mirrored the points add up to the rows below the cap, so to the number of fetched rows if and only if none lies behind the last bucket |
| Trends.CountByKey | src/dashboard/services/analytics.service.ts:649-667 | The counting map holds for every key the total of the rows with that key |
| Trends.RevenueByPlan | src/dashboard/services/revenue.service.ts:147-167 | One entry per plan paid for and no other, payments without a plan counting as "Unknown", in order of first appearance, each with the plan's total; the entries together hold all the money |
| Trends.AppearancesInOrder | src/dashboard/services/revenue.service.ts:158-163 | The listed plans are distinct, exactly those paid for, and an earlier one was first paid for earlier |
| Slugs.CreateIsDashed | src/common/utils/slug.util.ts:2-10 | The seven stages keep the runs of letters and digits left after filtering and join them by single dashes |
| Slugs.SlugifyIsDashed | src/customer/services/knowledge-base.service.ts:1348-1356 | The other pipeline joins the runs of letters and digits of the decomposed text by single dashes |
| Slugs.SlugNormalForm | src/common/utils/slug.util.ts:2-10 | Both give the empty string or `[a-z0-9]+(-[a-z0-9]+)*` and leave their own results as they are |
| Slugs.SlugsKeepLetters | src/customer/services/knowledge-base.service.ts:1348-1356 | A slug has the letters and digits of the name, in order, with a dash between two of them exactly if a space or dash stands between them in the name, for the one pipeline, and anything but combining marks, for the other |
| Slugs.SlugsAreFixed | src/customer/services/knowledge-base.service.ts:1348-1356 | Both are the identity on slugs in normal form |
| Slugs.PipelinesAgree | src/common/utils/slug.util.ts:2-10 | On letters, digits, spaces and dashes the two pipelines agree |
| Slugs.PipelinesDiffer | src/customer/services/knowledge-base.service.ts:1353 | Elsewhere they need not: an underscore is dropped by one and becomes a dash in the other |
| Slugs.CandidatesDiffer | src/customer/services/knowledge-base.service.ts:1381 | Different numbers give different candidates |
| Slugs.TriedBound | src/customer/services/knowledge-base.service.ts:1367-1383 | No more candidates can be taken than there are taken slugs |
| Slugs.FirstFree | src/customer/services/knowledge-base.service.ts:1367-1383 | The endless loop ends within one more lookup than there are taken slugs, with the first free slug of base, base-1, base-2, ... |
| Slugs.UniqueArticleSlug | src/customer/services/knowledge-base.service.ts:1358-1384 | The result is free; an empty base counts as `article` |
| Slugs.UniqueOrganizationSlug | src/platform-admin/platform-admin.service.ts:1371-1385 | The result is free, and in normal form if and only if something of the name is left |
| KnowledgeBase.Service.Create | src/customer/services/knowledge-base.service.ts:352-434 | Refuses a blank title or content; otherwise adds one article on a free slug with its text as version 1 and zero counters, and touches no other row |
| KnowledgeBase.CreateStores | src/customer/services/knowledge-base.service.ts:352-409 | Field by field: trimmed title, given content, status, visibility and comments or their defaults, publication date exactly if created as published, the first free slug of the given slug or the title |
| KnowledgeBase.Service.Update | src/customer/services/knowledge-base.service.ts:436-528 | Appends the old text to the history and applies the given fields, or reports a slug conflict or a missing article and changes nothing |
| KnowledgeBase.UpdateStores | src/customer/services/knowledge-base.service.ts:443-511 | Field by field: what is given is stored, what is not stays, the text before becomes one more version, the publication date is set exactly with the first publication, the slug is the given one, the first free one of a new title, or the old one; no other article, no vote and no id changes |
| KnowledgeBase.StatusStores | src/customer/services/knowledge-base.service.ts:576-668 | Publishing, archiving and restoring an article of the own organization set its status, publishing also the date unless there is one, and nothing else |
| KnowledgeBase.DuplicateStores | src/customer/services/knowledge-base.service.ts:670-709 | A copy is a draft with the content, visibility and comments of the article, on the first free slug, without votes and history |
| KnowledgeBase.DeleteRemoves | src/customer/services/knowledge-base.service.ts:550-574 | Deleting takes the article and its votes and nothing else |
| KnowledgeBase.Service.VoteFor | src/customer/services/knowledge-base.service.ts:725-801 | Stores one vote per user and article and moves the counters by its deltas in one step, or changes nothing for a repeated vote |
| KnowledgeBase.VoteStores | src/customer/services/knowledge-base.service.ts:725-801 | Only published public articles take votes; the vote is stored as the user's only one, and the counters move from the old vote to the new one |
| KnowledgeBase.CommentStores | src/customer/services/knowledge-base.service.ts:803-833 | Only published public articles take comments, which are trimmed and added at the end |
| KnowledgeBase.RunKeepsInv | src/customer/services/knowledge-base.service.ts:352-833 | Over every run: counters equal the recounted votes, likes equals helpfulCount, versions are numbered 1, 2, ..., published articles have a publication date, slugs are unique within an organization |
| KnowledgeBase.VoteResponseIsRecount | src/customer/services/knowledge-base.service.ts:793-800 | The counts a voter is shown are the recounted votes: holding them at zero never changes one |
| KnowledgeBase.VoteCounts | src/customer/services/knowledge-base.service.ts:739-757 | A vote changes the recount by exactly the deltas added to the cached counters |
| KnowledgeBase.VotesAreReversible | src/customer/services/knowledge-base.service.ts:725-801 | Repeating a vote changes nothing, and changing one's mind back restores every counter and row |
| KnowledgeBase.RestoreUndoesArchive | src/customer/services/knowledge-base.service.ts:608-668 | Archiving and restoring gives back the same article if and only if it was published or a draft never published |
| KnowledgeBase.OnlyExplicitSlugsConflict | src/customer/services/knowledge-base.service.ts:463-472 | A call runs into the uniqueness constraint if and only if it is an update with an explicit slug another article has |
| KnowledgeBase.StepKeepsHistory | src/customer/services/knowledge-base.service.ts:443-528 | A call appends to the trail exactly if it is a successful update of the article, namely the text its arguments ask for, and never changes the history or a publication date already set |
| KnowledgeBase.HistoryIsComplete | src/customer/services/knowledge-base.service.ts:436-528 | Over every run that keeps an article, its history followed by its current text is what it started with followed by every edit, in order, each taken from the arguments of its update and the text before |
| KnowledgeBase.HistoryFromCreation | src/customer/services/knowledge-base.service.ts:352-528 | After any calls that keep a created article, version 1 is the text it was created with, and behind it the trail is that text followed by every edit, in order |
| FeedbackLifecycle.Service.GenerateForTicket | src/feedback/services/feedback-request.service.ts:36-116 | Returns the open request if there is one; adds and announces a pending one only for a usable form, a known customer and no completed request the form forbids to repeat |
| FeedbackLifecycle.ResolvesTo | src/feedback/services/feedback-request.service.ts:118-147 | The form is the default form if it is active, of the organization and not past its date, otherwise the oldest such satisfaction survey |
| FeedbackLifecycle.GenerateStores | src/feedback/services/feedback-request.service.ts:36-116 | Field by field: the pending request expires after seven days, or with the form if that is earlier |
| FeedbackLifecycle.Service.Find | src/feedback/services/feedback-request.service.ts:196-246 | Refuses foreign, completed, expired and unresolved requests in that order, expiring an overdue one on the way, fails if that fails, and opens a pending one |
| FeedbackLifecycle.FindStores | src/feedback/services/feedback-request.service.ts:196-246 | A request is ready exactly if it is the customer's own, pending or opened, not past its date and its ticket resolved; one past its date is expired, and no other row changes |
| FeedbackLifecycle.Service.SubmitForRequest | src/feedback/services/feedback-response.service.ts:68-156 | Adds a response and completes its request together, or adds none; a refused answer leaves the request opened |
| FeedbackLifecycle.SubmitStores | src/feedback/services/feedback-response.service.ts:68-156 | Accepted exactly if the request may be answered and the answers are valid; then one response is added and the request completed at that moment |
| FeedbackLifecycle.Service.SubmitForTicket | src/feedback/services/feedback-response.service.ts:461-511 | Adds one response without a request, unless the customer already answered a form that allows one response |
| FeedbackLifecycle.DirectStores | src/feedback/services/feedback-response.service.ts:461-511 | Accepted exactly for an active form before its date, the customer's own resolved ticket and valid answers, if the form allows several or none was given before |
| FeedbackLifecycle.Service.ExpireOverdue | src/feedback/services/feedback-request.service.ts:261-282 | The sweep expires one batch its query may return, up to the first failure, which leaves an expired row without its notice or audit entry; it reports the size of the batch exactly if nothing fails |
| FeedbackLifecycle.Service.SendReminders | src/feedback/services/feedback-request.service.ts:288-324 | The sweep reminds one batch its query may return, up to the first failure; it reports the size of the batch exactly if nothing fails |
| FeedbackLifecycle.ChangesAreExplained | src/feedback/services/feedback-request.service.ts:196-324 | In every call a row is expired only while open and past its date, completed only by its customer up to its date, and reminded of only while pending, three days old and before its date |
| FeedbackLifecycle.RunHasReasons | src/feedback/services/feedback-request.service.ts:36-353 | Over every run: a request is expired only if an earlier call read a clock past its date, and completed only by an earlier call of its customer whose clock had not passed it |
| FeedbackLifecycle.ExpirySweepIsComplete | src/feedback/services/feedback-request.service.ts:261-282 | If nothing fails a sweep leaves max(0, n - 200) of the n open requests in scope that are past their date |
| FeedbackLifecycle.ReminderSweepIsComplete | src/feedback/services/feedback-request.service.ts:288-324 | If nothing fails a sweep leaves max(0, n - 50) of the n forgotten requests in scope |
| FeedbackLifecycle.RunKeepsInv | src/feedback/services/feedback-request.service.ts:36-353 | Over every run: at most one open request per ticket and form, sentAt < expiresAt <= sentAt + 7 days, one response exactly for each completed request; for each expired one at most one expiry notice and audit entry, each of them missing exactly if its write failed; one reminder exactly if the row notes it, plus one for each note that failed |
| FeedbackLifecycle.RunFollows | src/feedback/services/feedback-request.service.ts:196-353 | From any moment of a run to any later one: completed and expired are final, identity and dates stay, nothing goes back to pending, a reminder once noted stays noted |
| FeedbackLifecycle.RunKeepsSingle | src/feedback/services/feedback-request.service.ts:43-55 | While a form disallows several responses, a ticket has at most one request for it that is open or completed |
| FeedbackLifecycle.TwoResponsesAtMost | src/feedback/services/feedback-response.service.ts:422-511 | While a form allows one response, over every run a customer leaves at most two for a ticket, and two if and only if a direct one came before the completion of a request |
| FeedbackLifecycle.SweepProgress | src/feedback/services/feedback-request.service.ts:271-281 | One sweep takes off the list the rows up to the first failure, the failed one included exactly if it was the notice or the audit entry that failed: min(200, n) of n overdue requests if nothing fails |
| FeedbackLifecycle.SweepsProgress | src/feedback/services/feedback-request.service.ts:261-282 | k sweeps at one clock reading in which nothing fails leave max(0, n - 200k) |
| FeedbackValidation.Validate | src/feedback/feedback-validation.util.ts:47-254 | Accepted if and only if ids are known and distinct, required questions are answered and every value fits its kind; the stored answers match the items one to one in order; a refusal names the first bad item or a missing required question |
| FeedbackValidation.FindsQuestion | src/feedback/feedback-validation.util.ts:47-70 | An id stands for the last question of the form that has it |
| FeedbackValidation.ValidateItem | src/feedback/feedback-validation.util.ts:63-238 | One round accepts exactly the values that fit the question and stores them as the kind demands |
| FeedbackValidation.RequiredMeansNonEmpty | src/feedback/feedback-validation.util.ts:80-96 | In an accepted submission every required question has a non-empty answer |
| FeedbackValidation.RatingsInScale | src/feedback/feedback-validation.util.ts:200-227 | Every stored rating is whole and within the scale of a rating question with that key |
| FeedbackValidation.MetricsAreThoseOfItems | src/feedback/feedback-validation.util.ts:222-225 | With distinct keys the ratings map holds exactly what the items contribute |
| FeedbackValidation.OrderDoesNotMatter | src/feedback/feedback-validation.util.ts:47-254 | Permuting the items changes neither acceptance nor, with distinct keys, the ratings |
| FeedbackValidation.EmailIsRegex | src/feedback/feedback-validation.util.ts:25 | The address test accepts exactly the texts with a split that the regular expression describes |
| AuthTokens.Service.Verify | src/auth/auth.service.ts:306-420 | Consumes a usable link, verifies and activates its user and adds one token; otherwise changes nothing, whether or not the user is verified |
| AuthTokens.VerifyStores | src/auth/auth.service.ts:306-420 | Field by field: only an unused link before its time is consumed; its user is verified and active and gets a token for seven days |
| AuthTokens.Service.ResendVerification | src/auth/auth.service.ts:422-459 | Gives an unverified user a new link; verified and unknown users change nothing |
| AuthTokens.ResendStores | src/auth/auth.service.ts:422-459 | An unverified user gets a new token and one hour; whether the link was used stays, and nothing else changes |
| AuthTokens.Service.UpsertLink | src/auth/email-verification.service.ts:9-26 | An existing link gets a new token and expiry and keeps its `usedAt`; otherwise a fresh link is made |
| AuthTokens.Service.RegisterOrganization | src/auth/auth.service.ts:34-123 | Adds an unverified user with a link and takes the organization's slug, or reports a conflict and changes nothing when the address or the slug is taken |
| AuthTokens.RegisterStores | src/auth/auth.service.ts:34-123 | A new address with a new slug gives an unverified user with a link for one hour; anything else is a conflict |
| AuthTokens.OneRegistrationPerSlug | src/auth/auth.service.ts:35-122 | In no run do two organizations whose names give the same slug both register |
| AuthTokens.Service.SignIn | src/auth/auth.service.ts:148-205 | The method opens a session exactly for a verified, active user with the right password |
| AuthTokens.LogInStores | src/auth/auth.service.ts:148-205 | A session needs the right password of a verified and active user, and lasts seven days, thirty if the user asks to be remembered; an unknown address and a wrong password are answered alike |
| AuthTokens.Service.Rotate | src/auth/auth.service.ts:207-242 | The method revokes the presented token and adds its successor, or refuses and changes nothing |
| AuthTokens.RefreshStores | src/auth/auth.service.ts:207-242 | Only a stored token that is neither revoked nor past its time is exchanged, for one of the same user that lasts seven days |
| AuthTokens.Service.SignOut | src/auth/refresh-token.service.ts:59-64 | The method revokes the presented token if it was live, and nothing else |
| AuthTokens.RevocationsStore | src/auth/refresh-token.service.ts:59-64 | Signing out revokes at most the token presented; a log-out forced by an administrator revokes exactly the live tokens of the user |
| AuthTokens.AdministrationStores | src/platform-admin/platform-admin.service.ts:551-695 | What administrators create is verified and active; a taken address is refused unless it is the user's own; status, address and verification change nothing else of the user |
| AuthTokens.RunKeepsInv | src/auth/auth.service.ts:306-459 | Over every run: a used link means a verified user, each user has one session from a link exactly if the link was used, a token and its successor name each other and share their owner, tokens belong to verified users |
| AuthTokens.OneSessionPerVerification | src/auth/auth.service.ts:381-399 | Over any run no user gets two sessions from verification links |
| AuthTokens.VerifyOpensSession | src/auth/auth.service.ts:314-385 | A link opens a session if and only if it is unused and not expired; the final status check never stops one |
| AuthTokens.NoReplayOfLinks | src/auth/auth.service.ts:333-386 | A link that opened a session never opens another, at any later point of a run |
| AuthTokens.ResentLinkWorks | src/auth/email-verification.service.ts:9-26 | A link resent to an unverified user is usable although `usedAt` is kept: within the hour, whatever other calls happen meanwhile, it verifies the user and opens a session |
| AuthTokens.RunFollows | src/auth/refresh-token.service.ts:36-64 | Over any stretch of a run, verified users stay verified, used links and revoked tokens never change again |
| AuthTokens.NoReplayOfTokens | src/auth/auth.service.ts:207-232 | A token that was exchanged is refused for the rest of the run, so it has at most one successor |
| AuthTokens.RefreshConserves | src/auth/refresh-token.service.ts:54-57 | Rotation leaves the number of live tokens and of sessions as it was; the new token is honoured for exactly seven days |
| AuthTokens.RefreshSucceeds | src/auth/refresh-token.service.ts:36-52 | A rotation succeeds if and only if the token is known, not revoked and not past its time; the user's status is not asked |
| AuthTokens.SessionsAreConserved | src/auth/refresh-token.service.ts:21-64 | Over any run, live tokens plus ended sessions are the sessions opened |
| AuthTokens.SessionIsAChain | src/auth/refresh-token.service.ts:54-57 | Of two tokens of one session the earlier was exchanged, at the latest for the later one |
| AuthTokens.OneLiveTokenPerSession | src/auth/refresh-token.service.ts:54-64 | A session never has two live tokens |
| Announcements.Service.PublishNow | src/notifications/services/announcement.service.ts:93-190 | Publishes and broadcasts a draft or scheduled announcement, and otherwise changes nothing; a failure changes nothing, leaves it published and not broadcast, or leaves it published and broadcast, depending on whether it comes before the status, before the notices or behind them |
| Announcements.PublishStores | src/notifications/services/announcement.service.ts:93-190 | Field by field: only drafts and scheduled announcements the caller may touch are published, at that moment and without their time; each refusal has its own answer |
| Announcements.Service.CreateAnnouncement | src/notifications/services/announcement.service.ts:53-91 | Adds a scheduled or a published announcement of the caller's organization, and broadcasts neither |
| Announcements.CreateStores | src/notifications/services/announcement.service.ts:53-91 | Only administrators create; those of the platform without an organization, others for their own; with a time as scheduled, otherwise as published at once |
| Announcements.Service.UpdateAnnouncement | src/notifications/services/announcement.service.ts:212-280 | Lets a published announcement only expire or be cancelled, applies the given fields, and broadcasts nothing even when it publishes |
| Announcements.UpdateStores | src/notifications/services/announcement.service.ts:212-280 | Field by field: given dates are stored, a draft with a new time becomes scheduled, a given final status is taken over, and nothing else changes |
| Announcements.Service.PublishDue | src/notifications/services/announcement.service.ts:319-350 | The sweep publishes one batch its query may return, catches what fails, and counts what succeeds; the count is the number of broadcasts it made if and only if nothing failed behind its notices, and less otherwise |
| Announcements.SweepIsComplete | src/notifications/services/announcement.service.ts:319-350 | The sweep changes only scheduled rows whose time has come, and if nothing fails before it is stored leaves max(0, n - 50) of n of them |
| Announcements.BroadcastsHaveReason | src/notifications/services/announcement.service.ts:93-350 | Whatever is broadcast was a draft or scheduled, and was published by a caller who may, or by the sweep after its time had come |
| Announcements.Service.ExpirePast | src/notifications/services/announcement.service.ts:307-316 | Expires every published announcement past its time in one step and reports how many |
| Announcements.RemovalStores | src/notifications/services/announcement.service.ts:282-316 | Removing takes one row; the expiry sweep changes exactly the published rows past their date |
| Announcements.PublishAllIs | src/notifications/services/announcement.service.ts:328-347 | The batch loop publishes exactly the rows that do not fail at once and broadcasts exactly those that get to send their notices, once each |
| Announcements.StepBroadcasts | src/notifications/services/announcement.service.ts:93-190 | A step broadcasts an announcement if and only if it tries to publish it from draft or scheduled and gets as far as sending the notices |
| Announcements.RunKeepsInv | src/notifications/services/announcement.service.ts:53-350 | Over every run from any table whose published rows are dated (`Announcements.AnyTableIsFine`): at most one broadcast each, what was broadcast is no longer pending, published announcements have a publication date |
| Announcements.AtMostOnce | src/notifications/services/announcement.service.ts:93-350 | No two steps of any run broadcast the same announcement |
| Announcements.SpentForGood | src/notifications/services/announcement.service.ts:212-280 | Once neither draft nor scheduled, or removed, an announcement is never broadcast again, not even when set from expired back to published |
| Announcements.BroadcastsAreHits | src/notifications/services/announcement.service.ts:93-350 | The broadcasts on record are exactly the attempts to publish pending announcements that got as far as sending the notices |
| Announcements.ImmediateIsNeverBroadcast | src/notifications/services/announcement.service.ts:67-88 | An announcement created for immediate publication is never broadcast in any run |
| Announcements.SweepsProgress | src/notifications/services/announcement.service.ts:319-350 | k sweeps at one clock reading leave max(0, n - 50k) of n due announcements, as long as none fails before it is stored |
| Announcements.FailedStaysDue | src/notifications/services/announcement.service.ts:341-346 | A failed announcement is left for the next sweep if and only if it failed before its status was stored |
| Announcements.AttemptDecides | src/notifications/services/announcement.service.ts:114-173 | Whatever follows in a run, an announcement whose status an attempt stored has been broadcast once if the attempt sent its notices, whether or not it failed behind them, and never if it failed before |
| Announcements.StaysInOrganization | src/notifications/services/announcement.service.ts:384-396 | A caller who is no platform administrator never changes another organization's announcement |

## Left out

- Controllers, guards, DTO decorators, gateways, health checks, configuration and seeds: wiring without an algorithm.
- Overlapping calls: `markCompleted` is unconditional and a refresh verifies before it revokes, so interleaved calls break some invariants; only whole calls are steps here.
- The object section of the second PDF writer (src/dashboard/utils/pdf.util.ts:336-378): its offsets are taken behind the object header and its streams have no dictionary, so there is no correct table to prove.
- PdfPages.BuildPages: pages are lists of operators with their operands; the spelling of an operator is not modelled, and the default date of the header is a parameter.
- PdfWrap.TextWidth: the two width tables are data; of their entries only the absence of ties at the page width is proved.
- Workbook markup of the two spreadsheet writers around their cells: fixed text.
- The single-column output of `toCsv` whose last cell is empty cannot be told from a shorter one; it is read back with the last line end restored. `csvBuffer` only adds the byte-order mark.
- TimeSeries.BuildBuckets: daylight saving time and locale are not modelled; invalid dates neither.
- Trends.RevenueByPlan: rounding to two decimals is left out, because amounts are whole cents.
- FeedbackValidation.Validate: numbers are reals, so NaN, infinities and rounding of number parsing are not modelled; the error message is reduced to the item it is about. An item that is missing is one with an empty id, and a question's scale is the text `String` makes of it.
- FeedbackLifecycle.RunKeepsInv: editing responses, attachments, comments, and deletion of forms, tickets and users are not steps. Failing writes of generation and submission are not modelled: a completion that fails behind its response would leave the request open with a response. The ticket's state and the validity of the answers are parameters of a submission.
- KnowledgeBase.RunKeepsInv: excerpt, category, tags, attachments, related articles and search metadata are not modelled, nor views. An article is addressed by its row id; the code also accepts its slug.
- KnowledgeBase.StepKeepsHistory: a version's status, category and author are not kept.
- AuthTokens.RunKeepsInv: password reset, access tokens, session records and deletion of users are left out; SHA-256 and bcrypt are represented by digests and the outcome of the comparison.
- Escaping.XmlRoundTrip: character references and other entities, which the writers never make, are not part of the reader.
- Announcements.RunKeepsInv: title, body, audience and recipients are not modelled; a broadcast means that the notices of the recipients were stored and emitted. Whether the organization-wide push that follows them (src/notifications/services/announcement.service.ts:140-149) was still made before a failure is not recorded. The platform administrator's own announcement calls (src/platform-admin/platform-admin.service.ts:1039-1160) write columns the announcement table does not have.
- Subscription, payment, usage and ticket services, dashboards' percentages, pagination helpers, quiet hours and role checks: one-branch facts.
