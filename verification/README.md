# Kar Detailing booking core in Dafny

This project models the decision logic of the Kar Detailing web application, a car-detailing shop's
booking site. It covers seven parts:

- **Self-assessment** (`SelfAssess`). Customers answer five interior and five exterior questions.
  The worst category answered in a section (Severe, Moderate or Light) becomes the recommendation.
  A quote comes from the shop's price table.
- **Booking form** (`BookingForm`). A self-assessment suggestion pre-selects one service option
  and pre-fills the price. Without a suggestion, all nine severity/type options are offered.
- **Feedback form** (`Feedback`). A rating and comment are validated and trimmed before posting.
  The form resets after a successful post. Stars are filled up to the rating.
- **Admin calendar** (`Calendar`). Bookings are grouped by day, days ascending and bookings by time.
  The page also has a search and status filter, completed/pending tallies, and the local update
  after "mark done".
- **Booking routes** (`Ledger`). Covers the bearer-token guard, creating a booking (always
  "Pending"), listing all bookings newest date first, and the admin-only "Completed" transition.
- **Account routes** (`Accounts`). Covers register, login with a session token set as a cookie,
  logout, and profile lookup.
- **JavaScript behaviour** (`Text`, `Seqs`, `Sorting`). Models the string and array behaviour the
  code relies on: `trim`, `length` in UTF-16 units, `toLowerCase`, `includes`, `split(sep)[0]`,
  `filter`, and the stable `sort` by a string field.

The model has no I/O. A request is a function from the stored state and the request's inputs to
the new state and the reply. The reply is an HTTP status plus either an error message or a payload.
Random values are parameters: the bcrypt salt, the session token from `crypto.randomBytes`, and
booking ids. Server answers seen by the pages are parameters too.

## Model

| member | source | states |
|---|---|---|
| SelfAssess.Questions | client/src/pages/SelfAssessPage.jsx:4-98 | Each section has five questions with three options each, ordered Light, Moderate, Severe. |
| SelfAssess.SomeAnsweredWith | client/src/pages/SelfAssessPage.jsx:170-173 | `questions.some(...)`: true exactly when some question from the start index on is answered with an option of the given category. |
| SelfAssess.FirstPresent | client/src/pages/SelfAssessPage.jsx:169-176 | The loop over `categoryOrder` returns None exactly when no listed category is answered; otherwise it returns a category of the order that is answered. |
| SelfAssess.MostSevere | client/src/pages/SelfAssessPage.jsx:166-177 | `getMostSevere` is null exactly when nothing in the section is answered. Otherwise it is a category actually answered there, and no answered question is more severe. |
| SelfAssess.FirstPresentIsMostSevere | client/src/pages/SelfAssessPage.jsx:166-177 | Scanning Severe, Moderate, Light for the first answered category yields the worst answered category. |
| SelfAssess.MaxCategory | client/src/pages/SelfAssessPage.jsx:166 | The more severe of two optional categories: one of the two, and None only when both are. |
| SelfAssess.MostSevereDependsOnSectionOnly | client/src/pages/SelfAssessPage.jsx:171 | Only the answers keyed by the section's own prefix affect its result. |
| SelfAssess.Select | client/src/pages/SelfAssessPage.jsx:185-190 | `handleSelect` sets exactly the key `section_qIdx` to the option and keeps every other answer. |
| SelfAssess.SelectPreservesValidity | client/src/pages/SelfAssessPage.jsx:185-190 | Selecting an existing option of an existing question keeps every answer pointing at an existing option. |
| SelfAssess.SelectMoreSevereNeverLowers | client/src/pages/SelfAssessPage.jsx:168-190 | Re-answering with an option at least as severe never lowers the section's worst category. |
| SelfAssess.AnsweredCountBounded | client/src/pages/SelfAssessPage.jsx:225-226 | The number of answer keys never exceeds the ten questions, so progress stays at most 100%. |
| SelfAssess.FindIn | client/src/pages/SelfAssessPage.jsx:201 | `categoryOrder.find(...)` is None exactly when neither side's category is listed; otherwise it is the first listed category equal to one of them. |
| SelfAssess.FindInIsMax | client/src/pages/SelfAssessPage.jsx:200-201 | When either side has a category, the find returns the more severe of the two. |
| SelfAssess.Recommended | client/src/pages/SelfAssessPage.jsx:192-203 | Interior-only and exterior-only services use their own section's worst category. Full service uses the worse of the two sections. |
| SelfAssess.TablePrice | client/src/pages/SelfAssessPage.jsx:100-104 | Interior prices are 400/800/2000 and exterior prices are 400/900/1500. Light is 400 on both sides. |
| SelfAssess.PricesRiseWithSeverity | client/src/pages/SelfAssessPage.jsx:100-104 | On each side a more severe category costs strictly more. With the price sets and Light at 400 this pins the table: Light/Moderate/Severe cost 400/800/2000 inside and 400/900/1500 outside. |
| SelfAssess.Price | client/src/pages/SelfAssessPage.jsx:205-222 | There is a price exactly when there is a recommendation. A single-side quote is that side's table price at the recommended category. A full-service quote adds each answered side's price at that side's own worst category; with one side answered, it is that side's price. Every price lies between 400 and 3500. |
| SelfAssess.OneAnswerSuffices | client/src/pages/SelfAssessPage.jsx:192-222 | One answered question in a section the service covers gives both a recommendation and a price. |
| SelfAssess.EmptyAnswersIncomplete | client/src/pages/SelfAssessPage.jsx:176 | With no answers there is neither a recommendation nor a price. |
| SelfAssess.InteriorWorstExample | client/src/pages/SelfAssessPage.jsx:192-218 | Interior answers Light, Severe, Light, Light, Moderate give Severe and 2000. |
| SelfAssess.BothUsesOwnCategoriesExample | client/src/pages/SelfAssessPage.jsx:198-211 | Interior Moderate with exterior Severe recommends Severe but quotes 800 + 1500 = 2300, not 3500. |
| BookingForm.OptionsRow | client/src/pages/BookingPage.jsx:80-87 | The inner loop builds one option per service type, in the order of `serviceTypeLabels`. |
| BookingForm.OptionsGrid | client/src/pages/BookingPage.jsx:78-89 | The nested loops put option `i` at severity `i / 3` and type `i % 3`. |
| BookingForm.DropdownOptions | client/src/pages/BookingPage.jsx:65-90 | A suggestion gives one option carrying its category and type. Otherwise there are nine options, severity-major. Every option's value and label are "severity label (type label)". |
| BookingForm.EveryPairOffered | client/src/pages/BookingPage.jsx:78-89 | Without a suggestion, every (severity, type) pair is offered. |
| BookingForm.OptionLabelInjective | client/src/pages/BookingPage.jsx:35-45 | Different (severity, type) pairs get different option labels. |
| BookingForm.DropdownValuesDistinct | client/src/pages/BookingPage.jsx:65-90 | No two dropdown options share a value. |
| BookingForm.GridIndexInjective | client/src/pages/BookingPage.jsx:79-80 | Distinct grid positions hold distinct (severity, type) keys. |
| BookingForm.FindByValue | client/src/pages/BookingPage.jsx:187 | `find` returns the first option whose value equals the service. It returns none exactly when no option has that value. |
| BookingForm.SelectedServiceInfo | client/src/pages/BookingPage.jsx:186-187 | An empty service selects nothing. Otherwise the result is an option with that value, present whenever one exists. |
| BookingForm.Set | client/src/pages/BookingPage.jsx:140 | Writing one form field leaves the other five unchanged. |
| BookingForm.HandleChange | client/src/pages/BookingPage.jsx:139-142 | `handleChange` writes only the named field. It clears the price exactly when the field is the service. |
| BookingForm.Decimal | client/src/pages/BookingPage.jsx:135 | A number's decimal text is non-empty digits with no leading zero. |
| BookingForm.DecimalRoundTrip | client/src/pages/BookingPage.jsx:135 | Reading the decimal text back gives the number. |
| BookingForm.PriceText | client/src/pages/BookingPage.jsx:135 | The price text is "₱" followed by decimal digits that read back as the price, with no leading zero. |
| BookingForm.ApplySuggestion | client/src/pages/BookingPage.jsx:128-137 | The prefill selects the suggested option's value and changes no other field. The price stays empty exactly when the suggested price is missing or 0; otherwise it is "₱" and that price's digits, with no leading zero. |
| BookingForm.SuggestionIsSelected | client/src/pages/BookingPage.jsx:128-137 | After the prefill, the details lookup finds the suggested option. |
| BookingForm.LabelSelectsItsPair | client/src/pages/BookingPage.jsx:65-90 | Choosing a pair's label selects the option for exactly that severity and type. |
| Feedback.Validate | client/src/pages/FeedbackPage.jsx:59-71 | A missing rating or blank comment is rejected as missing. Otherwise more than 200 UTF-16 units of untrimmed comment is rejected as too long. A submission is accepted exactly when the rating is given, the comment is not blank and it has at most 200 units; the post then carries the same rating and the trimmed, non-empty comment. |
| Feedback.Submit | client/src/pages/FeedbackPage.jsx:53-82 | A rejection posts nothing and shows its message. An accepted post that succeeds resets the form to rating 5 and an empty comment. A failed post keeps the input and shows an error. |
| Feedback.DisabledIffBlankWhenIdle | client/src/pages/FeedbackPage.jsx:328 | While idle, the button is disabled exactly when validation would reject the comment as missing. |
| Feedback.EnabledWithinLimitAccepted | client/src/pages/FeedbackPage.jsx:59-71 | An enabled button with a rating and a comment within the limit always passes validation. |
| Feedback.Stars | client/src/pages/FeedbackPage.jsx:119-141 | Five stars are drawn, and star `k` is filled exactly when `k <= rating`. |
| Feedback.StarPrefix | client/src/pages/FeedbackPage.jsx:97-106 | Each of the first `n` stars is filled exactly when its number is at most the rating. |
| Feedback.StarPrefixCount | client/src/pages/FeedbackPage.jsx:97-106 | Among the first `n` stars, the rating clamped to 0..n are filled. |
| Feedback.FilledStarsCount | client/src/pages/FeedbackPage.jsx:119-141 | Exactly `rating` stars are filled for ratings 1 to 5, none below and all five above. |
| Feedback.RatingStaysInRange | client/src/pages/FeedbackPage.jsx:31-82 | Starting at 5, only star clicks change the rating, and a successful post resets it to 5. So it stays within 1..5 and is never falsy. |
| Accounts.CompareMatchesOnlyOwnPassword | api/routes/auth.js:16-36 | A stored hash matches its own password and no other. |
| Accounts.FindByEmail | api/routes/auth.js:13 | `findOne({ email })` returns the first user with that email, and none exactly when no user has it. |
| Accounts.FindByToken | api/routes/auth.js:61 | `findOne({ token })` returns the first holder of the token, and none exactly when nobody holds it. |
| Accounts.FindByTokenUnique | api/routes/auth.js:77 | When tokens are unique, the lookup finds the one holder. |
| Accounts.Register | api/routes/auth.js:8-25 | A missing field gives 400 "All fields required.". A taken email gives 400 "Email already exists.". Otherwise exactly one user is appended with a hash of the password, and 201 is returned. Refusals change nothing; ids and emails stay unique. |
| Accounts.Login | api/routes/auth.js:28-55 | Login succeeds exactly when both fields are given, the email is registered and the password matches that user's hash. An unknown email and a wrong password get the same 400 and change nothing. Success stores the new token on that user only and sets the same cookie. |
| Accounts.Logout | api/routes/auth.js:58-69 | The reply is always "Logged out". A held token is cleared from its first holder only; otherwise nothing changes. |
| Accounts.GetProfile | api/routes/auth.js:72-85 | No cookie gives 401 "Not logged in"; an unknown token gives 401 "Invalid session". Otherwise the holder is returned without the password hash. |
| Accounts.RegisterThenLogin | api/routes/auth.js:8-55 | A fresh registration can log in with the same password. |
| Accounts.RegisterTwiceRefused | api/routes/auth.js:13-14 | Registering an email a second time is refused. |
| Accounts.LoginThenProfile | api/routes/auth.js:39-80 | After login, the cookie's token retrieves the same user's profile. |
| Accounts.LogoutThenProfileRefused | api/routes/auth.js:58-78 | After logout, the old token no longer opens a session. |
| Ledger.SecondField | api/routes/bookings.js:12 | `split(" ")[1]` is absent exactly when the header has no space. Otherwise it is the text between the first space and the next space or the end. |
| Ledger.Authenticate | api/routes/bookings.js:6-29 | A missing or empty header gives "Missing token", and an absent or empty second field gives "No token provided". Access is granted exactly when some user holds that token, as that user; otherwise the message is "Invalid token". |
| Ledger.Create | api/routes/bookings.js:31-51 | Unauthenticated requests get 401 and change nothing. Otherwise exactly one booking is added under a new id, with the body fields copied, the caller as owner and status "Pending". |
| Ledger.WithStatus | api/routes/bookings.js:57-60 | Defaulting the status to "Pending" changes only the status, and only when it is missing or empty. |
| Ledger.UpTo | api/routes/bookings.js:55 | Collects each stored booking exactly once. |
| Ledger.Listing | api/routes/bookings.js:55-60 | Every stored booking appears, with its status defaulted, and nothing else. The list is exactly as long as the collection, so each booking appears once. It is sorted by date, newest first. |
| Ledger.List | api/routes/bookings.js:53-67 | Unauthenticated requests get 401. Any authenticated user gets every booking exactly once, sorted newest first, with no status missing. |
| Ledger.MarkCompleted | api/routes/bookings.js:69-88 | A non-admin gets 403 before any lookup, and an unknown id gets 404. Otherwise only that booking's status becomes "Completed" and the reply says so. Refusals change nothing. |
| Ledger.MarkCompletedIdempotent | api/routes/bookings.js:80-81 | Marking completed twice gives the same store as marking once. |
| Ledger.CreatedBookingIsListed | api/routes/bookings.js:31-62 | A new booking appears in the listing as "Pending". |
| Ledger.CompletedBookingIsListedCompleted | api/routes/bookings.js:53-83 | After marking, the listing shows the booking as "Completed". |
| Calendar.Days | client/src/pages/CalendarPage.jsx:47-54 | The grouping object's keys: every booking's day, each only once, and no other. |
| Calendar.SortedDays | client/src/pages/CalendarPage.jsx:57 | The distinct days, strictly ascending. |
| Calendar.DayNonEmpty | client/src/pages/CalendarPage.jsx:50-53 | A day some booking falls on has at least one booking in its group. |
| Calendar.GroupByDateWith | client/src/pages/CalendarPage.jsx:46-64 | Days are strictly ascending, and each booking's day is present. Each day has at least one booking, sorted by the time key, and holds exactly that day's bookings. |
| Calendar.DayIsStable | client/src/pages/CalendarPage.jsx:60 | Bookings with equal time keys keep their original order within a day. |
| Calendar.TotalPermutation | client/src/pages/CalendarPage.jsx:57 | Reordering the days does not change the bookings gathered from them. |
| Calendar.DaysCoverAll | client/src/pages/CalendarPage.jsx:47-54 | Gathering the bookings day by day over the distinct days gives back every booking exactly as often as it occurs. |
| Calendar.GroupedIsPermutation | client/src/pages/CalendarPage.jsx:46-64 | The days of the calendar, taken together, are a permutation of the bookings it was given. |
| Calendar.ClockKeyOrder | client/src/pages/BookingPage.jsx:29-33 | The 24-hour key of two form times is ordered exactly as their minutes after midnight. |
| Calendar.GroupByDate | client/src/pages/CalendarPage.jsx:60 | Corrected grouping: within a day, form times appear in chronological order. |
| Calendar.GroupByDateAsWritten | client/src/pages/CalendarPage.jsx:60 | As written: within a day, bookings are ordered by the text of their times. |
| Calendar.AsWrittenAfternoonFirst | client/src/pages/CalendarPage.jsx:60 | As written, a 1 PM booking is listed before a 5 AM booking on the same day. |
| Calendar.CorrectedEarlyFirst | client/src/pages/CalendarPage.jsx:60 | Corrected, the 5 AM booking comes first. |
| Calendar.TwoListed | client/src/pages/CalendarPage.jsx:60 | Two same-day bookings with strictly ordered keys are listed smaller key first. |
| Calendar.FilteredBookings | client/src/pages/CalendarPage.jsx:101-113 | A booking is visible exactly when it matches the search and the status filter. Order is kept. |
| Calendar.EmptySearchShowsAll | client/src/pages/CalendarPage.jsx:101-113 | With an empty search and "all", nothing is hidden. |
| Calendar.SearchIgnoresCase | client/src/pages/CalendarPage.jsx:103-105 | Lower-casing the search term does not change what matches. |
| Calendar.CalendarView | client/src/pages/CalendarPage.jsx:100-114 | As the page does it: the days ascend, and every filtered booking's day is listed. Each day is the day of some filtered booking and holds exactly the filtered bookings of that day, ordered by the text of their times. The days together hold exactly the filtered bookings, each as often as the filter keeps it. |
| Calendar.CorrectedCalendarView | client/src/pages/CalendarPage.jsx:100-114 | The corrected page: the same days, each holding exactly the filtered bookings of that day, with form times within a day in chronological order. |
| Calendar.PendingCount | client/src/pages/CalendarPage.jsx:116-118 | Pending plus completed equals the total, and pending counts exactly the bookings not marked "Completed". |
| Calendar.TalliesMatchFilters | client/src/pages/CalendarPage.jsx:107-118 | The "completed" filter shows exactly the completed tally, and the "pending" filter shows at most the pending tally. They are equal when every status is absent, empty, "Pending" or "Completed". |
| Calendar.MarkDone | client/src/pages/CalendarPage.jsx:87-98 | After success, each booking with that id shows "Completed" and nothing else changes. After failure, only the error banner changes. |
| Calendar.MarkDoneIdempotent | client/src/pages/CalendarPage.jsx:90-94 | Marking the same booking done twice shows the same list as once. |
| Calendar.MarkDoneRaisesTally | client/src/pages/CalendarPage.jsx:90-117 | The completed tally rises by the number of bookings with that id that were not yet completed. |
| Calendar.MarkDoneCountsOne | client/src/pages/CalendarPage.jsx:90-118 | With unique ids, marking a pending booking moves exactly one from pending to completed. |
| Text.Trim | client/src/pages/FeedbackPage.jsx:59 | `trim()` removes exactly the leading and trailing JavaScript white space and keeps the middle. |
| Text.TrimEmptyIffAllSpace | client/src/pages/FeedbackPage.jsx:59 | A comment trims to empty exactly when it is all white space. |
| Text.TrimIdempotent | client/src/pages/FeedbackPage.jsx:71 | Trimming twice is trimming once. |
| Text.Utf16Length | client/src/pages/FeedbackPage.jsx:64 | `length` counts UTF-16 units: a single character counts two beyond the BMP and one otherwise, and the count lies between the number of characters and twice it. |
| Text.Utf16LengthAppend | client/src/pages/FeedbackPage.jsx:64 | The UTF-16 length of a concatenation is the sum of the lengths; with the single-character case this fixes the count of every text. |
| Text.TrimShortens | client/src/pages/FeedbackPage.jsx:64-71 | Trimming never makes a comment longer. |
| Text.Lower | client/src/pages/CalendarPage.jsx:103 | Every upper-case ASCII letter is lowered, and the length is kept. |
| Text.LowerIdempotent | client/src/pages/CalendarPage.jsx:103-105 | Lowering twice is lowering once. |
| Text.Contains | client/src/pages/CalendarPage.jsx:103-105 | `includes` is true exactly when the needle occurs at some position. |
| Text.ContainsEmpty | client/src/pages/CalendarPage.jsx:103 | Every text includes the empty string. |
| Text.Before | client/src/pages/CalendarPage.jsx:49 | `split(sep)[0]`: the longest prefix without the separator. |
| Text.StrLeTotal | client/src/pages/CalendarPage.jsx:57-60 | Any two texts are comparable. |
| Text.StrLeAntisymmetric | client/src/pages/CalendarPage.jsx:57 | Texts ordered both ways are equal. |
| Text.StrLeTransitive | client/src/pages/CalendarPage.jsx:57-60 | The text order is transitive. |
| Seqs.Filter | client/src/pages/CalendarPage.jsx:101 | `filter` keeps an order-preserving selection of elements that pass. |
| Seqs.FilterCounts | client/src/pages/CalendarPage.jsx:117 | Every passing element is kept as often as it occurs, and the others are dropped. |
| Seqs.FilterPartition | client/src/pages/CalendarPage.jsx:116-118 | Complementary filters split a list into two parts whose sizes add up. |
| Sorting.InsertBy | client/src/pages/CalendarPage.jsx:60 | Inserting into a sorted list keeps it sorted and adds exactly the element. |
| Sorting.SortBy | client/src/pages/CalendarPage.jsx:60 | Sorting gives a sorted permutation of the input. |
| Sorting.SortByStable | client/src/pages/CalendarPage.jsx:60 | Elements with equal keys keep their relative order. |
| Sorting.SortDescBy | api/routes/bookings.js:55 | A descending sort gives a permutation sorted newest first. |

## Left out

- The 500 replies of every route (database or hashing failures) are not modelled. The model has no failing database.
- Cookie options (`httpOnly`, `sameSite`, the seven-day `maxAge`) and `clearCookie` are transport details. Only the cookie's value is modelled.
- Accounts.CompareMatchesOnlyOwnPassword: bcrypt is idealised as collision-free, and the cost of 10 is recorded, not computed. bcryptjs hashes only the first 72 bytes of a password, so two passwords that agree on their first 72 bytes match the same hash; the "and no other" half does not hold for such long passwords.
- Request fields and cookies are modelled as strings. An Express JSON body can carry an object such as `{"$ne": null}` for `email`, and a `j:`-prefixed cookie parsed by cookie-parser can carry one for `token`; `findOne({ email })` and `findOne({ token })` (api/routes/auth.js:13, 33, 61, 77; api/routes/bookings.js:18) would treat it as a query operator. The model does not cover such non-string inputs.
- The session token (`crypto.randomBytes(32)`), the salt and booking ids are parameters. Ledger.Create uses a counter for fresh ids instead of Mongo ObjectIds. A malformed id's cast error (a 500) is not modelled.
- The User and Booking schemas (`api/models`) are not part of this model, so schema validation is not modelled. Accounts.Register assumes the User schema's defaults for what `new User({ email, password })` leaves out: no token, not an admin, and an empty profile.
- Ledger.Listing: Mongo's `sort({ date: -1 })` leaves the order of equal dates unspecified; the model fixes one order. Dates are compared as text, which matches for ISO dates.
- Calendar.SortedDays: days are compared as text, not with `new Date(a) - new Date(b)`. The two orders agree for ISO `YYYY-MM-DD` days; invalid dates (a NaN comparator) are not modelled.
- Calendar.GroupByDateAsWritten: `localeCompare` is modelled as character-code order. The two agree on the form's "hh:mm AM" times.
- Text.Lower: `toLowerCase` is modelled for ASCII letters only.
- Text.StrLeTotal: text order compares code points, which differs from JavaScript's UTF-16 order only for characters beyond the BMP.
- `Object.keys` puts integer-like keys first. Day keys from ISO dates are never integer-like, so this is not modelled.
- Progress percentages and the feedback average are floating point and are not modelled.
- `toLocaleDateString` date formatting, animations, and styles are not modelled.
- Timers that clear success messages are not modelled.
- Fetching bookings, feedback and the profile autofill are not modelled. The feedback server routes are not part of this model.
- The booking page's own `handleSubmit` is not modelled. Ledger.Create models what it posts.
- The client (`client/src/api.js`) sends cookies and never an `Authorization` header, while the booking routes read only that header. The model follows each file as written; the mismatch is noted, not modelled.

## Findings

| source | as written | input that shows it | evidently intended | confidence | as-written member | corrected member |
|---|---|---|---|---|---|---|
| client/src/pages/CalendarPage.jsx:60 | Each day's bookings are sorted with `a.time.localeCompare(b.time)` on "hh:mm AM/PM" texts. | Two bookings on one day at "05:00 AM" and "01:00 PM": the 1 PM booking is listed first. | Bookings in chronological order. | high, not executed | Calendar.AsWrittenAfternoonFirst | Calendar.GroupByDate |
