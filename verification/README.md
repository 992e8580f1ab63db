# Gandalf registration ledger in Dafny

This project models the registration ledger of Gandalf, an event-ticketing application. A
registration is one entrant's place in an access level (a ticket tier) of an event. The model
covers the following parts, each proved against its own specification:
- its money amounts, stored as integer cents;
- the payment code that matches bank-statement lines to a registration;
- the EAN-13 barcode printed on the ticket;
- the validations run on every save;
- the after-save guard that rolls back a save which overfills a tier;
- the notifications `deliver` sends.

A smaller part models the user record: the mapping of CAS login attributes onto columns, the
display name, and the normalisation of enrolled-club names.

Layout, one module per file:

- `wrappers.dfy`: `Option`.
- `digits.dfy`: decimal digit strings, their value, `%0Nd` zero padding, and maximal digit runs.
- `payment_codes.dfy`: `create_payment_code` and the leftmost `GAN\d+` match.
- `barcodes.dfy`: the EAN-13 check digit (GS1 General Specifications, section 7.9).
- `money.dfy`: `to_cents` / `from_cents`, with an exact model of `String#to_f`.
- `registrations.dfy`:
  - the store is a `Ledger` class (the registrations table and its access levels);
  - a registration is a `Registration` class whose `Save` runs the `before_validation` hook, the validators, the INSERT/UPDATE and the `after_save` capacity guard;
  - the pure `SaveStep` function specifies `Save`, and lemmas state what `SaveStep` guarantees.
- `users.dfy`: a `User` class with `cas_extra_attributes=`, `display_name` and `fetch_enrolled_clubs`.

Randomness (`rand(10**15)`, the twelve `SecureRandom` digits), the e-mail format check, and the
reply of the enrolment service are parameters. Amounts entered as text are `Text(s)`. Numeric
amounts (the `Float` that `to_pay=` passes on) are `Number(x)`, with `x` an exact real, and `nil` is `Nil`.

## Model

| member | source | states |
|---|---|---|
| PaymentCodes.CreatePaymentCode | app/models/registration.rb:82-85 | for `r < 10^15` the code has 20 characters: `GAN`, two digits equal to the 15-digit number mod 97, then 15 digits whose value is `r` |
| PaymentCodes.CreatePaymentCodeInjective | app/models/registration.rb:82-85 | different draws give different codes |
| PaymentCodes.ExtractPaymentCode | app/models/registration.rb:74 | no match exactly when no position holds `GAN` followed by a digit; otherwise the leftmost such position, extended over the maximal digit run |
| PaymentCodes.LeftmostMatch | app/models/registration.rb:74 | the first matching position from `from` on, with no match before it, or none at all |
| PaymentCodes.LeftmostMatchUnique | app/models/registration.rb:74 | the leftmost match is unique |
| PaymentCodes.FindsQuotedCode | app/models/registration.rb:73-80 | a generated code quoted in a line without an earlier match, and not followed by a digit, is extracted whole |
| PaymentCodes.NoMatchBeforeCode | app/models/registration.rb:74 | no match starts inside a match-free prefix of such a line |
| Digits.ZeroPad | app/models/registration.rb:84 | `%0Nd` padding yields digits only |
| Digits.PaddedDigits | app/models/registration.rb:84 | a number below `10^N` padded to `N` has exactly `N` digits and reads back as itself |
| Digits.PaddingKeepsValue | app/models/registration.rb:84 | padding at most `N` digits with zeros gives exactly `N` digits of the same value |
| Digits.Show | app/models/registration.rb:84 | the decimal rendering is non-empty, all digits, and reads back as the number |
| Digits.ShowFits | app/models/registration.rb:84 | the rendering fits in `N` digits exactly when the number is below `10^N` |
| Digits.DigitRunEnd | app/models/registration.rb:74 | the end of the maximal digit run starting at `j` |
| Barcodes.Ean13 | app/models/registration.rb:67-69 | the barcode is 13 digits: the 12-digit payload followed by its check digit |
| Barcodes.Ean13IsValid | app/models/registration.rb:67-69 | every generated barcode passes the EAN-13 check (weights 1,3,… from the left sum to 0 mod 10) |
| Barcodes.CheckDigitUnique | app/models/registration.rb:67-69 | the check digit is the only digit that completes a valid barcode |
| Barcodes.RightSumIsLeftSum | app/models/registration.rb:67-69 | for digits of any length, weighting 3,1,… from the right (starting from the weight of the last position; 3 on the 12-digit payload) equals weighting 1,3,… from the left |
| Barcodes.SingleErrorDetected | app/models/registration.rb:67-69 | changing any one digit of a valid barcode makes it invalid |
| Barcodes.WeightedSumChange | app/models/registration.rb:67-69 | replacing one digit changes the weighted sum by its weight times the change of the digit |
| Barcodes.CheckDigit | app/models/registration.rb:67-69 | the check digit is a single decimal digit |
| Money.ReplaceFirstComma | app/models/registration.rb:105 | only the first comma becomes a dot; every other character is kept |
| Money.TextCentsTruncate | app/models/registration.rb:104-107 | a string amount is the decimal prefix `to_f` reads, after the first-comma replacement, scaled by 100 and truncated toward zero |
| Money.FromCents | app/models/registration.rb:100-102 | nil reads as 0; otherwise the cents divided by 100 |
| Money.ToCents | app/models/registration.rb:104-107 | a number is scaled by 100 and truncated toward zero: within one cent below it when not negative, within one cent above it when negative; `nil` gives 0 cents; text has its first comma made a dot and the number `to_f` reads is scaled and truncated (stated by `TextCentsTruncate` and `CommaAmountCents`) |
| Money.CentsIsTruncation | app/models/registration.rb:106 | keeping two fraction digits of the literal is truncating the exact value times 100 |
| Money.CentsRoundTrip | app/models/registration.rb:100-107 | storing the number read back from any stored cents gives the same cents |
| Money.TextRoundTrip | app/models/registration.rb:100-107 | a literal with at most two decimals is stored exactly |
| Money.NoDigitsNoCents | app/models/registration.rb:106 | a string without digits stores 0 |
| Money.OnlyFirstCommaCounts | app/models/registration.rb:105-106 | for any digits `w`, `f` (`f` non-empty) and any rest `g`, `w,f,g` stores `w` euros and the first two decimals of `f`: only the first comma is a decimal separator, so `"1,234,56"` stores 123 cents |
| Money.ScanWritten | app/models/registration.rb:106 | text made of white space, an optional sign, whole digits, a dot, fraction digits and a rest not starting with a digit is read as exactly that sign, those whole digits and those fraction digits |
| Money.ScanWrittenWhole | app/models/registration.rb:106 | text made of white space, an optional sign, at least one digit and a rest that neither starts with a digit nor with a dot and a digit is read as that sign and those digits, with no fraction |
| Money.CommaAmountCents | app/models/registration.rb:104-107 | form input written with a decimal comma is stored as its whole euros times 100 plus its first two decimals, negated when the sign is `-` |
| Money.CommaToDot | app/models/registration.rb:105 | white space, a sign and digits hold no comma, so the comma after them becomes the dot and nothing else changes |
| Money.ScanAt | app/models/registration.rb:106 | given where the white space, the sign and the whole digits end in the text, `to_f` reads that sign, those digits and the fraction after them |
| Money.FractionAt | app/models/registration.rb:106 | a dot followed by a maximal digit run is read as exactly that fraction |
| Money.ScanFloat | app/models/registration.rb:106 | the literal `to_f` reads has digit-only whole and fraction parts |
| Registrations.Validate | app/models/registration.rb:10-21 | it raises exactly when the access level is missing; an error is reported exactly when its rule is broken and its validator ran |
| Registrations.Reported | app/models/registration.rb:10-21 | the reported errors are exactly the broken rules among those run |
| Registrations.CleanIffAcceptable | app/models/registration.rb:10-21 | validation passes exactly when name, e-mail, student number, paid, price and payment code meet every rule |
| Registrations.CleanIsAcceptable | app/models/registration.rb:10-21 | a row that passes validation meets every rule |
| Registrations.AcceptableIsClean | app/models/registration.rb:10-21 | a row that meets every rule passes validation |
| Registrations.EarlyRulesKept | app/models/registration.rb:10-17 | when the validators before the conditional presence check report nothing, the access level exists, name and e-mail are present and well formed, and a present student number is digits and not taken in the event |
| Registrations.LateRulesKept | app/models/registration.rb:18-21 | when the later validators report nothing, a login tier has a student number, paid and price are set, price is not negative, and the payment code is present and not taken |
| Registrations.NoneReported | app/models/registration.rb:10-21 | validators whose rules all hold report no error |
| Registrations.CleanRowStudentNumberIsDigits | app/models/registration.rb:14-17 | an accepted student number is blank or digits only, so never holds a newline |
| Registrations.TrailingNewlineAccepted | app/models/registration.rb:15 | the format as written accepts `"12\n"`, which is not digits only |
| Registrations.Write | app/models/registration.rb:29-34 | an INSERT takes the fresh id `nextId`, adds the row under it and advances the counter by one; an UPDATE replaces the row it names, or changes nothing when that row is gone, and keeps the counter and id |
| Registrations.SaveStep | app/models/registration.rb:25-34 | a save commits exactly when validation passes and the tier's count after the write fits its capacity; otherwise the table, id counter and record id are as before; it is sold out exactly when the row is valid and the guard rejects the write, and then reports only the access-level error; it crashes exactly when the access level is missing; an invalid save reports exactly the validators' errors, which are not empty |
| Registrations.SaveKeepsConsistency | app/models/registration.rb:18-34 | every save keeps tiers within capacity, payment codes unique and stored rows complete |
| Registrations.WriteKeepsConsistency | app/models/registration.rb:18-34 | a write of a valid row that the guard admits keeps capacity, unique payment codes and complete rows |
| Registrations.CommitKeepsCapacity | app/models/registration.rb:29-34 | an admitted write keeps every tier within capacity |
| Registrations.WriteKeepsOtherTiers | app/models/registration.rb:30 | a write never raises the count of another tier |
| Registrations.InsertCount | app/models/registration.rb:30 | an insert raises its tier's count by exactly one |
| Registrations.CreateFillsTier | app/models/registration.rb:29-34 | a valid new registration in a tier of `c` commits exactly when `c + 1` fits, and the tier then holds `c + 1`; otherwise it is sold out and still holds `c` |
| Registrations.EmptyLedgerConsistent | app/models/registration.rb:29-34 | the empty table is consistent exactly when no capacity is negative |
| Registrations.PaidScopeIsPaid | app/models/registration.rb:62-64 | on committed rows the `paid` scope (line 8) selects exactly the rows for which `paid?` holds |
| Registrations.NullPaidOutsideScope | app/models/registration.rb:38-64 | with a NULL amount the getters read 0, so `paid?` can hold while the SQL `paid` scope (line 8) drops the row |
| Registrations.NilPriceAccepted | app/models/registration.rb:20 | `price = nil` stores 0 cents, not NULL, so the price passes both its integer and its non-negative check |
| Registrations.CentsOrder | app/models/registration.rb:62-64 | comparing euros is comparing cents |
| Registrations.DeliverySignals | app/models/registration.rb:89-95 | a ticket exactly when paid, an overpayment notice exactly when paid more than the price, a confirmation exactly when unpaid; two signals when overpaid and one otherwise, never starting with the notice, so each is sent at most once and the ticket comes first |
| Registrations.Join | app/models/registration.rb:67 | the joined payload has one digit per drawn number, in order |
| Registrations.Ledger.Paid | app/models/registration.rb:8 | on a complete table the scope is the set of rows for which `paid?` holds |
| Registrations.Ledger.WriteGuarded | app/models/registration.rb:29-34 | the write commits exactly when its tier's count after the write fits the capacity, leaving the table, id counter and id of the write; otherwise the rollback leaves table, counter and id as before |
| Registrations.Ledger.FindPaymentCodeFromCsv | app/models/registration.rb:73-80 | `false` exactly when the line has no code; `nil` exactly when no row holds the extracted code; otherwise a row holding it, which is the only one when codes are unique |
| Registrations.Registration.ToPay | app/models/registration.rb:46-48 | price minus paid, negative exactly when overpaid |
| Registrations.Registration.Paid | app/models/registration.rb:38-40 | the paid amount in euros is the stored cents over 100, with NULL read as 0, through `FromCents` |
| Registrations.Registration.Price | app/models/registration.rb:54-56 | the price in euros is the stored cents over 100, with NULL read as 0, through `FromCents` |
| Registrations.Registration.IsPaid | app/models/registration.rb:62-64 | holds exactly when the price in cents is at most the amount paid, exactly when nothing is owed, and agrees with the stored row |
| Registrations.Registration.SetPaid | app/models/registration.rb:42-44 | stores the amount in cents |
| Registrations.Registration.SetPrice | app/models/registration.rb:58-60 | stores the amount in cents |
| Registrations.Registration.SetToPay | app/models/registration.rb:50-52 | sets paid to price minus the amount, so `to_pay` reads back the amount in cents |
| Registrations.Registration.SetOwed | app/models/registration.rb:50-52 | paid becomes price minus the owed cents, which `to_pay` then reads back |
| Registrations.TruncOfScaledDifference | app/models/registration.rb:50-52 | storing `price - owed / 100.0` keeps exactly `price - owed` cents |
| Registrations.Registration.Save | app/models/registration.rb:25-34 | assigns a payment code only when there is none, then its outcome and the new table, id counter, id and errors are those of `SaveStep` |
| Registrations.Registration.GenerateBarcode | app/models/registration.rb:66-71 | the payload is the joined digits, the barcode its valid EAN-13, then the record is saved as by `SaveStep` |
| Registrations.Registration.Deliver | app/models/registration.rb:87-96 | an existing barcode and the whole store are left unchanged; otherwise a barcode is generated, a payment code is assigned only when there was none, the record is saved as by `SaveStep`, and delivery stops exactly when that `save!` raises; the signals follow `DeliverySignals` |
| Registrations.Registration.constructor | app/models/registration.rb:4-6 | a new registration has no id, no codes, no amounts and no errors |
| Registrations.Ledger.constructor | app/models/registration.rb:4-8 | a new store is empty, over the given access levels, and its id counter is ahead of every id |
| Users.FieldFor | app/models/user.rb:50-61 | a known key names its column; any other name names none |
| Users.FieldForKeyName | app/models/user.rb:50-61 | each column is named by its own key |
| Users.ApplySetsOnlyItsField | app/models/user.rb:48-61 | a known key sets exactly its column to the value; an unknown key changes no column |
| Users.UnnamedFieldKept | app/models/user.rb:47-62 | a column no key names keeps its value through the loop |
| Users.LastValueWins | app/models/user.rb:47-62 | when several keys name one column, the last value wins |
| Users.StringAndSymbolKeysAgree | app/models/user.rb:50 | string and symbol forms of the keys give the same columns |
| Users.CasFields.Set | app/models/user.rb:52-60 | setting a column changes that column only |
| Users.User.SetCasExtraAttributes | app/models/user.rb:46-64 | the columns after the loop are the fold of the key table over the pairs |
| Users.DisplayNameOf | app/models/user.rb:67-73 | given name, one space, surname when both are set; otherwise the login name |
| Users.User.DisplayName | app/models/user.rb:67-73 | the user's given name and surname joined by one space when both are present, otherwise the login name, as `DisplayNameOf` gives |
| Users.DisplayNameAfterLogin | app/models/user.rb:46-73 | after a login naming both, the display name is the last given name and surname, joined by a space |
| Users.Lower | app/models/user.rb:82 | `downcase` turns a capital into the same letter in lower case, leaves no ASCII capital and changes nothing else |
| Users.NormaliseClub | app/models/user.rb:82 | a normalised name has no `-` and no capital, and is shorter by exactly its dashes; `NormaliseClubTwoPasses` with `Downcase` and `WithoutDashesAppend` fix each character and its order |
| Users.Downcase | app/models/user.rb:82 | `downcase` keeps the length and lowers each character in place |
| Users.WithoutDashes | app/models/user.rb:82 | `gsub('-', '')` leaves no `-`, drops exactly the dashes, and keeps every other character as often as it occurs |
| Users.WithoutDashesAppend | app/models/user.rb:82 | removing dashes from a concatenation is removing them from each part and concatenating, so the kept characters stay in their order |
| Users.WithoutDashesOne | app/models/user.rb:82 | on one character the removal drops a dash and keeps anything else |
| Users.NormaliseClubTwoPasses | app/models/user.rb:82 | the normalised name is `downcase` followed by the removal of every `-` |
| Users.NormaliseClubIdempotent | app/models/user.rb:82 | normalising twice equals normalising once |
| Users.NormalNameFixed | app/models/user.rb:82 | a name without dashes or capitals is already normal |
| Users.NormaliseClubs | app/models/user.rb:82 | one normalised name per reported name, in order |
| Users.User.FetchEnrolledClubs | app/models/user.rb:80-87 | no answer or an empty list leaves the enrolment unchanged; otherwise the user is enrolled in exactly the known clubs named in the normalised list |
| Users.User.constructor | app/models/user.rb:3 | a new user has no CAS columns and no enrolled clubs |

## Left out

- Money.ToCents: amounts are exact. Ruby computes `to_f * 100` in IEEE doubles and truncates, so `"0.29"` stores 28 cents there but 29 here. `/ 100.0` in `from_cents` and `to_pay=` is exact here too.
- Money.ScanFloat: reads an optional sign, digits, and a fraction after a `.` that is followed by a digit. It does not read the exponent (`1e3`) or `_` digit separators that `String#to_f` also accepts. White space is the six ASCII characters Ruby skips.
- Money.ToCents: the in-place change `sub!` makes to the caller's string is not modelled; only the converted value is.
- Registrations.Registration.Save: it writes the whole row. Rails writes only changed columns, which differs only when two in-memory objects of the same row are saved in turn.
- Registrations.Validate: the student-number rule is the digits-only rule the format evidently intends. The regex as written also accepts a value ending in one newline (see Findings), which the model reports as `StudentNumberFormat` where the source would save it.
- Registrations.Validate: `paid` and `price` are unbounded integers. The columns are 4-byte integers, so Rails raises a range error when saving more than 2147483647 cents, and a `save!` inside `deliver` raises too; the model commits such amounts.
- Registrations.SaveStep: a rolled-back INSERT also restores the id counter, as SQLite does, because its sequence table is part of the transaction. MySQL's InnoDB keeps AUTO_INCREMENT advanced, so ids there can skip a number; which rows are stored is the same.
- Registrations.Blank: white space is ASCII only; Rails' `blank?` also counts Unicode spaces.
- Registrations.Broken: NULL `paid` / `price` are reported by the integer check (`PaidNotInteger` / `PriceNotInteger`). The getters turn NULL into 0.0, which passes the presence check; the exact error the numericality validator adds depends on the Rails version.
- The e-mail format validator comes from a gem and is the parameter `emailFormat`.
- Registrations.Ledger.FindPaymentCodeFromCsv: returns an id rather than the record. When several rows share a code it picks any of them, where `find_by` picks the first by name (`default_scope` ordering).
- `default_scope` ordering and paper_trail versioning are not modelled; neither changes what is stored.
- Concurrency: saves are sequential. The source takes no lock, so two concurrent saves can both pass the capacity guard; that race is not modelled.
- `SecureRandom`, `rand`, Barby's rendering and the mailers (`deliver_later`) are outside the model. The random values are parameters and the mailers are the `Signal` values.
- The source has no retry for a payment code that collides, and no error for an unreadable amount: `to_f` reads such an amount as 0. The model follows the code.
- `comment`, `checked_in_at`, the event and access-level records themselves, and the tiers' own prices and flags other than `requires_login` are not part of this model.
- Users: the HTTP calls of `fetch_club` and `fetch_enrolled_clubs`, the SHA-256 signature and five-minute time check, `daily_update`, `from_omniauth`, devise/CAS wiring, and the `save!` calls on the user are network I/O or persistence and are left out. A non-200 answer is `None`; JSON decoding is taken to give a list of strings.
- Users.Lower: `downcase` is modelled for ASCII letters only; Ruby also lowercases other Unicode letters, some into more than one character.
- `app/controllers/access_levels_controller.rb` and `app/helpers/application_helper.rb` are HTTP and view glue and are not part of this model.

## Findings

| source | as written | input that shows it | evidently intended | confidence | as-written member | corrected member |
|---|---|---|---|---|---|---|
| app/models/registration.rb:15 | `/\A[0-9]*\Z/`, where Ruby's `\Z` also matches before a final newline | the student number `"12\n"` passes the format check | digits only (`\z`), as the message "has invalid format" says | medium, not executed | Registrations.TrailingNewlineAccepted | Registrations.CleanRowStudentNumberIsDigits |
