/**
 * The registration ledger: one entrant's registration for an access level (ticket tier) of an
 * event, its money amounts, its payment code and barcode, the validations a save runs, and the
 * capacity guard that rolls back a save which overfills the tier.
 *
 * The database is an in-memory table (`Ledger`) of rows keyed by id; a `Registration` is the
 * in-memory object whose attributes a save writes to that table.
 */
module Registrations {
  import opened Wrappers
  import opened Digits
  import opened Money
  import PaymentCodes
  import Barcodes

  type RowId = nat
  type TierId = nat

  /** An access level: a capacity (`None` for unlimited) and whether entrants must log in. */
  datatype Tier = Tier(capacity: Option<int>, requiresLogin: bool)

  /** The stored columns of a registration that the ledger's rules read; amounts in cents. */
  datatype Row = Row(
    name: Option<string>,
    email: Option<string>,
    studentNumber: Option<string>,
    paid: Option<int>,
    price: Option<int>,
    paymentCode: Option<string>,
    barcode: Option<string>,
    barcodeData: Option<string>,
    accessLevel: TierId,
    event: Option<nat>)

  /** The errors a save can attach to a registration, one per failed rule. */
  datatype FieldError =
    | AccessLevelMissing
    | NameBlank
    | EmailBlank
    | EmailInvalid
    | StudentNumberFormat
    | StudentNumberTaken
    | StudentNumberBlank
    | PaidNotInteger
    | PriceNotInteger
    | PriceNegative
    | PaymentCodeBlank
    | PaymentCodeTaken
    | AccessLevelSoldOut

  /**
   * The validators either run to the end (`Checked`) or the conditional presence check on the
   * student number raises, because it asks a missing access level whether it requires a login.
   */
  datatype Validation = Checked(errors: seq<FieldError>) | Raised(errors: seq<FieldError>)

  /** What a save reports: committed, rejected by validation, rolled back as sold out, or raised. */
  datatype SaveOutcome = Committed | Invalid(errors: seq<FieldError>) | SoldOut | Crashed

  /** Rails' `blank?` on a string attribute: nil, or white space only. */
  predicate Blank(v: Option<string>) {
    v.None? || forall i :: 0 <= i < |v.value| ==> IsSpace(v.value[i])
  }

  /** The student-number format as written, `/\A[0-9]*\Z/`: Ruby's `\Z` also matches before a final newline. */
  predicate StudentNumberFormatAsWritten(s: string) {
    AllDigits(s) || (|s| >= 1 && s[|s| - 1] == '\n' && AllDigits(s[..|s| - 1]))
  }

  /** A trailing newline slips through the format as written, though the value is not digits only. */
  lemma TrailingNewlineAccepted()
    ensures StudentNumberFormatAsWritten("12\n") && !AllDigits("12\n")
  {
    assert "12\n"[..2] == "12";
    assert !IsDigit("12\n"[2]);
  }

  /** Another row (not the one being saved) already holds this payment code. */
  predicate PaymentCodeInUse(rows: map<RowId, Row>, self: Option<RowId>, code: Option<string>) {
    exists k :: k in rows && Some(k) != self && rows[k].paymentCode == code
  }

  /** Another row of the same event already holds this student number. */
  predicate StudentNumberInUse(rows: map<RowId, Row>, self: Option<RowId>, row: Row) {
    exists k :: k in rows && Some(k) != self && rows[k].studentNumber == row.studentNumber && rows[k].event == row.event
  }

  /**
   * When each validator reports its error. A NULL amount reads as 0.0 through its getter, so
   * presence passes and the integer check reports it; the student-number rules are skipped when
   * it is blank, and the sold-out error comes from the after-save guard, not from a validator.
   */
  predicate Broken(rows: map<RowId, Row>, tiers: map<TierId, Tier>, self: Option<RowId>, row: Row,
                   emailFormat: Option<string> -> bool, e: FieldError)
  {
    match e
    case AccessLevelMissing => row.accessLevel !in tiers
    case NameBlank => Blank(row.name)
    case EmailBlank => Blank(row.email)
    case EmailInvalid => !emailFormat(row.email)
    case StudentNumberFormat => !Blank(row.studentNumber) && !AllDigits(row.studentNumber.value)
    case StudentNumberTaken => !Blank(row.studentNumber) && StudentNumberInUse(rows, self, row)
    case StudentNumberBlank =>
      row.accessLevel in tiers && tiers[row.accessLevel].requiresLogin && Blank(row.studentNumber)
    case PaidNotInteger => row.paid.None?
    case PriceNotInteger => row.price.None?
    case PriceNegative => row.price.Some? && row.price.value < 0
    case PaymentCodeBlank => Blank(row.paymentCode)
    case PaymentCodeTaken => PaymentCodeInUse(rows, self, row.paymentCode)
    case AccessLevelSoldOut => false
  }

  /** The validators declared before the conditional student-number presence check, in order. */
  const EarlyRules: seq<FieldError> :=
    [AccessLevelMissing, NameBlank, EmailBlank, EmailInvalid, StudentNumberFormat, StudentNumberTaken]

  /** The validators from that check on, which ask the access level whether it requires a login. */
  const LateRules: seq<FieldError> :=
    [StudentNumberBlank, PaidNotInteger, PriceNotInteger, PriceNegative, PaymentCodeBlank, PaymentCodeTaken]

  /** The errors of `rules` that the row breaks, in the order the rules run. */
  function Reported(rules: seq<FieldError>, rows: map<RowId, Row>, tiers: map<TierId, Tier>, self: Option<RowId>,
                    row: Row, emailFormat: Option<string> -> bool): (errs: seq<FieldError>)
    ensures forall e :: e in errs <==> e in rules && Broken(rows, tiers, self, row, emailFormat, e)
    ensures |errs| <= |rules|
  {
    if rules == [] then []
    else
      (if Broken(rows, tiers, self, row, emailFormat, rules[0]) then [rules[0]] else [])
      + Reported(rules[1..], rows, tiers, self, row, emailFormat)
  }

  /** Everything the validators demand of a row, stated rule by rule. */
  predicate Acceptable(rows: map<RowId, Row>, tiers: map<TierId, Tier>, self: Option<RowId>, row: Row,
                       emailFormat: Option<string> -> bool)
  {
    && row.accessLevel in tiers
    && !Blank(row.name)
    && !Blank(row.email) && emailFormat(row.email)
    && (Blank(row.studentNumber) || (AllDigits(row.studentNumber.value) && !StudentNumberInUse(rows, self, row)))
    && (tiers[row.accessLevel].requiresLogin ==> !Blank(row.studentNumber))
    && row.paid.Some?
    && row.price.Some? && row.price.value >= 0
    && !Blank(row.paymentCode) && !PaymentCodeInUse(rows, self, row.paymentCode)
  }

  /**
   * The validators in the order they are declared; `emailFormat` is the e-mail format check,
   * and `self` is the id of the row being saved (`None` for a new registration). With the
   * access level missing, the conditional presence check raises after the earlier validators ran.
   */
  function Validate(rows: map<RowId, Row>, tiers: map<TierId, Tier>, self: Option<RowId>, row: Row,
                    emailFormat: Option<string> -> bool): (v: Validation)
    ensures v.Raised? <==> row.accessLevel !in tiers
    ensures forall e :: e in v.errors <==>
      Broken(rows, tiers, self, row, emailFormat, e) && (e in EarlyRules || (v.Checked? && e in LateRules))
  {
    var early := Reported(EarlyRules, rows, tiers, self, row, emailFormat);
    if row.accessLevel !in tiers then Raised(early)
    else
      Checked(early + Reported(LateRules, rows, tiers, self, row, emailFormat))
  }

  /** A row that passes validation meets every rule. */
  lemma CleanIsAcceptable(rows: map<RowId, Row>, tiers: map<TierId, Tier>, self: Option<RowId>, row: Row,
                          emailFormat: Option<string> -> bool)
    requires Validate(rows, tiers, self, row, emailFormat) == Checked([])
    ensures Acceptable(rows, tiers, self, row, emailFormat)
  {
    var early := Reported(EarlyRules, rows, tiers, self, row, emailFormat);
    var late := Reported(LateRules, rows, tiers, self, row, emailFormat);
    assert early == [] && late == [] by {
      assert early + late == [];
    }
    EarlyRulesKept(rows, tiers, self, row, emailFormat);
    LateRulesKept(rows, tiers, self, row, emailFormat);
  }

  /** A row for which the early validators report nothing meets their rules. */
  lemma EarlyRulesKept(rows: map<RowId, Row>, tiers: map<TierId, Tier>, self: Option<RowId>, row: Row,
                       emailFormat: Option<string> -> bool)
    requires Reported(EarlyRules, rows, tiers, self, row, emailFormat) == []
    ensures row.accessLevel in tiers && !Blank(row.name) && !Blank(row.email) && emailFormat(row.email)
    ensures !Blank(row.studentNumber) ==> AllDigits(row.studentNumber.value) && !StudentNumberInUse(rows, self, row)
  {
    NothingBroken(EarlyRules, rows, tiers, self, row, emailFormat);
    assert EarlyRules[0] == AccessLevelMissing && EarlyRules[1] == NameBlank && EarlyRules[2] == EmailBlank;
    assert EarlyRules[3] == EmailInvalid && EarlyRules[4] == StudentNumberFormat && EarlyRules[5] == StudentNumberTaken;
  }

  /** A row for which the later validators report nothing meets their rules. */
  lemma LateRulesKept(rows: map<RowId, Row>, tiers: map<TierId, Tier>, self: Option<RowId>, row: Row,
                      emailFormat: Option<string> -> bool)
    requires Reported(LateRules, rows, tiers, self, row, emailFormat) == []
    ensures row.accessLevel in tiers && tiers[row.accessLevel].requiresLogin ==> !Blank(row.studentNumber)
    ensures row.paid.Some? && row.price.Some? && row.price.value >= 0
    ensures !Blank(row.paymentCode) && !PaymentCodeInUse(rows, self, row.paymentCode)
  {
    NothingBroken(LateRules, rows, tiers, self, row, emailFormat);
    assert LateRules[0] == StudentNumberBlank && LateRules[1] == PaidNotInteger && LateRules[2] == PriceNotInteger;
    assert LateRules[3] == PriceNegative && LateRules[4] == PaymentCodeBlank && LateRules[5] == PaymentCodeTaken;
  }

  /** Rules that report nothing are rules the row does not break. */
  lemma NothingBroken(rules: seq<FieldError>, rows: map<RowId, Row>, tiers: map<TierId, Tier>,
                      self: Option<RowId>, row: Row, emailFormat: Option<string> -> bool)
    requires Reported(rules, rows, tiers, self, row, emailFormat) == []
    ensures forall i :: 0 <= i < |rules| ==> !Broken(rows, tiers, self, row, emailFormat, rules[i])
  {
    forall i | 0 <= i < |rules|
      ensures !Broken(rows, tiers, self, row, emailFormat, rules[i])
    {
      assert rules[i] in rules;
    }
  }

  /** A row that meets every rule passes validation. */
  lemma AcceptableIsClean(rows: map<RowId, Row>, tiers: map<TierId, Tier>, self: Option<RowId>, row: Row,
                          emailFormat: Option<string> -> bool)
    requires Acceptable(rows, tiers, self, row, emailFormat)
    ensures Validate(rows, tiers, self, row, emailFormat) == Checked([])
  {
    forall i | 0 <= i < |EarlyRules|
      ensures !Broken(rows, tiers, self, row, emailFormat, EarlyRules[i])
    {
    }
    forall i | 0 <= i < |LateRules|
      ensures !Broken(rows, tiers, self, row, emailFormat, LateRules[i])
    {
    }
    NoneReported(EarlyRules, rows, tiers, self, row, emailFormat);
    NoneReported(LateRules, rows, tiers, self, row, emailFormat);
  }

  /** Rules none of which the row breaks report nothing. */
  lemma {:induction false} NoneReported(rules: seq<FieldError>, rows: map<RowId, Row>, tiers: map<TierId, Tier>,
                                        self: Option<RowId>, row: Row, emailFormat: Option<string> -> bool)
    requires forall i :: 0 <= i < |rules| ==> !Broken(rows, tiers, self, row, emailFormat, rules[i])
    ensures Reported(rules, rows, tiers, self, row, emailFormat) == []
  {
    if rules != [] {
      NoneReported(rules[1..], rows, tiers, self, row, emailFormat);
    }
  }

  /** Validation passes exactly when the row meets every rule. */
  lemma CleanIffAcceptable(rows: map<RowId, Row>, tiers: map<TierId, Tier>, self: Option<RowId>, row: Row,
                           emailFormat: Option<string> -> bool)
    ensures Validate(rows, tiers, self, row, emailFormat) == Checked([]) <==> Acceptable(rows, tiers, self, row, emailFormat)
  {
    if Validate(rows, tiers, self, row, emailFormat) == Checked([]) {
      CleanIsAcceptable(rows, tiers, self, row, emailFormat);
    }
    if Acceptable(rows, tiers, self, row, emailFormat) {
      AcceptableIsClean(rows, tiers, self, row, emailFormat);
    }
  }

  /** A row that passes validation has a student number that is blank or digits only, so never a newline. */
  lemma CleanRowStudentNumberIsDigits(rows: map<RowId, Row>, tiers: map<TierId, Tier>, self: Option<RowId>,
                                      row: Row, emailFormat: Option<string> -> bool)
    requires Validate(rows, tiers, self, row, emailFormat) == Checked([])
    ensures !Blank(row.studentNumber) ==> AllDigits(row.studentNumber.value) && '\n' !in row.studentNumber.value
  {
    CleanIffAcceptable(rows, tiers, self, row, emailFormat);
  }

  /** `access_level.registrations.count`: the rows registered for tier `t`. */
  function TierCount(rows: map<RowId, Row>, t: TierId): nat {
    |TierIds(rows, t)|
  }

  /** The ids of the rows registered for tier `t`. */
  function TierIds(rows: map<RowId, Row>, t: TierId): set<RowId> {
    set k | k in rows && rows[k].accessLevel == t
  }

  /** The after-save guard lets a count through unless the tier has a capacity and exceeds it. */
  predicate Admits(tier: Tier, count: nat) {
    tier.capacity.None? || count <= tier.capacity.value
  }

  predicate WithinCapacity(rows: map<RowId, Row>, tiers: map<TierId, Tier>) {
    forall t :: t in tiers ==> Admits(tiers[t], TierCount(rows, t))
  }

  predicate UniquePaymentCodes(rows: map<RowId, Row>) {
    forall j, k :: j in rows && k in rows && j != k ==> rows[j].paymentCode != rows[k].paymentCode
  }

  /** What every committed row satisfies: its tier exists, its amounts are set and its price is not negative. */
  predicate Complete(rows: map<RowId, Row>, tiers: map<TierId, Tier>) {
    forall k :: k in rows ==>
      rows[k].accessLevel in tiers && rows[k].paid.Some? && rows[k].price.Some? && rows[k].price.value >= 0
  }

  /** The invariants a ledger keeps from the empty table on. */
  predicate Consistent(rows: map<RowId, Row>, tiers: map<TierId, Tier>) {
    WithinCapacity(rows, tiers) && UniquePaymentCodes(rows) && Complete(rows, tiers)
  }

  /**
   * The empty table is consistent exactly when no capacity is negative; a negative capacity
   * makes even an empty tier over capacity, so every save into it rolls back.
   */
  lemma EmptyLedgerConsistent(tiers: map<TierId, Tier>)
    ensures Consistent(map[], tiers) <==> forall t :: t in tiers ==> Admits(tiers[t], 0)
  {
    forall t | t in tiers
      ensures TierCount(map[], t) == 0
    {
      assert TierIds(map[], t) == {};
    }
  }

  /** The table, the next auto-increment id and the record's id after the INSERT or UPDATE. */
  datatype Written = Written(rows: map<RowId, Row>, nextId: nat, id: Option<RowId>)

  /** INSERT a new record under a fresh id, or UPDATE its row (an UPDATE of a vanished row touches nothing). */
  function Write(rows: map<RowId, Row>, nextId: nat, self: Option<RowId>, row: Row): (w: Written)
    requires forall k :: k in rows ==> k < nextId
    ensures forall k :: k in w.rows ==> k < w.nextId
    ensures w.id.Some? && (self.None? || self.value in rows) ==> w.rows == rows[w.id.value := row]
    ensures self.None? ==> w.id == Some(nextId) && nextId !in rows && w.nextId == nextId + 1
    ensures self.Some? ==> w.id == self && w.nextId == nextId
    ensures self.Some? && self.value !in rows ==> w.rows == rows
  {
    match self
    case None => Written(rows[nextId := row], nextId + 1, Some(nextId))
    case Some(k) => if k in rows then Written(rows[k := row], nextId, self) else Written(rows, nextId, self)
  }

  /** The state a save leaves behind, and what it reports. */
  datatype Step = Step(outcome: SaveOutcome, rows: map<RowId, Row>, nextId: nat, id: Option<RowId>, errors: seq<FieldError>)

  /**
   * One save of `row` (payment code already assigned): validate, write, then run the
   * after-save capacity guard, rolling the write back when the tier is over capacity.
   */
  function SaveStep(rows: map<RowId, Row>, tiers: map<TierId, Tier>, nextId: nat, self: Option<RowId>, row: Row,
                    emailFormat: Option<string> -> bool): (s: Step)
    requires forall k :: k in rows ==> k < nextId
    ensures s.outcome.Committed? <==>
      Acceptable(rows, tiers, self, row, emailFormat)
      && Admits(tiers[row.accessLevel], TierCount(Write(rows, nextId, self, row).rows, row.accessLevel))
    ensures !s.outcome.Committed? ==> s.rows == rows && s.nextId == nextId && s.id == self
    ensures s.outcome == SoldOut <==>
      Acceptable(rows, tiers, self, row, emailFormat)
      && !Admits(tiers[row.accessLevel], TierCount(Write(rows, nextId, self, row).rows, row.accessLevel))
    ensures s.outcome == SoldOut ==> s.errors == [AccessLevelSoldOut]
    ensures s.outcome == Crashed <==> row.accessLevel !in tiers
    ensures s.outcome == Crashed ==> s.errors == Validate(rows, tiers, self, row, emailFormat).errors
    ensures s.outcome.Invalid? ==>
      s.errors == s.outcome.errors == Validate(rows, tiers, self, row, emailFormat).errors && s.errors != []
    ensures s.outcome.Committed? ==> s.errors == [] && (s.rows, s.nextId, s.id) == (Write(rows, nextId, self, row).rows, Write(rows, nextId, self, row).nextId, Write(rows, nextId, self, row).id)
    ensures forall k :: k in s.rows ==> k < s.nextId
  {
    CleanIffAcceptable(rows, tiers, self, row, emailFormat);
    match Validate(rows, tiers, self, row, emailFormat)
    case Raised(errs) => Step(Crashed, rows, nextId, self, errs)
    case Checked(errs) =>
      if errs != [] then Step(Invalid(errs), rows, nextId, self, errs)
      else
        var w := Write(rows, nextId, self, row);
        if Admits(tiers[row.accessLevel], TierCount(w.rows, row.accessLevel)) then
          Step(Committed, w.rows, w.nextId, w.id, [])
        else
          Step(SoldOut, rows, nextId, self, [AccessLevelSoldOut])
  }

  /** Writing one row can only raise the count of that row's tier. */
  lemma {:induction false} WriteKeepsOtherTiers(rows: map<RowId, Row>, k: RowId, row: Row, t: TierId)
    requires t != row.accessLevel
    ensures TierCount(rows[k := row], t) <= TierCount(rows, t)
  {
    var after, before := TierIds(rows[k := row], t), TierIds(rows, t);
    assert after <= before;
    assert before == after + (before - after);
  }

  /** A write the guard admits keeps every tier within its capacity. */
  lemma CommitKeepsCapacity(rows: map<RowId, Row>, tiers: map<TierId, Tier>, k: RowId, row: Row)
    requires WithinCapacity(rows, tiers) && row.accessLevel in tiers
    requires Admits(tiers[row.accessLevel], TierCount(rows[k := row], row.accessLevel))
    ensures WithinCapacity(rows[k := row], tiers)
  {
    forall t | t in tiers
      ensures Admits(tiers[t], TierCount(rows[k := row], t))
    {
      if t != row.accessLevel {
        WriteKeepsOtherTiers(rows, k, row, t);
      }
    }
  }

  /** Every save, whatever its outcome, keeps a consistent ledger consistent. */
  lemma SaveKeepsConsistency(rows: map<RowId, Row>, tiers: map<TierId, Tier>, nextId: nat, self: Option<RowId>,
                             row: Row, emailFormat: Option<string> -> bool)
    requires forall k :: k in rows ==> k < nextId
    requires Consistent(rows, tiers)
    ensures Consistent(SaveStep(rows, tiers, nextId, self, row, emailFormat).rows, tiers)
  {
    var s := SaveStep(rows, tiers, nextId, self, row, emailFormat);
    if s.outcome.Committed? {
      WriteKeepsConsistency(rows, tiers, nextId, self, row, emailFormat);
    }
  }

  /** A write of a valid row that the capacity guard admits keeps the ledger consistent. */
  lemma WriteKeepsConsistency(rows: map<RowId, Row>, tiers: map<TierId, Tier>, nextId: nat, self: Option<RowId>,
                              row: Row, emailFormat: Option<string> -> bool)
    requires forall k :: k in rows ==> k < nextId
    requires Consistent(rows, tiers) && Acceptable(rows, tiers, self, row, emailFormat)
    requires Admits(tiers[row.accessLevel], TierCount(Write(rows, nextId, self, row).rows, row.accessLevel))
    ensures Consistent(Write(rows, nextId, self, row).rows, tiers)
  {
    var w := Write(rows, nextId, self, row);
    if w.rows != rows {
      var k := w.id.value;
      assert w.rows == rows[k := row];
      CommitKeepsCapacity(rows, tiers, k, row);
      forall i, j | i in w.rows && j in w.rows && i != j
        ensures w.rows[i].paymentCode != w.rows[j].paymentCode
      {
        if i == k {
          assert !PaymentCodeInUse(rows, self, row.paymentCode);
          assert Some(j) != self;
        } else if j == k {
          assert Some(i) != self;
        }
      }
    }
  }

  /** Inserting a row under a fresh id raises its tier's count by exactly one. */
  lemma {:induction false} InsertCount(rows: map<RowId, Row>, k: RowId, row: Row)
    requires k !in rows
    ensures TierCount(rows[k := row], row.accessLevel) == TierCount(rows, row.accessLevel) + 1
  {
    var t := row.accessLevel;
    assert TierIds(rows[k := row], t) == TierIds(rows, t) + {k};
    assert k !in TierIds(rows, t);
  }

  /**
   * Creating a valid registration in a tier holding `c` registrations commits exactly when
   * `c + 1` fits, and then the tier holds `c + 1`; otherwise it still holds `c`. From an empty
   * tier of capacity `N`, `N + k` creations therefore commit `N` times and sell out `k` times.
   */
  lemma CreateFillsTier(rows: map<RowId, Row>, tiers: map<TierId, Tier>, nextId: nat, row: Row,
                        emailFormat: Option<string> -> bool)
    requires forall k :: k in rows ==> k < nextId
    requires Acceptable(rows, tiers, None, row, emailFormat)
    ensures var s := SaveStep(rows, tiers, nextId, None, row, emailFormat);
      && (s.outcome == Committed <==> Admits(tiers[row.accessLevel], TierCount(rows, row.accessLevel) + 1))
      && (s.outcome != Committed ==> s.outcome == SoldOut)
      && TierCount(s.rows, row.accessLevel) == TierCount(rows, row.accessLevel) + (if s.outcome == Committed then 1 else 0)
  {
    AcceptableIsClean(rows, tiers, None, row, emailFormat);
    InsertCount(rows, nextId, row);
  }

  /** The `paid` scope, `where("price <= paid")`: SQL drops a row whose price or paid is NULL. */
  function PaidScope(rows: map<RowId, Row>): set<RowId> {
    set k | k in rows && rows[k].price.Some? && rows[k].paid.Some? && rows[k].price.value <= rows[k].paid.value
  }

  /** `paid?` on a stored row: the getters read a missing amount as zero. */
  predicate RowIsPaid(row: Row) {
    FromCents(row.price) <= FromCents(row.paid)
  }

  /** On a ledger of committed rows the `paid` scope selects exactly the rows for which `paid?` holds. */
  lemma PaidScopeIsPaid(rows: map<RowId, Row>, tiers: map<TierId, Tier>)
    ensures Complete(rows, tiers) ==> PaidScope(rows) == set k | k in rows && RowIsPaid(rows[k])
  {
    forall k | k in rows && Complete(rows, tiers)
      ensures k in PaidScope(rows) <==> RowIsPaid(rows[k])
    {
      CentsOrder(rows[k].price.GetOr(0), rows[k].paid.GetOr(0));
    }
  }

  /** Comparing amounts in euros is comparing them in cents. */
  lemma CentsOrder(a: int, b: int)
    ensures FromCents(Some(a)) <= FromCents(Some(b)) <==> a <= b
    ensures FromCents(Some(a)) < FromCents(Some(b)) <==> a < b
  {
  }

  /**
   * `price = nil` stores 0 cents rather than NULL, so the row passes both the integer check and
   * the non-negative check on the price.
   */
  lemma NilPriceAccepted(rows: map<RowId, Row>, tiers: map<TierId, Tier>, self: Option<RowId>, row: Row,
                         emailFormat: Option<string> -> bool)
    requires row.price == Some(ToCents(Nil))
    ensures row.price == Some(0)
    ensures !Broken(rows, tiers, self, row, emailFormat, PriceNotInteger)
    ensures !Broken(rows, tiers, self, row, emailFormat, PriceNegative)
  {
  }

  /** With a NULL amount the two disagree: a free registration with nothing paid is `paid?` but not in the scope. */
  lemma NullPaidOutsideScope(row: Row)
    requires row.price == Some(0) && row.paid.None?
    ensures RowIsPaid(row) && 0 !in PaidScope(map[0 := row])
  {
  }

  /** Subtracting whole cents in euros and scaling back by 100 loses nothing. */
  lemma TruncOfScaledDifference(price: int, owed: int)
    ensures Trunc((FromCents(Some(price)) - owed as real / 100.0) * 100.0) == price - owed
  {
    var x := (FromCents(Some(price)) - owed as real / 100.0) * 100.0;
    assert x == (price - owed) as real;
  }

  /** Which notifications `deliver` sends. */
  datatype Signal = Ticket | OverpaymentNotice | ConfirmRegistration

  /** A ticket when paid, plus an overpayment notice when paid more than the price; otherwise a confirmation. */
  function DeliverySignals(price: int, paid: int): (s: seq<Signal>)
    ensures Ticket in s <==> price <= paid
    ensures OverpaymentNotice in s <==> paid > price
    ensures ConfirmRegistration in s <==> paid < price
    ensures 1 <= |s| <= 2 && s[0] != OverpaymentNotice
    ensures |s| == if paid > price then 2 else 1
  {
    if price <= paid then [Ticket] + (if paid > price then [OverpaymentNotice] else []) else [ConfirmRegistration]
  }

  /** `deliver` either sends its signals or stops on an exception from the barcode's `save!`. */
  datatype Delivery = Sent(signals: seq<Signal>) | Aborted(outcome: SaveOutcome)

  /** The twelve random digits, joined into the barcode payload. */
  function Join(digits: seq<nat>): (s: string)
    requires forall i :: 0 <= i < |digits| ==> digits[i] < 10
    ensures |s| == |digits| && AllDigits(s)
    ensures forall i :: 0 <= i < |digits| ==> DigitValue(s[i]) == digits[i]
  {
    seq(|digits|, i requires 0 <= i < |digits| => DigitChar(digits[i]))
  }

  /** A `save!` raises on validation errors and on the missing-tier crash; a rollback is swallowed. */
  predicate SaveBangRaises(o: SaveOutcome) {
    o.Invalid? || o.Crashed?
  }

  /** The result of `find_payment_code_from_csv`: `false`, `nil`, or the registration found. */
  datatype CsvLookup = NoCode | NotFound | Found(id: RowId)

  /** The registrations table and the access levels it refers to. */
  class Ledger {
    const tiers: map<TierId, Tier>
    var rows: map<RowId, Row>
    var nextId: nat

    /** The auto-increment counter is ahead of every id in the table. */
    ghost predicate Valid()
      reads this
    {
      forall k :: k in rows ==> k < nextId
    }

    constructor (tiers: map<TierId, Tier>)
      ensures Valid() && this.tiers == tiers && rows == map[]
    {
      this.tiers := tiers;
      rows := map[];
      nextId := 1;
    }

    /** `Registration.paid`: the ids the scope selects. */
    function Paid(): (ids: set<RowId>)
      reads this
      ensures Complete(rows, tiers) ==> forall k :: k in ids <==> k in rows && RowIsPaid(rows[k])
    {
      PaidScopeIsPaid(rows, tiers);
      PaidScope(rows)
    }

    /**
     * The INSERT or UPDATE of a validated row and the after-save guard, in one transaction:
     * when the row's tier now holds more registrations than its capacity, the transaction is
     * rolled back, which also restores the id of a record that was being created.
     */
    method WriteGuarded(self: Option<RowId>, row: Row) returns (committed: bool, id: Option<RowId>)
      requires Valid() && row.accessLevel in tiers
      modifies this`rows, this`nextId
      ensures Valid()
      ensures committed == Admits(tiers[row.accessLevel], TierCount(Write(old(rows), old(nextId), self, row).rows, row.accessLevel))
      ensures committed ==> (rows, nextId, id) == (Write(old(rows), old(nextId), self, row).rows,
        Write(old(rows), old(nextId), self, row).nextId, Write(old(rows), old(nextId), self, row).id)
      ensures !committed ==> rows == old(rows) && nextId == old(nextId) && id == self
    {
      var rowsBefore, nextIdBefore := rows, nextId;
      id := self;
      match self {
        case None =>
          id := Some(nextId);
          rows := rows[nextId := row];
          nextId := nextId + 1;
        case Some(k) =>
          if k in rows {
            rows := rows[k := row];
          }
      }
      var tier := tiers[row.accessLevel];
      committed := !(tier.capacity.Some? && TierCount(rows, row.accessLevel) > tier.capacity.value);
      if !committed {
        rows, nextId, id := rowsBefore, nextIdBefore, self;
      }
    }

    /**
     * `find_payment_code_from_csv`: the leftmost `GAN\d+` of the line, looked up by payment code;
     * when codes are unique the registration found is the only one holding that code.
     */
    method FindPaymentCodeFromCsv(line: string) returns (res: CsvLookup)
      ensures res == NoCode <==> PaymentCodes.ExtractPaymentCode(line).None?
      ensures res == NotFound <==> (PaymentCodes.ExtractPaymentCode(line).Some?
        && forall k :: k in rows ==> rows[k].paymentCode != PaymentCodes.ExtractPaymentCode(line))
      ensures res.Found? ==> res.id in rows && rows[res.id].paymentCode == PaymentCodes.ExtractPaymentCode(line)
      ensures res.Found? && UniquePaymentCodes(rows) ==>
        forall k :: k in rows && rows[k].paymentCode == rows[res.id].paymentCode ==> k == res.id
    {
      var code := PaymentCodes.ExtractPaymentCode(line);
      if code.None? {
        res := NoCode;
      } else {
        var hits := set k | k in rows && rows[k].paymentCode == code;
        if hits == {} {
          forall k | k in rows
            ensures rows[k].paymentCode != code
          {
            assert k !in hits;
          }
          res := NotFound;
        } else {
          var k :| k in hits;
          res := Found(k);
        }
      }
    }
  }

  /** A registration object: its attributes, its id once saved, and the errors of its last save. */
  class Registration {
    var id: Option<RowId>
    var name: Option<string>
    var email: Option<string>
    var studentNumber: Option<string>
    var paidCents: Option<int>
    var priceCents: Option<int>
    var paymentCode: Option<string>
    var barcode: Option<string>
    var barcodeData: Option<string>
    var accessLevel: TierId
    var event: Option<nat>
    var errors: seq<FieldError>

    /** `Registration.new(...)`: a new, unsaved registration with no amounts and no codes yet. */
    constructor (name: Option<string>, email: Option<string>, studentNumber: Option<string>,
                 accessLevel: TierId, event: Option<nat>)
      ensures id.None? && paymentCode.None? && barcode.None? && barcodeData.None?
      ensures paidCents.None? && priceCents.None? && errors == []
      ensures this.name == name && this.email == email && this.studentNumber == studentNumber
      ensures this.accessLevel == accessLevel && this.event == event
    {
      id := None;
      this.name, this.email, this.studentNumber := name, email, studentNumber;
      paidCents, priceCents := None, None;
      paymentCode, barcode, barcodeData := None, None, None;
      this.accessLevel, this.event := accessLevel, event;
      errors := [];
    }

    /** The columns a save writes. */
    function Attributes(): Row
      reads this
    {
      Row(name, email, studentNumber, paidCents, priceCents, paymentCode, barcode, barcodeData, accessLevel, event)
    }

    /** `paid`: the amount paid in euros. */
    function Paid(): (euros: real)
      reads this
      ensures euros * 100.0 == paidCents.GetOr(0) as real
    {
      FromCents(paidCents)
    }

    /** `price`: the price in euros. */
    function Price(): (euros: real)
      reads this
      ensures euros * 100.0 == priceCents.GetOr(0) as real
    {
      FromCents(priceCents)
    }

    /** `to_pay`: what is still owed in euros; negative exactly when the entrant paid too much. */
    function ToPay(): (owed: real)
      reads this
      ensures owed * 100.0 == (priceCents.GetOr(0) - paidCents.GetOr(0)) as real
      ensures owed < 0.0 <==> paidCents.GetOr(0) > priceCents.GetOr(0)
    {
      Price() - Paid()
    }

    /** `paid?`: the price is covered, which is the same as owing nothing. */
    predicate IsPaid()
      reads this
      ensures IsPaid() <==> priceCents.GetOr(0) <= paidCents.GetOr(0)
      ensures IsPaid() <==> ToPay() <= 0.0
      ensures IsPaid() <==> RowIsPaid(Attributes())
    {
      Price() <= Paid()
    }

    /** `paid=`: stores the amount in cents. */
    method SetPaid(value: Amount)
      modifies this`paidCents
      ensures paidCents == Some(ToCents(value))
    {
      paidCents := Some(ToCents(value));
    }

    /** `price=`: stores the amount in cents. */
    method SetPrice(value: Amount)
      modifies this`priceCents
      ensures priceCents == Some(ToCents(value))
    {
      priceCents := Some(ToCents(value));
    }

    /**
     * `to_pay=`: sets `paid` to the price minus the (truncated) amount still to pay, so that
     * `to_pay` afterwards reads back that amount.
     */
    method SetToPay(value: Amount)
      modifies this`paidCents
      ensures paidCents == Some(old(priceCents).GetOr(0) - ToCents(value))
      ensures ToPay() * 100.0 == ToCents(value) as real
    {
      SetOwed(ToCents(value));
    }

    /** The assignment `to_pay=` makes once the amount is in cents: `paid = price - owed / 100.0`. */
    method SetOwed(owed: int)
      modifies this`paidCents
      ensures paidCents == Some(old(priceCents).GetOr(0) - owed)
      ensures ToPay() * 100.0 == owed as real
    {
      var price := priceCents.GetOr(0);
      var amount := Price() - owed as real / 100.0;
      TruncOfScaledDifference(price, owed);
      SetPaid(Number(amount));
      assert paidCents.GetOr(0) == price - owed;
    }

    /**
     * `save`: assign a payment code before validation when there is none (`r` is the random draw),
     * run the validators, write the row, then run the after-save capacity guard, which rolls the
     * write back and reports the tier sold out when it now holds more than its capacity.
     */
    method Save(db: Ledger, r: nat, emailFormat: Option<string> -> bool) returns (outcome: SaveOutcome)
      requires r < PaymentCodes.Space()
      requires db.Valid()
      modifies this`paymentCode, this`id, this`errors, db`rows, db`nextId
      ensures db.Valid()
      ensures paymentCode == if old(paymentCode).None? then Some(PaymentCodes.CreatePaymentCode(r)) else old(paymentCode)
      ensures Step(outcome, db.rows, db.nextId, id, errors)
        == SaveStep(old(db.rows), db.tiers, old(db.nextId), old(id), Attributes(), emailFormat)
    {
      if paymentCode.None? {
        paymentCode := Some(PaymentCodes.CreatePaymentCode(r));
      }
      var row := Attributes();
      var validation := Validate(db.rows, db.tiers, id, row, emailFormat);
      errors := validation.errors;
      if validation.Raised? {
        outcome := Crashed;
        return;
      }
      if errors != [] {
        outcome := Invalid(errors);
        return;
      }
      var committed, newId := db.WriteGuarded(id, row);
      id := newId;
      if committed {
        outcome := Committed;
      } else {
        errors := errors + [AccessLevelSoldOut];
        outcome := SoldOut;
      }
    }

    /**
     * `generate_barcode`: the twelve random digits become the payload, the payload with its
     * EAN-13 check digit becomes the barcode, and the record is saved with `save!`.
     */
    method GenerateBarcode(db: Ledger, digits: seq<nat>, r: nat, emailFormat: Option<string> -> bool)
      returns (outcome: SaveOutcome)
      requires |digits| == 12 && forall i :: 0 <= i < 12 ==> digits[i] < 10
      requires r < PaymentCodes.Space()
      requires db.Valid()
      modifies this`barcode, this`barcodeData, this`paymentCode, this`id, this`errors, db`rows, db`nextId
      ensures db.Valid()
      ensures barcodeData == Some(Join(digits)) && barcode == Some(Barcodes.Ean13(Join(digits)))
      ensures Barcodes.IsValidEan13(barcode.value)
      ensures paymentCode == if old(paymentCode).None? then Some(PaymentCodes.CreatePaymentCode(r)) else old(paymentCode)
      ensures Step(outcome, db.rows, db.nextId, id, errors)
        == SaveStep(old(db.rows), db.tiers, old(db.nextId), old(id), Attributes(), emailFormat)
    {
      var data := Join(digits);
      barcodeData := Some(data);
      barcode := Some(Barcodes.Ean13(data));
      Barcodes.Ean13IsValid(data);
      outcome := Save(db, r, emailFormat);
    }

    /**
     * `deliver`: generate a barcode only when there is none yet, then signal a ticket (and an
     * overpayment notice when paid more than the price) or, when unpaid, a confirmation.
     */
    method Deliver(db: Ledger, digits: seq<nat>, r: nat, emailFormat: Option<string> -> bool)
      returns (d: Delivery)
      requires |digits| == 12 && forall i :: 0 <= i < 12 ==> digits[i] < 10
      requires r < PaymentCodes.Space()
      requires db.Valid()
      modifies this`barcode, this`barcodeData, this`paymentCode, this`id, this`errors, db`rows, db`nextId
      ensures db.Valid()
      ensures d.Sent? ==> d.signals == DeliverySignals(priceCents.GetOr(0), paidCents.GetOr(0))
      ensures old(barcode).Some? ==>
        && d.Sent? && barcode == old(barcode) && barcodeData == old(barcodeData)
        && paymentCode == old(paymentCode) && id == old(id) && errors == old(errors)
        && db.rows == old(db.rows) && db.nextId == old(db.nextId)
      ensures old(barcode).None? ==>
        && barcodeData == Some(Join(digits)) && barcode == Some(Barcodes.Ean13(Join(digits)))
        && paymentCode == (if old(paymentCode).None? then Some(PaymentCodes.CreatePaymentCode(r)) else old(paymentCode))
        && var s := SaveStep(old(db.rows), db.tiers, old(db.nextId), old(id), Attributes(), emailFormat);
           (db.rows, db.nextId, id, errors) == (s.rows, s.nextId, s.id, s.errors)
           && (d.Aborted? <==> SaveBangRaises(s.outcome))
           && (d.Aborted? ==> d.outcome == s.outcome)
    {
      if barcode.None? {
        var outcome := GenerateBarcode(db, digits, r, emailFormat);
        if SaveBangRaises(outcome) {
          d := Aborted(outcome);
          return;
        }
      }
      d := Sent(DeliverySignals(priceCents.GetOr(0), paidCents.GetOr(0)));
    }
  }
}
