/**
 * The Account record (a debt or bill a user tracks) and Account.Validate:
 * a chain of guard checks, each regular expression restated as a predicate
 * and related to an independent description of what it accepts.
 */
module AccountModel {
  import opened Wrappers
  import opened Text
  import opened Numerals

  /** Amounts are float64 in the source; they are only ever compared, so they are reals here. */
  datatype Account = Account(
    id: int,
    userId: int,
    name: string,
    accountType: string,
    minimumPayment: real,
    currentPayment: real,
    fullAmount: real,
    dueDate: string,
    url: string)

  /** The payment frequencies an account type may name. */
  datatype Frequency = Daily | Weekly | Biweekly | Monthly | Yearly

  function FrequencyName(f: Frequency): string
  {
    match f
    case Daily => "daily"
    case Weekly => "weekly"
    case Biweekly => "biweekly"
    case Monthly => "monthly"
    case Yearly => "yearly"
  }

  /** The pattern `^(daily|weekly|biweekly|monthly|yearly)$`, read as the frequency it names. */
  function ParseFrequency(s: string): Option<Frequency>
  {
    if s == "daily" then Some(Daily)
    else if s == "weekly" then Some(Weekly)
    else if s == "biweekly" then Some(Biweekly)
    else if s == "monthly" then Some(Monthly)
    else if s == "yearly" then Some(Yearly)
    else None
  }

  /** An account type is accepted exactly when it is the name of a frequency, and names only that one. */
  lemma ParseFrequencyNames(s: string)
    ensures ParseFrequency(s).Some? <==> exists f :: FrequencyName(f) == s
    ensures ParseFrequency(s).Some? ==> FrequencyName(ParseFrequency(s).value) == s
  {
    if ParseFrequency(s).Some? {
      assert FrequencyName(ParseFrequency(s).value) == s;
    }
    if exists f :: FrequencyName(f) == s {
      var f :| FrequencyName(f) == s;
      match f
      case Daily =>
      case Weekly =>
      case Biweekly =>
      case Monthly =>
      case Yearly =>
    }
  }

  /** The pattern `^([1-9]|[12]\d|3[01])$`. */
  predicate MatchesDueDate(s: string)
  {
    || (|s| == 1 && '1' <= s[0] <= '9')
    || (|s| == 2 && (s[0] == '1' || s[0] == '2') && IsDigit(s[1]))
    || (|s| == 2 && s[0] == '3' && (s[1] == '0' || s[1] == '1'))
  }

  /**
   * The due-date pattern accepts exactly the canonical numerals of the days
   * 1 to 31: no leading zero, no 0, nothing above 31. It is a check on the
   * text only, not on the calendar.
   */
  lemma DueDateIsDayOfMonth(s: string)
    ensures MatchesDueDate(s) <==> exists d :: 1 <= d <= 31 && Decimal(d) == s
  {
    if MatchesDueDate(s) {
      assert AllDigits(s);
      ValueDecimal(s);
      var d := DigitsValue(s);
      if |s| == 1 {
        assert s[..0] == [];
      } else {
        assert s[..1] == [s[0]] && s[..1][..0] == [];
        assert d == DigitValue(s[0]) * 10 + DigitValue(s[1]);
      }
      assert 1 <= d <= 31 && Decimal(d) == s;
    }
    if exists d :: 1 <= d <= 31 && Decimal(d) == s {
      var d :| 1 <= d <= 31 && Decimal(d) == s;
      if d >= 10 {
        assert Decimal(d) == [DigitChar(d / 10)] + [DigitChar(d % 10)];
        assert d / 10 == 3 ==> d % 10 <= 1;
      }
    }
  }

  /** Account.Validate: the guards in the order the source checks them. */
  function Validate(a: Account): bool
  {
    if a.userId < 1 then false
    else if !IsLettersAndSpaces(a.name) then false
    else if ParseFrequency(a.accountType).None? then false
    else if a.minimumPayment > a.fullAmount then false
    else if a.currentPayment > a.fullAmount then false
    else if !MatchesDueDate(a.dueDate) then false
    else true
  }

  /**
   * Validate is the conjunction of the six checks, each stated without the
   * pattern it is written with; the id, the URL and the sign of the
   * amounts are not examined.
   */
  lemma ValidateMeaning(a: Account)
    ensures Validate(a) <==>
      && a.userId >= 1
      && |a.name| >= 1
      && (forall i :: 0 <= i < |a.name| ==> IsLetter(a.name[i]) || a.name[i] == ' ')
      && (exists f :: FrequencyName(f) == a.accountType)
      && a.minimumPayment <= a.fullAmount
      && a.currentPayment <= a.fullAmount
      && (exists d :: 1 <= d <= 31 && Decimal(d) == a.dueDate)
  {
    ParseFrequencyNames(a.accountType);
    DueDateIsDayOfMonth(a.dueDate);
  }

  /** Neither the id, nor the URL, nor a common shift of all three amounts changes the verdict. */
  lemma ValidateIgnores(a: Account, id: int, url: string, shift: real)
    ensures Validate(a) == Validate(a.(id := id, url := url,
      minimumPayment := a.minimumPayment + shift,
      currentPayment := a.currentPayment + shift,
      fullAmount := a.fullAmount + shift))
  {
  }

  /** The account used as the valid baseline of the examples below. */
  function SampleAccount(): Account
  {
    Account(1, 1, "Car Payment", "monthly", 219.95, 219.95, 219.95, "1", "")
  }

  /** The verdicts the repository's tests expect of Validate. */
  lemma ValidateExamples()
    ensures Validate(SampleAccount())
    ensures Validate(SampleAccount().(userId := 2))
    ensures !Validate(SampleAccount().(userId := 0))
    ensures Validate(SampleAccount().(name := " "))
    ensures !Validate(SampleAccount().(name := ""))
    ensures !Validate(SampleAccount().(name := "Test 123"))
    ensures !Validate(SampleAccount().(name := "Test #Bad"))
    ensures !Validate(SampleAccount().(name := "Test \n"))
    ensures !Validate(SampleAccount().(accountType := ""))
    ensures !Validate(SampleAccount().(accountType := "bad"))
    ensures !Validate(SampleAccount().(minimumPayment := 500.0))
    ensures !Validate(SampleAccount().(currentPayment := 500.0))
    ensures !Validate(SampleAccount().(dueDate := ""))
    ensures !Validate(SampleAccount().(dueDate := "0"))
    ensures !Validate(SampleAccount().(dueDate := "32"))
    ensures Validate(SampleAccount().(dueDate := "31"))
    ensures !Validate(SampleAccount().(dueDate := "01"))
    ensures !Validate(SampleAccount().(minimumPayment := 219.96))
  {
    assert "Test 123"[5] == '1';
    assert "Test #Bad"[5] == '#';
    assert "Test \n"[5] == '\n';
  }
}
