/**
 * The User record and User.Validate: three name checks and the e-mail
 * check, in the order the source makes them.
 */
module UserModel {
  import opened Text
  import opened Email

  /** The biweekly income is a float64 in the source and is never examined; it is a real here. */
  datatype User = User(
    id: int,
    firstName: string,
    lastName: string,
    fullName: string,
    email: string,
    biweeklyIncome: real)

  /** User.Validate: `^[a-zA-Z ]+$` on each name, then the e-mail pattern. */
  function Validate(u: User): bool
  {
    if !IsLettersAndSpaces(u.firstName) then false
    else if !IsLettersAndSpaces(u.lastName) then false
    else if !IsLettersAndSpaces(u.fullName) then false
    else if !MatchesEmail(u.email) then false
    else true
  }

  /**
   * Validate holds exactly when every name is a non-empty run of letters and
   * spaces and the e-mail address has a well-formed parse.
   */
  lemma ValidateMeaning(u: User)
    ensures Validate(u) <==>
      && (|u.firstName| >= 1 && forall i :: 0 <= i < |u.firstName| ==> IsLetter(u.firstName[i]) || u.firstName[i] == ' ')
      && (|u.lastName| >= 1 && forall i :: 0 <= i < |u.lastName| ==> IsLetter(u.lastName[i]) || u.lastName[i] == ' ')
      && (|u.fullName| >= 1 && forall i :: 0 <= i < |u.fullName| ==> IsLetter(u.fullName[i]) || u.fullName[i] == ' ')
      && InLanguage(u.email)
  {
    MatchesEmailCorrect(u.email);
  }

  /** Neither the id nor the income changes the verdict. */
  lemma ValidateIgnores(u: User, id: int, income: real)
    ensures Validate(u) == Validate(u.(id := id, biweeklyIncome := income))
  {
  }

  /** The user used as the valid baseline of the examples below, with a given address. */
  function SampleUser(email: string): User
  {
    User(1, "John", "Ide", "John Ide", email, 1860.99)
  }

  lemma SampleNames()
    ensures IsLettersAndSpaces("John") && IsLettersAndSpaces("Ide") && IsLettersAndSpaces("John Ide")
    ensures IsLettersAndSpaces("John ") && IsLettersAndSpaces("Ide ") && IsLettersAndSpaces("Ide John ")
  {
  }

  /** The verdicts the repository's tests expect for the first name, for any accepted address. */
  lemma ValidateFirstNameExamples(email: string)
    requires MatchesEmail(email)
    ensures Validate(SampleUser(email))
    ensures Validate(SampleUser(email).(firstName := "John "))
    ensures !Validate(SampleUser(email).(firstName := ""))
    ensures !Validate(SampleUser(email).(firstName := "Test 123"))
    ensures !Validate(SampleUser(email).(firstName := "Test #"))
  {
    SampleNames();
    assert "Test 123"[5] == '1';
    assert "Test #"[5] == '#';
  }

  /** The verdicts the repository's tests expect for the last name. */
  lemma ValidateLastNameExamples(email: string)
    requires MatchesEmail(email)
    ensures Validate(SampleUser(email).(lastName := "Ide "))
    ensures !Validate(SampleUser(email).(lastName := ""))
    ensures !Validate(SampleUser(email).(lastName := "Test 123"))
    ensures !Validate(SampleUser(email).(lastName := "Test #"))
  {
    SampleNames();
    assert "Test 123"[5] == '1';
    assert "Test #"[5] == '#';
  }

  /** The verdicts the repository's tests expect for the full name, which need not join the other two. */
  lemma ValidateFullNameExamples(email: string)
    requires MatchesEmail(email)
    ensures Validate(SampleUser(email).(lastName := "Ide "))
    ensures Validate(SampleUser(email).(fullName := "Ide John "))
    ensures !Validate(SampleUser(email).(fullName := ""))
    ensures !Validate(SampleUser(email).(fullName := "Test 123"))
    ensures !Validate(SampleUser(email).(fullName := "Test #"))
  {
    SampleNames();
    assert "Test 123"[5] == '1';
    assert "Test #"[5] == '#';
  }

  /** The baseline user of the repository's tests is valid. */
  lemma ValidateSample(email: string)
    requires email == "ide.johnc@gmail.com"
    ensures Validate(SampleUser(email))
  {
    MatchesEmailAcceptsPlain(email);
  }

  /** The verdicts the repository's tests expect for the e-mail address. */
  lemma ValidateEmailExamples(email: string)
    requires email in {"", "@gmail.com", "ide.#johnc@gmail.com", "ide.johnc@gmail#.com",
      "ide.johncgmail.com", "ide.johnc@", "ide.johnc@gmail"}
    ensures !Validate(SampleUser(email))
  {
    if email == "ide.#johnc@gmail.com" || email == "ide.johnc@gmail#.com" {
      MatchesEmailRejectsSymbol(email);
    } else if email == "ide.johnc@" || email == "ide.johnc@gmail" {
      MatchesEmailRejectsNoExtension(email);
    } else {
      MatchesEmailRejectsNoLocalPart(email);
    }
  }
}
