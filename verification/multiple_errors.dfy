/** Validation that collects one error per empty field and reports them all
    together, as `errors.Join` does. */
module MultipleErrors {
  import opened GoTypes

  datatype Person = Person(FirstName: string, LastName: string)

  const FirstNameEmpty: string := "field FirstName cannot be empty"
  const LastNameEmpty: string := "field LastName cannot be empty"

  /** The error `errors.Join` returns for a non-empty list: it wraps the
      joined errors in order. */
  datatype JoinError = JoinError(errs: seq<string>)

  /** The text of a joined error: the messages separated by newlines. */
  function JoinedText(errs: seq<string>): (t: string)
    ensures |errs| == 1 ==> t == errs[0]
    ensures |errs| >= 2 ==> t == JoinedText(errs[..|errs| - 1]) + "\n" + errs[|errs| - 1]
  {
    if |errs| == 0 then ""
    else if |errs| == 1 then errs[0]
    else JoinedText(errs[..|errs| - 1]) + "\n" + errs[|errs| - 1]
  }

  /** How many of the person's fields are empty. */
  function EmptyFields(p: Person): nat
  {
    (if |p.FirstName| == 0 then 1 else 0) + (if |p.LastName| == 0 then 1 else 0)
  }

  /** `Person.Validate`: nil exactly when both names are filled in; otherwise
      one error per empty field, the first-name error first. */
  function Validate(p: Person): (r: Option<JoinError>)
    ensures r.None? <==> |p.FirstName| > 0 && |p.LastName| > 0
    ensures r.Some? ==> |r.value.errs| == EmptyFields(p)
    ensures r.Some? ==> (FirstNameEmpty in r.value.errs <==> |p.FirstName| == 0)
    ensures r.Some? ==> (LastNameEmpty in r.value.errs <==> |p.LastName| == 0)
    ensures r.Some? && |p.FirstName| == 0 ==> r.value.errs[0] == FirstNameEmpty
  {
    var errs := (if |p.FirstName| == 0 then [FirstNameEmpty] else [])
      + (if |p.LastName| == 0 then [LastNameEmpty] else []);
    if |errs| > 0 then Some(JoinError(errs)) else None
  }

  /** The program's zero-valued person fails on both fields, and the error
      text lists both messages on separate lines. */
  lemma ZeroPersonFailsTwice()
    ensures Validate(Person("", "")) == Some(JoinError([FirstNameEmpty, LastNameEmpty]))
    ensures JoinedText(Validate(Person("", "")).value.errs) == FirstNameEmpty + "\n" + LastNameEmpty
  {
    var errs := [FirstNameEmpty, LastNameEmpty];
    assert [FirstNameEmpty] + [LastNameEmpty] == errs;
    assert errs[..1] == [FirstNameEmpty];
  }

  /** Validation depends only on which fields are empty, not on what the
      filled-in ones say. */
  lemma ValidateSeesOnlyEmptiness(p: Person, q: Person)
    requires (|p.FirstName| == 0 <==> |q.FirstName| == 0)
    requires (|p.LastName| == 0 <==> |q.LastName| == 0)
    ensures Validate(p) == Validate(q)
  {
  }
}
