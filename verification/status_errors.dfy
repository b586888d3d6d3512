/** Errors as values: a custom error type that carries a status code and a
    message and wraps the error that caused it, and a login-then-fetch flow
    that reports which step failed. */
module StatusErrors {
  import opened GoTypes

  /** `type Status int`, with the two constants declared as `iota + 1`. */
  type Status = int

  const InvalidLogin: Status := 1
  const NotFound: Status := 2

  /** Go `error` values: a plain one from `errors.New`, or a `StatusErr`
      whose `Err` field may be nil. */
  datatype Error =
    | New(text: string)
    | StatusErr(status: Status, message: string, err: Option<Error>)

  /** A result-or-error pair of the kind `login`, `getData` and
      `LoginAndGetData` return; a failure always comes with nil data. */
  datatype Outcome<T> = Ok(value: T) | Fail(error: Error)

  /** `Error()`: a StatusErr reports its message unchanged. */
  function ErrorText(e: Error): (t: string)
    ensures e.StatusErr? ==> t == e.message
    ensures e.New? ==> t == e.text
  {
    match e
    case New(text) => text
    case StatusErr(_, message, _) => message
  }

  /** `Unwrap()`: a StatusErr gives back the error it wraps; a plain error
      wraps nothing. */
  function Unwrap(e: Error): (inner: Option<Error>)
    ensures e.StatusErr? ==> inner == e.err
    ensures e.New? ==> inner == None
  {
    match e
    case New(_) => None
    case StatusErr(_, _, err) => err
  }

  /** Wrapping loses nothing: status, message and cause can all be read
      back from the wrapper. */
  lemma WrapRoundTrip(s: Status, msg: string, cause: Error)
    ensures Unwrap(StatusErr(s, msg, Some(cause))) == Some(cause)
    ensures ErrorText(StatusErr(s, msg, Some(cause))) == msg
  {
  }

  /** The invalid-login message: a fixed text followed by the user ID. */
  function InvalidCredentialsMessage(uid: string): (m: string)
    ensures "invalid credentials for user " <= m
    ensures |m| == |uid| + 29 && m[29..] == uid
  {
    "invalid credentials for user " + uid
  }

  /** The not-found message as the source writes it: the format has a `%s`
      verb but no argument, so Go prints its missing-argument marker in place
      of the file name. */
  function NotFoundMessageAsWritten(file: string): (m: string)
    ensures |m| == 27
    ensures "file " <= m && m[5..17] == "%!s(MISSING)"
  {
    "file " + "%!s(MISSING)" + " not found"
  }

  /** The message the format evidently intends, naming the file. */
  function NotFoundMessage(file: string): (m: string)
    ensures |m| == |file| + 15
    ensures m[5..5 + |file|] == file
  {
    "file " + file + " not found"
  }

  /** As written, two different missing files produce the same message, so
      the message cannot tell the caller which file was missing. */
  lemma NotFoundMessageAsWrittenOmitsFile(f1: string, f2: string)
    ensures NotFoundMessageAsWritten(f1) == NotFoundMessageAsWritten(f2)
    ensures NotFoundMessageAsWritten(f1) == "file %!s(MISSING) not found"
  {
  }

  /** The intended message names the file: different files give different
      messages. */
  lemma NotFoundMessageNamesFile(f1: string, f2: string)
    requires NotFoundMessage(f1) == NotFoundMessage(f2)
    ensures f1 == f2
  {
    var m := NotFoundMessage(f1);
    assert f1 == m[5..5 + |f1|] == f2;
  }

  /** `LoginAndGetData`, with the two collaborators passed in. A failed login
      is reported as InvalidLogin wrapping the login error, and the data
      source is not consulted; a failed fetch after a good login is reported
      as NotFound wrapping the fetch error; otherwise the data comes back
      with a nil error. */
  function LoginAndGetData(
    uid: string, pwd: string, file: string,
    login: (string, string) -> Outcome<string>,
    getData: (string, string) -> Outcome<seq<byte>>
  ): (r: Outcome<seq<byte>>)
    ensures login(uid, pwd).Fail? ==>
      r == Fail(StatusErr(InvalidLogin, InvalidCredentialsMessage(uid), Some(login(uid, pwd).error)))
    ensures login(uid, pwd).Ok? && getData(login(uid, pwd).value, file).Fail? ==>
      r == Fail(StatusErr(NotFound, NotFoundMessage(file), Some(getData(login(uid, pwd).value, file).error)))
    ensures r.Ok? <==> login(uid, pwd).Ok? && getData(login(uid, pwd).value, file).Ok?
    ensures r.Ok? ==> r.value == getData(login(uid, pwd).value, file).value
  {
    match login(uid, pwd)
    case Fail(err) =>
      Fail(StatusErr(InvalidLogin, InvalidCredentialsMessage(uid), Some(err)))
    case Ok(token) =>
      match getData(token, file)
      case Fail(err) => Fail(StatusErr(NotFound, NotFoundMessage(file), Some(err)))
      case Ok(data) => Ok(data)
  }

  /** When login fails, the data source has no influence on the outcome. */
  lemma LoginFailureIgnoresData(
    uid: string, pwd: string, file: string,
    login: (string, string) -> Outcome<string>,
    getData1: (string, string) -> Outcome<seq<byte>>,
    getData2: (string, string) -> Outcome<seq<byte>>)
    requires login(uid, pwd).Fail?
    ensures LoginAndGetData(uid, pwd, file, login, getData1) == LoginAndGetData(uid, pwd, file, login, getData2)
  {
  }

  /** Every failure is a StatusErr whose status names the failing step and
      whose unwrapped cause is that step's own error. */
  lemma FailureUnwrapsToCause(
    uid: string, pwd: string, file: string,
    login: (string, string) -> Outcome<string>,
    getData: (string, string) -> Outcome<seq<byte>>)
    requires LoginAndGetData(uid, pwd, file, login, getData).Fail?
    ensures var e := LoginAndGetData(uid, pwd, file, login, getData).error;
      && e.StatusErr?
      && (e.status == InvalidLogin <==> login(uid, pwd).Fail?)
      && (e.status == InvalidLogin ==> Unwrap(e) == Some(login(uid, pwd).error))
      && (e.status == NotFound ==> Unwrap(e) == Some(getData(login(uid, pwd).value, file).error))
      && (e.status == InvalidLogin || e.status == NotFound)
  {
  }

  /** The stub `login`: it always fails. */
  function StubLogin(uid: string, pwd: string): (r: Outcome<string>)
    ensures r.Fail?
  {
    Fail(New("foobar"))
  }

  /** The stub `getData`: it always fails. */
  function StubGetData(token: string, file: string): (r: Outcome<seq<byte>>)
    ensures r.Fail?
  {
    Fail(New("couldn't get data"))
  }

  /** With the stubs the program wires in, every call fails at the login
      step. */
  lemma StubsAlwaysFailLogin(uid: string, pwd: string, file: string)
    ensures LoginAndGetData(uid, pwd, file, StubLogin, StubGetData)
      == Fail(StatusErr(InvalidLogin, "invalid credentials for user " + uid, Some(New("foobar"))))
  {
  }
}
