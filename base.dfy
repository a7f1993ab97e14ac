/** Values shared by every part of the model: optional values, the exceptions
    the program raises, and the outcome of an operation that may raise. */
module Base {

  datatype Option<+T> = None | Some(value: T)

  /** The exceptions the modelled code raises or lets escape. */
  datatype Error =
    | PromotionError(message: string)
    | SigningError(message: string)
    | ConfigError(message: string)
    | ValueError(message: string)
    /** Any failing filesystem call (os.rename, os.mkdir, shutil.rmtree, tempfile.mkdtemp). */
    | OSError(message: string)
    /** A TypeError or ValueError raised by Python's `%` string formatting. */
    | FormatError
    /** pexpect.TIMEOUT and pexpect.EOF raised by `expect`. */
    | ExpectTimeout
    | ExpectEof
    /** `requests.get` failed before a response arrived. */
    | RequestFailed
    /** A name the code uses that is not defined (NameError). */
    | NameError(name: string)
    /** A bare `Exception(message)`. */
    | GenericError(message: string)
    /** An operation applied to a value of the wrong type, such as None. */
    | TypeError
    /** An attribute looked up on None. */
    | AttributeError
    /** ConfigParser's NoSectionError for a section the file does not have. */
    | NoSectionError(section: string)

  /** Either normal completion or a raised exception. */
  datatype Outcome = Ok | Raised(error: Error)

  /** A value, or the exception raised instead of computing it. */
  datatype Result<+T> = Success(value: T) | Failure(error: Error)

  /** What the program asks of the outside world, in the order it asks it:
      shell lines (`os.system`), argument vectors (`subprocess.Popen`), and
      the steps of driving an interactive process (`pexpect`). */
  datatype Action =
    | System(line: string)
    | Run(argv: seq<string>, cwd: Option<string>)
    | Spawn(line: string, timeout: nat)
    | Expect(pattern: string)
    | ExpectEnd
    | Send(text: string)
    | Close

  /** The program every chrooted command is run through. */
  const CHROOT_BIN := "/usr/sbin/chroot"

  /** Where a repository directory is bind-mounted inside a chroot. */
  const MOUNT_POINT := "/mnt"

  /** Python's `str(x)` of an optional string: `None` prints as "None". */
  function Show(x: Option<string>): (r: string)
    ensures x.Some? ==> r == x.value
    ensures x.None? ==> r == "None"
  {
    match x
    case Some(s) => s
    case None => "None"
  }

  /** Python truthiness of an optional string: neither None nor empty. */
  predicate Truthy(x: Option<string>)
  {
    x.Some? && x.value != ""
  }
}
