/** The part of the `note` and `login` commands that is this program's own
    logic: the pre-flight check on the stored API key, and storing a key. */
module Cli {
  import opened Wrappers
  import opened ConfigStore

  /** The exit code `note` uses when no API key is configured. */
  const MissingKeyExit: int := 1

  /** Python's `not api_key` on an `Optional[str]`: `None` and `""` are falsy. */
  predicate KeyMissing(key: Option<string>) {
    key.None? || key.value == ""
  }

  /** How `note` starts: with a key to call the model with, by exiting with
      a code, or by an escaping exception. */
  datatype Start = Proceed(apiKey: string) | Exit(code: int) | Crash(error: Error)

  /** The start of `note`: build the `Config`, read the key, and stop with
      exit code 1 when it is missing or empty. */
  function NoteStart(d: Disk): (r: Start)
    ensures r.Exit? ==> r.code == MissingKeyExit
    ensures r.Exit? <==> Construct(d).Ok? && GetApiKey(Construct(d).value).Value?
                         && KeyMissing(GetApiKey(Construct(d).value).key)
    ensures r.Proceed? <==> Construct(d).Ok? && GetApiKey(Construct(d).value).Value?
                            && !KeyMissing(GetApiKey(Construct(d).value).key)
    ensures r.Proceed? ==> r.apiKey != "" && GetApiKey(Construct(d).value) == Value(Some(r.apiKey))
    ensures r.Crash? ==> r.error == if Construct(d).Err? then FileExistsError
                                    else if d.file.content == NonObject then TypeError
                                    else RecursionError
  {
    match Construct(d)
    case Err(e) => Crash(e)
    case Ok(d') =>
      match GetApiKey(d')
      case Raised(e) => Crash(e)
      case Value(key) => if KeyMissing(key) then Exit(MissingKeyExit) else Proceed(key.value)
  }

  /** `login`: build the `Config` and store the key typed at the prompt. */
  function Login(d: Disk, key: string): (r: Result<Disk, Error>)
    ensures r.Ok? <==> d == NoDir || Writable(d)
    ensures r.Err? ==> r.error == if d == NotDir then FileExistsError else OSError
    ensures r.Ok? ==> GetApiKey(r.value) == if Unreadable(d) then Value(None) else Value(Some(key))
  {
    match Construct(d)
    case Err(e) => Err(e)
    case Ok(d') => SetApiKey(d', key)
  }

  /** With nothing stored, `note` exits with code 1. */
  lemma NoKeyExits(d: Disk)
    requires d == NoDir || (d.Dir? && d.file.Absent?)
    ensures NoteStart(d) == Exit(MissingKeyExit)
  {
  }

  /** After a successful `login`, `note` proceeds with exactly the key
      entered; it exits with code 1 if that key was empty, or if the config
      file is write-only and the key cannot be read back. */
  lemma LoginThenNote(d: Disk, key: string)
    requires Login(d, key).Ok?
    ensures !Unreadable(d) && key != "" ==> NoteStart(Login(d, key).value) == Proceed(key)
    ensures !Unreadable(d) && key == "" ==> NoteStart(Login(d, key).value) == Exit(MissingKeyExit)
    ensures Unreadable(d) ==> NoteStart(Login(d, key).value) == Exit(MissingKeyExit)
  {
  }

  /** A readable config file nested too deeply for the JSON decoder makes
      `note` crash with `RecursionError`, whatever key it holds. */
  lemma DeepJsonCrashes(d: Disk)
    requires d.Dir? && d.file.Present? && d.file.readable && d.file.content == TooDeep
    ensures GetApiKey(d) == Raised(RecursionError)
    ensures NoteStart(d) == Crash(RecursionError)
  {
  }
}
