/** The persisted API-key store (`Config`): a directory holding one JSON file
    with a single optional field, `google_api_key`. The file system is a
    value; JSON text is replaced by what decoding and validation make of it. */
module ConfigStore {
  import opened Wrappers

  /** The `google_api_key` field of a decoded JSON object, as validation of
      `Optional[str]` sees it. */
  datatype Field = Missing | Null | Text(value: string) | WrongType

  /** What `json.load` makes of the file's contents: not JSON at all, JSON
      nested deeper than the decoder's recursion limit, a JSON value that is
      not an object, or an object (other keys are ignored). */
  datatype Content = Garbage | TooDeep | NonObject | Object(apiKey: Field)

  /** The config file: absent, or present with its contents and whether it
      can be opened for reading and for writing. Something at the path that
      is not a regular file is present with neither permission. */
  datatype FileState = Absent | Present(content: Content, readable: bool, writable: bool)

  /** The application directory: missing, a path taken by a non-directory,
      or a directory holding the config file, in which new files can be
      created when `writable`. */
  datatype Disk = NoDir | NotDir | Dir(file: FileState, writable: bool)

  /** The Python exceptions that escape the store's operations. */
  datatype Error = TypeError | RecursionError | OSError | FileExistsError

  /** What `get_api_key` returns, or the exception it raises. */
  datatype Read = Value(key: Option<string>) | Raised(error: Error)

  /** A disk on which `get_api_key` finds a stored string key. */
  predicate HoldsKey(d: Disk) {
    && d.Dir? && d.file.Present? && d.file.readable
    && d.file.content.Object? && d.file.content.apiKey.Text?
  }

  /** A disk on which opening the config file for writing succeeds: an
      existing file must be writable, a missing one needs a writable
      directory to be created in. */
  predicate Writable(d: Disk) {
    d.Dir? && (if d.file.Absent? then d.writable else d.file.writable)
  }

  /** A config file that exists but cannot be opened for reading. */
  predicate Unreadable(d: Disk) {
    d.Dir? && d.file.Present? && !d.file.readable
  }

  /** `Config.__init__`: creates the directory if it is missing; the config
      file itself is never touched. */
  function Construct(d: Disk): (r: Result<Disk, Error>)
    ensures r.Err? <==> d == NotDir
    ensures r.Err? ==> r.error == FileExistsError
    ensures r.Ok? ==> r.value.Dir?
    ensures r.Ok? && d.Dir? ==> r.value == d
    ensures d == NoDir ==> r == Ok(Dir(Absent, true))
  {
    match d
    case NoDir => Ok(Dir(Absent, true))
    case NotDir => Err(FileExistsError)
    case Dir(_, _) => Ok(d)
  }

  /** Contents whose reading raises past the `except` clause: a JSON value
      that is not an object, or JSON too deeply nested to decode. */
  predicate Escapes(c: Content) {
    c == NonObject || c == TooDeep
  }

  /** `Config.get_api_key`: fail-soft read. Two readable contents escape: a
      JSON value that is not an object, as the `TypeError` of
      `ConfigData(**data)`, and JSON nested too deeply, as the
      `RecursionError` of `json.load`; neither is caught. */
  function GetApiKey(d: Disk): (r: Read)
    ensures r.Raised? <==> d.Dir? && d.file.Present? && d.file.readable && Escapes(d.file.content)
    ensures r.Raised? ==> r.error == if d.file.content == NonObject then TypeError else RecursionError
    ensures r.Value? && r.key.Some? <==> HoldsKey(d)
    ensures HoldsKey(d) ==> r.key.value == d.file.content.apiKey.value
  {
    match d
    case NoDir => Value(None)
    case NotDir => Value(None)
    case Dir(Absent, _) => Value(None)
    case Dir(Present(content, readable, _), _) =>
      if !readable then Value(None)
      else match content
        case Garbage => Value(None)
        case TooDeep => Raised(RecursionError)
        case NonObject => Raised(TypeError)
        case Object(Text(k)) => Value(Some(k))
        case Object(Missing) => Value(None)
        case Object(Null) => Value(None)
        case Object(WrongType) => Value(None)
  }

  /** `Config.set_api_key`: replaces the whole contents of the file with an
      object holding the key. An existing file keeps its permissions; a new
      one is created readable and writable. */
  function SetApiKey(d: Disk, key: string): (r: Result<Disk, Error>)
    ensures r.Ok? <==> Writable(d)
    ensures r.Err? ==> r.error == OSError
    ensures r.Ok? ==> && r.value.Dir? && r.value.writable == d.writable
                      && r.value.file.Present?
                      && r.value.file.content == Object(Text(key))
                      && r.value.file.writable
                      && (r.value.file.readable <==> !Unreadable(d))
  {
    match d
    case Dir(Absent, dirWritable) =>
      if dirWritable then Ok(Dir(Present(Object(Text(key)), true, true), dirWritable)) else Err(OSError)
    case Dir(Present(_, readable, writable), dirWritable) =>
      if writable then Ok(Dir(Present(Object(Text(key)), readable, true), dirWritable)) else Err(OSError)
    case NoDir => Err(OSError)
    case NotDir => Err(OSError)
  }

  /** Reading after a successful write returns the key written, unless the
      file is write-only, when the read fails softly. */
  lemma SetThenGet(d: Disk, key: string)
    requires SetApiKey(d, key).Ok?
    ensures GetApiKey(SetApiKey(d, key).value) == if Unreadable(d) then Value(None) else Value(Some(key))
  {
  }

  /** A write replaces the file: the earlier key is gone. */
  lemma SetSetThenGet(d: Disk, a: string, b: string)
    requires SetApiKey(d, a).Ok?
    ensures SetApiKey(SetApiKey(d, a).value, b).Ok?
    ensures GetApiKey(SetApiKey(SetApiKey(d, a).value, b).value)
            == if Unreadable(d) then Value(None) else Value(Some(b))
  {
  }

  /** Every file state that is missing or cannot be read, decoded or
      validated, and every object without a string key, reads as `None`. */
  lemma FailSoft(d: Disk)
    requires || d == NoDir || d == NotDir
             || (d.Dir? && d.file.Absent?)
             || Unreadable(d)
             || (d.Dir? && d.file.Present? && d.file.content in {Garbage, Object(Missing), Object(Null), Object(WrongType)})
    ensures GetApiKey(d) == Value(None)
  {
  }

  /** Constructing twice is the same as constructing once. */
  lemma ConstructIdempotent(d: Disk)
    requires Construct(d).Ok?
    ensures Construct(Construct(d).value) == Construct(d)
  {
  }

  /** The store's operations as a state machine over the disk. */
  datatype Op = Init | Get | Set(key: string)

  datatype Outcome = Done | Key(key: Option<string>) | Failed(error: Error)

  /** One operation: the disk after it and what the caller sees. An
      operation that raises leaves the disk as it was. */
  function Step(d: Disk, op: Op): (r: (Disk, Outcome))
    ensures op == Get ==> r.0 == d
    ensures r.1.Failed? ==> r.0 == d
    ensures op.Init? && r.1 == Done ==> r.0.Dir? && (d.Dir? ==> r.0 == d)
    ensures op.Set? && r.1 == Done ==>
              GetApiKey(r.0) == if Unreadable(d) then Value(None) else Value(Some(op.key))
  {
    match op
    case Init =>
      (match Construct(d)
       case Ok(d') => (d', Done)
       case Err(e) => (d, Failed(e)))
    case Get =>
      (match GetApiKey(d)
       case Value(k) => (d, Key(k))
       case Raised(e) => (d, Failed(e)))
    case Set(k) =>
      (match SetApiKey(d, k)
       case Ok(d') => (d', Done)
       case Err(e) => (d, Failed(e)))
  }

  /** The disk after a sequence of operations. */
  function Run(d: Disk, ops: seq<Op>): Disk {
    if ops == [] then d else Step(Run(d, ops[..|ops| - 1]), ops[|ops| - 1]).0
  }

  /** The key of the last `Set` in `ops`, if any. */
  function LastSet(ops: seq<Op>): (r: Option<string>)
    ensures r.Some? ==> exists i :: 0 <= i < |ops| && ops[i] == Set(r.value)
    ensures r.None? ==> forall i :: 0 <= i < |ops| ==> !ops[i].Set?
  {
    if ops == [] then None
    else if ops[|ops| - 1].Set? then Some(ops[|ops| - 1].key)
    else LastSet(ops[..|ops| - 1])
  }

  /** On a disk that can be written and read, any run of operations keeps it
      so, and a read afterwards returns the last key written, or what it
      returned before when nothing was written. */
  lemma {:induction false} LastWriteWins(d: Disk, ops: seq<Op>)
    requires Writable(d) && !Unreadable(d)
    ensures Writable(Run(d, ops)) && !Unreadable(Run(d, ops))
    ensures GetApiKey(Run(d, ops)) == match LastSet(ops)
                                      case Some(k) => Value(Some(k))
                                      case None => GetApiKey(d)
  {
    if ops != [] {
      LastWriteWins(d, ops[..|ops| - 1]);
    }
  }

  /** The lifecycle on a fresh machine: after construction the key reads as
      `None` until the first write, then as the last key written. */
  lemma FreshLifecycle(ops: seq<Op>)
    ensures Construct(NoDir) == Ok(Dir(Absent, true))
    ensures GetApiKey(Run(Dir(Absent, true), ops)) == Value(LastSet(ops))
  {
    LastWriteWins(Dir(Absent, true), ops);
  }
}
