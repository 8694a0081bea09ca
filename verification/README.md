# daily-notes: a verified model of the note formatter and the key store

`daily-notes` is a command-line tool. It records a meeting and has it
transcribed. A language model turns the transcript into a `Note`, and the tool
appends the note to a daily journal as markdown. Two parts of it are the
program's own logic, and this project models both in Dafny:

- **Note rendering** (`Note.to_str`). A `Note` has a heading, a body, a list of
  action items ("todos") and a comments field. It renders as a `## ` heading
  line, then the body passed through `textwrap.indent(body, "  - ")`, then a
  newline, then the action items as `  - TODO <item>` lines joined by newlines,
  then a final newline.
- **The key store** (`Config`). One optional string, `google_api_key`, is kept
  in a JSON file in a per-user directory. Reading it is fail-soft. Writing it
  replaces the file. The `note` command refuses to start without a non-empty
  key.

Files:

- `wrappers.dfy`: `Option` and `Result`.
- `text_indent.dfy`: `textwrap.indent`, built on an explicit
  `splitlines(keepends=True)`. It also holds its inverse `Unindent`, which
  strips the prefix from each prefixed line.
- `note_format.dfy`: `Note`, `ToStr` (`to_str`), and `Decode`, which reads a
  rendering back given the number of action items.
- `config_store.dfy`: the directory and the config file as a value (`Disk`).
  File contents are modelled by what decoding makes of them: `Garbage`,
  `TooDeep`, `NonObject`, or `Object(field)`. It also holds `Construct`,
  `GetApiKey` and `SetApiKey`, and a state machine (`Step`, `Run`) over those
  operations.
- `cli.dfy`: the key check at the start of `note` (`NoteStart`), and `login`.

Whitespace follows Python's `str.isspace` exactly: the ASCII controls TAB to CR
and FS to US, space, and the Unicode spaces. Lines break only at `\n`.

Two behaviours of the code are easy to miss, and the model keeps both:

- With no action items the output ends in `"\n\n"`. The newline after the
  body (daily_notes/cli.py:23) is followed by an empty join and the closing
  newline (daily_notes/cli.py:24-25), so a blank line ends the note.
- A config file holding JSON that is not an object does not read as "no key".
  `ConfigData(**data)` (daily_notes/config.py:24) raises `TypeError`, which is
  not among the exceptions caught at daily_notes/config.py:26, so the model
  gives it its own outcome (`Raised(TypeError)`). JSON nested deeper than the
  decoder's recursion limit is the same: `json.load` (daily_notes/config.py:23)
  raises `RecursionError`, which is not caught either (`Raised(RecursionError)`).

## Model

| member | source | states |
|---|---|---|
| TextIndent.SplitLines | daily_notes/cli.py:22 | the lines `textwrap.indent` works on: concatenated, they give back the text; each is non-empty and holds `\n` only as its last character; every line but the last ends with `\n` |
| TextIndent.SplitConcat | daily_notes/cli.py:22 | the split into lines is unique: any well-formed sequence of lines, concatenated and split again, gives back the same lines |
| TextIndent.IndentByLine | daily_notes/cli.py:22 | indenting works line by line: output line i is input line i, with `"  - "` in front exactly when it holds a non-whitespace character; whitespace-only lines are unchanged and every line keeps its terminator |
| TextIndent.UnindentIndent | daily_notes/cli.py:22 | removing the prefix from every prefixed line of the indented body gives back the original body exactly |
| TextIndent.IndentUnindent | daily_notes/cli.py:22 | any text that prefix removal accepts is exactly the indentation of what it returns |
| TextIndent.UnindentIffIndent | daily_notes/cli.py:22 | prefix removal and indentation are inverses, in both directions, for a one-line prefix that is not all whitespace |
| NoteFormat.ToStr | daily_notes/cli.py:20-26 | the output starts with exactly `"## " + heading + "\n"`, with the heading unescaped; it always ends with `\n`; with no action items it is the heading line, the indented body, then `"\n\n"` |
| NoteFormat.TodoSection | daily_notes/cli.py:24-25 | for a non-empty list of single-line items: the action items, joined and closed by the final newline, split into exactly one `"  - TODO " + item` line per item, in the order of the list |
| NoteFormat.ThreeLineNote | daily_notes/cli.py:21-25 | a one-line body holding a non-whitespace character and a single action item render as the heading line, `"  - " + body + "\n"`, and `"  - TODO " + item + "\n"`; these are three lines when the heading and the item hold no `\n` |
| NoteFormat.CommentsIgnored | daily_notes/cli.py:18-26 | two notes that differ only in `comments` render to the same string |
| NoteFormat.DecodeToStr | daily_notes/cli.py:20-26 | for a single-line heading and single-line items, rendering loses nothing but `comments`: decoding the output with its action-item count gives back heading, body and items |
| NoteFormat.ToStrDecode | daily_notes/cli.py:20-26 | whatever decodes to a note is exactly that note's rendering, with a single-line heading and items and the given number of items |
| NoteFormat.DecodeIffToStr | daily_notes/cli.py:20-26 | for a note with a single-line heading and single-line items and empty comments, a string decodes to that note, given its item count, exactly when it is the note's rendering; a note that is not of that kind is never the result of decoding |
| NoteFormat.BodyLineLooksLikeTodo | daily_notes/cli.py:22-24 | body and action items are not delimited: a last body line `TODO x` renders exactly like a first action item `x`, when another item follows and the line before holds text |
| NoteFormat.TodoNewlineCollides | daily_notes/cli.py:24 | an action item is not escaped: the one item `a + "\n  - TODO " + b` renders exactly like the two items `a` and `b` |
| NoteFormat.HeadingNewlineCollides | daily_notes/cli.py:21-22 | the heading is not escaped: heading `h + "\n  - " + first` over body `second` renders exactly like heading `h` over the two-line body `first + "\n" + second` |
| ConfigStore.Construct | daily_notes/config.py:12-15 | construction creates a missing directory, keeps an existing one and its file unchanged, and fails with `FileExistsError` only when the path is taken by a non-directory |
| ConfigStore.ConstructIdempotent | daily_notes/config.py:15 | constructing twice is the same as constructing once |
| ConfigStore.GetApiKey | daily_notes/config.py:17-27 | reading raises exactly for a readable file holding a JSON value that is not an object (`TypeError`) or JSON nested too deeply to decode (`RecursionError`); it returns a key exactly when the file holds an object with a string `google_api_key`, and that key is the one stored |
| ConfigStore.FailSoft | daily_notes/config.py:18-27 | a missing directory or file, a file that cannot be opened for reading, undecodable contents, a missing or null key, or a key that fails validation all read as `None` |
| ConfigStore.SetApiKey | daily_notes/config.py:29-32 | writing succeeds exactly when the file can be opened for writing (an existing file that is writable, or a missing one in a writable directory), and then the file holds just the new key, stays readable exactly when it was, and the directory is unchanged; otherwise it raises `OSError` |
| ConfigStore.SetThenGet | daily_notes/config.py:17-32 | reading after a successful write returns the key written, except for a write-only file, which reads as `None` |
| ConfigStore.SetSetThenGet | daily_notes/config.py:29-32 | a write replaces the whole file: after writing `a` then `b` the second write also succeeds, and reading returns `b` (or `None` for a write-only file), never `a` |
| ConfigStore.Step | daily_notes/config.py:11-32 | as one state machine: a read never changes the disk, a raising operation leaves it unchanged, construction yields a directory, and a successful write is read back unless the file is write-only |
| ConfigStore.LastWriteWins | daily_notes/config.py:17-32 | on a disk whose config file can be written and read, after any sequence of operations it still can, and a read returns the last key written, or the earlier reading when nothing was written |
| ConfigStore.FreshLifecycle | daily_notes/config.py:13-32 | on a fresh machine the key reads as `None` until the first write, and as the last key written after that |
| Cli.NoteStart | daily_notes/cli.py:30-35 | `note` exits with code 1 exactly when the stored key reads as `None` or `""`; it proceeds exactly when the key reads as a non-empty string, and then with that same key; otherwise it crashes, with `FileExistsError` when the directory path is taken, `TypeError` when the file holds a JSON non-object, and `RecursionError` when its JSON is nested too deeply |
| Cli.DeepJsonCrashes | daily_notes/config.py:23-26 | a readable config file nested too deeply for the JSON decoder makes reading raise `RecursionError` and `note` crash with it, whatever key the file holds |
| Cli.NoKeyExits | daily_notes/cli.py:30-35 | with no directory or no config file, `note` exits with code 1 |
| Cli.Login | daily_notes/cli.py:100-103 | `login` succeeds exactly when the directory is missing or the file can be opened for writing; it fails with `FileExistsError` when the directory path is taken and with `OSError` otherwise; after success the key reads back as the one entered, or as `None` for a write-only file |
| Cli.LoginThenNote | daily_notes/cli.py:29-35 | after a successful `login`, `note` proceeds with exactly that key, or exits with code 1 if the key was empty or the file is write-only |

## Left out

- Audio recording and Whisper transcription (daily_notes/cli.py:73-79) are calls into an external library, with device I/O and deletion of a temporary file.
- The language-model agent (daily_notes/cli.py:38-71, 81-86) is a network call. The rules in its prompt are only instructions to the model, and nothing checks them locally.
- Writing the journal (daily_notes/cli.py:88-96) is left out. It uses a home-directory path, the current UTC date and append-mode file I/O.
- Typer plumbing is left out: the hidden-input prompt, the messages echoed to the user, and the exit code of an escaping exception.
- TextIndent.SplitLines: only `\n` breaks lines. Python's `splitlines` also breaks at `\r`, `\x0b`, `\x0c`, `\x1c`-`\x1e`, `\x85`, `\u2028` and `\u2029`, and treats `\r\n` as one break. Text holding those characters gets different line boundaries in the model.
- ConfigStore.GetApiKey: JSON text and pydantic validation are abstracted into `Content` and `Field`. The model does not cover duplicate keys or how the text is encoded. Where the decoder's recursion limit lies is not modelled: `TooDeep` stands for any contents that reach it. Nor is a directory that cannot be searched: `Path.exists()` (daily_notes/config.py:18) then raises `PermissionError` outside the `try`, so reading raises rather than returning `None`.
- ConfigStore.Construct: `mkdir` failures other than `FileExistsError`, such as a parent directory that cannot be written, are not modelled. Neither is the fixed default path `~/.config/daily-notes`.
- ConfigStore.SetApiKey: permissions are three flags: the file can be read, the file can be written, and files can be created in the directory. A write that fails partway and leaves a truncated file is not modelled.
- NoteFormat.Decode is not part of the program. It is the inverse used to state that rendering loses nothing but `comments`. It needs the number of action items because the rendering does not mark where the body ends (see NoteFormat.BodyLineLooksLikeTodo).
- NoteFormat.ToStr: the heading and the action items are not escaped. With a newline inside either, different notes render alike (NoteFormat.TodoNewlineCollides, NoteFormat.HeadingNewlineCollides). For example, the heading `h`, an empty body and the one item `"a\n  - TODO b"` render exactly like the items `a` and `b`. The round trip is therefore stated only for single-line headings and items (NoteFormat.WellFormed).
