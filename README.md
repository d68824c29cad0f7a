# OctoPrint `config` commands, modelled in Dafny

This project models the `octoprint config` command group of OctoPrint
(`src/octoprint/cli/config.py`). Each command edits the settings tree at a
path. The model covers:

- path normalisation (`_to_settings_path`): a dotted string such as
  `" serial . baudrate "` becomes the list of its stripped, non-empty
  segments, and a list path passes through unchanged;
- the shared write helper (`_set_helper`): one setter call, chosen by a
  coercion kind (`setBoolean`, `setFloat`, `setInt` or the generic `set`),
  and then `save()`;
- the commands:
  - `set`: flag precedence bool over float over int, and the `--json` decode
    failure exit;
  - `remove`: a generic `set` with `None`;
  - `append_value`, `insert_value` and `remove_value`:
    - `None` counts as the empty list;
    - a non-list value exits with -1;
    - `list.insert` clamps its index;
    - `list.remove` takes out only the first match;
    - a missing value exits with 0;
  - the read done by `get`.

Modules:

- `Wrappers`: `Option` and `Result`.
- `Values`: the settings values, and Python's `==` on them. In Python's
  numeric tower `True == 1 == 1.0`; `in` and `list.remove` compare this way.
- `SettingsPath`: `_to_settings_path`. It is built on `split('.')`,
  `join`, Python 2.7 `unicode.strip` and the empty-segment filter.
- `ListEdit`: `list.insert`, `in` and `list.remove` as functions on
  sequences.
- `SettingsStore`: the settings store. It is a class holding three things:
  - the path → value map a read sees;
  - the values last saved;
  - a ghost trace of every call made on it.

  Its invariant is that the map is what replaying the trace gives.
- `ConfigCommands`: `_set_helper` and the commands, as methods on a `Store`.
  A command returns `Completed`, or `Exited(code)` where the source calls
  `ctx.exit`. Because `ctx.exit` raises, nothing after it runs. A command
  ends in `Raised(name)` where the source lets an exception escape. This
  happens in `insert_value` with an index outside the 64-bit `Py_ssize_t`
  range.

The list commands read the current list, edit it and write it back through
the helper with the already-normalised path. Normalising a list path again
returns it unchanged, so the model passes it as `Segments(p)`.

## Model

| member | source | states |
|---|---|---|
| SettingsPath.ToSettingsPath | src/octoprint/cli/config.py:18-21 | a list path comes back unchanged; every segment of a normalised dotted path is non-empty, has no surrounding whitespace and contains no `.` |
| SettingsPath.Split | src/octoprint/cli/config.py:20 | `split('.')` yields at least one piece and no piece contains the separator |
| SettingsPath.JoinSplit | src/octoprint/cli/config.py:20 | joining the pieces of a split with the separator gives back the original string |
| SettingsPath.SplitJoin | src/octoprint/cli/config.py:20 | splitting a join of separator-free pieces gives back exactly those pieces |
| SettingsPath.SplitAround | src/octoprint/cli/config.py:20 | splitting `a + sep + b` is splitting `a`, then splitting `b` |
| SettingsPath.SplitWithoutSep | src/octoprint/cli/config.py:20 | a string without the separator splits into itself alone |
| SettingsPath.Strip | src/octoprint/cli/config.py:20 | `strip()` removes exactly the leading and trailing whitespace: the result is an infix with only whitespace around it and none at its ends; it is empty iff the input is all whitespace; a string already without outer whitespace is unchanged |
| SettingsPath.StripUnique | src/octoprint/cli/config.py:20 | any infix with only whitespace around it and none at its own ends is the result of `strip()` |
| SettingsPath.StripKeepsOut | src/octoprint/cli/config.py:20 | stripping introduces no character that was not in the input |
| SettingsPath.Tidy | src/octoprint/cli/config.py:20 | stripping each token and filtering out empty ones leaves no more tokens than there were, each non-empty and without outer whitespace |
| SettingsPath.TidyKeepsOut | src/octoprint/cli/config.py:20 | a character absent from every token is absent from every normalised token |
| SettingsPath.TidyAppend | src/octoprint/cli/config.py:20 | the strip-and-filter pass works token by token and keeps their order |
| SettingsPath.DottedAround | src/octoprint/cli/config.py:20 | normalising `a + "." + b` is normalising `a`, then normalising `b` |
| SettingsPath.DottedPiece | src/octoprint/cli/config.py:20 | a dot-free string normalises to the empty path when blank, otherwise to its stripped self alone |
| SettingsPath.RootPath | src/octoprint/cli/config.py:19-20 | a dotted string normalises to the empty path iff it holds only dots and whitespace |
| SettingsPath.CanonicalRoundTrip | src/octoprint/cli/config.py:18-21 | joining well-formed segments with `.` and normalising gives back the same segments |
| SettingsPath.NormaliseIdempotent | src/octoprint/cli/config.py:18-21 | normalising the dotted form of a normalised path changes nothing |
| Values.Equal | src/octoprint/cli/config.py:186-190 | Python's `==` on settings values: bool, int and float compare by numeric value (`True == 1 == 1.0`), strings by content, lists element by element, dicts by keys and values, and a number never equals a non-number |
| Values.EqualReflexive | src/octoprint/cli/config.py:186-190 | every value is `==` to itself, so an appended value is found by `in` and `remove` |
| Values.EqualSymmetric | src/octoprint/cli/config.py:186-190 | `==` does not depend on operand order |
| ListEdit.InsertPosition | src/octoprint/cli/config.py:158 | `list.insert` position: an index within 0..n is used as is; above n it becomes n; a negative index counts from the end and is floored at 0 |
| ListEdit.Insert | src/octoprint/cli/config.py:158 | the new list is one longer, has the value at the insert position, and keeps the elements before and after it in order |
| ListEdit.InsertDelete | src/octoprint/cli/config.py:158 | deleting at the insert position undoes the insert |
| ListEdit.InsertMultiset | src/octoprint/cli/config.py:158 | inserting adds exactly the value to the list's elements |
| ListEdit.InsertPastEnd | src/octoprint/cli/config.py:158 | inserting at or past the end is the same as `append` |
| ListEdit.InsertBeforeLast | src/octoprint/cli/config.py:158 | index -1 puts the value in front of the last element |
| ListEdit.DeleteMultiset | src/octoprint/cli/config.py:190 | deleting a position takes out exactly that element |
| ListEdit.In | src/octoprint/cli/config.py:186 | `value in current`: some element compares equal with the value on the left of `==` |
| ListEdit.Contains | src/octoprint/cli/config.py:190 | the search of `current.remove(value)`: some element compares equal with the element on the left of `==` |
| ListEdit.InContains | src/octoprint/cli/config.py:186-190 | the `in` test (value on the left of `==`) and the search of `list.remove` (element on the left) hold for exactly the same lists |
| ListEdit.IndexOf | src/octoprint/cli/config.py:186-190 | finds nothing iff no element is `==` the value; otherwise the position of a match with no match before it |
| ListEdit.Remove | src/octoprint/cli/config.py:186-190 | `list.remove` fails iff the value is not `in` the list; otherwise the result is the list without its first match |
| ListEdit.RemoveInsert | src/octoprint/cli/config.py:190 | putting the removed element back where it was restores the list |
| ListEdit.RemoveMultiset | src/octoprint/cli/config.py:190 | removal takes out exactly one element, the match found |
| ListEdit.RemoveOnlyFirst | src/octoprint/cli/config.py:190 | a list with two matches still contains the value after one removal |
| ListEdit.RemoveAppended | src/octoprint/cli/config.py:186-190 | removing a value that was absent and then appended gives the list before the append |
| SettingsStore.Assign | src/octoprint/cli/config.py:100 | storing `None` unsets the key, any other value is stored at the key, and every other key keeps its presence and its value |
| SettingsStore.LookupAssign | src/octoprint/cli/config.py:100 | a read right after a write at the same path returns what was written (`None` after a removal), and other paths read as before |
| SettingsStore.Store.Get | src/octoprint/cli/config.py:121 | `settings.get(path)` returns the stored value, and `None` for an unset path, without changing the store |
| SettingsStore.Store.Set | src/octoprint/cli/config.py:26-39 | generic `set` stores the value unconverted, records the call, and keeps the trace invariant |
| SettingsStore.Store.SetBoolean | src/octoprint/cli/config.py:29-39 | `setBoolean` stores the converted value (nothing when conversion fails) and records the call |
| SettingsStore.Store.SetFloat | src/octoprint/cli/config.py:31-39 | `setFloat` stores the converted value (nothing when conversion fails) and records the call |
| SettingsStore.Store.SetInt | src/octoprint/cli/config.py:33-39 | `setInt` stores the converted value (nothing when conversion fails) and records the call |
| SettingsStore.Store.Save | src/octoprint/cli/config.py:40 | `save()` persists the current values, changes none of them and records the call |
| ConfigCommands.DataTypeFor | src/octoprint/cli/config.py:84-90 | `--bool` selects bool whatever else is given; `--float` selects float iff `--bool` is absent; `--int` selects int iff neither of the others is given; no flag selects none |
| ConfigCommands.SetterCall | src/octoprint/cli/config.py:26-37 | bool, float and int pick `setBoolean`, `setFloat` and `setInt`, and none picks `set`, each iff; path and value are passed unchanged |
| ConfigCommands.Argument | src/octoprint/cli/config.py:77-82 | without `--json` the value is the raw text; with it, the decode outcome |
| ConfigCommands.ListOf | src/octoprint/cli/config.py:121-126 | `None` counts as the empty list, a list as its elements, and anything else has no list |
| ConfigCommands.CallSetter | src/octoprint/cli/config.py:26-39 | the one setter call the kind selects, with path and value unchanged, recorded in the trace; the saved values are untouched |
| ConfigCommands.SetHelper | src/octoprint/cli/config.py:23-40 | exactly one setter call, chosen by the kind, with the normalised path, then exactly one save; afterwards the persisted values equal the current ones |
| ConfigCommands.SetCommand | src/octoprint/cli/config.py:75-92 | a failed decode exits with -1 before any store call; otherwise one setter call, chosen by flag precedence, then a save |
| ConfigCommands.SetThenGet | src/octoprint/cli/config.py:75-92 | `set` without a type flag followed by `get` at the same path returns the value set: the raw text, or with `--json` the decoded value, where a decoded `null` unsets the path; no other path changes, and a failed decode changes nothing |
| ConfigCommands.RemoveCommand | src/octoprint/cli/config.py:99-100 | exactly `set(path, None)` then `save()`; the key is gone and the saved values equal the current ones |
| ConfigCommands.AppendValueCommand | src/octoprint/cli/config.py:110-129 | a failed decode or a non-list value exits with -1 and makes no call; otherwise the list (`None` as `[]`) with the value at the end is set and saved |
| ConfigCommands.InsertValueCommand | src/octoprint/cli/config.py:140-159 | same exits as append; an index outside `Py_ssize_t` raises `OverflowError` and makes no call; otherwise the list with the value inserted at the clamped index is set and saved |
| ConfigCommands.RemoveValueCommand | src/octoprint/cli/config.py:169-191 | a failed decode or a non-list value exits with -1, and a value not `in` the list exits with 0, each making no call; otherwise the list without its first match is set and saved |
| ConfigCommands.GetCommand | src/octoprint/cli/config.py:204-207 | reads the value at the normalised path |

## Left out

- Click plumbing is not modelled. This covers the decorators, argument parsing, the `ctx`/`obj` objects and the `config` group callback with `init_settings`, `FatalStartupError` and `logging.basicConfig` (lines 44-58). It is framework and start-up code.
- `json.loads` is not modelled. A `--json` command takes the decode outcome as a parameter (`Result<Value>`). The error message echoed on failure is not modelled either.
- `click.echo` messages are not modelled; only the exit codes are.
- The output formatting of `get` is not modelled (`json.dumps`, `yaml.safe_dump`, `pprint.pformat`, raw; lines 209-218). These are foreign serialisers and terminal output.
- SettingsStore.Store: the real settings store's internals are not part of this model:
  - The typed setters' conversion is an injected function `convert`. A failed conversion stores nothing.
  - `save()` only marks the current values as persisted; nothing is written to disk.
  - The tree is a flat map from path to value, so writing a path does not touch the values below it.
  - The empty path is an ordinary key.
  - That `set(path, None)` unsets the key is an assumption about the store that `remove_command` (line 100) relies on.
- ConfigCommands.InsertValueCommand: the `Py_ssize_t` range is that of a 64-bit CPython build. On a 32-bit build (-2^31 .. 2^31-1) an index such as 3000000000 also raises `OverflowError` at line 158, and the model does not capture that narrower range.
- ConfigCommands.GetCommand: `get` with `merged=True` (line 207) and the list commands' plain `get` (lines 121, 151, 179) read the same single tier. Default and override tiers are not modelled.
- ConfigCommands.AppendValueCommand, ConfigCommands.InsertValueCommand, ConfigCommands.RemoveValueCommand: the source edits in place the list object that `get` returned (`append`, `insert` and `remove` at lines 128, 158 and 190), then writes it back. The model builds the new list as a value. Any aliasing between that object and the store is not modelled. The stored result is the same.
- Values: floats are mathematical reals, so NaN, infinities and rounding are not modelled. Because there is no NaN, the identity shortcut CPython takes in `in` and `list.remove` changes nothing.
- Values: Python 2's `str` and `unicode` are both `string`. Dict keys are strings.
