# Contact book: a Dafny model

This project models `main.py` of a small command-line contact book, without its terminal loop.
The book stores contacts. Each contact is a name with an ordered list of ten-digit phone numbers.
Typed lines such as `add alice 0001230001`, `phone alice`, `show all` or `del alice` act on the book.

The model follows the program's structure:

- `errors.dfy` (`Errors`): the Python exceptions that can occur, as an `Error` datatype, plus `Result` and `Option`.
- `text.dfy` (`Text`): the ASCII behaviour of the `str` methods the program relies on: `lower`, `title`, `strip`, `split()`, `startswith`, `join`. It also holds the lemmas about them: title case is pointwise, `title` ignores the input's case, and `split()` cuts at whitespace and nowhere else. The program never calls `split(c)` with a separator. The model defines it only to state how a rendered record and the listing read back.
- `phone.dfy` (`Phones`): `Phone` and `validate_phone`.
- `record.dfy` (`Records`): the `Record` class.
  - Its `phones` list changes in place through `AddPhone`, `RemovePhone` and `EditPhone`.
  - `FindPhone` is a read-only search.
  - `AddPhone` is specified as an append to the old list. `RemovePhone`, `EditPhone` and `FindPhone` are proved against specification functions on phone lists (`FirstMatch`, `RemoveFirst`, `ReplaceFirst`). Lemmas about those functions state what the operations keep.
- `address_book.dfy` (`Book`): the `AddressBook` class.
  - Its `data` map goes with an `order` sequence: a Python dictionary lists its keys in insertion order: assigning to a key already present keeps its place, and a key deleted and added again goes last. `__str__` shows that order.
  - `Valid()` says three things: each key appears once in `order`, `order` and `data` hold the same keys, and every record is filed under its own name.
  - `PhonesValid()` is the invariant that phone validation exists to keep: every stored phone has ten digits. `add` and `del` keep it, and so does one pass of the loop. `edit_phone` could break it, but no command reaches `edit_phone`.
- `interpreter.dfy` (`Interpreter`):
  - `input_error`, the `parser` and its `COMMANDS` table, and the quit-phrase test.
  - The handlers, which take the shared address book as an explicit parameter (in the source it is the global `address_book`).
  - `Step`: one pass of the loop. A quit phrase gives the farewell; any other line is parsed and dispatched.

A raised exception is a value. Inside a handler it is an `Error`. A decorated handler returns an `Outcome`: `Reply(text)` for what `input_error` catches or the handler returns, and `Uncaught(error)` for what escapes it.

Where the program's code differs from what it evidently intends, the model follows the code:

- `edit_phone` writes the new value before it validates it. A malformed value stays in the record after `ValueError` is raised. `Record.EditPhone` and `ReplaceFirstFailsDirty` model and exhibit this.
- The `change` command does not edit phones. `func_change` calls `record.func_edit_phone`, which `Record` does not define. With a phone argument it raises `AttributeError`, which `input_error` does not catch. With no phone argument it reports success and changes nothing.
- Not every exception is turned into a message. Besides that `AttributeError`, `hello` followed by text (`hello there`) calls the parameterless `func_hello` with arguments. That raises `TypeError`, which also escapes. `Step` proves these two are the only escapes.
- Arguments come from the title-cased line. `add alice 0001230001` therefore stores the contact under `Alice`.
- Names are not validated. A name reaching `func_add` is a word of the split line, so it is never empty.

## Model

| member | source | states |
|---|---|---|
| `Phones.ValidatePhone` | main.py:21-23 | succeeds exactly when the value has ten characters, all digits; otherwise raises `ValueError` |
| `Phones.NewPhone` | main.py:16-19 | building a phone succeeds exactly for ten-digit values and keeps the value; otherwise `ValueError` |
| `Records.FirstMatch` | main.py:56-60 | the position of the first phone with the given value, with no earlier match; absent exactly when no phone has that value |
| `Records.RemoveFirst` | main.py:37-42 | with a match at i: one element shorter, phones before i kept, later phones shifted down by one, and the multiset loses exactly the removed phone; with no match: unchanged |
| `Records.ReplaceFirst` | main.py:44-54 | same length; with a match only the first matching phone changes, to the new value; with no match: unchanged |
| `Records.RemoveFirstKeepsValid` | main.py:37-42 | removing a phone keeps a list of valid phones valid |
| `Records.ReplaceFirstKeepsValid` | main.py:44-54 | an edit to a valid value keeps a list of valid phones valid |
| `Records.ReplaceFirstFailsDirty` | main.py:47-49 | when the old value is present and the new value is malformed, the malformed phone ends up in the list |
| `Records.RenderRecord` | main.py:62-63 | the rendering starts with `Name: <name>, phones: `; with no phones it is that header alone, and with one phone it is the header followed by the value, with no separator |
| `Records.RenderRecordReadsBack` | main.py:62-63 | for at least one phone, all valid: the rendering starts with `Name: <name>, phones: `, and splitting the rest on commas gives the first phone value, then each later value with the blank of the `", "` separator in front of it |
| `Records.RenderRecordAvoids` | main.py:62-63 | a character found in neither the name, nor the phone values, nor the fixed text does not occur in the rendering |
| `Records.Record.constructor` | main.py:30-32 | a new record has the given name and no phones |
| `Records.Record.AddPhone` | main.py:34-35 | a valid value is appended after the unchanged old phones; an invalid value raises `ValueError` and leaves the list unchanged |
| `Records.Record.RemovePhone` | main.py:37-42 | the list becomes `RemoveFirst` of the old list; succeeds exactly when some phone matched, and otherwise raises `ValueError` |
| `Records.Record.EditPhone` | main.py:44-54 | the list becomes `ReplaceFirst` of the old list even when validation then fails; raises `ValueError` when nothing matched, otherwise returns the new value's validation result |
| `Records.Record.FindPhone` | main.py:56-60 | finds a phone exactly when one has the value, and returns the first such phone |
| `Records.Record.Render` | main.py:62-63 | the record's rendering starts with its own name header, and is that header alone when the record has no phones |
| `Book.RemoveKey` | main.py:73-75 | the deleted key is gone; every other key stays present or absent as before; an absent key changes nothing; distinct keys stay distinct and lose exactly one entry |
| `Book.RemoveKeyKeepsOrder` | main.py:73-75 | deleting a present name from distinct keys cuts exactly that name's entry out of the order; the other names keep their relative dictionary order |
| `Book.RemoveKeyIdempotent` | main.py:73-75 | deleting the same name twice leaves the same order as deleting it once |
| `Book.AddressBook.constructor` | main.py:176 | the book starts empty and valid, with no invalid phone stored |
| `Book.AddressBook.Find` | main.py:70-71 | returns a record exactly when the name is a key; that record is the one stored, and it carries that name |
| `Book.AddressBook.AddRecord` | main.py:67-68 | stores the record under its name, replacing any earlier record whole; `Find` then returns it and every other name finds what it found before; a new name goes last in the listing order, an existing name keeps its place; validity is kept |
| `Book.AddressBook.Delete` | main.py:73-75 | the name is no longer found and every other name finds what it found before; an absent name changes nothing; a present name is cut out of the order, the other names keeping their places relative to each other; validity and the all-phones-valid invariant are kept |
| `Book.AddressBook.Lines` | main.py:77-78 | one rendered record per key, in the given key order |
| `Book.AddressBook.Render` | main.py:77-78 | an empty book renders as the empty text; a one-contact book renders as that record's rendering; otherwise the listing starts with the first record in dictionary order |
| `Book.RenderReadsBack` | main.py:77-78 | when no name or phone value holds a line break, the listing splits on line breaks into the records' renderings in dictionary order |
| `Interpreter.InputError` | main.py:80-91 | `IndexError` becomes "Not enough params", `KeyError` "There is no contact such in phone book.", `ValueError` "Not enough params or wrong phone format"; any other exception passes through unchanged |
| `Interpreter.InputErrorDistinguishes` | main.py:84-89 | the three caught exceptions get three different messages |
| `Interpreter.Arg` | main.py:126 | `args[i]` yields the argument when it exists and raises `IndexError` otherwise |
| `Interpreter.FirstPrefix` | main.py:119-122 | the first table entry, in table order, whose key the line starts with; absent exactly when no key matches |
| `Interpreter.Parse` | main.py:107-122 | the unknown-command handler with no arguments exactly when no key matches the title-cased line; otherwise the handler of the first matching key, with the rest of the line stripped and split on whitespace |
| `Interpreter.CommandPrefixesExclusive` | main.py:108-115 | no two command keys match the same line, so table order never decides between two keys |
| `Interpreter.FirstPrefixIsOnlyPrefix` | main.py:119-121 | a line starting with a command key is matched to that key, whatever its place in the table |
| `Interpreter.ParseKeyAndWords` | main.py:117-121 | a line that title-cases to a command key followed by blank-separated words parses to that key's handler with exactly those words as arguments (so `add alice 0001230001` gives `Add` with `["Alice", "0001230001"]`) |
| `Interpreter.ParseIgnoresCase` | main.py:117-121 | parsing a line and parsing its lower-cased form give the same handler and arguments |
| `Interpreter.ParseArgsAreWords` | main.py:121 | the arguments are non-empty and whitespace-free, and together they hold every non-space character after the matched key |
| `Interpreter.IsQuit` | main.py:184 | a line ends the session exactly when it equals one of `exit`, `close`, `good bye` up to the case of its letters |
| `Interpreter.QuitPhrasesAreNotCommands` | main.py:184 | a quit phrase, in any case, matches no command key |
| `Interpreter.PhonesOf` | main.py:128-130 | the phones built from values carry those values in order, and are all valid exactly when the values are |
| `Interpreter.NewRecord` | main.py:127-130 | builds a fresh record with the given name and exactly the given phones, in order, when every value is valid; raises `ValueError` exactly when some value is malformed |
| `Interpreter.FuncAdd` | main.py:124-132 | no arguments: "Not enough params", book unchanged; any invalid phone: "Not enough params or wrong phone format", book unchanged; otherwise "Info saved successfully." and a fresh record with exactly the given phones replaces any earlier one of that name, other records and the listing order as for `AddRecord`; the all-phones-valid invariant is kept |
| `Interpreter.FuncChange` | main.py:134-144 | no arguments: "Not enough params"; unknown name: "There is no contact such in phone book."; known name: success without a phone argument, uncaught `AttributeError` with one |
| `Interpreter.FuncSearch` | main.py:152-159 | no arguments: "Not enough params"; unknown name: "There is no contact such in phone book."; otherwise the record's rendering |
| `Interpreter.FuncDelete` | main.py:146-150 | no arguments: "Not enough params", book unchanged; otherwise the name is removed if present and the deletion message is returned; the all-phones-valid invariant is kept |
| `Interpreter.FuncShowAll` | main.py:161-163 | the rendered records, in dictionary order, joined by line breaks; arguments are ignored |
| `Interpreter.FuncHello` | main.py:169-171 | "How can I help you?" without arguments; uncaught `TypeError` with any |
| `Interpreter.FuncUnknownCommand` | main.py:165-167 | "Unknown command. Try again." without arguments; uncaught `TypeError` with any |
| `Interpreter.DanListing` | main.py:62-63 | a contact `Dan` with phones `1111111111` and `2222222222` renders as `Name: Dan, phones: 1111111111, 2222222222` |
| `Interpreter.Step` | main.py:184-189 | a quit phrase gives "Good bye!" and changes nothing; any other line gives exactly what the parsed handler gives on the parsed arguments, with the book changed as `func_add` or `func_delete` change it and otherwise unchanged; an escaping exception is either `AttributeError` from `change` or `TypeError` from `hello`; the all-phones-valid invariant is kept |
| `Text.Lower` | main.py:184 | lower-casing keeps the length and lower-cases each character |
| `Text.TitleCaseAt` | main.py:117 | each character of the title-cased line depends only on itself and on whether the character before it is a letter |
| `Text.TitleCaseOfLower` | main.py:117 | title-casing a line and title-casing its lower-cased form agree |
| `Text.LowerOfTitleCase` | main.py:117 | title-casing only changes the case of letters |
| `Text.TitleCaseIdempotent` | main.py:117 | title-casing a title-cased line changes nothing |
| `Text.SplitWords` | main.py:121 | `split()` gives non-empty, whitespace-free words that concatenate to the line's non-space characters |
| `Text.SplitAroundSpace` | main.py:121 | a whitespace character separates words: splitting around it is splitting each side and concatenating |
| `Text.SplitOfWord` | main.py:121 | a non-empty, whitespace-free text is one word: `split()` takes maximal runs |
| `Text.SplitJoinedWords` | main.py:121 | words joined by single blanks split back into exactly those words |
| `Text.SplitStrip` | main.py:121 | stripping before splitting does not change the words |
| `Text.SplitOnJoinChar` | main.py:78 | splitting on a one-character separator undoes joining with it when no part contains it |

## Left out

- The interactive loop is left out: reading input, printing, and the banner of `func_help` (main.py:94-104, 178-192). This is terminal I/O. `Step` models one pass of the loop, without the printing.
- Python's Unicode tables behind `isdigit`, `lower`, `title` and `isspace` are left out. Digits are `0`-`9`, letters are ASCII, and whitespace is the ASCII set `isspace` accepts.
- `Field` and `Name` (main.py:3-13) are not modelled as classes: a record holds its name as a plain string, and a phone holds its value. Phones are values, not shared objects. `edit_phone`'s assignment to `phone.value` therefore becomes a replacement of that list element. `find_phone` returns the stored object itself. The model returns a copy, so a caller's later change to it would not reach the record. No code in main.py calls `find_phone`.
- `Record.name` is a constant in the model. The source never reassigns it. The `UserDict` machinery behind `AddressBook` is not modelled beyond its `data` dictionary.
- `Interpreter.FuncChange` stops at the first iteration of its loop. That iteration always raises `AttributeError`, so no later iteration runs.
- `Book.RenderReadsBack` and `Records.RenderRecordReadsBack` hold only under their stated conditions. `Book.RenderReadsBack` needs a non-empty book and no line break in any name or phone value. `Records.RenderRecordReadsBack` needs at least one phone, all of them valid. With no phones, `split(',')` of the empty text gives one empty piece, not an empty list.
- Exceptions the Python runtime can raise anywhere, such as memory exhaustion or interruption, are not modelled.
