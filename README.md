# config_file: a verified model of the simple-config-library buffer

The library reads and writes flat `key=value` configuration files and keeps
comments, blank lines and insertion order when it writes one. It ships one
component, `config_file`, in two generations:

- `scl::config_file` in `include/SCL/SCL.hpp`. Its `load` records every key it
  reads in `data_order`, and an iterator walks `data_order`.
- `chim::config_file` in `include/chimconf/chimconf.hpp`. Its `load` fills only
  `data`. It also has the older `put_string`, `put_comment` and
  `put_empty_lines`.

Both keep the same buffer:

- `data` maps keys to values (`std::unordered_map<std::string, std::string>`);
- `data_order` (`std::vector<std::string>`) records the layout. A comment is
  stored as a sentinel prefix followed by its text. A blank line is stored as
  a sentinel of its own. `scl` uses `#{_COMMENT_LINE}` and `#{_EMPTY_LINE}`;
  `chim` uses `#{CHIMCONF_COMMENT_LINE}` and `#{CHIMCONF_EMPTY_LINE}`.

The model has four modules:

- `Line` (`line.dfy`): the text operations both generations share. These are
  `split` at the first `=`, the prefix test, the pieces a `std::getline` loop
  extracts (with `' '` in `get_strings`, with `'\n'` when a file is read) and
  the formatting that ends every element with a terminator (`' '` in
  `put(name, vector)`, `'\n'` in `write_changes`).
- `Layout` (`layout.dfy`): what both buffers share. It holds the `READ`/`WRITE`
  modes and the `comment` and `empty_lines` helper values. It also defines, as
  functions, what `load` takes from a list of lines (`LoadKeys`, `LoadInto`)
  and which lines `write_changes` emits (`Render`).
- `Scl` (`scl.dfy`) and `Chim` (`chimconf.dfy`): one class `ConfigFile` each.
  The class has the fields `data`, `dataOrder`, `mode` and `isOpen`. Its
  methods change those fields as the C++ member functions do.

Each class has an invariant, `Valid()`. In both classes, every entry of
`dataOrder` that is not a sentinel is a key of `data`. In `Scl`, so is every
entry the iterator reads as a key: anything but the blank-line sentinel and a
comment. Every key of `data` also occurs in `dataOrder`, and a buffer outside
WRITE mode holds no sentinel. In `Chim`, a READ buffer has an empty `dataOrder`.

The model treats the file as follows:

- `load` takes the lines `std::getline` would yield.
- `write_changes` returns the lines it writes. In the file, each is followed
  by `'\n'` (`Terminated(lines, '\n')`), and the round-trip lemmas read the
  lines back from that text with `Tokens(text, '\n')`.
- Whether the stream opened is a boolean field.
- Values are strings that are already formatted.

The model follows the code where a reader might expect otherwise:

- `load` does not record comments or blank lines. `scl` skips them. `chim`
  never touches `data_order` at all.
- A line whose first `=` is its last character (`key=`) loads with the value
  `"="`, not `""`. So an empty value written by `write_changes` comes back as
  `"="` (`Layout.Reread`, `Layout.WriteThenLoad`).
- `write_changes` classifies an entry by prefix: comment first, then blank
  line. The iterator checks for an entry equal to the blank-line sentinel
  first, then for the comment prefix.

## Model

| member | source | states |
|---|---|---|
| `Line.IndexOf` | include/SCL/SCL.hpp:54 | `find` gives the position of the first occurrence, or the length when there is none: every character before it differs. |
| `Line.Split` | include/SCL/SCL.hpp:53-68 | The key is the text before the first `=` and holds no `=`. The value is everything after that `=`, later `=` included, except that a `=` in last position gives `"="`. Without `=`, the result is `(s, "")`. |
| `Line.SplitJoin` | include/chimconf/chimconf.hpp:48-63 | For any `=`-free key, splitting `key=value` gives back the key, and the value, except that `""` comes back as `"="`. |
| `Line.JoinInjective` | include/SCL/SCL.hpp:322 | Two `key=value` lines with `=`-free keys are equal only when keys and values are. |
| `Line.StartsWith` | include/SCL/SCL.hpp:97-103 | `starts_with` holds exactly when the phrase is no longer than the string and matches it character by character. |
| `Line.Tokens` | include/SCL/SCL.hpp:680-688 | What a `getline(in, piece, d)` loop extracts: with `' '` the tokens of `get_strings`, with `'\n'` the lines `load` reads. No piece contains `d`. The empty text gives no piece. A trailing `d` gives no final empty piece. |
| `Line.GetLine` | include/SCL/SCL.hpp:684 | One `getline(in, piece, d)` call: it consumes at least one character and extracts a piece without `d`. The pieces of the rest of the stream are the pieces of what follows it. |
| `Line.Terminated` | include/SCL/SCL.hpp:745-748 | `put(name, vector)` formats the list as each element followed by a space (and `write_changes` ends each line with `'\n'`). The result is empty exactly for the empty list and otherwise ends in the terminator. |
| `Line.TokensOfTerminated` | include/chimconf/chimconf.hpp:551-569 | Reading back with `get_strings` a list written by `put(name, vector)` gives the list itself, when no element contains a space. The same holds for lines and `'\n'`. |
| `Line.TerminatedOfTokens` | include/chimconf/chimconf.hpp:486-510 | Formatting the tokens of any value gives the value back, with one terminator added when it did not end in one. |
| `Layout.KeyEntries` | include/SCL/SCL.hpp:316-324 | The entries of `data_order` that `write_changes` writes as `key=value`, in order; an entry is among them exactly when it is in the order and is not a sentinel. |
| `Layout.LoadKeys` | include/SCL/SCL.hpp:297-302 | The keys `load` takes from the lines, one per data line. None contains `=` or starts with `#`. |
| `Layout.LoadSnoc` | include/SCL/SCL.hpp:297-302 | Reading one more line appends its key when it is a data line and stores its value over any earlier one; any other line changes nothing. |
| `Layout.LoadIntoLookup` | include/SCL/SCL.hpp:297-302 | After `load` (`LoadInto`), a key is present exactly when it was before or a data line names it. Its value is the one on the last such line (last duplicate wins). Other keys keep their values. |
| `Layout.Render` | include/SCL/SCL.hpp:316-324 | `write_changes` emits exactly one line per entry of `data_order`. |
| `Layout.RenderAt` | include/SCL/SCL.hpp:316-324 | The line at each position is the one for the entry at that position: `#` and its text for a comment entry, `""` for a blank-line entry, `key=` and its current value for a key. |
| `Layout.FinalValueOnly` | include/SCL/SCL.hpp:322 | A key put twice is written with its final value: a line `k=v` is emitted only when `v` is the current value of `k`, and it is the line emitted at every position of `data_order` that holds `k`. |
| `Layout.Reread` | include/SCL/SCL.hpp:58-59 | What a value becomes after being written and loaded: never empty, and unchanged unless it was empty. |
| `Layout.WrittenTextSplitsBack` | include/SCL/SCL.hpp:316-324 | `write_changes` ends every line with `'\n'`. When no entry (comment text included) and no value holds a newline, `getline` reads back exactly the lines written. |
| `Layout.WriteThenLoad` | include/SCL/SCL.hpp:291-329 | Loading the lines written for a buffer gives its key entries in order and each key's current value (`""` as `"="`). This needs keys that contain no `=` and do not start with `#`. |
| `Scl.ConfigFile.constructor` | include/SCL/SCL.hpp:271-275 | A new buffer has the given mode, the given open state and no entries. |
| `Scl.ConfigFile.Load` | include/SCL/SCL.hpp:291-306 | Returns true exactly in READ mode on an open file. It then stores every data line's value and appends its key to `data_order`. Otherwise nothing changes. The invariant is kept. |
| `Scl.ConfigFile.WriteChanges` | include/SCL/SCL.hpp:309-329 | Returns false and emits nothing unless in WRITE mode with a non-empty `data`, even when comments or blank lines were put. Otherwise it emits `Render` of the buffer. |
| `Scl.ConfigFile.Close` | include/SCL/SCL.hpp:332-336 | The stream is closed and both containers are empty, whatever the state before (so a second call changes nothing). |
| `Scl.ConfigFile.GetString` | include/SCL/SCL.hpp:652-669 | The stored value, verbatim, exactly when in READ mode with a non-empty buffer holding the key; `def` otherwise. |
| `Scl.ConfigFile.GetStrings` | include/SCL/SCL.hpp:672-696 | Under the same conditions as `get_string`, the tokens of the stored value; `def` otherwise. |
| `Scl.ConfigFile.Put` | include/SCL/SCL.hpp:701-716 | In WRITE mode: true, `data[name] := val`, exactly `name` appended, nothing else changed. Otherwise: false and no change. |
| `Scl.ConfigFile.PutPair` | include/SCL/SCL.hpp:719-734 | The same as `Put` for the pair's name and value. |
| `Scl.ConfigFile.PutList` | include/SCL/SCL.hpp:737-755 | As `Put`, with the value `Terminated(val, ' ')`. |
| `Scl.ConfigFile.PutListPair` | include/SCL/SCL.hpp:758-776 | As `PutList` for the pair's name and list. |
| `Scl.ConfigFile.PutComment` | include/SCL/SCL.hpp:778-789 | In WRITE mode, appends exactly the comment sentinel followed by the text and leaves `data` alone. Otherwise it returns false with no change. |
| `Scl.ConfigFile.PutEmptyLines` | include/SCL/SCL.hpp:791-802 | In WRITE mode, appends exactly `num_lines` blank-line sentinels and leaves `data` alone. Otherwise it returns false with no change. |
| `Scl.ConfigFile.Deref` | include/SCL/SCL.hpp:165-187 | The blank-line sentinel yields `(EMPTY_LINE, "")`. Any other entry starting with the comment sentinel yields `(COMMENT_LINE, text)`. Any other entry is a key of `data` and yields itself and its current value. Only the blank-line sentinel yields `EMPTY_LINE` first. The pair maps back to its entry (`EntryOfPair`): a comment marker as `put(comment(text))` would append it, a blank-line marker as `put(empty_lines(1))`, any other pair as `put(key, value)`. |
| `Scl.ConfigFile.Walk` | include/SCL/SCL.hpp:254-268 | The pairs a loop from `begin()` to `end()` dereferences: one per position of `data_order`. |
| `Scl.WalkRebuildsOrder` | include/SCL/SCL.hpp:165-187 | Iterating a buffer and copying every pair into another rebuilds its `data_order`, comments, blank lines and keys in the same order, when the copy sends a comment marker to `put(comment(text))`, a blank-line marker to `put(empty_lines(1))` and only other pairs to `put(key, value)`. |
| `Scl.DerefWritesAsEntry` | include/SCL/SCL.hpp:316-324 | The line `write_changes` emits for an entry is the line its dereferenced pair stands for. |
| `Scl.WriteThenLoadFile` | include/SCL/SCL.hpp:297-324 | Loading the lines `getline` reads from the text a WRITE buffer wrote appends its key entries in order and stores exactly its keys with their current values (`""` as `"="`). |
| `Scl.ReadIterationYieldsKeys` | include/SCL/SCL.hpp:298 | A loaded buffer iterates without comment or blank-line markers: every position yields a key and its value. |
| `Scl.GetAfterLoad` | include/SCL/SCL.hpp:658-667 | After loading lines into an empty READ buffer, `get_string` returns the value on the last line naming the key, or `def` when no line does. |
| `Chim.ConfigFile.constructor` | include/chimconf/chimconf.hpp:87-91 | A new buffer has the given mode, the given open state and no entries. |
| `Chim.ConfigFile.Load` | include/chimconf/chimconf.hpp:106-120 | Returns true exactly in READ mode on an open file. It then stores every data line's value and never touches `data_order`. Otherwise nothing changes. |
| `Chim.ConfigFile.WriteChanges` | include/chimconf/chimconf.hpp:123-143 | Returns false and emits nothing unless in WRITE mode with a non-empty `data`. Otherwise it emits `Render` of the buffer. |
| `Chim.ConfigFile.Close` | include/chimconf/chimconf.hpp:146-150 | Both containers are empty and the stream is closed, whatever the state before (idempotent). |
| `Chim.ConfigFile.GetString` | include/chimconf/chimconf.hpp:466-483 | The stored value exactly when in READ mode with a non-empty buffer holding the key; `def` otherwise. |
| `Chim.ConfigFile.GetStrings` | include/chimconf/chimconf.hpp:486-510 | Under the same conditions, the tokens of the stored value; `def` otherwise. |
| `Chim.ConfigFile.Put` | include/chimconf/chimconf.hpp:515-530 | In WRITE mode: true, `data[name] := val`, `name` appended, nothing else. Otherwise false and no change. |
| `Chim.ConfigFile.PutPair` | include/chimconf/chimconf.hpp:533-548 | The same as `Put` for the pair. |
| `Chim.ConfigFile.PutList` | include/chimconf/chimconf.hpp:551-569 | As `Put`, with the value `Terminated(val, ' ')`. |
| `Chim.ConfigFile.PutListPair` | include/chimconf/chimconf.hpp:572-590 | As `PutList` for the pair. |
| `Chim.ConfigFile.PutString` | include/chimconf/chimconf.hpp:718-730 | As `Put`. |
| `Chim.ConfigFile.PutComment` | include/chimconf/chimconf.hpp:592-603 | In WRITE mode, appends exactly the comment sentinel followed by the text and leaves `data` alone. Otherwise it returns false with no change. |
| `Chim.ConfigFile.PutCommentText` | include/chimconf/chimconf.hpp:733-742 | `put_comment`: the same as `PutComment`. |
| `Chim.ConfigFile.PutEmptyLines` | include/chimconf/chimconf.hpp:605-616 | In WRITE mode, appends exactly `num_lines` blank-line sentinels and leaves `data` alone. Otherwise it returns false with no change. |
| `Chim.ConfigFile.PutEmptyLineCount` | include/chimconf/chimconf.hpp:745-756 | `put_empty_lines(num)`: in WRITE mode, appends exactly `max(num, 0)` blank-line sentinels. Otherwise it returns false with no change. |
| `Chim.WriteThenLoadFile` | include/chimconf/chimconf.hpp:106-143 | Loading the lines `getline` reads from the text a WRITE buffer wrote stores exactly its keys with their current values (`""` as `"="`). |
| `Chim.GetAfterLoad` | include/chimconf/chimconf.hpp:472-481 | After loading lines into an empty READ buffer, `get_string` returns the value on the last line naming the key, or `def`. |

## Left out

- File handles: `open`, `is_open`, the `fstream` and the file-name field are not modelled. Opening is a boolean `isOpen` given to the constructor. Lines come in as a sequence and go out as a sequence.
- A second `load` on the same stream finds it at its end and adds nothing. The model takes the lines still in the stream as its argument.
- Calling `write_changes` twice writes the lines twice to the stream. The model returns the same lines both times, since the buffer is unchanged.
- `write_changes` writes to a stream that failed to open, and the model does not check `isOpen` there either. The lost output is not modelled.
- Typed reads through `std::stringstream >>` are not modelled: `get<T>`, `gets<T>`, `get_bool`, `get_int`, `get_float`, `get_double`, `get_char` and their list forms. They depend on the C++ library's parsing, and two are floating point.
- Typed writes are not modelled: the formatting `put<T>` does through `std::stringstream <<`, and the deprecated `put_bool`, `put_int`, `put_float`, `put_double` and `put_char`. Every value is taken as an already-formatted string.
- `operator<<` for pairs, comments and empty lines calls the matching `put` and returns the object for chaining. It is not modelled separately.
- A copy that hands every iterated pair to the plain `put(pair)` or `operator<<(pair)` is not modelled. For a comment it stores the text under the key `COMMENT_LINE` and appends `COMMENT_LINE` alone, so `write_changes` emits `#` and the text is lost. `Scl.WalkRebuildsOrder` states only the copy that dispatches markers to `put(comment)` and `put(empty_lines(1))`.
- The iterator's arithmetic, comparisons, copy and assignment, and the free `begin`/`end` functions are left out. They wrap `std::vector::iterator`, and an iterator is an index here. The `runtime_error` from dereferencing a default-constructed iterator is also left out.
- Deleted copy and move operations and the destructors are left out. The destructor only calls `close`.
- `split` takes a phrase, but its only caller passes `"="`. The model splits at `=`.
- Integer widths are not modelled: `int pos` in `split` and the `int` loop counter of `put(empty_lines)`. They matter only for strings or counts beyond 2^31 - 1.
- Sentinel collisions are not modelled as failures. A key may start with a sentinel, contain `=`, or contain a newline, and a comment may contain a newline. The round-trip lemmas (`Scl.WriteThenLoadFile`, `Chim.WriteThenLoadFile`) require keys that contain no `=` and do not start with `#`, and entries (comment text included) and values without a newline. A newline would cut a written line in two: the comment `a\nb=c` is written as `#a` and `b=c`, and `load` reads back a key `b`. `Layout.WriteThenLoad` itself works on lines. `Layout.FinalValueOnly` likewise requires keys that contain no `=` and do not start with `#`. `Scl.DerefWritesAsEntry` requires that no key merely starts with the blank-line sentinel: `write_changes` writes such a key as a blank line, while the iterator yields it as a key.
- `std::unordered_map::operator[]` inserts `""` for a missing key in `write_changes` and in the iterator. In `Scl`, `Valid()` makes every entry that `write_changes` or the iterator reads as a key a key of `data`, so that insertion never happens there. In `Chim`, `Valid()` does the same for `write_changes`, which has no iterator.
