# Record-header formatting of the `logs` package

This project models the part of the Go logging package `logs` that builds a
log record's header and the log file's name, and proves properties of that
model in Dafny. It covers:

- the header flag bits (`Ldate`, `Ltime`, `Lmicroseconds`, `Llongfile`,
  `Lshortfile`, `Lmodule`, `Llevel`, `LstdFlags`, `Ldefault`) and the
  seven-byte level labels;
- `itoa`, which writes `uint(i)` in decimal, zero-padded to a minimum width.
  It builds the digits backwards in a 32-byte scratch array and then copies
  them out;
- `moduleOf`, which takes the text between the last `/src/` before the last
  `/` of a source path and that `/` (which may itself contain `/`), or
  `UNKNOWN` when there is none;
- `formatHeader`, which appends to a byte buffer, in this order:
  - the logger's prefix;
  - the date `YYYY/MM/DD `;
  - the clock `HH:MM:SS`, with `.uuuuuu` when `Lmicroseconds` is set, then a space;
  - the level label;
  - the module tag `[module] `;
  - the caller's file, trimmed by a backwards scan when `Lshortfile` is set,
    then `:line` when the line is positive, then `: `;
- `logfileName` and `logfileFullName`, which build
  `<logPath>/<logFile>.<YYYY-MM-DD>.log`.

Layout:
- `text.dfy` (module `Text`) holds `strings.LastIndex` and the facts about
  occurrences of a substring that the proofs use.
- `buffer.dfy` (module `Buffers`) holds `bytes.Buffer` as an append-only
  class.
- `decimal.dfy` (module `Decimal`) holds `itoa` and its specification
  `Padded`.
- `logs.dfy` (module `Logs`) holds the constants, `moduleOf`, the header
  and its writer methods, and the file names.
- `header_props.dfy` (module `HeaderProps`) holds the lemmas about the
  shape of each header field and the concrete examples.

`formatHeader` is modelled as the method `Logs.FormatHeader`, which is proved
to append exactly `Logs.Header(...)`. `Header` is the concatenation of the
per-flag fields, one specification function per field. `itoa` is
`Decimal.Itoa`, which keeps the scratch array and both loops of the source.
Its specification is `Decimal.Padded`, a recursive definition of the padded
rendering that peels off the last digit in the same way. `Decimal.Backwards`
describes what the first loop leaves in the array.

The space follows the clock field (log.go:186) and the level label has
none after it (log.go:190), so the `Ldefault` header reads
`08:09:10 [INFO ]c.go:42: `.

The buffer is Go's library `bytes.Buffer`. `Buffers.Buffer.WriteByte` and
`Buffers.Buffer.WriteString` stand for its two methods of those names, which
only append.

## Model

| member | source | states |
|---|---|---|
| Decimal.Itoa | log.go:129-148 | for every 64-bit `i` and every width up to 32, appends exactly `Padded(uint(i), wid)` to the buffer and nothing else; every scratch index stays inside the 32-byte array |
| Decimal.Uint | log.go:130 | `uint(i)` is the value congruent to `i` modulo 2^64 in [0, 2^64); non-negative values are unchanged |
| Decimal.NegativeWraps | log.go:130 | a negative `i` is written as an unsigned number of at least 2^63: 19 or more digits and no sign |
| Decimal.BackwardsFits | log.go:136-142 | the digits of a 64-bit unsigned value padded to at most 32 places fit in the 32-byte scratch array, so `bp` never drops below 0 |
| Decimal.UintDigits | log.go:136 | a 64-bit unsigned value has at most 20 decimal digits |
| Decimal.BackwardsIsPadded | log.go:138-142 | what the backwards loop builds from `(u, wid)` is the padded rendering, for every input that enters the loop |
| Decimal.BackwardsLength | log.go:138-142 | the backwards loop runs at most `max(wid, digits(u))` times, and exactly that many for every input that enters the loop |
| Decimal.Padded | log.go:129-148 | the padded rendering has at least one digit and at least `wid` of them |
| Decimal.PaddedShape | log.go:129-148 | the padded rendering is `max(wid - digits(n), 0)` zeros followed by the canonical decimal of `n` |
| Decimal.CanonicalShape | log.go:138-142 | the canonical decimal of `n` has `digits(n)` characters, all decimal digits, reads back as `n`, and starts with `0` only for zero |
| Decimal.PaddedLength | log.go:129-148 | itoa appends exactly `max(wid, digits(n))` bytes, each in `'0'..'9'` |
| Decimal.PaddedRoundTrip | log.go:129-148 | reading the appended digits as a decimal number gives `n` back |
| Decimal.PaddedLeadingZeros | log.go:131-142 | the leading zeros are exactly the padding; the first digit after them is zero only when `n` is zero |
| Decimal.PaddedUnpadded | log.go:131-133 | with `wid <= 1`, as for line numbers, the output is the canonical decimal with no leading zero unless `n` is zero |
| Decimal.PaddedFixed | log.go:168-184 | a number below 10^wid renders in exactly `wid` digits that read back as that number |
| Decimal.PaddedInjective | log.go:129-148 | two numbers with the same rendering at the same width are equal |
| Decimal.ZerosValue | log.go:138-142 | a run of padding zeros reads back as 0 |
| Decimal.ValueOfZerosPrefix | log.go:138-142 | zeros in front of a digit string do not change its value |
| Decimal.NumDigitsBelow | log.go:136 | a number below 10^k has at most `k` digits |
| Decimal.NumDigitsAbove | log.go:130 | a number of at least 10^k has more than `k` digits |
| Decimal.DigitChar | log.go:141 | `byte(d) + '0'` is a decimal digit character for `d < 10` |
| Decimal.DigitValue | log.go:141 | each digit character comes from exactly one digit value |
| Text.LastIndex | log.go:151 | `strings.LastIndex` returns -1 or an index at which `sub` still fits |
| Text.LastIndexSpec | log.go:151-153 | `LastIndex` is -1 exactly when `sub` does not occur; otherwise it is the last occurrence |
| Text.LastIndexIs | log.go:151-153 | the last occurrence, where there is one, is what `LastIndex` returns |
| Text.OccursInPrefix | log.go:153 | an occurrence in `file[:pos]` is an occurrence in `file` that ends by `pos` |
| Logs.ModuleOf | log.go:150-159 | the module is `UNKNOWN` or is shorter than the path by at least `/src/` and the final `/` |
| Logs.ModuleOfNoSlash | log.go:150-158 | a path with no `/` has module `UNKNOWN` |
| Logs.ModuleOfNoSrc | log.go:153-158 | a path with no `/src/` before its last `/` has module `UNKNOWN` |
| Logs.ModuleOfFound | log.go:150-156 | otherwise the module is `file[pos1+5 : pos]`, with `pos1+5 <= pos`, so the slice is in bounds; it never contains `/src/` itself |
| Logs.LevelName | log.go:36-43 | every level label is seven bytes wide, opening with `[` and closing with `]` |
| Logs.ShortFileOf | log.go:199-207 | the backwards scan returns `ShortFile(file)`: the text after the last `/` at index 1 or later, or the whole path |
| Logs.ShortFile | log.go:199-207 | the short name is a suffix of the path |
| Logs.ShortFileTrims | log.go:201-205 | a `/` at index `k >= 1` with none after it cuts the path just after `k` |
| Logs.ShortFileUntrimmed | log.go:200-201 | a path with no `/` after index 0 (such as `/c.go`) is left whole |
| Logs.WriteDate | log.go:166-174 | appends the date field `YYYY/MM/DD ` |
| Logs.WriteClock | log.go:175-187 | appends `HH:MM:SS`, then `.` and the microseconds in six digits when asked, then a space |
| Logs.WriteTimestamp | log.go:165-188 | under the shared test, appends the date field and then the clock field, each only when its flags are set |
| Logs.DateOrClock | log.go:165-175 | the shared test holds exactly when the date test or the clock test holds |
| Logs.WriteLevel | log.go:189-191 | appends the level label only with `Llevel` |
| Buffers.Buffer.WriteByte | log.go:132 | `bytes.Buffer.WriteByte` appends one byte and changes nothing else |
| Buffers.Buffer.WriteString | log.go:163 | `bytes.Buffer.WriteString` appends the string and changes nothing else |
| Logs.WriteModule | log.go:193-196 | appends `[`, the module, `]` and a space |
| Logs.WriteModulePart | log.go:192-197 | appends the module tag only with `Lmodule` |
| Logs.WriteFileLine | log.go:209-214 | appends the file, then `:` and the line in plain decimal only when the line is positive, then `: ` |
| Logs.WriteLocation | log.go:198-215 | with either file flag, appends the file, trimmed when `Lshortfile` is set, and the line; otherwise nothing |
| Logs.Header | log.go:161-216 | the header: the prefix, then the date, clock, level, module and file fields, each present only under its flags |
| Logs.HeaderAppended | log.go:161-216 | appending the blocks one after the other appends the whole header |
| Logs.FormatHeader | log.go:161-216 | appends exactly the header, in field order, behind the unchanged earlier contents of the buffer |
| Logs.DateStampShape | log.go:119-122 | the layout `2006-01-02` yields ten bytes, with `-` at 4 and 7 and digit groups that read back as year, month and day |
| Logs.Logger.LogfileName | log.go:121-123 | the name is the base name, `.`, the ten-byte date stamp of the creation time and `.log`, at fixed offsets |
| Logs.Logger.LogfileFullName | log.go:125-127 | the full name is the directory, `/` and the file name |
| Logs.LogfileNameSameDay | log.go:121-123 | two loggers with the same base name get the same file name exactly when created on the same calendar day |
| Logs.LogfileFullNameSameDay | log.go:125-127 | the same holds for the full path of loggers that share directory and base name |
| HeaderProps.HeaderEmpty | log.go:161-216 | with no prefix and no flag set, nothing is appended |
| HeaderProps.HeaderStartsWithPrefix | log.go:162-164 | the header begins with the logger's prefix, unchanged, whatever the flags |
| HeaderProps.DatePartShape | log.go:166-174 | `Ldate` adds eleven bytes `YYYY/MM/DD `, whose groups read back as year, month and day; without it nothing |
| HeaderProps.DateTextShape | log.go:167-173 | the date field of a four-digit year has slashes at 4 and 7, a space at 10 and the three values in its digit groups |
| HeaderProps.ClockPartShape | log.go:175-187 | `Ltime` or `Lmicroseconds` adds `HH:MM:SS`, then `.uuuuuu` (nanoseconds / 1000) only with `Lmicroseconds`, then one space: 9 or 16 bytes |
| HeaderProps.ClockTextShape | log.go:176-186 | the clock field has colons at 2 and 5, its groups read back as hour, minute, second and microseconds, and it ends in a space |
| HeaderProps.LevelPartShape | log.go:189-191 | `Llevel` adds `LevelNames[lvl]`, seven bytes and no trailing space; without it nothing |
| HeaderProps.FilePartShape | log.go:198-215 | the file flags add the file, `:line` in plain decimal with no leading zero only for a positive line, then `: `; without them nothing |
| HeaderProps.LongFileUnchanged | log.go:198-209 | with `Llongfile` alone the path is written unchanged |
| HeaderProps.ShortFileExample | log.go:199-207 | `/a/b/c.go` becomes `c.go`; `/c.go` and `c.go` stay whole |
| HeaderProps.ModuleOfExample | log.go:150-156 | `/home/u/src/pkgname/file.go` has module `pkgname` |
| HeaderProps.ModuleOfNestedExample | log.go:150-156 | `/x/src/a/b/f.go` has module `a/b`: everything between `/src/` and the last `/` |
| HeaderProps.ModuleOfUnknownExample | log.go:150-158 | `/a/b/c.go` has module `UNKNOWN` |
| HeaderProps.ModuleOfBareExample | log.go:150-158 | `file.go` has module `UNKNOWN` |
| HeaderProps.DefaultExampleDate | log.go:166-174 | the date field of 2024-03-05 is `2024/03/05 ` |
| HeaderProps.DefaultExampleClock | log.go:175-187 | the clock field of 08:09:10 without microseconds is `08:09:10 ` |
| HeaderProps.DefaultExampleFile | log.go:198-215 | the short file field of `/a/b/c.go` at line 42 is `c.go:42: ` |
| HeaderProps.HeaderDefaultBlocks | log.go:161-216 | under `Ldefault` the example header is the date, clock, level and file fields, with the prefix and module empty |
| HeaderProps.HeaderDefaultExample | log.go:161-216 | `Ldefault`, 2024-03-05 08:09:10, `INFO`, `/a/b/c.go`, line 42 gives exactly `2024/03/05 08:09:10 [INFO ]c.go:42: ` |

## Left out

- `Init` (log.go:94-117): it opens a file on disk and reports failures on standard output; this is I/O.
- `MutexWrap` (log.go:73-92): optional locking. The model is sequential, so there is no concurrency to lock against.
- The `console` and `std` globals (log.go:45-56): process-wide loggers that wrap standard output and open files.
- `Logger.Error` (log.go:218-220): its body is empty.
- The other `Logger` fields are not part of the model: `out`, `buf`, `level`, `levelStats`, `isConsole`, `showFileLine` and `mu`. The header and file-name code does not read them.
- `time.Time`: there is no calendar conversion. The timestamp is given as the fields that `t.Date()`, `t.Clock()` and `t.Nanosecond()` return, within the ranges those return. The year may be any 64-bit value.
- Bytes are modelled as `char`s and Go strings as `seq<char>`. No encoding is involved.
- Decimal.Itoa: its precondition excludes widths above 32 and widths less than 20 above the smallest `int`. Above 32, Go's scratch index runs off the array and the program panics. In the low range, `wid--` can wrap to the largest `int`, and then the index runs off as well. For a value with few digits it does not wrap, so the excluded low range is slightly larger than the set that panics. Every caller in the source passes 4, 2, 6 or -1.
- Logs.FormatHeader: a level outside the table when `Llevel` is set is excluded by its precondition. Go panics on that index.
- Logs.Logger.LogfileName: requires a creation year in 0..9999. For other years Go's `Format` writes a sign or more digits; `Format` itself is not part of this model.
- The short-file scan of `formatHeader` (log.go:199-207) is factored out as its own method, `Logs.ShortFileOf`, so that its loop can be stated and proved on its own.
