# GPU manager of `device_lib.py`, modelled in Dafny

This project models the GPU-selection helpers of `tensorflow/python/client/device_lib.py`.
That code asks `nvidia-smi` for one CSV row per GPU with
`nvidia-smi --query-gpu=<fields> --format=csv,noheader`.
`parse` turns each row into a dict. It strips the units `MiB` and `W` from the four numeric
readings and stores the sentinel `1` for a reading that says "Not Supported".
`GPUManager` re-queries on every call. It returns a stably sorted copy of the records:
by free memory, by free-memory rate, by power ratio, or by a caller's key.
`auto_choice` names the first GPU of the sort its mode selects, as `/gpu:<index>`.

Files and modules:

- `wrappers.dfy` (`Wrappers`): `Option` and `Result`. An `Err` stands for a Python exception.
- `strings.dfy` (`Strings`): the Python `str` operations the code uses: `strip`, `upper`,
  `replace(pat, '')`, `in`, `split(',')` and `','.join`. It proves their splitting, joining and
  trimming laws.
- `numbers.dfy` (`Numbers`): `float()` on plain decimal literals and `int()` truncation.
- `comprehensions.dfy` (`Comprehensions`): list and dict comprehensions whose elements may raise.
  The first exception wins, and a dict keeps the last value of a repeated key.
- `query.dfy` (`GpuQuery`): `parse`, `query_gpu`'s field list and command, and its list of records.
  The lines `nvidia-smi` prints are a parameter.
- `readings.dfy` (`GpuReadings`): what `parse` reads from a numeric piece such as ` 4035 MiB`,
  `45.23 W` or `[Not Supported]`.
- `ranking.dfy` (`Ranking`): Python's stable `sorted` with `reverse`, as the one arrangement of
  positions ordered by key and then by original position.
- `selection.dfy` (`GpuSelection`): the sort keys (`power`, free memory, free rate, a field, a
  function), the three sorts, `sort_by_cust`'s key check and `auto_choice`'s choice.
- `manager.dfy` (`GpuManagement`): class `GPUManager`. It has the fields `qargs`, `gpus` and
  `gpuNum`. Each sort method re-queries, replaces `gpus` and returns the sorted copy.

The model follows the code as written. In particular:

- Numeric readings are `int(float(...))`, so fractions are truncated (`45.23 W` gives 45).
  They are not floats.
- `zip` silently drops extra names or extra pieces. There is no field-count check.
- `sort_by_cust('memory.free')` is refused unless the caller listed `memory.free` among its query
  fields. The base fields are not part of `self.qargs + qargs`. So the equality with
  `sort_by_memory(True)` holds only under that condition (`CustomFreeMemoryIsBySize`).
- Modes 1 and 2 of `auto_choice` both sort by power, as written.
- A failing `float()`, a missing key and a zero denominator raise, as in Python. A zero denominator
  is a `ZeroDivision` error.

## Model

| member | source | states |
|---|---|---|
| `GpuQuery.ProcessField` | tensorflow/python/client/device_lib.py:67-70 | A field's value is a number exactly when the field is one of the four numeric fields. Only a numeric field can fail, and its failure is a malformed-number error. |
| `GpuQuery.NumericText` | tensorflow/python/client/device_lib.py:69 | Upper-casing, stripping and removing `MIB` and then `W` leaves a text with no `W` in it. |
| `GpuQuery.ToNumber` | tensorflow/python/client/device_lib.py:69-70 | `int(to_numberic(v))` fails exactly when `float()` cannot read the unit-free text. Otherwise it is the literal's integer digits with its sign. |
| `GpuQuery.Parse` | tensorflow/python/client/device_lib.py:56-71 | `parse` raises exactly when some paired piece fails to convert, and then raises the first such failure in field order. A record's keys are exactly the first min(#names, #pieces) field names, because `zip` drops the rest. |
| `GpuQuery.OtherTextRaises` | tensorflow/python/client/device_lib.py:68-70 | A numeric piece that does not mention `Not Support` raises ValueError when its unit-free text holds, anywhere, a character that is neither used by literals nor whitespace `float()` strips. |
| `GpuQuery.ParseValue` | tensorflow/python/client/device_lib.py:70-71 | Each name holds its own piece converted. When a name repeats, it holds the piece of its last occurrence. |
| `GpuQuery.ParseFieldValue` | tensorflow/python/client/device_lib.py:68-71 | A text field holds its piece with the surrounding whitespace stripped. A numeric piece containing `Not Support` holds 1, and no number is read. Any other numeric piece holds its truncated reading. |
| `GpuQuery.ParseEntry` | tensorflow/python/client/device_lib.py:71 | Every entry of a record comes from some name paired with its piece. |
| `GpuQuery.ParseWellFormed` | tensorflow/python/client/device_lib.py:67-71 | Every parsed record holds numbers exactly under the numeric names. |
| `GpuQuery.ParseLinesSpec` | tensorflow/python/client/device_lib.py:85 | The list comprehension gives one record per line, in order, or the first failing line's error. |
| `GpuQuery.QueryCommand` | tensorflow/python/client/device_lib.py:83 | The command starts with `nvidia-smi --query-gpu=` and ends with ` --format=csv,noheader`. |
| `GpuQuery.QueryCommandFields` | tensorflow/python/client/device_lib.py:82-83 | The command is `nvidia-smi --query-gpu=` + list + ` --format=csv,noheader`. Provided no caller field contains a comma, splitting the list at commas gives back the six base fields followed by the caller's fields. |
| `GpuQuery.QueryGpu` | tensorflow/python/client/device_lib.py:73-85 | The query fails exactly when some output line fails to parse. Otherwise it gives one record per line, in output order, each the line parsed with the base fields plus the caller's. |
| `GpuQuery.QueryGpuSpec` | tensorflow/python/client/device_lib.py:82-85 | The field list is the base fields plus the caller's. The query fails exactly when some line fails to parse, and then raises the first failing line's error. Otherwise it gives one record per output line, in output order, each parsed with that list and holding an index. |
| `GpuQuery.ParseHasIndex` | tensorflow/python/client/device_lib.py:71-82 | With `index` first in the field list, every parsed record is well formed and has an index. |
| `Numbers.ParseFloat` | tensorflow/python/client/device_lib.py:69 | `float()` accepts exactly the texts that spell a decimal literal once its own whitespace is stripped from both ends, and reads each as the literal it spells. That whitespace is `str.isspace()` without the separator controls U+001C to U+001F. A literal is spelled as a sign (`-`, or none or `+` when not negative), digits and an optional point with a fraction. With no fraction a trailing point is allowed. |
| `Numbers.LiteralChars` | tensorflow/python/client/device_lib.py:69 | A spelled literal uses only digits, `.`, `-` and `+`. |
| `Numbers.FloatStripSurrounded` | tensorflow/python/client/device_lib.py:69 | `float()` strips exactly its whitespace from around a text that neither starts nor ends with it. |
| `Numbers.OtherCharRefused` | tensorflow/python/client/device_lib.py:69 | `float()` raises ValueError on a text holding, anywhere, a character that is neither used by literals nor whitespace it strips. A separator control such as U+001F is one. |
| `Numbers.StrippedCharRefused` | tensorflow/python/client/device_lib.py:69 | `float()` raises ValueError when its stripped text holds any character literals do not use, inner whitespace included. |
| `Numbers.ParseFormat` | tensorflow/python/client/device_lib.py:69 | `float()` reads the text of any decimal literal back as that literal. |
| `Numbers.Truncate` | tensorflow/python/client/device_lib.py:70 | `int()` of a number rounds toward zero: the result is within 1 of the input on the side of 0. |
| `Numbers.TruncateLiteral` | tensorflow/python/client/device_lib.py:70 | `int(float(literal))` is the literal's integer digits with its sign. The fraction is dropped. |
| `GpuReadings.ReadingText` | tensorflow/python/client/device_lib.py:69 | Upper-casing, stripping and removing `MIB` and then `W` leaves a text that reads as the number. This holds for any whitespace around the number and the unit and any letter case of `MiB` or `W`, with or without the unit. The one narrower case is whitespace between number and unit: it reaches `float()`, so it must be whitespace `float()` strips. |
| `GpuReadings.ReadingValue` | tensorflow/python/client/device_lib.py:68-70 | A numeric field whose piece is such a reading holds the number's integer part. |
| `GpuReadings.MemoryReadingExample` | tensorflow/python/client/device_lib.py:69-70 | ` 4035 MiB` in `memory.free` gives 4035. |
| `GpuReadings.PowerReadingExample` | tensorflow/python/client/device_lib.py:69-70 | `45.23 W` in `power.draw` gives 45. |
| `GpuReadings.UnsupportedReading` | tensorflow/python/client/device_lib.py:68-70 | A numeric piece with `Not Support` anywhere in it gives the sentinel 1. |
| `GpuReadings.SeparatorBeforeUnitRaises` | tensorflow/python/client/device_lib.py:68-70 | A numeric piece with a separator control (U+001C to U+001F) between the number and its unit raises ValueError: `strip()` does not reach it, and `float()` keeps it. |
| `GpuReadings.SeparatorBeforeUnitExample` | tensorflow/python/client/device_lib.py:68-70 | `45`, U+001F and `W` in `power.draw` raises ValueError. |
| `GpuReadings.OtherPieceRaises` | tensorflow/python/client/device_lib.py:68-70 | A numeric piece too short to say `Not Support`, of spaces around a text that holds a character literals do not use, raises ValueError. |
| `GpuReadings.NotAvailableExample` | tensorflow/python/client/device_lib.py:68-70 | ` [N/A]` in `power.draw` raises ValueError: it does not say `Not Support`, and `float()` refuses it. |
| `GpuReadings.UnsupportedReadingExample` | tensorflow/python/client/device_lib.py:68-70 | ` [Not Supported]` in `power.limit` gives 1. |
| `Strings.Trim` | tensorflow/python/client/device_lib.py:69-71 | `strip()` never lengthens a text, and what it leaves neither starts nor ends with whitespace. |
| `Strings.TrimSlice` | tensorflow/python/client/device_lib.py:69-71 | The stripped text is a contiguous slice of the original with only whitespace before and after it. |
| `Strings.Upper` | tensorflow/python/client/device_lib.py:69 | `upper()` keeps the length and upper-cases each character in place. |
| `Strings.RemoveAll` | tensorflow/python/client/device_lib.py:69 | `replace(pat, '')` never lengthens a text. |
| `Strings.RemoveAllChar` | tensorflow/python/client/device_lib.py:69 | After `replace(c, '')` for a single character `c`, no `c` remains. |
| `Strings.ContainsAt` | tensorflow/python/client/device_lib.py:68 | `pat in s` holds exactly when `pat` occurs in `s` at some position. |
| `Strings.Split` | tensorflow/python/client/device_lib.py:71 | `split(',')` gives at least one piece, and no piece contains a comma. |
| `Strings.JoinSplit` | tensorflow/python/client/device_lib.py:71-83 | Joining the pieces of a split with the separator gives the text back. |
| `Strings.SplitJoin` | tensorflow/python/client/device_lib.py:71-83 | Splitting at commas what `','.join` built gives back the pieces, provided no piece contains a comma. |
| `Strings.TrimSurrounded` | tensorflow/python/client/device_lib.py:70 | `strip()` removes exactly the whitespace around a text and nothing else. |
| `Comprehensions.ListOfSpec` | tensorflow/python/client/device_lib.py:85 | A list comprehension succeeds exactly when every element does, and then holds each value in order. Otherwise it raises the first element's exception. |
| `Comprehensions.DictOfOutcome` | tensorflow/python/client/device_lib.py:71 | A dict comprehension succeeds exactly when every value does. Otherwise it raises the first value's exception. |
| `Comprehensions.DictOfKeys` | tensorflow/python/client/device_lib.py:71 | A built dict has exactly the given keys. |
| `Comprehensions.DictOfLast` | tensorflow/python/client/device_lib.py:71 | A repeated key holds the value of its last occurrence. |
| `Comprehensions.DictOfSource` | tensorflow/python/client/device_lib.py:71 | Every entry of a built dict comes from one of the key-value pairs. |
| `Ranking.StableOrder` | tensorflow/python/client/device_lib.py:117-132 | `sorted` lists a rearrangement of the positions, ordered by key (descending with `reverse`) and, among equal keys, by original position. |
| `Ranking.OrderedUnique` | tensorflow/python/client/device_lib.py:117-132 | Only one rearrangement has that order, so the stable sort's result is unique. |
| `Ranking.PermutationKeepsElements` | tensorflow/python/client/device_lib.py:117-132 | Listing the records in that order keeps every record, as many times as it occurs. |
| `GpuSelection.Power` | tensorflow/python/client/device_lib.py:87-95 | The power key is always a number when it can be computed. |
| `GpuSelection.PowerRule` | tensorflow/python/client/device_lib.py:91-95 | `power(d)` is 1 when the draw or the limit is the sentinel 1. Otherwise a zero limit raises ZeroDivisionError, and any other limit gives the ratio r with r * limit = draw. |
| `GpuSelection.UnsupportedPowerRanksOne` | tensorflow/python/client/device_lib.py:68-94 | A board whose power draw reads `Not Supported` ranks 1 by power. |
| `GpuSelection.SortedKeyError` | tensorflow/python/client/device_lib.py:117-132 | When some key raises, `sorted` raises the first such exception. |
| `GpuSelection.SortedMixedKeys` | tensorflow/python/client/device_lib.py:130-132 | Keys that mix numbers and strings raise TypeError. |
| `GpuSelection.SortedStable` | tensorflow/python/client/device_lib.py:117-132 | With comparable keys the result is the records in the one stable key order. |
| `GpuSelection.FreeMemory` | tensorflow/python/client/device_lib.py:117 | The size key `d['memory.free']` exists exactly when the record has that field, and it is that number. Otherwise it raises KeyError. |
| `GpuSelection.FreeMemoryRate` | tensorflow/python/client/device_lib.py:120 | The rate key exists exactly when both memory fields are present and the total is not 0. A zero total raises ZeroDivisionError. Otherwise the key r satisfies r * total = free. |
| `GpuSelection.Sorted` | tensorflow/python/client/device_lib.py:117-132 | A successful `sorted` keeps every record, as many times as it occurs. |
| `GpuSelection.MemoryOrder` | tensorflow/python/client/device_lib.py:113-120 | `sort_by_memory` returns a permutation of the query records when it succeeds. |
| `GpuSelection.PowerOrder` | tensorflow/python/client/device_lib.py:122-124 | `sort_by_power` returns a permutation of the query records when it succeeds. |
| `GpuSelection.SortedOrdered` | tensorflow/python/client/device_lib.py:117-132 | In a successful sort, no later record's key should come before an earlier one's. |
| `GpuSelection.SortedFirst` | tensorflow/python/client/device_lib.py:117-132 | The first record of a non-empty sort precedes every other: it has the best key and is the earliest among equal keys. |
| `GpuSelection.MemorySizeOrder` | tensorflow/python/client/device_lib.py:115-117 | The sort by size fails exactly when some record lacks `memory.free`. Otherwise it is a permutation in non-increasing free memory. |
| `GpuSelection.MemoryRateOrder` | tensorflow/python/client/device_lib.py:118-120 | The sort by rate fails exactly when some record lacks a memory field or has a total of 0. Otherwise it is a permutation in non-increasing free/total. |
| `GpuSelection.PowerRatioOrder` | tensorflow/python/client/device_lib.py:122-124 | The sort by power fails exactly when some `power(d)` raises. Otherwise it is a permutation in non-decreasing power ratio. |
| `GpuSelection.CustomOrder` | tensorflow/python/client/device_lib.py:126-133 | A field name outside `self.qargs + qargs`, or a key that is neither a name nor a function, raises ValueError. A successful sort is a permutation of the query records. |
| `GpuSelection.CustomFieldOrder` | tensorflow/python/client/device_lib.py:129-130 | An accepted field name succeeds exactly when every record has the field. It then sorts the records by that field, ascending or, with `reverse`, descending. Otherwise it raises KeyError for that field. |
| `GpuSelection.CustomFunctionOrder` | tensorflow/python/client/device_lib.py:131-132 | A function key succeeds exactly when every call succeeds and the keys are all numbers or all strings. It then gives a permutation ordered by the function's values. Otherwise it raises the first record's exception, or TypeError for mixed keys. |
| `GpuSelection.CustomFreeMemoryIsBySize` | tensorflow/python/client/device_lib.py:113-130 | With `memory.free` among the asked fields, `sort_by_cust('memory.free', reverse=True)` equals `sort_by_memory(True)`. |
| `GpuSelection.DeviceName` | tensorflow/python/client/device_lib.py:162 | The device string is `/gpu:` followed by the record's index, unchanged. |
| `GpuSelection.AutoChoice` | tensorflow/python/client/device_lib.py:135-162 | A successful choice names one of the queried GPUs. |
| `GpuSelection.AutoChoiceEmpty` | tensorflow/python/client/device_lib.py:148-160 | With no GPU, `[0]` raises IndexError. |
| `GpuSelection.AutoChoiceFirst` | tensorflow/python/client/device_lib.py:148-162 | The choice is `/gpu:<index>` of element 0 of the sort the mode selects. |
| `GpuSelection.ChoiceMostFreeMemory` | tensorflow/python/client/device_lib.py:148-150 | Mode 0 picks a GPU with the most free memory, the first in query order among ties. |
| `GpuSelection.ChoiceLeastPower` | tensorflow/python/client/device_lib.py:151-156 | Modes 1 and 2 pick a GPU with the smallest power ratio, the first among ties. |
| `GpuSelection.ChoiceBestMemoryRate` | tensorflow/python/client/device_lib.py:157-159 | Any other mode picks a GPU with the highest free/total rate, the first among ties. |
| `GpuSelection.MostFreeChosen` | tensorflow/python/client/device_lib.py:148-150 | A GPU with strictly more free memory than every other is the one mode 0 names. |
| `GpuSelection.BestRateChosen` | tensorflow/python/client/device_lib.py:157-159 | A GPU with strictly the best free rate is the one an unknown mode names. |
| `GpuSelection.ChoiceBySizeExample` | tensorflow/python/client/device_lib.py:148-150 | A(2000 of 4000) and B(3000 of 10000): mode 0 names `/gpu:1`. |
| `GpuSelection.ChoiceByRateExample` | tensorflow/python/client/device_lib.py:157-159 | The same two GPUs: mode 3 names `/gpu:0` (0.5 against 0.3). |
| `GpuManagement.GPUManager.Create` | tensorflow/python/client/device_lib.py:106-111 | The constructor queries with the caller's fields. It keeps them, the records and their count, or it raises the query's error. |
| `GpuManagement.GPUManager.Requery` | tensorflow/python/client/device_lib.py:114 | A re-query with `self.qargs + qargs` replaces `gpus` with its records. A failing one raises and leaves `gpus` unchanged. |
| `GpuManagement.GPUManager.SortByMemory` | tensorflow/python/client/device_lib.py:113-120 | It re-queries, stores the records in `gpus` and returns them sorted by size or by rate, largest first. |
| `GpuManagement.GPUManager.SortByPower` | tensorflow/python/client/device_lib.py:122-124 | It re-queries, stores the records and returns them sorted by power ratio, smallest first. |
| `GpuManagement.GPUManager.SortByCust` | tensorflow/python/client/device_lib.py:126-133 | It re-queries first, then sorts by an accepted key or raises ValueError. |
| `GpuManagement.GPUManager.AutoChoice` | tensorflow/python/client/device_lib.py:135-162 | It re-queries with the manager's fields and returns the device string of the mode's first GPU. |

## Left out

- `list_local_devices` (lines 27-38): it calls into native code and decodes protocol buffers. It is not part of this model.
- The availability check `check_gpus` and the module-level branch with `ImportError` stubs (lines 41-55 and 163-182): it runs `nvidia-smi -h` and prints. The model describes the branch where the check passed.
- Running the command (line 84): the lines `nvidia-smi` prints are a parameter. A process that cannot start or that fails is not modelled. The command string itself is modelled (`GpuQuery.QueryCommand`).
- `tf.device(...)` (line 162): only the `/gpu:<index>` string is modelled.
- Every `print`, including the chosen-record dump on line 161 and the message in `power`. The model keeps only the `d['index']` lookup that the message in `power` performs, because that lookup can raise.
- `float()` accepts only plain decimal literals: an optional sign, digits and an optional fraction. Text that Python also reads, such as exponents, `inf`, `nan` or `1_000`, is a conversion error in the model. Non-ASCII decimal digits are a conversion error too, although Python reads `float("٤٥")` as 45.0.
- `Numbers.OtherCharRefused`, `Numbers.StrippedCharRefused`, `GpuQuery.OtherTextRaises`, `GpuReadings.OtherPieceRaises`: because of the narrower `float()` above, they also count as refused the letters of exponents, `inf` and `nan`, the `_` digit separator and every non-ASCII decimal digit, which Python reads.
- Floating point: readings and ratios are exact decimals and reals. IEEE rounding is not modelled. Neither is the overflow of a huge literal to `inf`, where `int()` raises OverflowError.
- `str.upper()` is modelled for the ASCII letters only. Non-ASCII text is left unchanged.
- Key functions for `sort_by_cust` return a number or a string. Other key types (tuples, `None`) are not modelled.
- For a mix of number and string keys, the model raises TypeError for the whole sort. Python raises it at the first mixed comparison, which a correct sort of two or more such keys cannot avoid.
- A key that is a callable but not a Python function (a builtin, a class, an object with `__call__`) fails `isinstance(key, type(lambda a: a))`. The model represents it as the "anything else" key.
