# csvparser core, modelled in Dafny

`csvparser` reads CSV data and turns each row into a Java object. This project models and proves the core of that library:

- **`FileCsv`** (`FileSource.dfy`) checks that the file exists. It then reads every line, splits the line on a literal delimiter and builds one position-keyed `SimpleCsvRecord` per line. Finally it maps the records, in line order, with a caller-supplied row mapper.
- **`SimpleCsvRecord`** (`Records.dfy`) is one row: an immutable map from column identifier to raw text. A lookup of a column the row lacks fails with a `CsvException`.
- **`OrderedCsv`** (`Ordering.dfy`) decorates another CSV source and sorts that source's output stably with a comparator. Stable sorting is specified by insertion sort and by a characterisation: sorted, with equal elements kept in their input order. The characterisation pins the result down uniquely.
- **`ReflectiveCsvMapper`** (`Reflective.dfy`) maps one header-keyed record to a fresh object of a target class:
  - It constructs the object through the no-argument constructor.
  - It lower-cases every header and strips its spaces. A headerless record is refused, and two headers that normalise alike fail.
  - For each column it picks some declared method. A method serves a column when its name, lower-cased and with every `set` removed, equals the column.
  - It invokes that method with the column's text.

  Reflection is abstracted. A target class is its name, its declared methods and whether it can be constructed. Each method carries what invoking it with one `String` does: it stores the text, throws a wrapped exception, or rejects the arguments.

Shared pieces:
- `CsvErrors.dfy` holds the failure kinds, with the flag that marks which are `CsvException`s.
- `JavaStrings.dfy` holds the Java string operations the code relies on: ASCII `toLowerCase`, single-pass `String.replace`, and `String.split` with a literal delimiter. `split` drops trailing empty strings.

`FileCsv.map` wraps every `IOException` from reading the file in a `CsvException` naming the file (`FileCsv.java:74-79`). An `IOException` raised while the lines of `BufferedReader.lines()` are consumed, however, arrives wrapped in an `UncheckedIOException`. That is not an `IOException`, so it passes the `catch` and escapes unwrapped. The model keeps this behaviour in `FileCsv.Map`: such a failure is `UncheckedIo`, which is not a `CsvException`. "## Findings" records it, together with the intended behaviour.

## Model

| member | source | states |
|---|---|---|
| Records.SimpleCsvRecord.Get | src/main/java/com/arsensim/SimpleCsvRecord.java:15-22 | The lookup succeeds exactly when the column is present and then returns its text. A missing column fails with `ColumnNotFound` naming that column, which is a `CsvException`. |
| Records.EmptyFieldIsNotMissing | src/main/java/com/arsensim/SimpleCsvRecord.java:16-21 | A column stored with empty text is found and yields "". It is never reported as missing. |
| Records.GetAfterStore | src/main/java/com/arsensim/SimpleCsvRecord.java:10-12 | The record built from a map answers a stored column with the text stored under it. |
| Records.GetDeterminesRecord | src/main/java/com/arsensim/SimpleCsvRecord.java:15-22 | Two records that answer every lookup alike are the same record, so `get` exposes all of a record's content. |
| JavaStrings.ToLowerCase | src/main/java/com/arsensim/ReflectiveCsvMapper.java:83 | Lower-casing keeps the length and turns every upper-case letter into its own lower-case letter. It leaves every other character as it is, so the result has no upper-case letter. |
| JavaStrings.Replace | src/main/java/com/arsensim/ReflectiveCsvMapper.java:101 | `String.replace` as one left-to-right pass over non-overlapping occurrences. Its meaning is stated by `ReplaceJoinsPieces` (cut at the target, join with the replacement), by `DeleteCharRemovesAll`, `DeleteAbsentChar` and `DeleteCharKeepsLower` for `replace(" ", "")`, and by `SetterKeyIsSinglePass`. |
| JavaStrings.LowerCaseIdempotent | src/main/java/com/arsensim/ReflectiveCsvMapper.java:83 | Lower-casing twice is lower-casing once. |
| JavaStrings.ReplaceJoinsPieces | src/main/java/com/arsensim/ReflectiveCsvMapper.java:101 | The left-to-right replacement equals cutting the text at every non-overlapping occurrence of the target and joining the pieces with the replacement. |
| JavaStrings.JoinPieces | src/main/java/com/arsensim/FileCsv.java:58 | Joining the pieces cut at a delimiter with that delimiter gives back the original text. |
| JavaStrings.DeleteCharRemovesAll | src/main/java/com/arsensim/ReflectiveCsvMapper.java:83 | Deleting a character (`replace(" ", "")`) leaves no occurrence of it. |
| JavaStrings.DeleteAbsentChar | src/main/java/com/arsensim/ReflectiveCsvMapper.java:83 | Deleting a character that does not occur changes nothing. |
| JavaStrings.DeleteCharKeepsLower | src/main/java/com/arsensim/ReflectiveCsvMapper.java:83 | Deleting a character from a lower-case text leaves it lower-case. |
| JavaStrings.DropTrailingEmpty | src/main/java/com/arsensim/FileCsv.java:58 | The result is a prefix of the pieces. Everything dropped is empty, and what is kept does not end in an empty piece. |
| JavaStrings.SinglePieceIffAbsent | src/main/java/com/arsensim/FileCsv.java:58 | Cutting a text at a delimiter gives a single piece exactly when the delimiter does not occur in it. |
| JavaStrings.Split | src/main/java/com/arsensim/FileCsv.java:58 | `String.split` with a literal delimiter. Its meaning is stated by `SplitSpec`, `SinglePieceIffAbsent`, `SplitRejoins` and `SplitDropsOnlyTrailingEmpty`. |
| JavaStrings.SplitSpec | src/main/java/com/arsensim/FileCsv.java:58 | `split` gives the pieces cut at the delimiter with trailing empty pieces dropped. It gives the text itself when the delimiter does not occur. |
| JavaStrings.SplitDropsOnlyTrailingEmpty | src/main/java/com/arsensim/FileCsv.java:58 | `a,,` splits to `[a]` and `,a` splits to `["", a]`: only trailing empty fields disappear. |
| JavaStrings.SplitRejoins | src/main/java/com/arsensim/FileCsv.java:58 | Joining the fields with the delimiter gives back the line, minus some trailing run of delimiters. |
| JavaStrings.JoinEmptyTail | src/main/java/com/arsensim/FileCsv.java:58 | Joining pieces whose tail is all empty equals joining the non-empty prefix, followed by one delimiter per dropped piece. |
| Ordering.Insert | src/main/java/com/arsensim/OrderedCsv.java:58 | Insertion adds exactly one element. |
| Ordering.InsertPermutes | src/main/java/com/arsensim/OrderedCsv.java:58 | Insertion adds exactly the inserted element to the multiset. |
| Ordering.Sort | src/main/java/com/arsensim/OrderedCsv.java:58 | Stable insertion sort, the reference for `Stream.sorted(comparator)`. It keeps the length. Its meaning is stated by `SortPermutes`, `SortSorted`, `SortStable` and `StableSortUnique`. |
| Ordering.SortPermutes | src/main/java/com/arsensim/OrderedCsv.java:58 | Sorting is a permutation of its input. |
| Ordering.InsertSorted | src/main/java/com/arsensim/OrderedCsv.java:58 | Inserting into a sorted sequence keeps it sorted under a valid comparator. |
| Ordering.SortSorted | src/main/java/com/arsensim/OrderedCsv.java:58 | The sort's output is sorted under a valid comparator. |
| Ordering.InsertTies | src/main/java/com/arsensim/OrderedCsv.java:58 | Inserting an element keeps every group of comparator-equal elements in its order, with the new element in front of its equals. |
| Ordering.SortStable | src/main/java/com/arsensim/OrderedCsv.java:58 | Sorting is stable: for every element, the elements comparing equal to it appear in the same order as in the input. |
| Ordering.SortedTiesUnique | src/main/java/com/arsensim/OrderedCsv.java:58 | Two sorted sequences whose groups of equal elements agree are equal. |
| Ordering.StableSortUnique | src/main/java/com/arsensim/OrderedCsv.java:58 | Any sorted sequence that keeps the input's order among equal elements is the sort's output, so stable sorting has one answer. |
| Ordering.OrderedCsv.Map | src/main/java/com/arsensim/OrderedCsv.java:56-60 | A failure of the decorated source is returned unchanged. Its success gives a success of the same length and the same multiset of elements. |
| Ordering.OrderedMapSorted | src/main/java/com/arsensim/OrderedCsv.java:56-60 | The ordered output is sorted by the comparator and keeps the decorated output's order among equal elements. |
| Ordering.OrderedMapUnique | src/main/java/com/arsensim/OrderedCsv.java:56-60 | Every sorted sequence that is stable with respect to the decorated output is exactly what `map` returns. |
| Reflective.Instance.constructor | src/main/java/com/arsensim/ReflectiveCsvMapper.java:120 | A new object belongs to the class and has received nothing. |
| Reflective.Instance.Receive | src/test/java/com/arsensim/ExampleOutput.java:43-45 | A storing setter records the value under its own name and changes nothing else. |
| Reflective.NormaliseColumn | src/main/java/com/arsensim/ReflectiveCsvMapper.java:83 | The header key: lower-cased, every space removed. Its meaning is stated by `NormaliseColumnIsNormal`, `NormaliseColumnFixesNormal`, `NormaliseColumnIdempotent` and `SpacedHeaderMatchesSetter`. |
| Reflective.SetterKey | src/main/java/com/arsensim/ReflectiveCsvMapper.java:99-101 | The method key: lower-cased, every `set` deleted in one pass. Its meaning is stated by `ExampleOutputSetterKeys`, `SetterKeyDeletesInnerSet` and `SetterKeyIsSinglePass`. |
| Reflective.NormaliseColumnIsNormal | src/main/java/com/arsensim/ReflectiveCsvMapper.java:83 | A normalised header has no space and no upper-case letter. |
| Reflective.NormaliseColumnFixesNormal | src/main/java/com/arsensim/ReflectiveCsvMapper.java:83 | Normalising a header with no space and no capital leaves it unchanged. |
| Reflective.NormaliseColumnIdempotent | src/main/java/com/arsensim/ReflectiveCsvMapper.java:83 | Normalising twice is normalising once. |
| Reflective.FormatRecord | src/main/java/com/arsensim/ReflectiveCsvMapper.java:74-86 | An empty record fails as headless. Two headers normalising alike fail as a duplicate key. Otherwise the result succeeds and has as many columns as the record. Every key is normal and comes from some header, and every header's normalised form holds that header's value. |
| Reflective.FormatNormalRecord | src/main/java/com/arsensim/ReflectiveCsvMapper.java:74-86 | A non-empty record whose headers are already normal formats to itself. |
| Reflective.FormatRecordIdempotent | src/main/java/com/arsensim/ReflectiveCsvMapper.java:74-86 | Formatting a formatted record changes nothing. |
| Reflective.MissingSetterFails | src/main/java/com/arsensim/ReflectiveCsvMapper.java:104-110 | A column that no method serves is a possible failure, `NoSetter` naming the column and the class. |
| Reflective.FailingSetterFails | src/main/java/com/arsensim/ReflectiveCsvMapper.java:138-150 | A serving method that throws or rejects its argument is a possible failure of the mapping, with that method's error. |
| Reflective.UniqueSettersStore | src/main/java/com/arsensim/ReflectiveCsvMapper.java:96-103 | When every column is served by exactly one method and that method stores, every column has a storing setter. |
| Reflective.BindsDetermined | src/main/java/com/arsensim/ReflectiveCsvMapper.java:58-66 | When each column has exactly one serving method, a populated object has received exactly the column values, each through that column's own setter. |
| Reflective.BindsTwoColumns | src/main/java/com/arsensim/ReflectiveCsvMapper.java:58-66 | The same for a two-column record, with the received values spelled out. |
| Reflective.BindOneMore | src/main/java/com/arsensim/ReflectiveCsvMapper.java:61-64 | One more column set through a storing setter keeps the object consistent with the columns done so far. |
| Reflective.EveryColumnBound | src/main/java/com/arsensim/ReflectiveCsvMapper.java:61-64 | Once every column is done, the object is populated from the whole record and every column has a setter. |
| Reflective.ReflectiveCsvMapper.constructor | src/main/java/com/arsensim/ReflectiveCsvMapper.java:54-56 | The mapper keeps its target class. |
| Reflective.ReflectiveCsvMapper.FindSetter | src/main/java/com/arsensim/ReflectiveCsvMapper.java:96-111 | The result is some declared method serving the column. It fails exactly when no method serves it, with `NoSetter` naming the column and the class. |
| Reflective.ReflectiveCsvMapper.NewEmptyResultObject | src/main/java/com/arsensim/ReflectiveCsvMapper.java:118-129 | A class that cannot be constructed fails with `ConstructionFailed` naming it. Otherwise the result is a fresh object of the class that has received nothing. |
| Reflective.ReflectiveCsvMapper.SetValue | src/main/java/com/arsensim/ReflectiveCsvMapper.java:138-150 | A storing setter passes and records the value. A throwing one fails with `SetterFailed` naming the class and the method. An argument mismatch escapes as `IllegalArgument`. Only a storing setter changes the object. |
| Reflective.ReflectiveCsvMapper.SetAll | src/main/java/com/arsensim/ReflectiveCsvMapper.java:61-64 | On success the object is populated from the columns: each column's value went through exactly one of its serving setters, and no method received a value that is not its column's. Each column was visited exactly once, and every column has a setter. A failure is one some column can raise. When every column's setters all store, the walk succeeds. |
| Reflective.ReflectiveCsvMapper.Map | src/main/java/com/arsensim/ReflectiveCsvMapper.java:58-66 | Construction failure comes first, then a formatting failure, with no setter invoked. Otherwise a success is a fresh object of the class populated from the formatted record, each column's value through exactly one serving setter, and a failure is one some column can raise. When every setter stores, mapping succeeds. |
| Reflective.ExampleOutputSetterKeys | src/test/java/com/arsensim/ExampleOutput.java:43-53 | `setX` and `setY` serve columns `x` and `y`. The getters serve `getx` and `gety`. |
| Reflective.ExampleRecordFormats | src/main/java/com/arsensim/ReflectiveCsvMapper.java:74-86 | The record `x -> foo, y -> bar` formats to itself. |
| Reflective.ExampleOutputMatches | src/test/java/com/arsensim/ExampleOutput.java:43-53 | Among the methods of `ExampleOutput`, exactly `setX` serves `x` and exactly `setY` serves `y`. |
| Reflective.ExampleOutputUnique | src/test/java/com/arsensim/ExampleOutput.java:43-53 | Columns `x` and `y` each have one serving method, its storing setter. |
| Reflective.ExampleOutputStores | src/test/java/com/arsensim/ExampleOutput.java:43-53 | Mapping the record `x -> foo, y -> bar` onto `ExampleOutput` cannot fail in a setter. |
| Reflective.ExampleOutputMapping | src/test/java/com/arsensim/FileCsvTest.java:54-68 | The only object that record can produce has received `setX("foo")` and `setY("bar")`. |
| Reflective.SpacedHeaderMatchesSetter | src/main/java/com/arsensim/ReflectiveCsvMapper.java:83-102 | The header `X Y` normalises to `xy`, which `setXY` serves. |
| Reflective.SetterKeyDeletesInnerSet | src/main/java/com/arsensim/ReflectiveCsvMapper.java:99-102 | Every `set` is deleted, not only a prefix: `resetX` serves the column `rex`. |
| Reflective.SetterKeyIsSinglePass | src/main/java/com/arsensim/ReflectiveCsvMapper.java:99-102 | The deletion is one pass: `sesett` serves the column `set`. |
| FileSource.RowRecord | src/main/java/com/arsensim/FileCsv.java:63-68 | The record of one row: field `i` under key `i`. Its meaning is stated by `RowRecordFields`, `NoTrailingEmptyField` and `TrailingEmptyFieldIsMissing`. |
| FileSource.MapFile | src/main/java/com/arsensim/FileCsv.java:54-80 | What `map` gives, as written. Its meaning is stated by `FileFailures`, `OneRecordPerLine`, `LinesMapInOrder`, `FirstMapperFailureWins` and `UnreadableLineEscapes`. `FileCsv.Map` is proved equal to it. |
| FileSource.MapEach | src/main/java/com/arsensim/FileCsv.java:71-73 | Mapping succeeds exactly when the mapper accepts every record. The output is the mapper's results in record order. A failure is the mapper's failure on some record, and every earlier record was accepted. |
| FileSource.FileFailures | src/main/java/com/arsensim/FileCsv.java:54-80 | A missing file fails "not found" with its path, whatever the mapper. A file that cannot be opened fails with its path and cause. A line that cannot be read escapes as `UncheckedIo`. Only the first two are `CsvException`s. |
| FileSource.RowRecordFields | src/main/java/com/arsensim/FileCsv.java:62-70 | Field `i` of a row is the record's column `i`. No other column exists. |
| FileSource.OneRecordPerLine | src/main/java/com/arsensim/FileCsv.java:57-70 | Every line, the first included, gives exactly one record, in line order. |
| FileSource.LinesMapInOrder | src/main/java/com/arsensim/FileCsv.java:54-80 | With a mapper that accepts every record, the output has one element per line. Each element is the mapper's image of that line's record, in line order. |
| FileSource.FirstMapperFailureWins | src/main/java/com/arsensim/FileCsv.java:71-73 | A failing mapping fails with the mapper's failure on some line, and every earlier line was mapped. |
| FileSource.NoTrailingEmptyField | src/main/java/com/arsensim/FileCsv.java:58 | Where the delimiter occurs in a line, the record's last field is not empty. |
| FileSource.TrailingEmptyFieldIsMissing | src/main/java/com/arsensim/FileCsv.java:58-65 | In line `a,,` column 1 is missing. In line `,a` column 0 is present and empty. |
| FileSource.UnreadableLineEscapes | src/main/java/com/arsensim/FileCsv.java:56-79 | As written, a file whose lines cannot be read makes `map` fail with `UncheckedIo`, which is not a `CsvException`. |
| FileSource.MapFileIntended | src/main/java/com/arsensim/FileCsv.java:74-79 | What `map` gives when an unreadable line is wrapped like every other read failure. Its meaning is stated by `IntendedReadFailuresAreCsvExceptions`. |
| FileSource.IntendedReadFailuresAreCsvExceptions | src/main/java/com/arsensim/FileCsv.java:74-79 | In the intended `map`, every file-side failure is a `CsvException`, and an unreadable line fails "exception while reading" with the file and the cause. On every other file the intended `map` agrees with the code. |
| FileSource.FileCsv.constructor | src/main/java/com/arsensim/FileCsv.java:48-51 | The source keeps its file and delimiter. |
| FileSource.FileCsv.AssertFileExists | src/main/java/com/arsensim/FileCsv.java:87-93 | It passes exactly when the file exists. Otherwise it fails "not found" naming the file, which is a `CsvException`. |
| FileSource.FileCsv.Map | src/main/java/com/arsensim/FileCsv.java:54-80 | The nested loops build, for every line, the record of its split fields. The result is what `MapFile` specifies, whose properties the lemmas above state. |

## Findings

| source | as written | input that shows it | evidently intended | confidence | as-written member | corrected member |
|---|---|---|---|---|---|---|
| src/main/java/com/arsensim/FileCsv.java:56-79 | An `IOException` while the lines are read reaches the caller as an `UncheckedIOException`, because `catch (final IOException e)` does not catch it. | A file that exists and opens, but whose second line cannot be read (a disk or network error mid-file). | The `catch` block wraps read failures in a `CsvException` naming the file, so a failed line read should be wrapped the same way. | not executed; follows from the documented behaviour of `BufferedReader.lines()` | FileSource.UnreadableLineEscapes | FileSource.IntendedReadFailuresAreCsvExceptions |

## Left out

- `SimpleCsv.java` and `CsvRecordMapper.java` are not part of this model. The header-keyed record they build is taken as the `map<string, string>` that `CSVRecord.toMap()` returns.
- `SimpleCsvRecord.toMap` calls itself without end and never returns a value. A non-terminating member cannot be stated here, so it is not modelled.
- The `SimpleCsvRecord` constructor keeps the caller's map without copying it. The model's record is an immutable value, so later changes through that map (aliasing) are not captured.
- `Files.exists` and the reading of the file are one snapshot of a file system map. Races between the check and the read, failures while closing the reader, and character decoding are not modelled. A file whose lines are unreadable is modelled as failing before any record is mapped.
- `FileCsv.Map`: the mapper is a pure function from record to result. That every record is built before the first mapper call is visible only in the method's structure. Side effects of the mapper are not modelled.
- `String.toLowerCase` is modelled for ASCII letters only. Locale rules and non-ASCII case mappings are not modelled.
- `String.split` takes a regular expression. The model treats the delimiter as literal text, so a delimiter holding a regex metacharacter is not modelled faithfully. An empty delimiter splits a non-empty text into its characters, as Java 8 and later do. The lemmas about `split` are stated for a non-empty delimiter only.
- `String.replace` with an empty target is not modelled. The code only replaces `" "` and `"set"`.
- Reflection is abstracted to method names and one effect per method. Parameter types, access rules, inherited and overloaded methods, static methods, and what a setter does beyond storing its argument are not modelled. A constructor that throws an unchecked exception is not modelled either.
- `Reflective.ReflectiveCsvMapper.FindSetter`: `findAny` may return any serving method. The model picks one nondeterministically and states only that it serves the column, as the code promises.
- `Ordering.OrderedCsv.Map`: the comparator is a total, pure function, so a decorated source that succeeds always gives a sorted success. The model leaves out a comparator that throws, which aborts `sorted` in Java. It also leaves out a comparator that breaks the `Comparator` contract, for which the sort may throw `IllegalArgumentException`; the sorting lemmas require a valid comparator.
- `Reflective.ReflectiveCsvMapper.SetAll`: `HashMap.forEach` visits the columns in an unspecified order. The model visits them in an arbitrary order, so on failure it states only that the error is one some column can raise, not which one.
- `Reflective.FormatRecord`: `Collectors.toMap` throws `IllegalStateException` on a duplicate key, with a message that names keys in hash order. The model gives `DuplicateKey` without that message.
- Exception message texts are not modelled. Each failure carries the values its message names: the column, class, method, path or cause.
- `FileCsvTest` builds `FileCsv` from a path and a target class and calls `map()` without a mapper. Neither matches the constructor or the `map` modelled here, so the test's expectations appear only through the `ExampleOutput` lemmas.
