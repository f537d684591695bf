/**
 * `FileCsv`: a CSV source backed by a file. Every line of the file is split
 * on the delimiter and becomes one record keyed by field position; the
 * records are then handed to a mapper, in line order.
 *
 * The file system is a map from path to what reading that path gives; a
 * path that is not in the map does not exist.
 */
module FileSource {
  import opened CsvErrors
  import opened JavaStrings
  import opened Records

  /** What opening and reading an existing file gives. */
  datatype Contents =
    | Lines(lines: seq<string>)   // the file is read to the end; these are its lines
    | OpenFails(cause: string)    // `Files.newBufferedReader` throws an IOException
    | ReadFails(cause: string)    // a line cannot be read: `lines()` throws UncheckedIOException

  type FileSystem = map<string, Contents>

  /** A row-to-object mapper over position-keyed records. */
  type RowMapper<!E> = SimpleCsvRecord<int> -> Result<E, Failure<int>>

  /** The record of one row: field `i` under key `i`. */
  function RowRecord(row: seq<string>): SimpleCsvRecord<int> {
    SimpleCsvRecord(map i | 0 <= i < |row| :: row[i])
  }

  /** The fields of every line, in line order. */
  function Rows(lines: seq<string>, delimiter: string): seq<seq<string>> {
    seq(|lines|, k requires 0 <= k < |lines| => Split(lines[k], delimiter))
  }

  /** One record per row, in row order. */
  function RowRecords(rows: seq<seq<string>>): seq<SimpleCsvRecord<int>> {
    seq(|rows|, k requires 0 <= k < |rows| => RowRecord(rows[k]))
  }

  /**
   * The mapper applied to every record in order, collected into a list; the
   * first record the mapper fails on ends the mapping with that failure.
   */
  function MapEach<E>(records: seq<SimpleCsvRecord<int>>, mapper: RowMapper<E>): (r: Result<seq<E>, Failure<int>>)
    ensures r.Success? <==> forall k :: 0 <= k < |records| ==> mapper(records[k]).Success?
    ensures r.Success? ==> |r.value| == |records|
    ensures r.Success? ==> forall k :: 0 <= k < |records| ==> r.value[k] == mapper(records[k]).value
    ensures r.Failure? ==> exists k :: 0 <= k < |records| && mapper(records[k]) == Failure(r.error)
                                       && forall j :: 0 <= j < k ==> mapper(records[j]).Success?
  {
    if |records| == 0 then Success([])
    else
      match mapper(records[0])
      case Failure(e) => Failure(e)
      case Success(first) =>
        match MapEach(records[1..], mapper)
        case Failure(e) =>
          var k :| 0 <= k < |records[1..]| && mapper(records[1..][k]) == Failure(e)
                   && forall j :: 0 <= j < k ==> mapper(records[1..][j]).Success?;
          assert mapper(records[k + 1]) == Failure(e);
          assert forall j :: 0 <= j < k + 1 ==> mapper(records[j]).Success? by {
            forall j | 0 <= j < k + 1
              ensures mapper(records[j]).Success?
            {
              if j > 0 {
                assert records[j] == records[1..][j - 1];
              }
            }
          }
          Failure(e)
        case Success(rest) => Success([first] + rest)
  }

  /** What `FileCsv.map` produces for a file, a delimiter and a mapper. */
  function MapFile<E>(fs: FileSystem, file: string, delimiter: string, mapper: RowMapper<E>): Result<seq<E>, Failure<int>> {
    if file !in fs then Failure(FileNotFound(file))
    else
      match fs[file]
      case OpenFails(cause) => Failure(ReadFailed(file, cause))
      case ReadFails(cause) => Failure(UncheckedIo(cause))
      case Lines(lines) => MapEach(RowRecords(Rows(lines, delimiter)), mapper)
  }

  /**
   * The file-side failures: a missing file fails "not found" whatever the
   * mapper; a file that cannot be opened fails with its path and the cause;
   * both are CsvExceptions. A line that cannot be read escapes unwrapped.
   */
  lemma FileFailures<E>(fs: FileSystem, file: string, delimiter: string, mapper: RowMapper<E>)
    ensures file !in fs ==> MapFile(fs, file, delimiter, mapper) == Failure(FileNotFound(file))
    ensures file in fs && fs[file].OpenFails? ==>
              MapFile(fs, file, delimiter, mapper) == Failure(ReadFailed(file, fs[file].cause))
    ensures file in fs && fs[file].ReadFails? ==>
              MapFile(fs, file, delimiter, mapper) == Failure(UncheckedIo(fs[file].cause))
    ensures (file !in fs || !fs[file].Lines?) ==>
              (MapFile(fs, file, delimiter, mapper).error.IsCsvException() <==> (file !in fs || fs[file].OpenFails?))
  {
  }

  /**
   * A file whose lines cannot be read, as written: the UncheckedIOException
   * thrown by `BufferedReader.lines()` is not an IOException, passes the
   * `catch` untouched, and reaches the caller as something other than a
   * CsvException, unlike every other file-side failure.
   */
  lemma UnreadableLineEscapes<E>(delimiter: string, mapper: RowMapper<E>)
    ensures var fs: FileSystem := map["data.csv" := ReadFails("broken pipe")];
            && MapFile(fs, "data.csv", delimiter, mapper) == Failure(UncheckedIo("broken pipe"))
            && !MapFile(fs, "data.csv", delimiter, mapper).error.IsCsvException()
  {
  }

  /**
   * `FileCsv.map` as its `catch` block intends it: every failure to read the
   * file, whether opening it or reading a line, becomes "exception while
   * reading" naming the file and carrying the cause.
   */
  function MapFileIntended<E>(fs: FileSystem, file: string, delimiter: string, mapper: RowMapper<E>): Result<seq<E>, Failure<int>> {
    if file in fs && fs[file].ReadFails? then Failure(ReadFailed(file, fs[file].cause))
    else MapFile(fs, file, delimiter, mapper)
  }

  /**
   * In the intended `map`, every file-side failure is a CsvException naming
   * the file, and on every file whose lines can be read the result is the
   * one the code gives.
   */
  lemma IntendedReadFailuresAreCsvExceptions<E>(fs: FileSystem, file: string, delimiter: string, mapper: RowMapper<E>)
    ensures (file !in fs || !fs[file].Lines?) ==>
              && MapFileIntended(fs, file, delimiter, mapper).Failure?
              && MapFileIntended(fs, file, delimiter, mapper).error.IsCsvException()
    ensures file in fs && fs[file].ReadFails? ==>
              MapFileIntended(fs, file, delimiter, mapper) == Failure(ReadFailed(file, fs[file].cause))
    ensures !(file in fs && fs[file].ReadFails?) ==>
              MapFileIntended(fs, file, delimiter, mapper) == MapFile(fs, file, delimiter, mapper)
  {
  }

  /** Field `i` of a row is under key `i`; there is no other key. */
  lemma RowRecordFields(row: seq<string>, i: int)
    ensures 0 <= i < |row| ==> RowRecord(row).Get(i) == Success(row[i])
    ensures !(0 <= i < |row|) ==> RowRecord(row).Get(i) == Failure(ColumnNotFound(i))
  {
  }

  /**
   * Every line, the first one included, gives exactly one record, in line
   * order, whatever the number of its fields.
   */
  lemma OneRecordPerLine(lines: seq<string>, delimiter: string)
    ensures |RowRecords(Rows(lines, delimiter))| == |lines|
    ensures forall k :: 0 <= k < |lines| ==>
              RowRecords(Rows(lines, delimiter))[k] == RowRecord(Split(lines[k], delimiter))
  {
  }

  /**
   * A readable file and a mapper that accepts every record: the output has
   * one element per line, the mapper's image of that line's record, in line
   * order. Nothing requires the rows to have the same number of fields.
   */
  lemma LinesMapInOrder<E>(fs: FileSystem, file: string, delimiter: string, mapper: RowMapper<E>)
    requires file in fs && fs[file].Lines?
    requires forall record :: mapper(record).Success?
    ensures MapFile(fs, file, delimiter, mapper).Success?
    ensures |MapFile(fs, file, delimiter, mapper).value| == |fs[file].lines|
    ensures forall k :: 0 <= k < |fs[file].lines| ==>
              MapFile(fs, file, delimiter, mapper).value[k] ==
              mapper(RowRecord(Split(fs[file].lines[k], delimiter))).value
  {
    OneRecordPerLine(fs[file].lines, delimiter);
  }

  /**
   * The mapper's first failure, in line order, is the result: the lines
   * before it were all mapped.
   */
  lemma FirstMapperFailureWins<E>(fs: FileSystem, file: string, delimiter: string, mapper: RowMapper<E>)
    requires file in fs && fs[file].Lines?
    requires MapFile(fs, file, delimiter, mapper).Failure?
    ensures exists k :: 0 <= k < |fs[file].lines|
              && mapper(RowRecord(Split(fs[file].lines[k], delimiter))) == Failure(MapFile(fs, file, delimiter, mapper).error)
              && forall j :: 0 <= j < k ==> mapper(RowRecord(Split(fs[file].lines[j], delimiter))).Success?
  {
    OneRecordPerLine(fs[file].lines, delimiter);
  }

  /**
   * Where the delimiter occurs in a line, trailing empty fields are dropped:
   * the record's last field, if any, is not empty.
   */
  lemma NoTrailingEmptyField(line: string, delimiter: string)
    requires |delimiter| > 0 && Occurs(line, delimiter)
    ensures var record := RowRecord(Split(line, delimiter));
            forall i :: i in record.values && i + 1 !in record.values ==> record.values[i] != ""
  {
    SplitSpec(line, delimiter);
  }

  /**
   * At the file level an empty trailing field is a missing column, while an
   * empty leading field is present: line `a,,` has no column 1, line `,a`
   * has column 0 holding "".
   */
  lemma TrailingEmptyFieldIsMissing()
    ensures RowRecord(Split("a,,", ",")).Get(1) == Failure(ColumnNotFound(1))
    ensures RowRecord(Split(",a", ",")).Get(0) == Success("")
  {
    SplitDropsOnlyTrailingEmpty();
  }

  class FileCsv {
    const file: string
    const delimiter: string

    constructor (file: string, delimiter: string)
      ensures this.file == file && this.delimiter == delimiter
    {
      this.file := file;
      this.delimiter := delimiter;
    }

    /** `assertFileExists`: a missing file is a "not found" failure naming it. */
    method AssertFileExists(fs: FileSystem) returns (r: Outcome<Failure<int>>)
      ensures r.Pass? <==> file in fs
      ensures r.Fail? ==> r.error == FileNotFound(file) && r.error.IsCsvException()
    {
      if file !in fs {
        return Fail(FileNotFound(file));
      }
      return Pass;
    }

    /**
     * `map(mapper)`: check the file exists, read and split its lines, build
     * every record, then map the records in order.
     */
    method Map<E>(fs: FileSystem, mapper: RowMapper<E>) returns (r: Result<seq<E>, Failure<int>>)
      ensures r == MapFile(fs, file, delimiter, mapper)
    {
      var found := AssertFileExists(fs);
      if found.Fail? {
        return Failure(found.error);
      }
      match fs[file]
      case OpenFails(cause) =>
        return Failure(ReadFailed(file, cause));
      case ReadFails(cause) =>
        return Failure(UncheckedIo(cause));
      case Lines(lines) =>
        var rows := seq(|lines|, k requires 0 <= k < |lines| => Split(lines[k], delimiter));
        var records: seq<SimpleCsvRecord<int>> := [];
        var n := 0;
        while n < |rows|
          invariant 0 <= n <= |rows|
          invariant |records| == n
          invariant forall k :: 0 <= k < n ==> records[k] == RowRecord(rows[k])
        {
          var row := rows[n];
          var data: map<int, string> := map[];
          var i := 0;
          while i < |row|
            invariant 0 <= i <= |row|
            invariant forall j :: j in data <==> 0 <= j < i
            invariant forall j :: 0 <= j < i ==> data[j] == row[j]
          {
            data := data[i := row[i]];
            i := i + 1;
          }
          assert data == RowRecord(row).values;
          records := records + [SimpleCsvRecord(data)];
          n := n + 1;
        }
        assert records == RowRecords(rows);
        return MapEach(records, mapper);
    }
  }
}
