/**
 * `SimpleCsvRecord`: one row of a CSV file as an immutable map from column
 * identifier to the raw field text. A lookup of a column the row does not
 * hold fails; it never falls back to a default such as the empty string.
 */
module Records {
  import opened CsvErrors

  datatype SimpleCsvRecord<I> = SimpleCsvRecord(values: map<I, string>)
  {
    /** `get(column)`: the stored text, or `ColumnNotFound` naming the column. */
    function Get(column: I): (r: Result<string, Failure<I>>)
      ensures r.Success? <==> column in values
      ensures r.Success? ==> r.value == values[column]
      ensures r.Failure? ==> r.error == ColumnNotFound(column) && r.error.IsCsvException()
    {
      if column !in values then Failure(ColumnNotFound(column)) else Success(values[column])
    }
  }

  /** A column stored with the empty text is found, and yields the empty text. */
  lemma EmptyFieldIsNotMissing<I>(values: map<I, string>, column: I)
    requires column in values && values[column] == ""
    ensures SimpleCsvRecord(values).Get(column) == Success("")
    ensures SimpleCsvRecord(values).Get(column) != Failure(ColumnNotFound(column))
  {
  }

  /** Looking up the column just stored gives back the text stored. */
  lemma GetAfterStore<I>(values: map<I, string>, column: I, text: string)
    ensures SimpleCsvRecord(values[column := text]).Get(column) == Success(text)
  {
  }

  /** Two records that answer every lookup alike are equal. */
  lemma GetDeterminesRecord<I>(a: SimpleCsvRecord<I>, b: SimpleCsvRecord<I>)
    requires forall c :: a.Get(c) == b.Get(c)
    ensures a == b
  {
    forall c
      ensures c in a.values <==> c in b.values
      ensures c in a.values ==> a.values[c] == b.values[c]
    {
      assert a.Get(c) == b.Get(c);
    }
  }
}
