/** The CSV-to-SQLite load step: header normalization and replace-on-write of the single
    `job_postings` table. Files and the database are modelled as maps from names to tables. */
module Ingest {
  import opened Basics
  import opened Text
  import opened Postings

  const CsvPath: string := "data/jobs_data.csv"
  const TableName: string := "job_postings"

  /** A table with its column names and its rows. */
  datatype Table = Table(columns: seq<string>, rows: seq<Row>)

  /** The SQLite database: table name to table. */
  type Store = map<string, Table>

  /** The CSV files that can be read, already parsed: path to table. */
  type Files = map<string, Table>

  datatype IngestError = SourceNotFound | StoreUnavailable

  /** Every occurrence of the character `a` replaced by `b` (`str.replace` with one-character
      arguments). */
  function ReplaceChar(s: string, a: char, b: char): (r: string)
    ensures |r| == |s|
    ensures forall i :: 0 <= i < |s| ==> r[i] == (if s[i] == a then b else s[i])
  {
    seq(|s|, i requires 0 <= i < |s| => if s[i] == a then b else s[i])
  }

  /** Header normalization: lower-case, then spaces to `_`, then hyphens to `_`. */
  function NormalizeName(name: string): (r: string)
    ensures |r| == |name|
    ensures forall i :: 0 <= i < |name| ==>
      r[i] == (if name[i] == ' ' || name[i] == '-' then '_' else LowerChar(name[i]))
    ensures forall i :: 0 <= i < |r| ==> r[i] != ' ' && r[i] != '-' && !IsUpper(r[i])
  {
    ReplaceChar(ReplaceChar(Lower(name), ' ', '_'), '-', '_')
  }

  /** Normalizing an already normalized name changes nothing. */
  lemma NormalizeNameIdempotent(name: string)
    ensures NormalizeName(NormalizeName(name)) == NormalizeName(name)
  {
    var once := NormalizeName(name);
    var twice := NormalizeName(once);
    forall i | 0 <= i < |once| ensures twice[i] == once[i] {
      assert !IsUpper(once[i]) && once[i] != ' ' && once[i] != '-';
    }
  }

  /** `df.columns` after normalization: one name per column, in the same order. */
  function NormalizeColumns(columns: seq<string>): (r: seq<string>)
    ensures |r| == |columns|
    ensures forall i :: 0 <= i < |columns| ==> r[i] == NormalizeName(columns[i])
  {
    seq(|columns|, i requires 0 <= i < |columns| => NormalizeName(columns[i]))
  }

  lemma NormalizeColumnsIdempotent(columns: seq<string>)
    ensures NormalizeColumns(NormalizeColumns(columns)) == NormalizeColumns(columns)
  {
    forall i | 0 <= i < |columns|
      ensures NormalizeColumns(NormalizeColumns(columns))[i] == NormalizeColumns(columns)[i]
    {
      NormalizeNameIdempotent(columns[i]);
    }
  }

  /** `to_sql(..., if_exists='replace')`: the named table becomes `t`, whatever it held
      before; every other table is kept. */
  function WriteTable(store: Store, name: string, t: Table): (r: Store)
    ensures name in r && r[name] == t
    ensures r.Keys == store.Keys + {name}
    ensures forall n :: n in store && n != name ==> r[n] == store[n]
  {
    store[name := t]
  }

  /** Writing the same table twice leaves the store as writing it once. */
  lemma WriteTableIdempotent(store: Store, name: string, t: Table)
    ensures WriteTable(WriteTable(store, name, t), name, t) == WriteTable(store, name, t)
  {
    var once := WriteTable(store, name, t);
    var twice := WriteTable(once, name, t);
    assert twice.Keys == once.Keys;
    forall n | n in once ensures twice[n] == once[n] {
    }
  }

  /** The result of running the load script: the resulting store, and either the number
      of rows written or the error that stopped it. */
  datatype Outcome = Outcome(store: Store, result: Result<nat, IngestError>)

  /** The load script. A missing CSV stops it before the database is opened; a database
      that cannot be opened stops it before anything is written. Otherwise the CSV,
      with normalized column names, replaces `job_postings`. */
  function Load(files: Files, store: Store, storeOpens: bool): (o: Outcome)
    ensures CsvPath !in files ==> o == Outcome(store, Failure(SourceNotFound))
    ensures CsvPath in files && !storeOpens ==> o == Outcome(store, Failure(StoreUnavailable))
    ensures CsvPath in files && storeOpens ==>
      && o.result == Success(|files[CsvPath].rows|)
      && TableName in o.store
      && o.store[TableName].rows == files[CsvPath].rows
      && o.store[TableName].columns == NormalizeColumns(files[CsvPath].columns)
      && o.store.Keys == store.Keys + {TableName}
    ensures forall n :: n in store && n != TableName ==> n in o.store && o.store[n] == store[n]
  {
    if CsvPath !in files then Outcome(store, Failure(SourceNotFound))
    else if !storeOpens then Outcome(store, Failure(StoreUnavailable))
    else
      var csv := files[CsvPath];
      Outcome(WriteTable(store, TableName, Table(NormalizeColumns(csv.columns), csv.rows)), Success(|csv.rows|))
  }

  /** Re-running the load script with the same CSV yields the same database as running it
      once: data is replaced, never appended. */
  lemma LoadIdempotent(files: Files, store: Store, storeOpens: bool)
    ensures Load(files, Load(files, store, storeOpens).store, storeOpens).store ==
            Load(files, store, storeOpens).store
  {
    if CsvPath in files && storeOpens {
      var csv := files[CsvPath];
      WriteTableIdempotent(store, TableName, Table(NormalizeColumns(csv.columns), csv.rows));
    }
  }

  /** The sanity read-back `SELECT * FROM job_postings LIMIT 3`: at most three rows, all
      from the table, in rowid (insertion) order. */
  function SampleRows(t: Table): (r: seq<Row>)
    ensures |r| == Min(3, |t.rows|)
    ensures forall i :: 0 <= i < |r| ==> r[i] == t.rows[i]
    ensures forall x :: x in r ==> x in t.rows
  {
    t.rows[..Min(3, |t.rows|)]
  }
}
