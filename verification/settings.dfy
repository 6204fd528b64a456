/** The converter's configuration and input, shared by both drafts:
    `Config` of main.go, and `OptsT` plus the fixed fields that
    `NewCSVToMySQLConverter` of prop_csv2sql.go sets. */
module Settings {
  import opened Ascii

  /** Which draft of the converter is modelled where the two differ:
      main.go (`Strict`) or prop_csv2sql.go (`Lenient`, the one the CLI uses). */
  datatype Variant = Strict | Lenient

  /** The options the conversion reads once the input is open. */
  datatype Config = Config(
    tableName: string,
    primaryKeys: seq<string>,
    hasHeader: bool,
    batchInsert: bool,
    batchSize: int,
    varcharLength: int,
    textThreshold: int,
    maxSampleSize: int,
    nullString: string,
    forceTypes: map<string, string>,
    skipColumns: map<string, bool>)

  /** `DefaultConfig` of main.go, for a given table name. */
  function DefaultConfig(tableName: string): (c: Config)
    ensures c.hasHeader && c.batchInsert && c.nullString == "NULL"
    ensures c.varcharLength == 255 && c.textThreshold == 500
    ensures c.batchSize == 100 && c.maxSampleSize == 1000
    ensures c.forceTypes == map[] && c.skipColumns == map[] && c.primaryKeys == []
  {
    Config(tableName, [], true, true, 100, 255, 500, 1000, "NULL", map[], map[])
  }

  /** The command-line options record `OptsT` (without the input file,
      the delimiter and the verbosity hooks). */
  datatype Opts = Opts(
    tableName: string,
    primaryKeys: seq<string>,
    noHeader: bool,
    noBatchInsert: bool,
    batchSize: int,
    varcharLength: int,
    textThreshold: int,
    maxSampleSize: int)

  /** The defaults `OptsT` declares in its struct tags. */
  function DefaultOpts(tableName: string, primaryKeys: seq<string>): (o: Opts)
    ensures !o.noHeader && !o.noBatchInsert
    ensures o.batchSize == 100 && o.varcharLength == 255
    ensures o.textThreshold == 100 && o.maxSampleSize == 1000
  {
    Opts(tableName, primaryKeys, false, false, 100, 255, 100, 1000)
  }

  /** `NewCSVToMySQLConverter` of prop_csv2sql.go: the options, with the
      two negative flags turned round, `NullString` fixed to "NULL" and
      no forced or skipped columns. */
  function FromOpts(o: Opts): (c: Config)
    ensures c.hasHeader <==> !o.noHeader
    ensures c.batchInsert <==> !o.noBatchInsert
    ensures c.nullString == "NULL" && c.forceTypes == map[] && c.skipColumns == map[]
    ensures c.tableName == o.tableName && c.primaryKeys == o.primaryKeys
    ensures c.batchSize == o.batchSize && c.varcharLength == o.varcharLength
    ensures c.textThreshold == o.textThreshold && c.maxSampleSize == o.maxSampleSize
  {
    Config(o.tableName, o.primaryKeys, !o.noHeader, !o.noBatchInsert, o.batchSize,
           o.varcharLength, o.textThreshold, o.maxSampleSize, "NULL", map[], map[])
  }

  /** A trimmed field that stands for SQL NULL: empty, or equal to
      `NullString` up to case. */
  predicate IsNullish(cfg: Config, v: string) {
    v == "" || EqualFold(v, cfg.nullString)
  }

  /** `SkipColumns[name]`: a missing key reads as false. */
  predicate IsSkipped(cfg: Config, name: string) {
    name in cfg.skipColumns && cfg.skipColumns[name]
  }

  /** `SKIP`, the type string that removes a column from all output. */
  const Skip: string := "SKIP"

  /** The fields of one record; the csv reader never yields a record
      without fields. */
  type Fields = s: seq<string> | |s| >= 1 witness [""]

  /** One result of `reader.Read()`: a record, or a read error. */
  datatype Record = Row(fields: Fields) | Unreadable

  /** Why a conversion stops without output. */
  datatype Error =
    | HeaderUnreadable
    | RecordUnreadable
    | ColumnCountMismatch(expected: nat, got: nat)
}
