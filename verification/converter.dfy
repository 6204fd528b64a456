/** `Convert`: header naming, type resolution, CREATE TABLE and the insert
    pass over the records, for both drafts. */
module Converter {
  import opened Wrappers
  import opened Settings
  import opened Classifier
  import opened Sanitizer
  import opened Serializer
  import opened Resolver
  import opened Emitter
  import opened Ascii
  import Columns

  /** What a conversion produces: the CREATE TABLE text and the INSERT
      text. */
  datatype Output = Output(createTable: string, inserts: string)

  /** The error the strict insert pass reports for a record it cannot use. */
  function Problem(headers: seq<string>, r: Record): Error
  {
    if r.Unreadable? then RecordUnreadable else ColumnCountMismatch(|headers|, |r.fields|)
  }

  /** The records the insert pass turns into rows. The strict draft stops
      at the first read error or field-count mismatch; the lenient one skips
      such records and also the blank ones. */
  function InsertRows(v: Variant, cfg: Config, headers: seq<string>, records: seq<Record>): (res: Result<seq<Fields>, Error>)
    ensures res.Success? ==> forall k :: 0 <= k < |res.value| ==> |res.value[k]| == |headers|
    ensures res.Failure? ==> v == Strict
    decreases |records|
  {
    if records == [] then Success([])
    else
      var r := records[0];
      if !Usable(headers, r) then
        if v == Strict then Failure(Problem(headers, r))
        else InsertRows(v, cfg, headers, records[1..])
      else if v == Lenient && IsBlankRow(cfg, r.fields) then InsertRows(v, cfg, headers, records[1..])
      else
        match InsertRows(v, cfg, headers, records[1..])
        case Success(rows) => Success([r.fields] + rows)
        case Failure(e) => Failure(e)
  }

  /** The rows that are not blank, in order. */
  function DropBlank(cfg: Config, rows: seq<Fields>): (kept: seq<Fields>)
    ensures |kept| <= |rows|
    ensures forall k :: 0 <= k < |kept| ==> !IsBlankRow(cfg, kept[k]) && kept[k] in rows
    ensures forall k :: 0 <= k < |rows| && !IsBlankRow(cfg, rows[k]) ==> rows[k] in kept
  {
    if rows == [] then []
    else if IsBlankRow(cfg, rows[0]) then DropBlank(cfg, rows[1..])
    else [rows[0]] + DropBlank(cfg, rows[1..])
  }

  /** Which rows pass the blank-row test. */
  function NonBlankFlags(cfg: Config, rows: seq<Fields>): seq<bool>
  {
    seq(|rows|, i requires 0 <= i < |rows| => !IsBlankRow(cfg, rows[i]))
  }

  /** The positions `from ..` whose flag is set, ascending. */
  function SetFrom(flags: seq<bool>, from: nat): (ks: seq<nat>)
    requires from <= |flags|
    ensures forall k :: 0 <= k < |ks| ==> from <= ks[k] < |flags| && flags[ks[k]]
    ensures forall k, l :: 0 <= k < l < |ks| ==> ks[k] < ks[l]
    ensures forall i :: from <= i < |flags| && flags[i] ==> i in ks
    decreases |flags| - from
  {
    if from == |flags| then []
    else (if flags[from] then [from] else []) + SetFrom(flags, from + 1)
  }

  /** The positions of all rows that are not blank, ascending. */
  function NonBlankIndices(cfg: Config, rows: seq<Fields>): (ks: seq<nat>)
    ensures forall k :: 0 <= k < |ks| ==> ks[k] < |rows| && !IsBlankRow(cfg, rows[ks[k]])
    ensures forall k, l :: 0 <= k < l < |ks| ==> ks[k] < ks[l]
    ensures forall i :: 0 <= i < |rows| && !IsBlankRow(cfg, rows[i]) ==> i in ks
  {
    SetFrom(NonBlankFlags(cfg, rows), 0)
  }

  lemma {:induction false} DropBlankFrom(cfg: Config, rows: seq<Fields>, from: nat)
    requires from <= |rows|
    ensures var ks := SetFrom(NonBlankFlags(cfg, rows), from);
      && |DropBlank(cfg, rows[from..])| == |ks|
      && forall k :: 0 <= k < |ks| ==> DropBlank(cfg, rows[from..])[k] == rows[ks[k]]
    decreases |rows| - from
  {
    if from < |rows| {
      var flags := NonBlankFlags(cfg, rows);
      DropBlankFrom(cfg, rows, from + 1);
      var r := rows[from..];
      assert r[0] == rows[from];
      assert r[1..] == rows[from + 1..];
      var rest := DropBlank(cfg, rows[from + 1..]);
      var later := SetFrom(flags, from + 1);
      var kept := DropBlank(cfg, r);
      var ks := SetFrom(flags, from);
      if !flags[from] {
        assert kept == rest && ks == later;
      } else {
        assert kept == [rows[from]] + rest && ks == [from] + later;
        forall k | 1 <= k < |ks|
          ensures kept[k] == rows[ks[k]]
        {
          assert kept[k] == rest[k - 1] && ks[k] == later[k - 1];
        }
      }
    }
  }

  /** Dropping blank rows keeps every other row once, in its original
      order: the k-th kept row is the row at the k-th non-blank position. */
  lemma DropBlankInOrder(cfg: Config, rows: seq<Fields>)
    ensures |DropBlank(cfg, rows)| == |NonBlankIndices(cfg, rows)|
    ensures forall k :: 0 <= k < |NonBlankIndices(cfg, rows)| ==>
              DropBlank(cfg, rows)[k] == rows[NonBlankIndices(cfg, rows)[k]]
  {
    DropBlankFrom(cfg, rows, 0);
    assert rows[0..] == rows;
  }

  /** The lenient insert pass emits exactly the usable records that are not
      blank, in order. */
  lemma {:induction false} InsertRowsLenient(cfg: Config, headers: seq<string>, records: seq<Record>)
    ensures InsertRows(Lenient, cfg, headers, records) == Success(DropBlank(cfg, WellShaped(headers, records)))
    decreases |records|
  {
    if records != [] {
      InsertRowsLenient(cfg, headers, records[1..]);
      if Usable(headers, records[0]) {
        var ws := WellShaped(headers, records);
        assert ws[0] == records[0].fields && ws[1..] == WellShaped(headers, records[1..]);
      }
    }
  }

  /** On records that are all usable, the strict insert pass emits every one
      of them, blank or not. */
  lemma {:induction false} InsertRowsStrictAccepts(cfg: Config, headers: seq<string>, records: seq<Record>)
    requires forall j :: 0 <= j < |records| ==> Usable(headers, records[j])
    ensures InsertRows(Strict, cfg, headers, records) == Success(WellShaped(headers, records))
    ensures |WellShaped(headers, records)| == |records|
    ensures forall j :: 0 <= j < |records| ==> records[j].Row? && WellShaped(headers, records)[j] == records[j].fields
    decreases |records|
  {
    if records != [] {
      assert forall j :: 1 <= j < |records| ==> records[1..][j - 1] == records[j];
      InsertRowsStrictAccepts(cfg, headers, records[1..]);
    }
  }

  /** The strict insert pass fails with the problem of the first record it
      cannot use. */
  lemma {:induction false} InsertRowsStrictRejects(cfg: Config, headers: seq<string>, records: seq<Record>, j: nat)
    requires j < |records| && !Usable(headers, records[j])
    requires forall i :: 0 <= i < j ==> Usable(headers, records[i])
    ensures InsertRows(Strict, cfg, headers, records) == Failure(Problem(headers, records[j]))
    decreases j
  {
    if j > 0 {
      assert records[1..][j - 1] == records[j];
      assert forall i :: 0 <= i < j - 1 ==> records[1..][i] == records[i + 1];
      InsertRowsStrictRejects(cfg, headers, records[1..], j - 1);
    }
  }

  /** The records after the header of the insert pass. The strict draft
      reports a header it cannot read; the lenient one ignores that read. */
  function InsertBody(v: Variant, cfg: Config, input: seq<Record>): (res: Result<seq<Record>, Error>)
    ensures res.Failure? <==> v == Strict && cfg.hasHeader && (input == [] || input[0].Unreadable?)
    ensures res.Success? && cfg.hasHeader && input != [] ==> res.value == input[1..]
    ensures !cfg.hasHeader ==> res == Success(input)
  {
    if !cfg.hasHeader then Success(input)
    else if input == [] then (if v == Strict then Failure(HeaderUnreadable) else Success([]))
    else if input[0].Unreadable? && v == Strict then Failure(HeaderUnreadable)
    else Success(input[1..])
  }

  /** The value lists of the emitted rows. */
  function LiteralRows(cfg: Config, isFloat: FloatSyntax, types: seq<string>, rows: seq<Fields>): seq<seq<string>>
    requires forall k :: 0 <= k < |rows| ==> |rows[k]| == |types|
  {
    seq(|rows|, k requires 0 <= k < |rows| => RowValues(cfg, isFloat, types, rows[k]))
  }

  /** The INSERT text for the input under the resolved column types. */
  function GenerateInserts(v: Variant, cfg: Config, isFloat: FloatSyntax, headers: seq<string>, types: seq<string>,
                           input: seq<Record>): Result<string, Error>
    requires |headers| == |types|
  {
    var body :- InsertBody(v, cfg, input);
    var rows :- InsertRows(v, cfg, headers, body);
    Success(Concat(InsertStatements(cfg, headers, types, LiteralRows(cfg, isFloat, types, rows))))
  }

  /** The whole conversion. The first record names the columns; sampling
      reads the records after it in both header modes, while the insert
      pass starts at the first record when there is no header. */
  function Convert(v: Variant, cfg: Config, isFloat: FloatSyntax, input: seq<Record>): Result<Output, Error>
  {
    if input == [] || input[0].Unreadable? then Failure(HeaderUnreadable)
    else
      var headers := HeaderNames(cfg.hasHeader, input[0].fields);
      var types :- Resolve(v, cfg, isFloat, headers, input[1..]);
      var inserts :- GenerateInserts(v, cfg, isFloat, headers, types, input);
      Success(Output(CreateTable(v, cfg, headers, types), inserts))
  }

  /** The rows the lenient insert pass emits: the well-shaped, non-blank
      records after the header, or from the first record without one. */
  function LenientRows(cfg: Config, headers: seq<string>, input: seq<Record>): (rows: seq<Fields>)
    requires input != []
    ensures forall k :: 0 <= k < |rows| ==> |rows[k]| == |headers|
  {
    DropBlank(cfg, WellShaped(headers, if cfg.hasHeader then input[1..] else input))
  }

  /** Reference output of the lenient draft, assembled from the
      column-by-column types and the filtered rows. */
  function LenientOutput(cfg: Config, isFloat: FloatSyntax, input: seq<Record>): Output
    requires input != [] && input[0].Row?
  {
    var headers := HeaderNames(cfg.hasHeader, input[0].fields);
    var types := ExpectedTypes(cfg, isFloat, headers, input[1..]);
    var rows := LenientRows(cfg, headers, input);
    Output(CreateTable(Lenient, cfg, headers, types),
           Concat(InsertStatements(cfg, headers, types, LiteralRows(cfg, isFloat, types, rows))))
  }

  lemma LenientRowsInserted(cfg: Config, isFloat: FloatSyntax, headers: seq<string>, types: seq<string>, input: seq<Record>)
    requires input != [] && |types| == |headers|
    ensures GenerateInserts(Lenient, cfg, isFloat, headers, types, input) ==
      Success(Concat(InsertStatements(cfg, headers, types, LiteralRows(cfg, isFloat, types, LenientRows(cfg, headers, input)))))
  {
    var body := InsertBody(Lenient, cfg, input).value;
    assert body == if cfg.hasHeader then input[1..] else input;
    InsertRowsLenient(cfg, headers, body);
  }

  /** The lenient draft fails only when there is no first record to name
      the columns from; otherwise it writes the table for the column types
      `ExpectedTypes` and the INSERTs for the rows `LenientRows`. */
  lemma ConvertLenient(cfg: Config, isFloat: FloatSyntax, input: seq<Record>)
    ensures Convert(Lenient, cfg, isFloat, input).Failure? <==> input == [] || input[0].Unreadable?
    ensures input != [] && input[0].Row? ==>
      Convert(Lenient, cfg, isFloat, input) == Success(LenientOutput(cfg, isFloat, input))
  {
    if input != [] && input[0].Row? {
      var headers := HeaderNames(cfg.hasHeader, input[0].fields);
      var types := ExpectedTypes(cfg, isFloat, headers, input[1..]);
      ResolveLenient(cfg, isFloat, headers, input[1..]);
      LenientRowsInserted(cfg, isFloat, headers, types, input);
    }
  }

  /** A well-formed input: a first record, and every record readable and
      as wide as the first. */
  predicate WellFormed(input: seq<Record>)
  {
    && input != []
    && (forall j :: 0 <= j < |input| ==> input[j].Row?)
    && (forall j :: 0 <= j < |input| ==> |input[j].fields| == |input[0].fields|)
  }

  /** The strict draft converts exactly the well-formed inputs. */
  lemma ConvertStrict(cfg: Config, isFloat: FloatSyntax, input: seq<Record>)
    ensures Convert(Strict, cfg, isFloat, input).Success? <==> WellFormed(input)
  {
    if input != [] && input[0].Row? {
      var headers := HeaderNames(cfg.hasHeader, input[0].fields);
      ResolveStrict(cfg, isFloat, headers, input[1..]);
      if WellFormed(input) {
        StrictWellFormed(cfg, isFloat, input);
      } else {
        var j :| 0 <= j < |input| && !Usable(headers, input[j]);
        StrictRejects(cfg, isFloat, input, j);
      }
    }
  }

  /** On well-formed input the strict resolver reads no error and agrees
      with the lenient one. */
  lemma ResolveWellFormed(cfg: Config, isFloat: FloatSyntax, input: seq<Record>)
    requires WellFormed(input)
    ensures var headers := HeaderNames(cfg.hasHeader, input[0].fields);
      && Resolve(Strict, cfg, isFloat, headers, input[1..]) == Resolve(Lenient, cfg, isFloat, headers, input[1..])
      && Resolve(Lenient, cfg, isFloat, headers, input[1..]).Success?
  {
    var headers := HeaderNames(cfg.hasHeader, input[0].fields);
    var tail := input[1..];
    assert forall j :: 0 <= j < |tail| ==> tail[j].Row? by {
      forall j | 0 <= j < |tail|
        ensures tail[j].Row?
      {
        assert tail[j] == input[j + 1];
      }
    }
    ResolveStrict(cfg, isFloat, headers, tail);
    ResolveLenient(cfg, isFloat, headers, tail);
  }

  /** The records after the header of a well-formed input are all usable. */
  lemma BodyWellFormed(v: Variant, cfg: Config, input: seq<Record>)
    requires WellFormed(input)
    ensures InsertBody(v, cfg, input).Success?
    ensures var body := InsertBody(v, cfg, input).value;
      && body == (if cfg.hasHeader then input[1..] else input)
      && forall j :: 0 <= j < |body| ==> Usable(HeaderNames(cfg.hasHeader, input[0].fields), body[j])
  {
    var body := InsertBody(v, cfg, input).value;
    forall j | 0 <= j < |body|
      ensures Usable(HeaderNames(cfg.hasHeader, input[0].fields), body[j])
    {
      if cfg.hasHeader {
        assert body[j] == input[j + 1];
      }
    }
  }

  lemma StrictWellFormed(cfg: Config, isFloat: FloatSyntax, input: seq<Record>)
    requires WellFormed(input)
    ensures Convert(Strict, cfg, isFloat, input).Success?
  {
    var headers := HeaderNames(cfg.hasHeader, input[0].fields);
    ResolveWellFormed(cfg, isFloat, input);
    BodyWellFormed(Strict, cfg, input);
    InsertRowsStrictAccepts(cfg, headers, InsertBody(Strict, cfg, input).value);
  }

  /** Any unusable record (read error or wrong width) makes the strict
      draft fail. */
  lemma StrictRejects(cfg: Config, isFloat: FloatSyntax, input: seq<Record>, j: nat)
    requires input != [] && input[0].Row?
    requires j < |input| && !Usable(HeaderNames(cfg.hasHeader, input[0].fields), input[j])
    ensures Convert(Strict, cfg, isFloat, input).Failure?
  {
    var headers := HeaderNames(cfg.hasHeader, input[0].fields);
    var tail := input[1..];
    ResolveStrict(cfg, isFloat, headers, tail);
    ResolveLenient(cfg, isFloat, headers, tail);
    if Resolve(Strict, cfg, isFloat, headers, tail).Success? {
      var body := InsertBody(Strict, cfg, input);
      if body.Success? {
        var b := body.value;
        var jb := if cfg.hasHeader then j - 1 else j;
        assert 0 <= jb < |b| && b[jb] == input[j];
        var first :| 0 <= first <= jb && !Usable(headers, b[first]) &&
          (forall i :: 0 <= i < first ==> Usable(headers, b[i])) by {
          FirstUnusable(headers, b, jb);
        }
        InsertRowsStrictRejects(cfg, headers, b, first);
      }
    }
  }

  /** An unusable record has a first unusable one at or before it. */
  lemma {:induction false} FirstUnusable(headers: seq<string>, records: seq<Record>, j: nat)
    requires j < |records| && !Usable(headers, records[j])
    ensures exists first ::
      && 0 <= first <= j && !Usable(headers, records[first])
      && (forall i :: 0 <= i < first ==> Usable(headers, records[i]))
    decreases j
  {
    if exists i :: 0 <= i < j && !Usable(headers, records[i]) {
      var i :| 0 <= i < j && !Usable(headers, records[i]);
      FirstUnusable(headers, records, i);
    } else {
      assert forall i :: 0 <= i < j ==> Usable(headers, records[i]);
    }
  }

  /** On well-formed input without blank data rows both drafts produce the
      same INSERT text and the same table, the lenient one behind a
      commented-out DROP TABLE line. */
  lemma DraftsAgree(cfg: Config, isFloat: FloatSyntax, input: seq<Record>)
    requires WellFormed(input)
    requires forall j :: (if cfg.hasHeader then 1 else 0) <= j < |input| ==> !IsBlankRow(cfg, input[j].fields)
    ensures Convert(Strict, cfg, isFloat, input).Success?
    ensures var s := Convert(Strict, cfg, isFloat, input).value;
      Convert(Lenient, cfg, isFloat, input) ==
        Success(Output(DropComment(cfg.tableName) + s.createTable, s.inserts))
  {
    StrictWellFormed(cfg, isFloat, input);
    ResolveWellFormed(cfg, isFloat, input);
    var headers := HeaderNames(cfg.hasHeader, input[0].fields);
    var types := Resolve(Lenient, cfg, isFloat, headers, input[1..]).value;
    InsertsAgree(cfg, isFloat, input, headers, types);
    var inserts := GenerateInserts(Strict, cfg, isFloat, headers, types, input);
    assert inserts.Success?;
    assert Convert(Strict, cfg, isFloat, input) == Success(Output(CreateTable(Strict, cfg, headers, types), inserts.value));
    assert Convert(Lenient, cfg, isFloat, input) == Success(Output(CreateTable(Lenient, cfg, headers, types), inserts.value));
    CreateTableDrafts(cfg, headers, types);
  }

  lemma InsertsAgree(cfg: Config, isFloat: FloatSyntax, input: seq<Record>, headers: seq<string>, types: seq<string>)
    requires WellFormed(input)
    requires headers == HeaderNames(cfg.hasHeader, input[0].fields) && |types| == |headers|
    requires forall j :: (if cfg.hasHeader then 1 else 0) <= j < |input| ==> !IsBlankRow(cfg, input[j].fields)
    ensures GenerateInserts(Strict, cfg, isFloat, headers, types, input) == GenerateInserts(Lenient, cfg, isFloat, headers, types, input)
  {
    BodyWellFormed(Strict, cfg, input);
    BodyWellFormed(Lenient, cfg, input);
    var body := InsertBody(Lenient, cfg, input).value;
    forall j | 0 <= j < |body|
      ensures !IsBlankRow(cfg, body[j].fields)
    {
      if cfg.hasHeader {
        assert body[j] == input[j + 1];
      }
    }
    InsertRowsStrictAccepts(cfg, headers, body);
    InsertRowsLenient(cfg, headers, body);
    var ws := WellShaped(headers, body);
    assert forall k :: 0 <= k < |ws| ==> !IsBlankRow(cfg, ws[k]);
    DropBlankKeepsAll(cfg, ws);
  }

  lemma {:induction false} DropBlankKeepsAll(cfg: Config, rows: seq<Fields>)
    requires forall k :: 0 <= k < |rows| ==> !IsBlankRow(cfg, rows[k])
    ensures DropBlank(cfg, rows) == rows
  {
    if rows != [] {
      DropBlankKeepsAll(cfg, rows[1..]);
    }
  }

  /** The column list of every INSERT reads back to the names of the
      columns not typed `SKIP`, in header order: names never contain the
      list's separator. */
  lemma InsertColumnsReadBack(hasHeader: bool, first: seq<string>, types: seq<string>)
    requires |types| == |first| && Columns.KeptIndices(types) != []
    ensures var headers := HeaderNames(hasHeader, first);
      ReadColumnList(ColumnList(headers, types)) == Some(Columns.Keep(types, headers))
  {
    var headers := HeaderNames(hasHeader, first);
    HeaderNamesAreIdentifiers(hasHeader, first);
    forall i | 0 <= i < |headers|
      ensures ',' !in headers[i]
    {
      assert !IsIdentChar(',');
    }
    ColumnListRoundTrip(headers, types);
  }

  /** The INSERT text of the emitted rows reads back to their literals:
      without batching statement k gives the literals of row k, with
      batching the statements read in turn give every row's literals once
      and in order. Needs some column not typed `SKIP`, as a row with no
      kept column is written as an empty tuple. */
  lemma InsertsReadBack(cfg: Config, isFloat: FloatSyntax, headers: seq<string>, types: seq<string>, rows: seq<Fields>)
    requires |headers| == |types| && Columns.KeptIndices(types) != []
    requires forall k :: 0 <= k < |rows| ==> |rows[k]| == |types|
    ensures var lits := LiteralRows(cfg, isFloat, types, rows);
      var stmts := InsertStatements(cfg, headers, types, lits);
      && (!cfg.batchInsert ==>
            && |stmts| == |rows|
            && forall k :: 0 <= k < |rows| ==>
                 ReadSingleInsert(InsertHead(cfg, headers, types), stmts[k]) == Some(RowValues(cfg, isFloat, types, rows[k])))
      && (cfg.batchInsert ==> ReadBatchInserts(InsertHead(cfg, headers, types), stmts) == Some(lits))
  {
    var lits := LiteralRows(cfg, isFloat, types, rows);
    forall k | 0 <= k < |lits|
      ensures IsValueList(lits[k])
    {
      RowValuesAreLiterals(cfg, isFloat, types, rows[k]);
    }
    InsertStatementsReadBack(cfg, headers, types, lits);
  }
}
