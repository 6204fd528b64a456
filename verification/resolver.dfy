/** `determineColumnTypes`: initial types, the all-fixed fast path, and the
    sampling loop that refines each column from the values it reads. */
module Resolver {
  import opened Wrappers
  import opened Ascii
  import opened Settings
  import opened Classifier

  /** The starting type of a column: its forced type, else `SKIP` when it is
      listed as skipped, else `TEXT`. */
  function InitialType(cfg: Config, name: string): string
  {
    if name in cfg.forceTypes then cfg.forceTypes[name]
    else if IsSkipped(cfg, name) then Skip
    else "TEXT"
  }

  function InitialTypes(cfg: Config, headers: seq<string>): (types: seq<string>)
    ensures |types| == |headers|
    ensures forall i :: 0 <= i < |types| ==> types[i] == InitialType(cfg, headers[i])
  {
    seq(|headers|, i requires 0 <= i < |headers| => InitialType(cfg, headers[i]))
  }

  /** A type that sampling would never be needed for. */
  predicate IsFixed(t: string) { HasPrefix(t, "VARCHAR") || t == Skip }

  /** Analysis is skipped when every column starts with a fixed type. */
  predicate FastPath(types: seq<string>) { forall i :: 0 <= i < |types| ==> IsFixed(types[i]) }

  /** One field's effect on its column's type during sampling. */
  function StepColumn(cfg: Config, isFloat: FloatSyntax, name: string, t: string, raw: string): string
  {
    if t == Skip || name in cfg.forceTypes then t
    else
      var v := TrimSpace(raw);
      if IsNullish(cfg, v) then t else RefineType(cfg, isFloat, v)
  }

  /** One sampled record applied to every column. */
  function RefineRow(cfg: Config, isFloat: FloatSyntax, headers: seq<string>, types: seq<string>, fields: seq<string>): (r: seq<string>)
    requires |types| == |headers| == |fields|
    ensures |r| == |types|
  {
    seq(|types|, i requires 0 <= i < |types| => StepColumn(cfg, isFloat, headers[i], types[i], fields[i]))
  }

  /** The sampling loop over the records after the first one; `count` is
      the number of records sampled so far. A read error aborts the strict
      draft and is skipped by the lenient one; a record whose field count
      differs from the header is skipped; the loop stops once `count`
      reaches `MaxSampleSize`, after at least one sampled record. */
  function Sample(v: Variant, cfg: Config, isFloat: FloatSyntax, headers: seq<string>, types: seq<string>,
                  records: seq<Record>, count: int): (res: Result<seq<string>, Error>)
    requires |types| == |headers|
    ensures res.Success? ==> |res.value| == |headers|
    ensures res.Failure? ==> v == Strict && res.error == RecordUnreadable
    decreases |records|
  {
    if records == [] then Success(types)
    else match records[0]
      case Unreadable =>
        if v == Strict then Failure(RecordUnreadable)
        else Sample(v, cfg, isFloat, headers, types, records[1..], count)
      case Row(fields) =>
        if |fields| != |headers| then Sample(v, cfg, isFloat, headers, types, records[1..], count)
        else
          var refined := RefineRow(cfg, isFloat, headers, types, fields);
          if count + 1 >= cfg.maxSampleSize then Success(refined)
          else Sample(v, cfg, isFloat, headers, refined, records[1..], count + 1)
  }

  /** The column types of a table, from its header names and the records
      that follow the first one. */
  function Resolve(v: Variant, cfg: Config, isFloat: FloatSyntax, headers: seq<string>, records: seq<Record>): (res: Result<seq<string>, Error>)
    ensures res.Success? ==> |res.value| == |headers|
  {
    var init := InitialTypes(cfg, headers);
    if FastPath(init) then Success(init)
    else Sample(v, cfg, isFloat, headers, init, records, 0)
  }

  // ---------------------------------------------------------------------
  // Reference definitions: which records are sampled, and what a column's
  // type is after a sequence of rows.

  /** A record the sampling loop uses. */
  predicate Usable(headers: seq<string>, r: Record) { r.Row? && |r.fields| == |headers| }

  /** The fields of the usable records, in order. */
  function WellShaped(headers: seq<string>, records: seq<Record>): (rows: seq<Fields>)
    ensures |rows| <= |records|
    ensures forall k :: 0 <= k < |rows| ==> |rows[k]| == |headers|
  {
    if records == [] then []
    else if Usable(headers, records[0]) then [records[0].fields] + WellShaped(headers, records[1..])
    else WellShaped(headers, records[1..])
  }

  /** How many usable records the loop consumes at most: a non-positive
      `MaxSampleSize` still lets one through. */
  function Quota(cfg: Config): (q: int)
    ensures q >= 1 && q >= cfg.maxSampleSize
  {
    if cfg.maxSampleSize < 1 then 1 else cfg.maxSampleSize
  }

  function Take<T>(xs: seq<T>, n: int): (r: seq<T>)
    ensures |r| <= |xs| && (n >= 0 ==> |r| <= n)
    ensures n >= |xs| ==> r == xs
    ensures forall k :: 0 <= k < |r| ==> r[k] == xs[k]
  {
    if n <= 0 then [] else if n >= |xs| then xs else xs[..n]
  }

  /** The rows the sampling loop reads. */
  function Window(cfg: Config, headers: seq<string>, records: seq<Record>): (rows: seq<Fields>)
    ensures |rows| <= Quota(cfg)
    ensures forall k :: 0 <= k < |rows| ==> |rows[k]| == |headers|
  {
    Take(WellShaped(headers, records), Quota(cfg))
  }

  /** The column types after applying `rows` in order. */
  function FoldRows(cfg: Config, isFloat: FloatSyntax, headers: seq<string>, types: seq<string>, rows: seq<seq<string>>): (r: seq<string>)
    requires |types| == |headers|
    requires forall k :: 0 <= k < |rows| ==> |rows[k]| == |headers|
    ensures |r| == |types|
    decreases |rows|
  {
    if rows == [] then types
    else FoldRows(cfg, isFloat, headers, RefineRow(cfg, isFloat, headers, types, rows[0]), rows[1..])
  }

  /** Column `i` of `rows`. */
  function Column(rows: seq<seq<string>>, i: nat): (col: seq<string>)
    requires forall k :: 0 <= k < |rows| ==> i < |rows[k]|
    ensures |col| == |rows|
  {
    seq(|rows|, k requires 0 <= k < |rows| => rows[k][i])
  }

  /** The last value of `vals` that is not NULL-like, trimmed. */
  function LastValue(cfg: Config, vals: seq<string>): (r: Option<string>)
    ensures r.Some? ==> !IsNullish(cfg, r.value)
  {
    if vals == [] then None
    else match LastValue(cfg, vals[1..])
      case Some(x) => Some(x)
      case None => if IsNullish(cfg, TrimSpace(vals[0])) then None else Some(TrimSpace(vals[0]))
  }

  /** `LastValue` is `None` exactly when every value is NULL-like, and
      otherwise it is the trimmed value at some position after which every
      value is NULL-like. */
  lemma {:induction false} LastValueSpec(cfg: Config, vals: seq<string>)
    ensures LastValue(cfg, vals).None? <==> forall k :: 0 <= k < |vals| ==> IsNullish(cfg, TrimSpace(vals[k]))
    ensures LastValue(cfg, vals).Some? ==>
      exists j :: 0 <= j < |vals| && LastValue(cfg, vals).value == TrimSpace(vals[j]) &&
        (forall k :: j < k < |vals| ==> IsNullish(cfg, TrimSpace(vals[k])))
  {
    if vals != [] {
      LastValueSpec(cfg, vals[1..]);
      assert forall k :: 1 <= k < |vals| ==> vals[1..][k - 1] == vals[k];
      match LastValue(cfg, vals[1..])
      case Some(x) =>
        var j :| 0 <= j < |vals[1..]| && x == TrimSpace(vals[1..][j]) &&
          (forall k :: j < k < |vals[1..]| ==> IsNullish(cfg, TrimSpace(vals[1..][k])));
        assert x == TrimSpace(vals[j + 1]);
      case None =>
        if !IsNullish(cfg, TrimSpace(vals[0])) {
          assert LastValue(cfg, vals).value == TrimSpace(vals[0]);
        }
    }
  }

  /** A skipped or forced column keeps its type through any rows. */
  lemma {:induction false} FoldKeepsFixed(cfg: Config, isFloat: FloatSyntax, headers: seq<string>, types: seq<string>, rows: seq<seq<string>>, i: nat)
    requires |types| == |headers| && i < |types|
    requires forall k :: 0 <= k < |rows| ==> |rows[k]| == |headers|
    requires types[i] == Skip || headers[i] in cfg.forceTypes
    ensures FoldRows(cfg, isFloat, headers, types, rows)[i] == types[i]
    decreases |rows|
  {
    if rows != [] {
      FoldKeepsFixed(cfg, isFloat, headers, RefineRow(cfg, isFloat, headers, types, rows[0]), rows[1..], i);
    }
  }

  /** The type of a column that is neither skipped nor forced is decided by
      the last non-NULL value it holds in `rows` alone; earlier values have
      no effect, and a column without such a value keeps its type. */
  lemma {:induction false} FoldLastValueWins(cfg: Config, isFloat: FloatSyntax, headers: seq<string>, types: seq<string>, rows: seq<seq<string>>, i: nat)
    requires |types| == |headers| && i < |types|
    requires forall k :: 0 <= k < |rows| ==> |rows[k]| == |headers|
    requires types[i] != Skip && headers[i] !in cfg.forceTypes
    ensures FoldRows(cfg, isFloat, headers, types, rows)[i] ==
      match LastValue(cfg, Column(rows, i))
      case None => types[i]
      case Some(x) => RefineType(cfg, isFloat, x)
    decreases |rows|
  {
    if rows != [] {
      var next := RefineRow(cfg, isFloat, headers, types, rows[0]);
      var x := TrimSpace(rows[0][i]);
      RenderDistinct(Classify(cfg, isFloat, x), Classify(cfg, isFloat, x));
      assert next[i] == if IsNullish(cfg, x) then types[i] else RefineType(cfg, isFloat, x);
      FoldLastValueWins(cfg, isFloat, headers, next, rows[1..], i);
      assert Column(rows[1..], i) == Column(rows, i)[1..];
    }
  }

  lemma {:induction false} WellShapedPrefix(headers: seq<string>, records: seq<Record>, j: nat)
    requires 0 < j <= |records|
    ensures WellShaped(headers, records[..j]) ==
      (if Usable(headers, records[0]) then [records[0].fields] else []) + WellShaped(headers, records[1..][..j - 1])
  {
    assert records[..j][1..] == records[1..][..j - 1];
  }

  /** The lenient loop folds exactly the usable records it reaches before
      the quota runs out. */
  lemma {:induction false} SampleLenient(cfg: Config, isFloat: FloatSyntax, headers: seq<string>, types: seq<string>, records: seq<Record>, count: int)
    requires |types| == |headers|
    requires 0 <= count < Quota(cfg)
    ensures Sample(Lenient, cfg, isFloat, headers, types, records, count) ==
      Success(FoldRows(cfg, isFloat, headers, types, Take(WellShaped(headers, records), Quota(cfg) - count)))
    decreases |records|
  {
    if records != [] {
      var rest := WellShaped(headers, records[1..]);
      if Usable(headers, records[0]) {
        var f := records[0].fields;
        var next := RefineRow(cfg, isFloat, headers, types, f);
        var n := Quota(cfg) - count;
        var taken := Take([f] + rest, n);
        assert taken[0] == f;
        if count + 1 >= cfg.maxSampleSize {
          assert taken == [f];
          assert FoldRows(cfg, isFloat, headers, next, []) == next;
        } else {
          SampleLenient(cfg, isFloat, headers, next, records[1..], count + 1);
          assert taken[1..] == Take(rest, n - 1);
        }
      } else {
        SampleLenient(cfg, isFloat, headers, types, records[1..], count);
      }
    }
  }

  /** The strict loop stops at a read error it reaches before `n` usable
      records have been sampled. */
  predicate ReachesUnreadable(headers: seq<string>, records: seq<Record>, n: int)
  {
    exists j :: 0 <= j < |records| && records[j].Unreadable? && |WellShaped(headers, records[..j])| < n
  }

  /** The strict loop fails exactly when it reaches a read error, and
      otherwise computes what the lenient one does. */
  lemma {:induction false} SampleStrict(cfg: Config, isFloat: FloatSyntax, headers: seq<string>, types: seq<string>, records: seq<Record>, count: int)
    requires |types| == |headers|
    requires 0 <= count < Quota(cfg)
    ensures Sample(Strict, cfg, isFloat, headers, types, records, count) ==
      if ReachesUnreadable(headers, records, Quota(cfg) - count) then Failure(RecordUnreadable)
      else Sample(Lenient, cfg, isFloat, headers, types, records, count)
    decreases |records|
  {
    var n := Quota(cfg) - count;
    if records != [] {
      assert records[..0] == [];
      if records[0].Unreadable? {
        assert ReachesUnreadable(headers, records, n);
      } else if !Usable(headers, records[0]) {
        SampleStrict(cfg, isFloat, headers, types, records[1..], count);
        ShiftReaches(headers, records, n, false);
      } else {
        var next := RefineRow(cfg, isFloat, headers, types, records[0].fields);
        if count + 1 >= cfg.maxSampleSize {
          forall j | 0 < j < |records|
            ensures |WellShaped(headers, records[..j])| >= n
          {
            WellShapedPrefix(headers, records, j);
          }
        } else {
          SampleStrict(cfg, isFloat, headers, next, records[1..], count + 1);
          ShiftReaches(headers, records, n, true);
        }
      }
    }
  }

  /** Reaching a read error in `records` after its first (readable) record
      is reaching one in the tail, with one fewer sample to spare when the
      first record is usable. */
  lemma ShiftReaches(headers: seq<string>, records: seq<Record>, n: int, usable: bool)
    requires records != [] && records[0].Row?
    requires usable == Usable(headers, records[0])
    ensures ReachesUnreadable(headers, records, n) <==>
      ReachesUnreadable(headers, records[1..], if usable then n - 1 else n)
  {
    var m := if usable then n - 1 else n;
    if ReachesUnreadable(headers, records, n) {
      var j :| 0 <= j < |records| && records[j].Unreadable? && |WellShaped(headers, records[..j])| < n;
      WellShapedPrefix(headers, records, j);
      assert records[1..][j - 1].Unreadable?;
    }
    if ReachesUnreadable(headers, records[1..], m) {
      var j :| 0 <= j < |records[1..]| && records[1..][j].Unreadable? && |WellShaped(headers, records[1..][..j])| < m;
      WellShapedPrefix(headers, records, j + 1);
      assert records[j + 1].Unreadable?;
    }
  }

  // ---------------------------------------------------------------------
  // What `determineColumnTypes` computes.

  /** The lenient draft never fails here. A forced column gets its forced
      type and a skipped one `SKIP`; any other column gets the type of the
      last non-NULL value it holds among the sampled rows, or `TEXT` when it
      holds none. */
  lemma ResolveLenient(cfg: Config, isFloat: FloatSyntax, headers: seq<string>, records: seq<Record>)
    ensures Resolve(Lenient, cfg, isFloat, headers, records) == Success(ExpectedTypes(cfg, isFloat, headers, records))
  {
    var init := InitialTypes(cfg, headers);
    var rows := Window(cfg, headers, records);
    var expected := ExpectedTypes(cfg, isFloat, headers, records);
    if !FastPath(init) {
      SampleLenient(cfg, isFloat, headers, init, records, 0);
      var folded := FoldRows(cfg, isFloat, headers, init, rows);
      forall i | 0 <= i < |headers|
        ensures folded[i] == expected[i]
      {
        FoldInitialColumn(cfg, isFloat, headers, rows, i);
      }
      assert folded == expected;
    } else {
      FastPathFixed(cfg, isFloat, headers, rows);
      assert init == expected;
    }
  }

  /** The column types sampling should settle on, column by column:
      `ExpectedType` of each column over the sampled rows. */
  function ExpectedTypes(cfg: Config, isFloat: FloatSyntax, headers: seq<string>, records: seq<Record>): (types: seq<string>)
    ensures |types| == |headers|
  {
    var rows := Window(cfg, headers, records);
    seq(|headers|, i requires 0 <= i < |headers| => ExpectedType(cfg, isFloat, headers[i], Column(rows, i)))
  }

  /** On the fast path every column is forced or skipped, so its initial
      type is the one expected. */
  lemma FastPathFixed(cfg: Config, isFloat: FloatSyntax, headers: seq<string>, rows: seq<seq<string>>)
    requires FastPath(InitialTypes(cfg, headers))
    requires forall k :: 0 <= k < |rows| ==> |rows[k]| == |headers|
    ensures forall i :: 0 <= i < |headers| ==>
      InitialTypes(cfg, headers)[i] == ExpectedType(cfg, isFloat, headers[i], Column(rows, i))
  {
    forall i | 0 <= i < |headers|
      ensures headers[i] in cfg.forceTypes || IsSkipped(cfg, headers[i])
    {
      assert IsFixed(InitialTypes(cfg, headers)[i]);
    }
  }

  /** The type a column named `name` ends with after sampling the values
      `col`. */
  function ExpectedType(cfg: Config, isFloat: FloatSyntax, name: string, col: seq<string>): string
  {
    if name in cfg.forceTypes then cfg.forceTypes[name]
    else if IsSkipped(cfg, name) then Skip
    else match LastValue(cfg, col)
      case None => "TEXT"
      case Some(x) => RefineType(cfg, isFloat, x)
  }

  lemma FoldInitialColumn(cfg: Config, isFloat: FloatSyntax, headers: seq<string>, rows: seq<seq<string>>, i: nat)
    requires i < |headers|
    requires forall k :: 0 <= k < |rows| ==> |rows[k]| == |headers|
    ensures FoldRows(cfg, isFloat, headers, InitialTypes(cfg, headers), rows)[i] == ExpectedType(cfg, isFloat, headers[i], Column(rows, i))
  {
    var init := InitialTypes(cfg, headers);
    if init[i] == Skip || headers[i] in cfg.forceTypes {
      FoldKeepsFixed(cfg, isFloat, headers, init, rows, i);
    } else {
      FoldLastValueWins(cfg, isFloat, headers, init, rows, i);
    }
  }

  /** The strict draft fails exactly when sampling runs and meets a read
      error before the quota of usable records is reached; otherwise both
      drafts agree. */
  lemma ResolveStrict(cfg: Config, isFloat: FloatSyntax, headers: seq<string>, records: seq<Record>)
    ensures Resolve(Strict, cfg, isFloat, headers, records) ==
      if !FastPath(InitialTypes(cfg, headers)) && ReachesUnreadable(headers, records, Quota(cfg))
      then Failure(RecordUnreadable)
      else Resolve(Lenient, cfg, isFloat, headers, records)
  {
    if !FastPath(InitialTypes(cfg, headers)) {
      SampleStrict(cfg, isFloat, headers, InitialTypes(cfg, headers), records, 0);
    }
  }

  /** With the command line's options (no forced or skipped columns) every
      column starts as `TEXT`, so the fast path fires only for a table
      without columns. */
  lemma OptionsAlwaysSample(o: Opts, headers: seq<string>)
    ensures FastPath(InitialTypes(FromOpts(o), headers)) <==> headers == []
  {
    if headers != [] {
      assert InitialTypes(FromOpts(o), headers)[0] == "TEXT";
      assert !IsFixed("TEXT");
    }
  }
}
