/** The statement text: `generateCreateTable`, `formatInsertColumns`,
    `formatBatchInsert`, the single-row INSERT, and the batching loop of
    `generateInsertStatements`. */
module Emitter {
  import opened Wrappers
  import opened Ascii
  import opened Settings
  import opened Columns
  import opened Serializer

  function Backquote(name: string): string { "`" + name + "`" }

  /** One line of the column list of CREATE TABLE. */
  function ColumnDef(header: string, t: string): string { "  " + Backquote(header) + " " + t }

  /** The column definitions, one per column not typed `SKIP`, in header
      order. */
  function ColumnDefs(headers: seq<string>, types: seq<string>): (defs: seq<string>)
    requires |headers| == |types|
    ensures |defs| == |KeptIndices(types)|
    ensures forall k :: 0 <= k < |defs| ==>
      var i := KeptIndices(types)[k];
      defs[k] == ColumnDef(headers[i], types[i])
  {
    Keep(types, seq(|headers|, i requires 0 <= i < |headers| => ColumnDef(headers[i], types[i])))
  }

  function PrimaryKeyClause(keys: seq<string>): string
  {
    "  PRIMARY KEY (" + Join(seq(|keys|, k requires 0 <= k < |keys| => Backquote(keys[k])), ", ") + ")"
  }

  /** The lines between the parentheses of CREATE TABLE: the column
      definitions, then the key clause when keys are configured. */
  function TableLines(cfg: Config, headers: seq<string>, types: seq<string>): (lines: seq<string>)
    requires |headers| == |types|
    ensures |lines| == |KeptIndices(types)| + (if cfg.primaryKeys == [] then 0 else 1)
    ensures lines[..|KeptIndices(types)|] == ColumnDefs(headers, types)
    ensures cfg.primaryKeys != [] ==> lines[|lines| - 1] == PrimaryKeyClause(cfg.primaryKeys)
  {
    ColumnDefs(headers, types) + (if cfg.primaryKeys == [] then [] else [PrimaryKeyClause(cfg.primaryKeys)])
  }

  const TableOptions: string := "\n) ENGINE=InnoDB DEFAULT CHARSET=utf8mb4 COLLATE=utf8mb4_unicode_ci;"

  function DropComment(tableName: string): string { "-- DROP TABLE " + tableName + ";\n" }

  /** `CREATE TABLE` with the column lines and the table options. */
  function TableStatement(cfg: Config, headers: seq<string>, types: seq<string>): string
    requires |headers| == |types|
  {
    "CREATE TABLE " + Backquote(cfg.tableName) + " (\n" + Join(TableLines(cfg, headers, types), ",\n") + TableOptions
  }

  /** The CREATE TABLE text; the lenient draft puts a commented-out DROP
      TABLE line in front of the statement. */
  function CreateTable(v: Variant, cfg: Config, headers: seq<string>, types: seq<string>): string
    requires |headers| == |types|
  {
    (if v == Lenient then DropComment(cfg.tableName) else "") + TableStatement(cfg, headers, types)
  }

  /** The two drafts' CREATE TABLE texts differ only by the DROP TABLE
      comment in front of the lenient one. */
  lemma CreateTableDrafts(cfg: Config, headers: seq<string>, types: seq<string>)
    requires |headers| == |types|
    ensures CreateTable(Lenient, cfg, headers, types) == DropComment(cfg.tableName) + CreateTable(Strict, cfg, headers, types)
  {
    assert "" + TableStatement(cfg, headers, types) == TableStatement(cfg, headers, types);
  }

  /** The INSERT column list: the back-quoted names of the columns not
      typed `SKIP`. */
  function ColumnNames(headers: seq<string>, types: seq<string>): (names: seq<string>)
    requires |headers| == |types|
    ensures |names| == |KeptIndices(types)|
    ensures forall k :: 0 <= k < |names| ==> names[k] == Backquote(headers[KeptIndices(types)[k]])
  {
    Keep(types, seq(|headers|, i requires 0 <= i < |headers| => Backquote(headers[i])))
  }

  function ColumnList(headers: seq<string>, types: seq<string>): string
    requires |headers| == |types|
  {
    Join(ColumnNames(headers, types), ", ")
  }

  /** A back-quoted name, without its quotes. */
  function Unquote(item: string): Option<string>
  {
    if |item| >= 2 && item[0] == '`' && item[|item| - 1] == '`' then Some(item[1..|item| - 1]) else None
  }

  /** Reads an INSERT column list back to the names it lists. */
  function ReadColumnList(list: string): Option<seq<string>>
  {
    match Split(list, ", ")
    case None => None
    case Some(items) =>
      if forall k :: 0 <= k < |items| ==> Unquote(items[k]).Some? then
        Some(seq(|items|, k requires 0 <= k < |items| => Unquote(items[k]).value))
      else None
  }

  lemma BackquoteUnquote(h: string)
    ensures Unquote(Backquote(h)) == Some(h)
    ensures ',' !in h ==> ',' !in Backquote(h)
  {
    var q := Backquote(h);
    assert q[1..|q| - 1] == h;
    assert forall j :: 1 <= j < |q| - 1 ==> q[j] == h[j - 1];
  }

  /** Joined back-quoted names without commas read back to the names. */
  lemma {:induction false} ReadJoinedNames(hs: seq<string>)
    requires |hs| >= 1
    requires forall k :: 0 <= k < |hs| ==> ',' !in hs[k]
    ensures ReadColumnList(Join(seq(|hs|, k requires 0 <= k < |hs| => Backquote(hs[k])), ", ")) == Some(hs)
  {
    var names := seq(|hs|, k requires 0 <= k < |hs| => Backquote(hs[k]));
    forall k | 0 <= k < |hs|
      ensures ',' !in names[k] && Unquote(names[k]) == Some(hs[k])
    {
      BackquoteUnquote(hs[k]);
    }
    SplitJoin(names, ", ");
    var read := seq(|names|, k requires 0 <= k < |names| => Unquote(names[k]).value);
    assert read == hs;
  }

  /** The column list reads back to the names of the non-`SKIP` columns in
      header order, provided some column is kept and no name holds a comma. */
  lemma ColumnListRoundTrip(headers: seq<string>, types: seq<string>)
    requires |headers| == |types| && KeptIndices(types) != []
    requires forall i :: 0 <= i < |headers| ==> ',' !in headers[i]
    ensures ReadColumnList(ColumnList(headers, types)) == Some(Keep(types, headers))
  {
    var kept := Keep(types, headers);
    ReadJoinedNames(kept);
    assert ColumnNames(headers, types) == seq(|kept|, k requires 0 <= k < |kept| => Backquote(kept[k]));
  }

  /** The parenthesised value list of one row. */
  function Tuple(vals: seq<string>): string { "(" + Join(vals, ", ") + ")" }

  function InsertHead(cfg: Config, headers: seq<string>, types: seq<string>): string
    requires |headers| == |types|
  {
    "INSERT INTO " + Backquote(cfg.tableName) + " (" + ColumnList(headers, types) + ") VALUES"
  }

  /** One INSERT per row. */
  function SingleInsert(cfg: Config, headers: seq<string>, types: seq<string>, vals: seq<string>): string
    requires |headers| == |types|
  {
    InsertHead(cfg, headers, types) + " " + Tuple(vals) + ";\n"
  }

  /** One INSERT for a batch of value tuples. */
  function BatchInsert(cfg: Config, headers: seq<string>, types: seq<string>, tuples: seq<string>): string
    requires |headers| == |types|
  {
    InsertHead(cfg, headers, types) + "\n" + Join(tuples, ",\n") + ";\n"
  }

  // ---------------------------------------------------------------------
  // Batching.

  /** The batches the loop flushes, in order: a tuple is appended to the
      buffer, which is flushed once it holds `size` tuples or more; a
      non-empty buffer left at the end is flushed too. */
  function BatchLoop<T>(items: seq<T>, buf: seq<T>, size: int): (batches: seq<seq<T>>)
    decreases |items|
  {
    if items == [] then (if buf == [] then [] else [buf])
    else
      var b := buf + [items[0]];
      if |b| >= size then [b] + BatchLoop(items[1..], [], size)
      else BatchLoop(items[1..], b, size)
  }

  /** The number of tuples per full batch: a `BatchSize` below one flushes
      every row on its own. */
  function BatchWidth(size: int): (k: int)
    ensures k >= 1 && k >= size
  {
    if size < 1 then 1 else size
  }

  /** Reference cutting: consecutive pieces of exactly `k` elements, the
      last one possibly shorter. */
  function Chunks<T>(xs: seq<T>, k: int): (cs: seq<seq<T>>)
    requires k >= 1
    decreases |xs|
  {
    if |xs| <= k then (if xs == [] then [] else [xs])
    else [xs[..k]] + Chunks(xs[k..], k)
  }

  function Flatten<T>(xss: seq<seq<T>>): seq<T>
  {
    if xss == [] then [] else xss[0] + Flatten(xss[1..])
  }

  /** Cutting into pieces loses, reorders and invents nothing. */
  lemma {:induction false} ChunksFlatten<T>(xs: seq<T>, k: int)
    requires k >= 1
    ensures Flatten(Chunks(xs, k)) == xs
    decreases |xs|
  {
    if |xs| <= k {
      if xs != [] {
        assert Flatten(Chunks(xs, k)) == xs + Flatten([]);
      }
    } else {
      ChunksFlatten(xs[k..], k);
      assert Chunks(xs, k)[1..] == Chunks(xs[k..], k);
      assert xs[..k] + xs[k..] == xs;
    }
  }

  /** There are ceil(|xs| / k) pieces: just enough to hold every element,
      and none without elements. */
  lemma {:induction false} ChunksCount<T>(xs: seq<T>, k: int)
    requires k >= 1
    ensures (|Chunks(xs, k)| - 1) * k < |xs| <= |Chunks(xs, k)| * k
    ensures Chunks(xs, k) == [] <==> xs == []
    decreases |xs|
  {
    if |xs| > k {
      var c := |Chunks(xs[k..], k)|;
      ChunksCount(xs[k..], k);
      assert (c + 1) * k == c * k + k;
      assert c * k == (c - 1) * k + k;
    }
  }

  /** No piece is empty or longer than `k`, and all but the last are full. */
  lemma {:induction false} ChunksSizes<T>(xs: seq<T>, k: int)
    requires k >= 1
    ensures forall j :: 0 <= j < |Chunks(xs, k)| ==> 1 <= |Chunks(xs, k)[j]| <= k
    ensures forall j :: 0 <= j < |Chunks(xs, k)| - 1 ==> |Chunks(xs, k)[j]| == k
    decreases |xs|
  {
    if |xs| > k {
      var cs := Chunks(xs, k);
      var rest := Chunks(xs[k..], k);
      ChunksSizes(xs[k..], k);
      assert forall j :: 1 <= j < |cs| ==> cs[j] == rest[j - 1];
    }
  }

  /** The flushing loop cuts the buffered rows followed by the remaining
      ones into batches of `BatchWidth(size)`. */
  lemma {:induction false} BatchLoopIsChunks<T>(items: seq<T>, buf: seq<T>, size: int)
    requires |buf| < BatchWidth(size)
    ensures BatchLoop(items, buf, size) == Chunks(buf + items, BatchWidth(size))
    decreases |items|
  {
    var k := BatchWidth(size);
    if items == [] {
      assert buf + items == buf;
    } else {
      var b := buf + [items[0]];
      assert buf + items == b + items[1..];
      if |b| >= size {
        assert |b| == k;
        BatchLoopIsChunks(items[1..], [], size);
        assert [] + items[1..] == items[1..];
        var all := b + items[1..];
        if |all| > k {
          assert all[..k] == b;
          assert all[k..] == items[1..];
        } else {
          assert all == b && items[1..] == [];
          assert Chunks(all, k) == [b];
        }
      } else {
        BatchLoopIsChunks(items[1..], b, size);
      }
    }
  }

  /** The batches of one run of the loop, from an empty buffer: together
      they hold every tuple in order, each holds between one and
      `BatchWidth(size)` tuples, all but the last are full, and there are
      ceil(n / BatchWidth(size)) of them (no batch at all for no rows). */
  lemma Batching<T>(items: seq<T>, size: int)
    ensures var bs := BatchLoop(items, [], size);
      && Flatten(bs) == items
      && (|bs| - 1) * BatchWidth(size) < |items| <= |bs| * BatchWidth(size)
      && (forall j :: 0 <= j < |bs| ==> 1 <= |bs[j]| <= BatchWidth(size))
      && (forall j :: 0 <= j < |bs| - 1 ==> |bs[j]| == BatchWidth(size))
      && (bs == [] <==> items == [])
  {
    BatchLoopIsChunks(items, [], size);
    assert [] + items == items;
    ChunksFlatten(items, BatchWidth(size));
    ChunksCount(items, BatchWidth(size));
    ChunksSizes(items, BatchWidth(size));
  }

  // ---------------------------------------------------------------------
  // The INSERT text.

  /** The INSERT statements for the value lists of the emitted rows: one
      per row, or one per flushed batch. */
  function InsertStatements(cfg: Config, headers: seq<string>, types: seq<string>, rows: seq<seq<string>>): seq<string>
    requires |headers| == |types|
  {
    if cfg.batchInsert then
      var batches := BatchLoop(seq(|rows|, k requires 0 <= k < |rows| => Tuple(rows[k])), [], cfg.batchSize);
      seq(|batches|, j requires 0 <= j < |batches| => BatchInsert(cfg, headers, types, batches[j]))
    else
      seq(|rows|, k requires 0 <= k < |rows| => SingleInsert(cfg, headers, types, rows[k]))
  }

  /** Batched output carries every row's tuple exactly once and in order,
      in ceil(n / BatchWidth) statements, each holding between one and
      BatchWidth tuples; unbatched output has one
      statement per row, the k-th for the k-th row. */
  lemma InsertStatementsShape(cfg: Config, headers: seq<string>, types: seq<string>, rows: seq<seq<string>>)
    requires |headers| == |types|
    ensures !cfg.batchInsert ==> |InsertStatements(cfg, headers, types, rows)| == |rows|
    ensures !cfg.batchInsert ==> forall k :: 0 <= k < |rows| ==>
      InsertStatements(cfg, headers, types, rows)[k] == SingleInsert(cfg, headers, types, rows[k])
    ensures cfg.batchInsert ==>
      var tuples := seq(|rows|, k requires 0 <= k < |rows| => Tuple(rows[k]));
      var batches := BatchLoop(tuples, [], cfg.batchSize);
      && |InsertStatements(cfg, headers, types, rows)| == |batches|
      && (|batches| - 1) * BatchWidth(cfg.batchSize) < |rows| <= |batches| * BatchWidth(cfg.batchSize)
      && Flatten(batches) == tuples
      && (forall j :: 0 <= j < |batches| ==> 1 <= |batches[j]| <= BatchWidth(cfg.batchSize))
      && forall j :: 0 <= j < |batches| ==>
           InsertStatements(cfg, headers, types, rows)[j] == BatchInsert(cfg, headers, types, batches[j])
  {
    var tuples := seq(|rows|, k requires 0 <= k < |rows| => Tuple(rows[k]));
    Batching(tuples, cfg.batchSize);
  }

  // ---------------------------------------------------------------------
  // Reading the INSERT text back.

  /** Reads the literals of a value list through its closing parenthesis;
      gives them and the text after it. */
  function ReadValueList(s: string): (r: Option<(seq<string>, string)>)
    ensures r.Some? ==> |r.value.1| < |s|
    decreases |s|
  {
    match LiteralLength(s)
    case None => None
    case Some(n) =>
      if n < |s| && s[n] == ')' then Some(([s[..n]], s[n + 1..]))
      else if n + 2 <= |s| && s[n..n + 2] == ", " then
        match ReadValueList(s[n + 2..])
        case None => None
        case Some((more, rest)) => Some(([s[..n]] + more, rest))
      else None
  }

  /** Reads a parenthesised value list; gives its literals and the text
      after it. */
  function ReadTuple(s: string): (r: Option<(seq<string>, string)>)
    ensures r.Some? ==> |r.value.1| < |s|
  {
    if |s| > 0 && s[0] == '(' then ReadValueList(s[1..]) else None
  }

  /** Reads back the literals of a one-row INSERT with the given head. */
  function ReadSingleInsert(head: string, stmt: string): Option<seq<string>>
  {
    if HasPrefix(stmt, head + " ") then
      match ReadTuple(stmt[|head| + 1..])
      case Some((lits, rest)) => if rest == ";\n" then Some(lits) else None
      case None => None
    else None
  }

  /** Reads value lists separated by `,` and a newline, up to the final
      `;` and newline. */
  function ReadTupleList(s: string): Option<seq<seq<string>>>
    decreases |s|
  {
    match ReadTuple(s)
    case None => None
    case Some((lits, rest)) =>
      if rest == ";\n" then Some([lits])
      else if |rest| >= 2 && rest[..2] == ",\n" then
        match ReadTupleList(rest[2..])
        case None => None
        case Some(more) => Some([lits] + more)
      else None
  }

  /** Reads back the value lists of a batch INSERT with the given head. */
  function ReadBatchInsert(head: string, stmt: string): Option<seq<seq<string>>>
  {
    if HasPrefix(stmt, head + "\n") then ReadTupleList(stmt[|head| + 1..]) else None
  }

  /** A value list the readers recover: at least one literal, each one
      delimitable. */
  predicate IsValueList(lits: seq<string>) {
    |lits| >= 1 && forall k :: 0 <= k < |lits| ==> IsLiteral(lits[k])
  }

  function Tuples(ls: seq<seq<string>>): seq<string>
  {
    seq(|ls|, k requires 0 <= k < |ls| => Tuple(ls[k]))
  }

  /** One step of the value-list reader: a literal, `, `, then the rest. */
  lemma ReadValueListStep(lit: string, tail: string, more: seq<string>, rest: string)
    requires IsLiteral(lit) && ReadValueList(tail) == Some((more, rest))
    ensures ReadValueList(lit + ", " + tail) == Some(([lit] + more, rest))
  {
    var s := lit + ", " + tail;
    assert s == lit + (", " + tail);
    LiteralLengthOf(lit, ", " + tail);
    var n := |lit|;
    assert s[..n] == lit;
    assert s[n..n + 2] == ", ";
    assert s[n + 2..] == tail;
  }

  /** The last step of the value-list reader: a literal, then `)`. */
  lemma ReadValueListLast(lit: string, rest: string)
    requires IsLiteral(lit)
    ensures ReadValueList(lit + ")" + rest) == Some(([lit], rest))
  {
    var s := lit + ")" + rest;
    assert s == lit + (")" + rest);
    LiteralLengthOf(lit, ")" + rest);
    var n := |lit|;
    assert s[..n] == lit;
    assert s[n] == ')' && s[n + 1..] == rest;
  }

  lemma JoinCons(xs: seq<string>, sep: string, close: string)
    requires |xs| >= 2
    ensures Join(xs, sep) + close == xs[0] + sep + (Join(xs[1..], sep) + close)
  {
  }

  lemma ReadJoinedValuesCons(lits: seq<string>, rest: string)
    requires |lits| >= 2 && IsLiteral(lits[0])
    requires ReadValueList(Join(lits[1..], ", ") + (")" + rest)) == Some((lits[1..], rest))
    ensures ReadValueList(Join(lits, ", ") + (")" + rest)) == Some((lits, rest))
  {
    JoinCons(lits, ", ", ")" + rest);
    ReadValueListStep(lits[0], Join(lits[1..], ", ") + (")" + rest), lits[1..], rest);
    assert [lits[0]] + lits[1..] == lits;
  }

  lemma {:induction false} ReadJoinedValues(lits: seq<string>, rest: string)
    requires IsValueList(lits)
    ensures ReadValueList(Join(lits, ", ") + (")" + rest)) == Some((lits, rest))
    decreases |lits|
  {
    if |lits| == 1 {
      ReadValueListLast(lits[0], rest);
      assert Join(lits, ", ") + (")" + rest) == lits[0] + ")" + rest;
      assert lits == [lits[0]];
    } else {
      assert forall k :: 0 <= k < |lits| - 1 ==> lits[1..][k] == lits[k + 1];
      ReadJoinedValues(lits[1..], rest);
      ReadJoinedValuesCons(lits, rest);
    }
  }

  /** A value list followed by any text reads back to its literals and
      that text. */
  lemma TupleRoundTrip(lits: seq<string>, rest: string)
    requires IsValueList(lits)
    ensures ReadTuple(Tuple(lits) + rest) == Some((lits, rest))
  {
    var s := Tuple(lits) + rest;
    assert s[1..] == Join(lits, ", ") + (")" + rest);
    ReadJoinedValues(lits, rest);
  }

  /** A one-row INSERT reads back to the literals of its row. */
  lemma SingleInsertRoundTrip(cfg: Config, headers: seq<string>, types: seq<string>, lits: seq<string>)
    requires |headers| == |types| && IsValueList(lits)
    ensures ReadSingleInsert(InsertHead(cfg, headers, types), SingleInsert(cfg, headers, types, lits)) == Some(lits)
  {
    var head := InsertHead(cfg, headers, types);
    var stmt := SingleInsert(cfg, headers, types, lits);
    assert stmt == (head + " ") + (Tuple(lits) + ";\n");
    assert stmt[..|head| + 1] == head + " ";
    assert stmt[|head| + 1..] == Tuple(lits) + ";\n";
    TupleRoundTrip(lits, ";\n");
  }

  lemma ReadTupleListStep(lits: seq<string>, tail: string, more: seq<seq<string>>)
    requires IsValueList(lits) && ReadTupleList(tail) == Some(more)
    ensures ReadTupleList(Tuple(lits) + ",\n" + tail) == Some([lits] + more)
  {
    var rest := ",\n" + tail;
    assert Tuple(lits) + ",\n" + tail == Tuple(lits) + rest;
    TupleRoundTrip(lits, rest);
    assert rest[..2] == ",\n" && rest[2..] == tail;
  }

  lemma ReadTupleListLast(lits: seq<string>)
    requires IsValueList(lits)
    ensures ReadTupleList(Tuple(lits) + ";\n") == Some([lits])
  {
    TupleRoundTrip(lits, ";\n");
  }

  lemma ReadJoinedTuplesCons(ls: seq<seq<string>>)
    requires |ls| >= 2 && IsValueList(ls[0])
    requires ReadTupleList(Join(Tuples(ls[1..]), ",\n") + ";\n") == Some(ls[1..])
    ensures ReadTupleList(Join(Tuples(ls), ",\n") + ";\n") == Some(ls)
  {
    JoinTuplesCons(ls);
    ReadTupleListStep(ls[0], Join(Tuples(ls[1..]), ",\n") + ";\n", ls[1..]);
    assert [ls[0]] + ls[1..] == ls;
  }

  lemma JoinTuplesCons(ls: seq<seq<string>>)
    requires |ls| >= 2
    ensures Join(Tuples(ls), ",\n") + ";\n" == Tuple(ls[0]) + ",\n" + (Join(Tuples(ls[1..]), ",\n") + ";\n")
  {
    var ts := Tuples(ls);
    assert ts[0] == Tuple(ls[0]) && ts[1..] == Tuples(ls[1..]);
    JoinCons(ts, ",\n", ";\n");
  }

  lemma {:induction false} ReadJoinedTuples(ls: seq<seq<string>>)
    requires |ls| >= 1 && forall k :: 0 <= k < |ls| ==> IsValueList(ls[k])
    ensures ReadTupleList(Join(Tuples(ls), ",\n") + ";\n") == Some(ls)
    decreases |ls|
  {
    if |ls| == 1 {
      ReadTupleListLast(ls[0]);
      assert Join(Tuples(ls), ",\n") == Tuple(ls[0]);
      assert ls == [ls[0]];
    } else {
      assert forall k :: 0 <= k < |ls| - 1 ==> ls[1..][k] == ls[k + 1];
      ReadJoinedTuples(ls[1..]);
      ReadJoinedTuplesCons(ls);
    }
  }

  /** A batch INSERT reads back to the literals of its rows, in order. */
  lemma BatchInsertRoundTrip(cfg: Config, headers: seq<string>, types: seq<string>, ls: seq<seq<string>>)
    requires |headers| == |types|
    requires |ls| >= 1 && forall k :: 0 <= k < |ls| ==> IsValueList(ls[k])
    ensures ReadBatchInsert(InsertHead(cfg, headers, types), BatchInsert(cfg, headers, types, Tuples(ls))) == Some(ls)
  {
    var head := InsertHead(cfg, headers, types);
    var stmt := BatchInsert(cfg, headers, types, Tuples(ls));
    var body := Join(Tuples(ls), ",\n") + ";\n";
    assert stmt == (head + "\n") + body;
    assert stmt[..|head| + 1] == head + "\n";
    assert stmt[|head| + 1..] == body;
    ReadJoinedTuples(ls);
  }

  /** Reads back every batch INSERT in turn and joins their value lists. */
  function ReadBatchInserts(head: string, stmts: seq<string>): Option<seq<seq<string>>>
    decreases |stmts|
  {
    if stmts == [] then Some([])
    else
      match ReadBatchInsert(head, stmts[0])
      case None => None
      case Some(ls) =>
        match ReadBatchInserts(head, stmts[1..])
        case None => None
        case Some(more) => Some(ls + more)
  }

  /** Cutting value lists into pieces commutes with writing them as
      tuples. */
  lemma {:induction false} ChunksTuples(ls: seq<seq<string>>, k: int)
    requires k >= 1
    ensures |Chunks(Tuples(ls), k)| == |Chunks(ls, k)|
    ensures forall j :: 0 <= j < |Chunks(ls, k)| ==> Chunks(Tuples(ls), k)[j] == Tuples(Chunks(ls, k)[j])
    decreases |ls|
  {
    if |ls| > k {
      ChunksTuples(ls[k..], k);
      assert Tuples(ls)[..k] == Tuples(ls[..k]);
      assert Tuples(ls)[k..] == Tuples(ls[k..]);
      var a := Chunks(Tuples(ls), k);
      var b := Chunks(ls, k);
      assert a == [Tuples(ls[..k])] + Chunks(Tuples(ls[k..]), k);
      assert b == [ls[..k]] + Chunks(ls[k..], k);
      forall j | 1 <= j < |b|
        ensures a[j] == Tuples(b[j])
      {
        assert a[j] == Chunks(Tuples(ls[k..]), k)[j - 1];
        assert b[j] == Chunks(ls[k..], k)[j - 1];
      }
    } else if ls != [] {
      assert Tuples(ls) != [];
    }
  }

  /** One batch INSERT per piece. */
  function BatchInserts(cfg: Config, headers: seq<string>, types: seq<string>, cs: seq<seq<seq<string>>>): seq<string>
    requires |headers| == |types|
  {
    seq(|cs|, j requires 0 <= j < |cs| => BatchInsert(cfg, headers, types, Tuples(cs[j])))
  }

  /** Non-empty pieces of value lists. */
  predicate AreValueBatches(cs: seq<seq<seq<string>>>) {
    forall j :: 0 <= j < |cs| ==> |cs[j]| >= 1 && forall i :: 0 <= i < |cs[j]| ==> IsValueList(cs[j][i])
  }

  /** The batch INSERTs of non-empty pieces read back to the pieces joined
      in order. */
  lemma {:induction false} ReadBatchInsertsOf(cfg: Config, headers: seq<string>, types: seq<string>,
                                              cs: seq<seq<seq<string>>>)
    requires |headers| == |types| && AreValueBatches(cs)
    ensures ReadBatchInserts(InsertHead(cfg, headers, types), BatchInserts(cfg, headers, types, cs)) == Some(Flatten(cs))
    decreases |cs|
  {
    if cs != [] {
      BatchInsertRoundTrip(cfg, headers, types, cs[0]);
      BatchInsertsTail(cfg, headers, types, cs);
      assert forall j :: 0 <= j < |cs| - 1 ==> cs[1..][j] == cs[j + 1];
      ReadBatchInsertsOf(cfg, headers, types, cs[1..]);
    }
  }

  lemma BatchInsertsTail(cfg: Config, headers: seq<string>, types: seq<string>, cs: seq<seq<seq<string>>>)
    requires |headers| == |types| && cs != []
    ensures BatchInserts(cfg, headers, types, cs) != []
    ensures BatchInserts(cfg, headers, types, cs)[0] == BatchInsert(cfg, headers, types, Tuples(cs[0]))
    ensures BatchInserts(cfg, headers, types, cs)[1..] == BatchInserts(cfg, headers, types, cs[1..])
  {
  }

  /** Pieces of value lists are non-empty pieces of value lists. */
  lemma {:induction false} ChunksAreValueBatches(rows: seq<seq<string>>, k: int)
    requires k >= 1 && forall i :: 0 <= i < |rows| ==> IsValueList(rows[i])
    ensures AreValueBatches(Chunks(rows, k))
    decreases |rows|
  {
    if |rows| > k {
      var later := rows[k..];
      assert forall i :: 0 <= i < |later| ==> later[i] == rows[k + i];
      ChunksAreValueBatches(later, k);
      var cs := Chunks(rows, k);
      assert cs == [rows[..k]] + Chunks(later, k);
      assert forall i :: 0 <= i < k ==> rows[..k][i] == rows[i];
      forall j | 1 <= j < |cs|
        ensures |cs[j]| >= 1 && forall i :: 0 <= i < |cs[j]| ==> IsValueList(cs[j][i])
      {
        assert cs[j] == Chunks(later, k)[j - 1];
      }
    }
  }

  /** The INSERT text reads back to the rows' literals: without batching
      statement k gives row k; with batching the statements, read in
      turn, give every row once and in order. */
  lemma InsertStatementsReadBack(cfg: Config, headers: seq<string>, types: seq<string>, rows: seq<seq<string>>)
    requires |headers| == |types|
    requires forall k :: 0 <= k < |rows| ==> IsValueList(rows[k])
    ensures !cfg.batchInsert ==>
      && |InsertStatements(cfg, headers, types, rows)| == |rows|
      && forall k :: 0 <= k < |rows| ==>
           ReadSingleInsert(InsertHead(cfg, headers, types), InsertStatements(cfg, headers, types, rows)[k]) == Some(rows[k])
    ensures cfg.batchInsert ==>
      ReadBatchInserts(InsertHead(cfg, headers, types), InsertStatements(cfg, headers, types, rows)) == Some(rows)
  {
    var stmts := InsertStatements(cfg, headers, types, rows);
    if cfg.batchInsert {
      var w := BatchWidth(cfg.batchSize);
      var tuples := seq(|rows|, k requires 0 <= k < |rows| => Tuple(rows[k]));
      assert tuples == Tuples(rows);
      BatchLoopIsChunks(tuples, [], cfg.batchSize);
      assert [] + tuples == tuples;
      ChunksTuples(rows, w);
      var cs := Chunks(rows, w);
      assert stmts == BatchInserts(cfg, headers, types, cs);
      ChunksAreValueBatches(rows, w);
      ReadBatchInsertsOf(cfg, headers, types, cs);
      ChunksFlatten(rows, w);
    } else {
      forall k | 0 <= k < |rows|
        ensures ReadSingleInsert(InsertHead(cfg, headers, types), stmts[k]) == Some(rows[k])
      {
        SingleInsertRoundTrip(cfg, headers, types, rows[k]);
      }
    }
  }
}
