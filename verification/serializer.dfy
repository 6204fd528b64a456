/** The row serializer of `generateInsertStatements`: NULL mapping,
    escaping, the quoting rule and the value tuple of one record. */
module Serializer {
  import opened Wrappers
  import opened Ascii
  import opened Settings
  import opened Columns
  import opened Classifier

  /** `strings.ReplaceAll(s, [c], rep)` for a one-character pattern. */
  function ReplaceChar(s: string, c: char, rep: string): string
  {
    if s == [] then [] else (if s[0] == c then rep else [s[0]]) + ReplaceChar(s[1..], c, rep)
  }

  /** The escaping step: `'` becomes `''`, then `\` becomes `\\`. */
  function Escape(v: string): string
  {
    ReplaceChar(ReplaceChar(v, '\'', "''"), '\\', "\\\\")
  }

  predicate IsEscapable(c: char) { c == '\'' || c == '\\' }

  /** Escaping one character at a time: quote and backslash are doubled. */
  function EscapeChars(v: string): (e: string)
    ensures |e| >= |v|
  {
    if v == [] then []
    else (if IsEscapable(v[0]) then [v[0], v[0]] else [v[0]]) + EscapeChars(v[1..])
  }

  lemma {:induction false} ReplaceCharAppend(a: string, b: string, c: char, rep: string)
    ensures ReplaceChar(a + b, c, rep) == ReplaceChar(a, c, rep) + ReplaceChar(b, c, rep)
  {
    if a == [] {
      assert a + b == b;
    } else {
      assert (a + b)[1..] == a[1..] + b;
      ReplaceCharAppend(a[1..], b, c, rep);
    }
  }

  /** The two successive `ReplaceAll` calls double each quote and each
      backslash of the original text, and nothing else: the second pass
      never sees a backslash the first one introduced. */
  lemma {:induction false} EscapeIsCharwise(v: string)
    ensures Escape(v) == EscapeChars(v)
  {
    if v != [] {
      var head := if v[0] == '\'' then "''" else [v[0]];
      var once := ReplaceChar(v[1..], '\'', "''");
      assert ReplaceChar(v, '\'', "''") == head + once;
      ReplaceCharAppend(head, once, '\\', "\\\\");
      EscapeIsCharwise(v[1..]);
      if v[0] == '\'' {
        assert ReplaceChar(head, '\\', "\\\\") == "''";
      } else if v[0] == '\\' {
        assert ReplaceChar(head, '\\', "\\\\") == "\\\\";
      } else {
        assert ReplaceChar(head, '\\', "\\\\") == [v[0]];
      }
    }
  }

  /** Collapses each doubled quote or backslash back to one; fails on a
      lone one. */
  function Unescape(e: string): Option<string>
    decreases |e|
  {
    if e == [] then Some([])
    else if IsEscapable(e[0]) then
      if |e| >= 2 && e[1] == e[0] then
        match Unescape(e[2..])
        case Some(rest) => Some([e[0]] + rest)
        case None => None
      else None
    else
      match Unescape(e[1..])
      case Some(rest) => Some([e[0]] + rest)
      case None => None
  }

  lemma {:induction false} UnescapeEscapeChars(v: string)
    ensures Unescape(EscapeChars(v)) == Some(v)
  {
    if v != [] {
      var e := EscapeChars(v);
      UnescapeEscapeChars(v[1..]);
      if IsEscapable(v[0]) {
        assert e[2..] == EscapeChars(v[1..]);
      } else {
        assert e[1..] == EscapeChars(v[1..]);
      }
      assert [v[0]] + v[1..] == v;
    }
  }

  lemma {:induction false} EscapeCharsOfUnescape(e: string, v: string)
    requires Unescape(e) == Some(v)
    ensures e == EscapeChars(v)
    decreases |e|
  {
    if e != [] {
      if IsEscapable(e[0]) {
        var rest := Unescape(e[2..]).value;
        EscapeCharsOfUnescape(e[2..], rest);
        assert v == [e[0]] + rest;
        assert v[1..] == rest;
        assert e == [e[0], e[0]] + e[2..];
      } else {
        var rest := Unescape(e[1..]).value;
        EscapeCharsOfUnescape(e[1..], rest);
        assert v == [e[0]] + rest;
        assert v[1..] == rest;
        assert e == [e[0]] + e[1..];
      }
    }
  }

  /** Collapsing the doubled characters recovers exactly the escaped value,
      and only escaped text collapses without error. */
  lemma EscapeRoundTrip(v: string, e: string)
    ensures Unescape(Escape(v)) == Some(v)
    ensures Unescape(e) == Some(v) <==> e == Escape(v)
  {
    EscapeIsCharwise(v);
    UnescapeEscapeChars(v);
    if Unescape(e) == Some(v) {
      EscapeCharsOfUnescape(e, v);
    }
  }

  /** Text without quote or backslash escapes to itself. */
  lemma {:induction false} EscapePlain(v: string)
    requires !HasEscapable(v)
    ensures Escape(v) == v
  {
    EscapeIsCharwise(v);
    EscapeCharsPlain(v);
  }

  lemma {:induction false} EscapeCharsPlain(v: string)
    requires !HasEscapable(v)
    ensures EscapeChars(v) == v
  {
    if v != [] {
      assert !IsEscapable(v[0]);
      assert !HasEscapable(v[1..]) by {
        forall i | 0 <= i < |v[1..]|
          ensures !IsEscapable(v[1..][i])
        {
          assert v[1..][i] == v[i + 1];
        }
      }
      EscapeCharsPlain(v[1..]);
    }
  }

  function Quote(e: string): string { "'" + e + "'" }

  /** Reads a single-quoted SQL string literal back to its value. */
  function ReadQuoted(lit: string): Option<string>
  {
    if |lit| >= 2 && lit[0] == '\'' && lit[|lit| - 1] == '\'' then Unescape(lit[1..|lit| - 1])
    else None
  }

  /** The column types whose values may be written without quotes. */
  predicate IsNumericType(colType: string) { colType == "INT" || colType == "DECIMAL(20,6)" }

  /** The SQL literal for one field of a non-skipped column: `NULL` for a
      NULL-like field, the bare value for a parsable number in an `INT` or
      `DECIMAL(20,6)` column, and otherwise the escaped value in quotes. */
  function FieldLiteral(cfg: Config, isFloat: FloatSyntax, colType: string, raw: string): (lit: string)
    ensures var v := TrimSpace(raw);
      && (IsNullish(cfg, v) ==> lit == "NULL")
      && (!IsNullish(cfg, v) && IsNumericType(colType) && isFloat(v) ==> lit == v)
      && (!IsNullish(cfg, v) && !(IsNumericType(colType) && isFloat(v)) ==>
            lit != v && ReadQuoted(lit) == Some(v))
  {
    var v := TrimSpace(raw);
    if IsNullish(cfg, v) then "NULL"
    else
      var escaped := Escape(v);
      if IsNumericType(colType) && isFloat(v) then
        EscapePlain(v);
        escaped
      else
        EscapeRoundTrip(v, escaped);
        EscapeIsCharwise(v);
        var lit := Quote(escaped);
        assert lit[1..|lit| - 1] == escaped;
        lit
  }

  /** The literals of one record, one per column not typed `SKIP`, in
      header order. */
  function RowValues(cfg: Config, isFloat: FloatSyntax, types: seq<string>, fields: seq<string>): (vals: seq<string>)
    requires |types| == |fields|
    ensures |vals| == |KeptIndices(types)|
    ensures forall k :: 0 <= k < |vals| ==>
      var i := KeptIndices(types)[k];
      vals[k] == FieldLiteral(cfg, isFloat, types[i], fields[i])
  {
    Keep(types, seq(|fields|, i requires 0 <= i < |fields| => FieldLiteral(cfg, isFloat, types[i], fields[i])))
  }

  /** A record whose every field is empty or NULL-like becomes a tuple of
      `NULL`s. */
  lemma AllNullRow(cfg: Config, isFloat: FloatSyntax, types: seq<string>, fields: seq<string>)
    requires |types| == |fields|
    requires forall i :: 0 <= i < |fields| ==> IsNullish(cfg, TrimSpace(fields[i]))
    ensures forall k :: 0 <= k < |RowValues(cfg, isFloat, types, fields)| ==>
      RowValues(cfg, isFloat, types, fields)[k] == "NULL"
  {
  }

  /** For an inferred column type, a value is left unquoted exactly when
      the column is `DECIMAL(20,6)` and the value parses as a float: an
      inferred `BIGINT` column is always quoted. */
  lemma InferredQuoting(cfg: Config, isFloat: FloatSyntax, t: SqlType, raw: string)
    requires !IsNullish(cfg, TrimSpace(raw))
    ensures FieldLiteral(cfg, isFloat, Render(t), raw) == TrimSpace(raw) <==>
      t == Decimal && isFloat(TrimSpace(raw))
  {
    RenderDistinct(t, Decimal);
  }

  /** `escapeSQLValue`, a helper neither draft calls: `NULL` for an empty
      or `NULL`-like value, and otherwise the escaped value in quotes. */
  function EscapeValue(raw: string): (lit: string)
    ensures var v := TrimSpace(raw);
      && (v == "" || EqualFold(v, "NULL") ==> lit == "NULL")
      && (!(v == "" || EqualFold(v, "NULL")) ==> ReadQuoted(lit) == Some(v))
  {
    var v := TrimSpace(raw);
    if v == "" || EqualFold(v, "NULL") then "NULL"
    else
      var lit := Quote(Escape(v));
      EscapeRoundTrip(v, Escape(v));
      assert lit[1..|lit| - 1] == Escape(v);
      lit
  }

  /** The helper writes what the insert pass writes for a column that is
      never left unquoted, under the default `NullString`. */
  lemma EscapeValueIsFieldLiteral(cfg: Config, isFloat: FloatSyntax, colType: string, raw: string)
    requires cfg.nullString == "NULL" && !IsNumericType(colType)
    ensures EscapeValue(raw) == FieldLiteral(cfg, isFloat, colType, raw)
  {
  }

  // ---------------------------------------------------------------------
  // Reading literals back out of a value list.

  /** Where a bare literal ends in a value list: at the first `,` or `)`. */
  function BareLength(s: string): (n: nat)
    ensures n <= |s|
    ensures n < |s| ==> s[n] == ',' || s[n] == ')'
    ensures forall j :: 0 <= j < n ==> s[j] != ',' && s[j] != ')'
  {
    if s == [] || s[0] == ',' || s[0] == ')' then 0 else 1 + BareLength(s[1..])
  }

  /** The length of the escaped text of a quoted literal whose opening
      quote has been read: a doubled quote or backslash belongs to the
      text, a lone quote closes it, a lone backslash is malformed. */
  function QuotedLength(s: string): (n: Option<nat>)
    ensures n.Some? ==> n.value < |s|
    decreases |s|
  {
    if s == [] then None
    else if IsEscapable(s[0]) && |s| >= 2 && s[1] == s[0] then
      match QuotedLength(s[2..])
      case Some(m) => Some(m + 2)
      case None => None
    else if s[0] == '\'' then Some(0)
    else if s[0] == '\\' then None
    else
      match QuotedLength(s[1..])
      case Some(m) => Some(m + 1)
      case None => None
  }

  /** The length of the literal at the start of `s`: a quoted literal runs
      through its closing quote, any other up to the next `,` or `)`. */
  function LiteralLength(s: string): (n: Option<nat>)
    ensures n.Some? ==> n.value <= |s|
  {
    if |s| > 0 && s[0] == '\'' then
      match QuotedLength(s[1..])
      case Some(m) => Some(m + 2)
      case None => None
    else Some(BareLength(s))
  }

  /** A literal a value-list reader can delimit: a quoted literal that reads
      back to a value, or bare text that neither starts with a quote nor
      holds a `,` or `)`. */
  predicate IsLiteral(lit: string) {
    if |lit| > 0 && lit[0] == '\'' then ReadQuoted(lit).Some? else !HasDelimiter(lit)
  }

  lemma QuotedLengthDoubled(s: string)
    requires |s| >= 2 && IsEscapable(s[0]) && s[1] == s[0] && QuotedLength(s[2..]).Some?
    ensures QuotedLength(s) == Some(QuotedLength(s[2..]).value + 2)
  {
  }

  lemma QuotedLengthPlain(s: string)
    requires |s| >= 1 && !IsEscapable(s[0]) && QuotedLength(s[1..]).Some?
    ensures QuotedLength(s) == Some(QuotedLength(s[1..]).value + 1)
  {
  }

  lemma QuotedLengthClose(s: string)
    requires |s| >= 2 && s[0] == '\'' && s[1] != '\''
    ensures QuotedLength(s) == Some(0)
  {
  }

  /** The quoted-text scan stops exactly at the quote that closes an
      escaped value. */
  lemma {:induction false} QuotedLengthOfEscaped(v: string, rest: string)
    requires rest != [] && rest[0] != '\''
    ensures QuotedLength(EscapeChars(v) + "'" + rest) == Some(|EscapeChars(v)|)
  {
    var s := EscapeChars(v) + "'" + rest;
    if v == [] {
      assert s == "'" + rest;
      assert s[0] == '\'' && s[1] == rest[0];
      QuotedLengthClose(s);
    } else {
      QuotedLengthOfEscaped(v[1..], rest);
      var c := v[0];
      var e := EscapeChars(v[1..]);
      var tail := e + "'" + rest;
      if IsEscapable(c) {
        assert EscapeChars(v) == [c, c] + e;
        assert s == [c, c] + tail;
        assert s[0] == c && s[1] == c && s[2..] == tail;
        QuotedLengthDoubled(s);
      } else {
        assert EscapeChars(v) == [c] + e;
        assert s == [c] + tail;
        assert s[0] == c && s[1..] == tail;
        QuotedLengthPlain(s);
      }
    }
  }

  /** A literal followed by `,` or `)` is read as exactly itself. */
  lemma LiteralLengthOf(lit: string, rest: string)
    requires IsLiteral(lit)
    requires rest != [] && (rest[0] == ',' || rest[0] == ')')
    ensures LiteralLength(lit + rest) == Some(|lit|)
  {
    var s := lit + rest;
    if |lit| > 0 && lit[0] == '\'' {
      var e := lit[1..|lit| - 1];
      var v := Unescape(e).value;
      EscapeCharsOfUnescape(e, v);
      assert s[1..] == EscapeChars(v) + "'" + rest;
      QuotedLengthOfEscaped(v, rest);
    } else {
      assert s[|lit|] == rest[0];
      assert forall j :: 0 <= j < |lit| ==> s[j] == lit[j];
    }
  }

  /** Every literal the insert pass writes can be delimited in a value
      list. */
  lemma FieldLiteralIsLiteral(cfg: Config, isFloat: FloatSyntax, colType: string, raw: string)
    ensures IsLiteral(FieldLiteral(cfg, isFloat, colType, raw))
  {
    var v := TrimSpace(raw);
    var lit := FieldLiteral(cfg, isFloat, colType, raw);
    if IsNullish(cfg, v) {
      assert lit == "NULL";
    } else if IsNumericType(colType) && isFloat(v) {
      assert !HasEscapable(v) && !HasDelimiter(v);
      if |v| > 0 {
        assert v[0] != '\'';
      }
    }
  }

  /** A record's literals can all be delimited. */
  lemma RowValuesAreLiterals(cfg: Config, isFloat: FloatSyntax, types: seq<string>, fields: seq<string>)
    requires |types| == |fields|
    ensures forall k :: 0 <= k < |RowValues(cfg, isFloat, types, fields)| ==>
              IsLiteral(RowValues(cfg, isFloat, types, fields)[k])
  {
    var vals := RowValues(cfg, isFloat, types, fields);
    forall k | 0 <= k < |vals|
      ensures IsLiteral(vals[k])
    {
      var i := KeptIndices(types)[k];
      FieldLiteralIsLiteral(cfg, isFloat, types[i], fields[i]);
    }
  }

  /** The lenient draft's empty-row test: the first field, and the second
      when there is one, are empty or NULL-like after trimming. */
  predicate IsBlankRow(cfg: Config, fields: Fields) {
    && IsNullish(cfg, TrimSpace(fields[0]))
    && (|fields| >= 2 ==> IsNullish(cfg, TrimSpace(fields[1])))
  }
}
