/** The value classifier: `isInteger`, `isDecimal`, `isDate` and
    `refineType`, identical in main.go and prop_csv2sql.go. */
module Classifier {
  import opened Wrappers
  import opened Ascii
  import opened Decimal
  import opened Settings

  const Int64Max: nat := 0x7FFF_FFFF_FFFF_FFFF

  /** `strconv.ParseInt(s, 10, 64)` succeeds: an optional sign, at least
      one ASCII digit, and a value inside the int64 range. */
  predicate IsInteger(s: string)
    ensures IsInteger(s) ==> |s| > 0
    ensures IsInteger(s) ==> forall i :: 0 <= i < |s| ==>
      IsDigit(s[i]) || (i == 0 && (s[i] == '+' || s[i] == '-'))
  {
    if |s| > 0 && (s[0] == '+' || s[0] == '-') then
      var d := s[1..];
      && |d| > 0
      && AllDigits(d)
      && DigitsValue(d) <= (if s[0] == '-' then Int64Max + 1 else Int64Max)
    else
      |s| > 0 && AllDigits(s) && DigitsValue(s) <= Int64Max
  }

  /** The text holds a character that SQL escaping rewrites. */
  predicate HasEscapable(s: string) {
    exists i :: 0 <= i < |s| && (s[i] == '\'' || s[i] == '\\')
  }

  /** The text holds a character that ends a bare value in a value list. */
  predicate HasDelimiter(s: string) {
    exists i :: 0 <= i < |s| && (s[i] == ',' || s[i] == ')')
  }

  /** What the model assumes of `strconv.ParseFloat(s, 64)` succeeding:
      every int64 literal is accepted, and no text holding a quote, a
      backslash, a comma or a closing parenthesis is. */
  ghost predicate IsFloatSyntax(f: string -> bool) {
    && (forall s :: IsInteger(s) ==> f(s))
    && (forall s :: HasEscapable(s) ==> !f(s))
    && (forall s :: HasDelimiter(s) ==> !f(s))
  }

  /** The float parser the model is parameterised by. */
  type FloatSyntax = f: string -> bool | IsFloatSyntax(f) witness IsInteger

  /** Text fits a date shape: `#` is an ASCII digit, every other shape
      character must appear verbatim. */
  predicate FitsShape(s: string, shape: string) {
    |s| == |shape| &&
    forall i :: 0 <= i < |s| ==> if shape[i] == '#' then IsDigit(s[i]) else s[i] == shape[i]
  }

  /** `isDate`: one of the five anchored patterns, the last with an
      optional trailing `Z`. */
  predicate IsDate(s: string) {
    || FitsShape(s, "####-##-##")
    || FitsShape(s, "##/##/####")
    || FitsShape(s, "####-##-## ##:##:##")
    || FitsShape(s, "##/##/#### ##:##:##")
    || FitsShape(s, "####-##-##T##:##:##")
    || FitsShape(s, "####-##-##T##:##:##Z")
  }

  /** A date shape is 10 bytes long, or 19 or 20 with a time. */
  lemma DateLengths(s: string)
    requires IsDate(s)
    ensures |s| == 10 || |s| == 19 || |s| == 20
    ensures |s| == 10 <==> (FitsShape(s, "####-##-##") || FitsShape(s, "##/##/####"))
  {
  }

  /** No date shape parses as an integer: each has a `-` or `/` after its
      first character. */
  lemma DateIsNotInteger(s: string)
    requires IsDate(s)
    ensures !IsInteger(s)
  {
    var i := if FitsShape(s, "##/##/####") || FitsShape(s, "##/##/#### ##:##:##") then 2 else 4;
    assert 1 <= i < |s| && !IsDigit(s[i]);
  }

  /** The types `refineType` can produce. */
  datatype SqlType = BigInt | Decimal | Date | DateTime | Text | Varchar(width: int)

  /** The type text `refineType` returns. */
  function Render(t: SqlType): string
  {
    match t
    case BigInt => "BIGINT"
    case Decimal => "DECIMAL(20,6)"
    case Date => "DATE"
    case DateTime => "DATETIME"
    case Text => "TEXT"
    case Varchar(w) => "VARCHAR(" + IntToString(w) + ")"
  }

  /** Reads a rendered type back. */
  function ParseSqlType(s: string): Option<SqlType>
  {
    if s == "BIGINT" then Some(BigInt)
    else if s == "DECIMAL(20,6)" then Some(Decimal)
    else if s == "DATE" then Some(Date)
    else if s == "DATETIME" then Some(DateTime)
    else if s == "TEXT" then Some(Text)
    else if |s| > 9 && s[..8] == "VARCHAR(" && s[|s| - 1] == ')' then
      match ParseInt(s[8..|s| - 1])
      case Some(w) => Some(Varchar(w))
      case None => None
    else None
  }

  lemma ParseRender(t: SqlType)
    ensures ParseSqlType(Render(t)) == Some(t)
  {
    if t.Varchar? {
      var s := Render(t);
      var digits := IntToString(t.width);
      assert |digits| > 0;
      assert s[0] == 'V' && |s| > 9 && s[|s| - 1] == ')';
      assert s[..8] == "VARCHAR(";
      assert s[8..|s| - 1] == digits;
      IntToStringRoundTrip(t.width);
    }
  }

  /** Distinct inferred types render to distinct text, none of which is
      `SKIP` or `INT`. */
  lemma RenderDistinct(t: SqlType, u: SqlType)
    ensures Render(t) == Render(u) ==> t == u
    ensures Render(t) != Skip && Render(t) != "INT"
  {
    ParseRender(t);
    ParseRender(u);
  }

  /** Only `VARCHAR(n)` starts with `VARCHAR`. */
  lemma RenderVarcharPrefix(t: SqlType)
    ensures HasPrefix(Render(t), "VARCHAR") <==> t.Varchar?
  {
    if !t.Varchar? {
      assert Render(t)[0] != 'V';
    } else {
      assert Render(t)[..7] == "VARCHAR";
    }
  }

  /** `refineType`: the first check that holds decides, in the fixed order
      integer, float, date, then the length ladder. The column's current
      type is never consulted. */
  function Classify(cfg: Config, isFloat: FloatSyntax, v: string): (t: SqlType)
    ensures t == BigInt <==> IsInteger(v)
    ensures t == Decimal <==> !IsInteger(v) && isFloat(v)
    ensures (t == Date || t == DateTime) <==> !isFloat(v) && IsDate(v)
    ensures t == Date ==> |v| == 10
    ensures t == DateTime ==> |v| == 19 || |v| == 20
    ensures t == Text <==> !isFloat(v) && !IsDate(v) && |v| > cfg.textThreshold
    ensures t.Varchar? ==> !isFloat(v) && !IsDate(v) && |v| <= cfg.textThreshold
    ensures t.Varchar? && |v| > cfg.varcharLength ==>
      t.width % 50 == 0 && |v| < t.width <= |v| + 50
    ensures t.Varchar? && |v| <= cfg.varcharLength ==> t.width == cfg.varcharLength
    ensures t.Varchar? && cfg.textThreshold <= cfg.varcharLength ==> t.width == cfg.varcharLength
  {
    if IsInteger(v) then BigInt
    else if isFloat(v) then Decimal
    else if IsDate(v) then
      DateLengths(v);
      if |v| > 10 then DateTime else Date
    else
      var length := |v|;
      if length > cfg.textThreshold then Text
      else if length > cfg.varcharLength then Varchar(((length / 50) + 1) * 50)
      else Varchar(cfg.varcharLength)
  }

  /** `refineType` as the type text the column receives: it names the
      classified type unambiguously, and is never `SKIP` or `INT`. */
  function RefineType(cfg: Config, isFloat: FloatSyntax, v: string): (t: string)
    ensures ParseSqlType(t) == Some(Classify(cfg, isFloat, v))
    ensures t != Skip && t != "INT"
  {
    var c := Classify(cfg, isFloat, v);
    ParseRender(c);
    RenderDistinct(c, c);
    Render(c)
  }
}
