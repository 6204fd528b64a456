/** The identifier sanitizer (`sanitizeColumnName`) and the header naming
    rule of `readHeaders` (main.go and prop_csv2sql.go, which agree). */
module Sanitizer {
  import opened Ascii
  import opened Decimal

  /** Drops the leading run of characters outside `[a-zA-Z0-9_]`. */
  function SkipRun(s: string): (r: string)
    ensures |r| <= |s| && r == s[|s| - |r|..]
    ensures r == [] || IsWordChar(r[0])
  {
    if s != [] && !IsWordChar(s[0]) then SkipRun(s[1..]) else s
  }

  /** `sanitizeRegex.ReplaceAllString(s, "_")` with the pattern
      `[^a-zA-Z0-9_]+`: each maximal run of other characters becomes one `_`. */
  function CollapseRuns(s: string): (r: string)
    ensures forall i :: 0 <= i < |r| ==> IsWordChar(r[i])
    decreases |s|
  {
    if s == [] then []
    else if IsWordChar(s[0]) then [s[0]] + CollapseRuns(s[1..])
    else "_" + CollapseRuns(SkipRun(s[1..]))
  }

  /** The number of leading `_` of `s`. */
  function LeadingUnderscores(s: string): (k: nat)
    ensures k <= |s|
    ensures forall i :: 0 <= i < k ==> s[i] == '_'
    ensures k == |s| || s[k] != '_'
  {
    if s != [] && s[0] == '_' then 1 + LeadingUnderscores(s[1..]) else 0
  }

  /** The number of trailing `_` of `s`. */
  function TrailingUnderscores(s: string): (k: nat)
    ensures k <= |s|
    ensures forall i :: |s| - k <= i < |s| ==> s[i] == '_'
    ensures k == |s| || s[|s| - 1 - k] != '_'
  {
    if s != [] && s[|s| - 1] == '_' then 1 + TrailingUnderscores(s[..|s| - 1]) else 0
  }

  /** `strings.Trim(s, "_")`. */
  function TrimUnderscores(s: string): (r: string)
    ensures r == [] || (r[0] != '_' && r[|r| - 1] != '_')
  {
    var t := s[LeadingUnderscores(s)..];
    t[..|t| - TrailingUnderscores(t)]
  }

  /** `leadingRegex.MatchString(n)` with the pattern `^[^a-zA-Z_]`. */
  predicate NeedsPrefix(n: string) { |n| > 0 && !IsLetter(n[0]) && n[0] != '_' }

  /** `_` + `n` when `n` fails the leading-character check, else `n`. */
  function FixLeading(n: string): string
  {
    if NeedsPrefix(n) then "_" + n else n
  }

  /** The shape of every sanitized name: only `[a-z0-9_]`, no leading digit,
      no trailing `_`, and a leading `_` only in front of a digit. */
  predicate IsSanitized(r: string) {
    && (forall i :: 0 <= i < |r| ==> IsIdentChar(r[i]))
    && (r != [] ==> !IsDigit(r[0]) && r[|r| - 1] != '_')
    && (r != [] && r[0] == '_' ==> |r| >= 2 && IsDigit(r[1]))
  }

  lemma FixLeadingShape(n: string)
    requires forall i :: 0 <= i < |n| ==> IsWordChar(n[i])
    requires n == [] || (n[0] != '_' && n[|n| - 1] != '_')
    ensures var p := FixLeading(n);
      && (forall i :: 0 <= i < |p| ==> IsWordChar(p[i]))
      && (p == [] || IsLetter(p[0]) || (p[0] == '_' && |p| >= 2 && IsDigit(p[1])))
      && (p == [] || p[|p| - 1] != '_')
  {
  }

  lemma LowerKeepsShape(p: string)
    requires forall i :: 0 <= i < |p| ==> IsWordChar(p[i])
    requires p == [] || IsLetter(p[0]) || (p[0] == '_' && |p| >= 2 && IsDigit(p[1]))
    requires p == [] || p[|p| - 1] != '_'
    ensures IsSanitized(Lower(p))
  {
    var r := Lower(p);
    forall i | 0 <= i < |r|
      ensures IsIdentChar(r[i])
    {
      assert r[i] == LowerChar(p[i]);
    }
  }

  lemma SanitizedShape(collapsed: string)
    requires forall i :: 0 <= i < |collapsed| ==> IsWordChar(collapsed[i])
    ensures IsSanitized(Lower(FixLeading(TrimUnderscores(collapsed))))
  {
    var n := TrimUnderscores(collapsed);
    TrimUnderscoresKeepsWord(collapsed);
    FixLeadingShape(n);
    LowerKeepsShape(FixLeading(n));
  }

  /** `sanitizeColumnName`: trim, collapse foreign runs into `_`, strip `_`
      at both ends, prefix `_` before a leading non-letter, lowercase. */
  function Sanitize(raw: string): (r: string)
    ensures IsSanitized(r)
  {
    var collapsed := CollapseRuns(TrimSpace(raw));
    SanitizedShape(collapsed);
    Lower(FixLeading(TrimUnderscores(collapsed)))
  }

  /** The synthetic name `column_<k>` that `readHeaders` uses. */
  function ColumnName(k: nat): string
  {
    "column_" + NatToString(k)
  }

  /** `readHeaders` naming for position `i`: the sanitized header, or
      `column_<i+1>` when sanitizing leaves nothing. */
  function HeaderName(raw: string, i: nat): string
  {
    var s := Sanitize(raw);
    if s == "" then ColumnName(i + 1) else s
  }

  /** The name `readHeaders` gives to position `i` of the first record. */
  function NameAt(hasHeader: bool, cell: string, i: nat): string
  {
    if hasHeader then HeaderName(cell, i) else ColumnName(i + 1)
  }

  /** The column names of both header modes: sanitized header cells, or
      `column_1 ..` named after the width of the first record. */
  function HeaderNames(hasHeader: bool, first: seq<string>): (names: seq<string>)
    ensures |names| == |first|
    ensures forall i :: 0 <= i < |first| ==> names[i] == NameAt(hasHeader, first[i], i)
  {
    seq(|first|, i requires 0 <= i < |first| => NameAt(hasHeader, first[i], i))
  }

  // ---------------------------------------------------------------------
  // Letters and digits survive sanitizing, lowercased and in order.

  lemma {:induction false} AlnumsSkipRun(s: string)
    ensures Alnums(SkipRun(s)) == Alnums(s)
  {
    if s != [] && !IsWordChar(s[0]) {
      AlnumsSkipRun(s[1..]);
    }
  }

  lemma {:induction false} AlnumsCollapseRuns(s: string)
    ensures Alnums(CollapseRuns(s)) == Alnums(s)
    decreases |s|
  {
    if s == [] {
    } else if IsWordChar(s[0]) {
      AlnumsCollapseRuns(s[1..]);
      AlnumsAppend([s[0]], CollapseRuns(s[1..]));
    } else {
      var rest := SkipRun(s[1..]);
      AlnumsCollapseRuns(rest);
      AlnumsSkipRun(s[1..]);
      AlnumsAppend("_", CollapseRuns(rest));
    }
  }

  lemma AlnumsTrimUnderscores(s: string)
    ensures Alnums(TrimUnderscores(s)) == Alnums(s)
  {
    AlnumsDropLeading(s);
    AlnumsDropTrailing(s[LeadingUnderscores(s)..]);
  }

  lemma {:induction false} AlnumsDropLeading(s: string)
    ensures Alnums(s[LeadingUnderscores(s)..]) == Alnums(s)
  {
    if s != [] && s[0] == '_' {
      AlnumsDropLeading(s[1..]);
      assert s[LeadingUnderscores(s)..] == s[1..][LeadingUnderscores(s[1..])..];
    }
  }

  lemma {:induction false} AlnumsDropTrailing(s: string)
    ensures Alnums(s[..|s| - TrailingUnderscores(s)]) == Alnums(s)
  {
    if s != [] && s[|s| - 1] == '_' {
      var init := s[..|s| - 1];
      AlnumsDropTrailing(init);
      assert s[..|s| - TrailingUnderscores(s)] == init[..|init| - TrailingUnderscores(init)];
      assert s == init + "_";
      AlnumsAppend(init, "_");
      assert Alnums("_") == [];
    } else {
      assert TrailingUnderscores(s) == 0;
      assert s[..|s|] == s;
    }
  }

  lemma TrimUnderscoresKeepsWord(s: string)
    requires forall i :: 0 <= i < |s| ==> IsWordChar(s[i])
    ensures forall i :: 0 <= i < |TrimUnderscores(s)| ==> IsWordChar(TrimUnderscores(s)[i])
  {
    var a := LeadingUnderscores(s);
    var t := s[a..];
    assert forall i :: 0 <= i < |t| ==> IsWordChar(t[i]);
  }

  /** The letters and digits of the sanitized name are exactly those of the
      raw header, lowercased, in the same order. */
  lemma SanitizeKeepsAlnums(raw: string)
    ensures Alnums(Sanitize(raw)) == Lower(Alnums(raw))
  {
    var n := TrimUnderscores(CollapseRuns(TrimSpace(raw)));
    var p := FixLeading(n);
    AlnumsTrimSpace(raw);
    AlnumsCollapseRuns(TrimSpace(raw));
    AlnumsTrimUnderscores(CollapseRuns(TrimSpace(raw)));
    AlnumsAppend("_", n);
    assert Alnums(p) == Alnums(raw);
    AlnumsLower(p);
  }

  /** A sanitized name is empty exactly when the raw header holds no ASCII
      letter or digit; that is when `readHeaders` falls back to `column_<i+1>`. */
  lemma SanitizeEmptyIff(raw: string)
    ensures Sanitize(raw) == [] <==> forall i :: 0 <= i < |raw| ==> !IsAlnum(raw[i])
  {
    var r := Sanitize(raw);
    SanitizeKeepsAlnums(raw);
    AlnumsEmpty(raw);
    if r != [] {
      assert IsAlnum(r[0]) || IsAlnum(r[1]);
      AlnumsEmpty(r);
    }
  }

  lemma {:induction false} CollapseRunsOfWord(s: string)
    requires forall i :: 0 <= i < |s| ==> IsWordChar(s[i])
    ensures CollapseRuns(s) == s
  {
    if s != [] {
      CollapseRunsOfWord(s[1..]);
    }
  }

  lemma TrimSpaceOfSanitized(r: string)
    requires IsSanitized(r)
    ensures TrimSpace(r) == r
  {
    if r != [] {
      assert LeadingSpaces(r) == 0;
      assert TrailingSpaces(r) == 0;
    }
  }

  lemma FixLeadingOfSanitized(r: string)
    requires IsSanitized(r)
    ensures var n := TrimUnderscores(r);
      && (forall i :: 0 <= i < |n| ==> IsWordChar(n[i]))
      && (n == [] || (n[0] != '_' && n[|n| - 1] != '_'))
      && FixLeading(n) == r
  {
    var n := TrimUnderscores(r);
    if r != [] && r[0] == '_' {
      assert LeadingUnderscores(r[1..]) == 0;
      assert LeadingUnderscores(r) == 1;
      assert TrailingUnderscores(r[1..]) == 0;
      assert n == r[1..];
      assert "_" + n == r;
    } else if r != [] {
      assert LeadingUnderscores(r) == 0;
      assert TrailingUnderscores(r) == 0;
      assert n == r;
    }
  }

  lemma LowerOfSanitized(r: string)
    requires IsSanitized(r)
    ensures Lower(r) == r
  {
    forall i | 0 <= i < |r|
      ensures Lower(r)[i] == r[i]
    {
      assert IsIdentChar(r[i]);
    }
  }

  /** Sanitizing a sanitized name changes nothing. */
  lemma SanitizeIdempotent(raw: string)
    ensures Sanitize(Sanitize(raw)) == Sanitize(raw)
  {
    var r := Sanitize(raw);
    assert IsSanitized(r);
    TrimSpaceOfSanitized(r);
    CollapseRunsOfWord(r);
    assert CollapseRuns(TrimSpace(r)) == r;
    FixLeadingOfSanitized(r);
    LowerOfSanitized(r);
  }

  lemma ColumnNameShape(k: nat)
    ensures var c := ColumnName(k);
      |c| > 7 && c[0] == 'c' && forall j :: 0 <= j < |c| ==> IsIdentChar(c[j])
  {
    var c := ColumnName(k);
    var d := NatToString(k);
    assert forall j :: 7 <= j < |c| ==> c[j] == d[j - 7];
  }

  /** Every name `readHeaders` produces is a non-empty `[a-z0-9_]` identifier
      that does not begin with a digit; it is the synthetic `column_<i+1>`
      when the raw header holds no ASCII letter or digit, and the sanitized
      header otherwise. */
  lemma HeaderNameWellFormed(raw: string, i: nat)
    ensures var h := HeaderName(raw, i);
      && |h| > 0
      && (forall k :: 0 <= k < |h| ==> IsIdentChar(h[k]))
      && !IsDigit(h[0])
    ensures (forall k :: 0 <= k < |raw| ==> !IsAlnum(raw[k])) ==> HeaderName(raw, i) == ColumnName(i + 1)
    ensures (exists k :: 0 <= k < |raw| && IsAlnum(raw[k])) ==> HeaderName(raw, i) == Sanitize(raw)
  {
    SanitizeEmptyIff(raw);
    ColumnNameShape(i + 1);
  }

  /** In both header modes every column name is a non-empty `[a-z0-9_]`
      identifier. */
  lemma HeaderNamesAreIdentifiers(hasHeader: bool, first: seq<string>)
    ensures forall i :: 0 <= i < |first| ==>
      var h := HeaderNames(hasHeader, first)[i];
      |h| > 0 && forall k :: 0 <= k < |h| ==> IsIdentChar(h[k])
  {
    forall i | 0 <= i < |first|
      ensures var h := HeaderNames(hasHeader, first)[i];
        |h| > 0 && forall k :: 0 <= k < |h| ==> IsIdentChar(h[k])
    {
      if hasHeader {
        HeaderNameWellFormed(first[i], i);
      } else {
        ColumnNameShape(i + 1);
      }
    }
  }
}
