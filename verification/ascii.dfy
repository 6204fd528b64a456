/** Byte-string helpers standing in for the parts of Go's `strings` package
    the converter uses. Every `char` of a `string` stands for one byte, so
    `|s|` is Go's `len(s)`; whitespace and case are the ASCII ones. */
module Ascii {
  import opened Wrappers

  predicate IsLetter(c: char) { ('a' <= c <= 'z') || ('A' <= c <= 'Z') }

  predicate IsDigit(c: char) { '0' <= c <= '9' }

  predicate IsAlnum(c: char) { IsLetter(c) || IsDigit(c) }

  /** The class `[a-zA-Z0-9_]` of the sanitizer's regular expression. */
  predicate IsWordChar(c: char) { IsAlnum(c) || c == '_' }

  /** A character that may appear in a sanitized identifier: `[a-z0-9_]`. */
  predicate IsIdentChar(c: char) { ('a' <= c <= 'z') || IsDigit(c) || c == '_' }

  /** ASCII white space as recognised by `strings.TrimSpace`. */
  predicate IsSpace(c: char) {
    c == ' ' || c == '\t' || c == '\n' || c == '\r' || c == '\U{0B}' || c == '\U{0C}'
  }

  function LowerChar(c: char): (d: char)
    ensures IsLetter(c) ==> 'a' <= d <= 'z'
    ensures !('A' <= c <= 'Z') ==> d == c
    ensures IsWordChar(c) ==> IsIdentChar(d)
    ensures IsDigit(d) <==> IsDigit(c)
    ensures d == '_' <==> c == '_'
  {
    if 'A' <= c <= 'Z' then (c as int - 'A' as int + 'a' as int) as char else c
  }

  /** `strings.ToLower` on ASCII text. */
  function Lower(s: string): (r: string)
    ensures |r| == |s|
    ensures forall i :: 0 <= i < |s| ==> r[i] == LowerChar(s[i])
  {
    seq(|s|, i requires 0 <= i < |s| => LowerChar(s[i]))
  }

  /** `strings.EqualFold` restricted to ASCII case folding. */
  predicate EqualFold(a: string, b: string) {
    |a| == |b| && forall i :: 0 <= i < |a| ==> LowerChar(a[i]) == LowerChar(b[i])
  }

  /** The number of leading white-space characters of `s`. */
  function LeadingSpaces(s: string): (k: nat)
    ensures k <= |s|
    ensures k == |s| || !IsSpace(s[k])
  {
    if s != [] && IsSpace(s[0]) then 1 + LeadingSpaces(s[1..]) else 0
  }

  /** The number of trailing white-space characters of `s`. */
  function TrailingSpaces(s: string): (k: nat)
    ensures k <= |s|
    ensures k == |s| || !IsSpace(s[|s| - 1 - k])
  {
    if s != [] && IsSpace(s[|s| - 1]) then 1 + TrailingSpaces(s[..|s| - 1]) else 0
  }

  /** `strings.TrimSpace`: drop leading and trailing white space. */
  function TrimSpace(s: string): (r: string)
    ensures |r| <= |s|
    ensures r == [] || (!IsSpace(r[0]) && !IsSpace(r[|r| - 1]))
  {
    var t := s[LeadingSpaces(s)..];
    t[..|t| - TrailingSpaces(t)]
  }

  /** The ASCII letters and digits of `s`, in order. */
  function Alnums(s: string): (r: string)
    ensures |r| <= |s|
    ensures forall i :: 0 <= i < |r| ==> IsAlnum(r[i])
  {
    if s == [] then []
    else (if IsAlnum(s[0]) then [s[0]] else []) + Alnums(s[1..])
  }

  lemma {:induction false} AlnumsAppend(a: string, b: string)
    ensures Alnums(a + b) == Alnums(a) + Alnums(b)
  {
    if a == [] {
      assert a + b == b;
    } else {
      assert (a + b)[1..] == a[1..] + b;
      AlnumsAppend(a[1..], b);
    }
  }

  /** `Alnums(s)` is empty exactly when `s` holds no ASCII letter or digit. */
  lemma {:induction false} AlnumsEmpty(s: string)
    ensures Alnums(s) == [] <==> forall i :: 0 <= i < |s| ==> !IsAlnum(s[i])
  {
    if s != [] {
      AlnumsEmpty(s[1..]);
      assert forall i :: 1 <= i < |s| ==> s[i] == s[1..][i - 1];
    }
  }

  lemma AlnumsTrimSpace(s: string)
    ensures Alnums(TrimSpace(s)) == Alnums(s)
  {
    var t := s[LeadingSpaces(s)..];
    AlnumsDropLeadingSpaces(s);
    AlnumsDropTrailingSpaces(t);
  }

  lemma {:induction false} AlnumsDropLeadingSpaces(s: string)
    ensures Alnums(s[LeadingSpaces(s)..]) == Alnums(s)
  {
    if s != [] && IsSpace(s[0]) {
      AlnumsDropLeadingSpaces(s[1..]);
      assert s[LeadingSpaces(s)..] == s[1..][LeadingSpaces(s[1..])..];
    }
  }

  lemma {:induction false} AlnumsDropTrailingSpaces(s: string)
    ensures Alnums(s[..|s| - TrailingSpaces(s)]) == Alnums(s)
  {
    if s != [] && IsSpace(s[|s| - 1]) {
      var init := s[..|s| - 1];
      AlnumsDropTrailingSpaces(init);
      assert s[..|s| - TrailingSpaces(s)] == init[..|init| - TrailingSpaces(init)];
      assert s == init + [s[|s| - 1]];
      AlnumsAppend(init, [s[|s| - 1]]);
      assert Alnums([s[|s| - 1]]) == [];
    } else {
      assert TrailingSpaces(s) == 0;
      assert s[..|s|] == s;
    }
  }

  lemma {:induction false} AlnumsLower(s: string)
    ensures Alnums(Lower(s)) == Lower(Alnums(s))
  {
    if s != [] {
      assert Lower(s)[1..] == Lower(s[1..]);
      AlnumsLower(s[1..]);
      var head := if IsAlnum(s[0]) then [s[0]] else [];
      assert Lower(head + Alnums(s[1..])) == Lower(head) + Lower(Alnums(s[1..]));
    }
  }

  /** `strings.Join`. */
  function Join(xs: seq<string>, sep: string): string
  {
    if |xs| == 0 then ""
    else if |xs| == 1 then xs[0]
    else xs[0] + sep + Join(xs[1..], sep)
  }

  /** The position of the first `c` in `s`, or `|s|` when there is none. */
  function IndexOf(s: string, c: char): (k: nat)
    ensures k <= |s|
    ensures k < |s| ==> s[k] == c
    ensures forall j :: 0 <= j < k ==> s[j] != c
  {
    if s == [] || s[0] == c then 0 else 1 + IndexOf(s[1..], c)
  }

  /** Cuts `s` at each occurrence of `sep`, where the separator is found by
      its first character; fails when that character starts anything other
      than a whole separator. */
  function Split(s: string, sep: string): Option<seq<string>>
    requires |sep| >= 1
    decreases |s|
  {
    var k := IndexOf(s, sep[0]);
    if k == |s| then Some([s])
    else if |s| - k >= |sep| && s[k..k + |sep|] == sep then
      match Split(s[k + |sep|..], sep)
      case Some(rest) => Some([s[..k]] + rest)
      case None => None
    else None
  }

  /** The first `c` after a stretch without one. */
  lemma IndexOfAfter(a: string, t: string, c: char)
    requires c !in a && t != [] && t[0] == c
    ensures IndexOf(a + t, c) == |a|
  {
    var s := a + t;
    assert s[|a|] == c;
    assert forall j :: 0 <= j < |a| ==> s[j] == a[j];
  }

  /** One step of `Split`: a part without the separator's first character,
      the separator, then the rest. */
  lemma SplitStep(a: string, sep: string, rest: string)
    requires |sep| >= 1 && sep[0] !in a && Split(rest, sep).Some?
    ensures Split(a + sep + rest, sep) == Some([a] + Split(rest, sep).value)
  {
    var s := a + sep + rest;
    assert s == a + (sep + rest);
    IndexOfAfter(a, sep + rest, sep[0]);
    var k := |a|;
    assert s[k..k + |sep|] == sep;
    assert s[k + |sep|..] == rest;
    assert s[..k] == a;
  }

  /** Splitting undoes joining, as long as no part holds the separator's
      first character. */
  lemma {:induction false} SplitJoin(xs: seq<string>, sep: string)
    requires |xs| >= 1 && |sep| >= 1
    requires forall k :: 0 <= k < |xs| ==> sep[0] !in xs[k]
    ensures Split(Join(xs, sep), sep) == Some(xs)
  {
    if |xs| == 1 {
      var s := Join(xs, sep);
      assert IndexOf(s, sep[0]) == |s|;
      assert [xs[0]] == xs;
    } else {
      assert forall j :: 0 <= j < |xs[1..]| ==> xs[1..][j] == xs[j + 1];
      SplitJoin(xs[1..], sep);
      assert Join(xs, sep) == xs[0] + sep + Join(xs[1..], sep);
      SplitStep(xs[0], sep, Join(xs[1..], sep));
      assert [xs[0]] + xs[1..] == xs;
    }
  }

  /** Concatenation of a sequence of strings, as successive `WriteString`
      calls on a `strings.Builder` produce it. */
  function Concat(xs: seq<string>): string
  {
    if |xs| == 0 then "" else xs[0] + Concat(xs[1..])
  }

  predicate HasPrefix(s: string, p: string) { |p| <= |s| && s[..|p|] == p }
}
