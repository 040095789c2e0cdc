/** Text utilities the plotting code relies on: Go's strings.Join, decimal
    formatting of integers as fmt's %d verb prints them, and the readers that
    undo both (a single-character split and a decimal parser).  The readers
    are the view a consumer of the produced text (gnuplot) has of it. */
module Text {

  datatype Option<T> = None | Some(value: T)

  /** strings.Join: the parts in order, with sep between consecutive ones.
      No parts join to the empty text; otherwise the first part leads and
      the last part ends the result. */
  function Join(parts: seq<string>, sep: string): (r: string)
    ensures |parts| == 0 ==> r == ""
    ensures |parts| > 0 ==> parts[0] <= r
    ensures |parts| > 0 ==> |parts[|parts| - 1]| <= |r| && r[|r| - |parts[|parts| - 1]|..] == parts[|parts| - 1]
  {
    if |parts| == 0 then ""
    else if |parts| == 1 then parts[0]
    else Join(parts[..|parts| - 1], sep) + sep + parts[|parts| - 1]
  }

  /** strings.Split with a one-character separator: the maximal runs of
      characters between occurrences of c; always at least one field. */
  function Split(s: string, c: char): (fields: seq<string>)
    ensures |fields| >= 1
  {
    if |s| == 0 then [""]
    else Extend(Split(s[..|s| - 1], c), s[|s| - 1], c)
  }

  /** One more character read by Split: a separator opens a new field,
      anything else is added to the last field. */
  function Extend(fields: seq<string>, x: char, c: char): (r: seq<string>)
    requires |fields| >= 1
    ensures |r| >= 1
  {
    if x == c then fields + [""]
    else fields[..|fields| - 1] + [fields[|fields| - 1] + [x]]
  }

  /** A non-empty sequence is its initial part followed by its last element. */
  lemma InitLast<T>(s: seq<T>)
    requires |s| > 0
    ensures s[..|s| - 1] + [s[|s| - 1]] == s
  {
  }

  /** Split unfolded once at a final character x. */
  lemma SplitSnoc(s: string, x: char, c: char)
    ensures Split(s + [x], c) == Extend(Split(s, c), x, c)
  {
    assert (s + [x])[..|s|] == s;
  }

  /** Extending the last field of p + [e] by a non-separator. */
  lemma ExtendLast(p: seq<string>, e: string, x: char, c: char)
    requires x != c
    ensures Extend(p + [e], x, c) == p + [e + [x]]
  {
    assert (p + [e])[..|p|] == p;
  }

  /** Appending text free of the separator extends the last field. */
  lemma {:induction false} SplitAppendFree(s: string, q: string, c: char)
    requires c !in q
    ensures var f := Split(s, c);
      Split(s + q, c) == f[..|f| - 1] + [f[|f| - 1] + q]
  {
    var f := Split(s, c);
    var p, e := f[..|f| - 1], f[|f| - 1];
    if |q| == 0 {
      assert s + q == s;
      assert e + q == e;
      InitLast(f);
    } else {
      var q', x := q[..|q| - 1], q[|q| - 1];
      assert q' + [x] == q;
      assert c !in q' && x != c;
      SplitAppendFree(s, q', c);
      SplitSnoc(s + q', x, c);
      ExtendLast(p, e + q', x, c);
      assert s + q == (s + q') + [x];
      assert (e + q') + [x] == e + q;
    }
  }

  /** Appending the separator starts a new, empty field. */
  lemma SplitAppendSep(s: string, c: char)
    ensures Split(s + [c], c) == Split(s, c) + [""]
  {
    SplitSnoc(s, c, c);
  }

  /** Text that ends in a separator gains one whole field when a
      separator-free line and another separator are appended. */
  lemma SplitAppendField(t: string, line: string, before: seq<string>, c: char)
    requires Split(t, c) == before + [""] && c !in line
    ensures Split(t + line + [c], c) == before + [line] + [""]
  {
    SplitAppendFree(t, line, c);
    assert (before + [""])[..|before|] == before;
    assert "" + line == line;
    SplitAppendSep(t + line, c);
  }

  /** Splitting a joined list on its separator gives the list back, as long
      as no part contains the separator. */
  lemma {:induction false} SplitJoin(parts: seq<string>, c: char)
    requires |parts| > 0
    requires forall k :: 0 <= k < |parts| ==> c !in parts[k]
    ensures Split(Join(parts, [c]), c) == parts
  {
    var n := |parts|;
    if n == 1 {
      SplitAppendFree("", parts[0], c);
      assert "" + parts[0] == parts[0];
    } else {
      var init, last := parts[..n - 1], parts[n - 1];
      assert c !in last;
      assert forall k :: 0 <= k < |init| ==> c !in init[k];
      SplitJoin(init, c);
      var j := Join(init, [c]);
      assert Join(parts, [c]) == (j + [c]) + last;
      SplitAppendSep(j, c);
      var f := Split(j + [c], c);
      assert f == init + [""];
      assert f[..|f| - 1] == init && f[|f| - 1] == "";
      SplitAppendFree(j + [c], last, c);
      assert Split(Join(parts, [c]), c) == init + ["" + last];
      assert "" + last == last;
      InitLast(parts);
    }
  }

  /** Joining parts and a separator that all avoid c gives text avoiding c. */
  lemma {:induction false} JoinFree(parts: seq<string>, sep: string, c: char)
    requires c !in sep
    requires forall k :: 0 <= k < |parts| ==> c !in parts[k]
    ensures c !in Join(parts, sep)
  {
    if |parts| > 1 {
      var init := parts[..|parts| - 1];
      assert forall k :: 0 <= k < |init| ==> c !in init[k];
      JoinFree(init, sep, c);
      assert c !in parts[|parts| - 1];
    }
  }

  predicate IsDigit(ch: char)
  {
    '0' <= ch <= '9'
  }

  predicate AllDigits(s: string)
  {
    forall k :: 0 <= k < |s| ==> IsDigit(s[k])
  }

  function DigitValue(ch: char): (d: nat)
    requires IsDigit(ch)
    ensures d < 10
  {
    (ch as int) - ('0' as int)
  }

  function DigitChar(d: nat): (ch: char)
    requires d < 10
    ensures IsDigit(ch) && DigitValue(ch) == d
  {
    (('0' as int) + d) as char
  }

  /** The decimal digits of n, most significant first, without leading zeros. */
  function FormatNat(n: nat): (r: string)
    ensures |r| > 0 && AllDigits(r)
    ensures r[0] == '0' ==> n == 0
  {
    if n < 10 then [DigitChar(n)]
    else FormatNat(n / 10) + [DigitChar(n % 10)]
  }

  /** Go's %d on an integer: an optional minus sign, then the decimal digits. */
  function FormatInt(v: int): (r: string)
    ensures |r| > 0
    ensures v < 0 <==> r[0] == '-'
  {
    if v < 0 then "-" + FormatNat(-v) else FormatNat(v)
  }

  /** The value of a string of decimal digits. */
  function ParseDigits(s: string): nat
    requires AllDigits(s)
  {
    if |s| == 0 then 0
    else ParseDigits(s[..|s| - 1]) * 10 + DigitValue(s[|s| - 1])
  }

  /** Reads a decimal integer with an optional leading minus sign. */
  function ParseInt(s: string): Option<int>
  {
    if |s| > 1 && s[0] == '-' && AllDigits(s[1..]) then Some(0 - ParseDigits(s[1..]))
    else if |s| > 0 && AllDigits(s) then Some(ParseDigits(s))
    else None
  }

  lemma {:induction false} ParseFormatNat(n: nat)
    ensures ParseDigits(FormatNat(n)) == n
  {
    var r := FormatNat(n);
    if n < 10 {
      assert r[..0] == [];
    } else {
      ParseFormatNat(n / 10);
      assert r[..|r| - 1] == FormatNat(n / 10);
    }
  }

  /** Decimal formatting is undone by decimal parsing, for every integer. */
  lemma ParseFormatInt(v: int)
    ensures ParseInt(FormatInt(v)) == Some(v)
  {
    var r := FormatInt(v);
    if v < 0 {
      ParseFormatNat(-v);
      assert r[1..] == FormatNat(-v);
    } else {
      ParseFormatNat(v);
    }
  }

  /** What %d prints never contains a separator used by the plot data or
      script: blank, newline, comma or semicolon. */
  lemma FormatIntPlain(v: int)
    ensures ' ' !in FormatInt(v) && '\n' !in FormatInt(v)
    ensures ',' !in FormatInt(v) && ';' !in FormatInt(v)
  {
    var r := FormatInt(v);
    var digits := if v < 0 then FormatNat(-v) else FormatNat(v);
    assert r == (if v < 0 then "-" else "") + digits;
    forall k | 0 <= k < |r| ensures r[k] != ' ' && r[k] != '\n' && r[k] != ',' && r[k] != ';' {
      assert r[k] == '-' || IsDigit(r[k]);
    }
  }
}
