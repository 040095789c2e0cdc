/** The data table plotAudios writes to its scratch file: one line per
    aligned index i, holding the timestamp of i and then, for every track in
    list order, a blank and that track's sample i in decimal.  The timestamp
    text (a float32 formatted with %f) is kept abstract as `stamp(i)`. */
module Table {
  import opened Text
  import opened Pcm

  /** Every track has at least n samples, so index n - 1 can be read from
      each of them. */
  predicate Fits(audios: seq<seq<Int16>>, n: nat)
  {
    |audios| == 0 || (Fits(audios[..|audios| - 1], n) && n <= |audios[|audios| - 1]|)
  }

  /** Fits says exactly that no track is shorter than n. */
  lemma {:induction false} FitsIff(audios: seq<seq<Int16>>, n: nat)
    ensures Fits(audios, n) <==> forall j :: 0 <= j < |audios| ==> n <= |audios[j]|
  {
    if |audios| > 0 {
      var init := audios[..|audios| - 1];
      FitsIff(init, n);
      assert forall j :: 0 <= j < |init| ==> init[j] == audios[j];
    }
  }

  lemma {:induction false} FitsAt(audios: seq<seq<Int16>>, n: nat, j: nat)
    requires Fits(audios, n) && j < |audios|
    ensures n <= |audios[j]|
  {
    if j < |audios| - 1 {
      FitsAt(audios[..|audios| - 1], n, j);
    }
  }

  lemma {:induction false} FitsPrefix(audios: seq<seq<Int16>>, n: nat, k: nat)
    requires Fits(audios, n) && k <= |audios|
    ensures Fits(audios[..k], n)
  {
    if k < |audios| {
      FitsPrefix(audios[..|audios| - 1], n, k);
      assert audios[..|audios| - 1][..k] == audios[..k];
    } else {
      assert audios[..k] == audios;
    }
  }

  lemma {:induction false} FitsLess(audios: seq<seq<Int16>>, n: nat, m: nat)
    requires Fits(audios, n) && m <= n
    ensures Fits(audios, m)
  {
    if |audios| > 0 {
      FitsLess(audios[..|audios| - 1], n, m);
    }
  }

  /** Text with neither of the table's separators in it. */
  predicate Plain(s: string)
  {
    ' ' !in s && '\n' !in s
  }

  /** Line i of the table, without its newline: the timestamp, then " %d"
      of sample i for each track in order. */
  function RowLine(audios: seq<seq<Int16>>, stamp: nat -> string, i: nat): string
    requires Fits(audios, i + 1)
  {
    if |audios| == 0 then stamp(i)
    else RowLine(audios[..|audios| - 1], stamp, i) + " " + FormatInt(audios[|audios| - 1][i])
  }

  /** The whole table for the first n indices, one newline-terminated line
      per index. */
  function TableText(audios: seq<seq<Int16>>, stamp: nat -> string, n: nat): string
    requires Fits(audios, n)
  {
    if n == 0 then ""
    else
      FitsLess(audios, n, n - 1);
      TableText(audios, stamp, n - 1) + RowLine(audios, stamp, n - 1) + "\n"
  }

  /** The fields a reader of a row should find after its timestamp: sample
      i of each track in decimal, in track order. */
  function RowFields(audios: seq<seq<Int16>>, i: nat): (fields: seq<string>)
    requires Fits(audios, i + 1)
    ensures |fields| == |audios|
  {
    if |audios| == 0 then []
    else RowFields(audios[..|audios| - 1], i) + [FormatInt(audios[|audios| - 1][i])]
  }

  lemma {:induction false} RowFieldAt(audios: seq<seq<Int16>>, i: nat, j: nat)
    requires Fits(audios, i + 1) && j < |audios|
    ensures i < |audios[j]| && RowFields(audios, i)[j] == FormatInt(audios[j][i])
  {
    FitsAt(audios, i + 1, j);
    if j < |audios| - 1 {
      RowFieldAt(audios[..|audios| - 1], i, j);
    }
  }

  lemma AppendAssoc(a: string, b: string, c: string, d: string)
    ensures a + (b + c + d) == a + b + c + d
  {
  }

  /** One row of plotAudios' table loop: the timestamp of i, then " %d" of
      audio[i] for every track in order (the inner loop), written after
      what the file already holds. */
  method WriteRow(written: string, audios: seq<seq<Int16>>, stamp: nat -> string, i: nat)
    returns (text: string)
    requires Fits(audios, i + 1)
    ensures text == written + RowLine(audios, stamp, i)
  {
    text := written + stamp(i);
    forall k | 0 <= k <= |audios| ensures Fits(audios[..k], i + 1) {
      FitsPrefix(audios, i + 1, k);
    }
    for j := 0 to |audios|
      invariant text == written + RowLine(audios[..j], stamp, i)
    {
      FitsAt(audios, i + 1, j);
      var cell := FormatInt(audios[j][i]);
      assert audios[..j + 1][..j] == audios[..j];
      AppendAssoc(written, RowLine(audios[..j], stamp, i), " ", cell);
      text := text + " " + cell;
    }
    assert audios[..|audios|] == audios;
  }

  /** The row loop of plotAudios: a row and a newline for every index below
      minSize.  Only indices below minSize are read, and Fits makes each of
      them in bounds for every track. */
  method WriteTable(audios: seq<seq<Int16>>, stamp: nat -> string, minSize: nat)
    returns (text: string)
    requires Fits(audios, minSize)
    ensures text == TableText(audios, stamp, minSize)
  {
    text := "";
    forall m: nat | m <= minSize ensures Fits(audios, m) {
      FitsLess(audios, minSize, m);
    }
    for i := 0 to minSize
      invariant text == TableText(audios, stamp, i)
    {
      text := WriteRow(text, audios, stamp, i);
      text := text + "\n";
    }
  }

  lemma ConsSnoc(a: string, s: seq<string>, b: string)
    ensures [a] + s + [b] == [a] + (s + [b])
  {
  }

  /** Splitting row i on blanks yields the timestamp and one field per
      track; the row holds no newline. */
  lemma {:induction false} RowSplits(audios: seq<seq<Int16>>, stamp: nat -> string, i: nat)
    requires Fits(audios, i + 1) && Plain(stamp(i))
    ensures Split(RowLine(audios, stamp, i), ' ') == [stamp(i)] + RowFields(audios, i)
    ensures '\n' !in RowLine(audios, stamp, i)
  {
    if |audios| == 0 {
      SplitAppendFree("", stamp(i), ' ');
      assert "" + stamp(i) == stamp(i);
    } else {
      var init := audios[..|audios| - 1];
      var cell := FormatInt(audios[|audios| - 1][i]);
      var front := [stamp(i)] + RowFields(init, i);
      RowSplits(init, stamp, i);
      var x := RowLine(init, stamp, i);
      FormatIntPlain(audios[|audios| - 1][i]);
      assert RowLine(audios, stamp, i) == (x + " ") + cell;
      SplitAppendSep(x, ' ');
      var f := Split(x + " ", ' ');
      assert f == front + [""];
      assert f[..|f| - 1] == front && f[|f| - 1] == "";
      SplitAppendFree(x + " ", cell, ' ');
      assert "" + cell == cell;
      assert Split(RowLine(audios, stamp, i), ' ') == front + [cell];
      ConsSnoc(stamp(i), RowFields(init, i), cell);
    }
  }

  /** With a non-empty timestamp no field of a row is empty, so a reader
      that merges runs of blanks (as gnuplot's `using` does) sees the same
      columns as the one-blank split. */
  lemma RowNoEmptyField(audios: seq<seq<Int16>>, stamp: nat -> string, i: nat)
    requires Fits(audios, i + 1) && Plain(stamp(i)) && |stamp(i)| > 0
    ensures var fields := Split(RowLine(audios, stamp, i), ' ');
      forall k :: 0 <= k < |fields| ==> |fields[k]| > 0
  {
    RowSplits(audios, stamp, i);
    var fields := Split(RowLine(audios, stamp, i), ' ');
    forall k | 0 <= k < |fields| ensures |fields[k]| > 0 {
      if k > 0 {
        RowFieldAt(audios, i, k - 1);
      }
    }
  }

  /** The table's lines without their newlines, in index order. */
  function Lines(audios: seq<seq<Int16>>, stamp: nat -> string, n: nat): (lines: seq<string>)
    requires Fits(audios, n)
    ensures |lines| == n
  {
    if n == 0 then []
    else
      FitsLess(audios, n, n - 1);
      Lines(audios, stamp, n - 1) + [RowLine(audios, stamp, n - 1)]
  }

  lemma {:induction false} LinesAt(audios: seq<seq<Int16>>, stamp: nat -> string, n: nat, i: nat)
    requires Fits(audios, n) && i < n
    ensures Fits(audios, i + 1) && Lines(audios, stamp, n)[i] == RowLine(audios, stamp, i)
  {
    FitsLess(audios, n, i + 1);
    FitsLess(audios, n, n - 1);
    var init := Lines(audios, stamp, n - 1);
    assert Lines(audios, stamp, n) == init + [RowLine(audios, stamp, n - 1)];
    if i < n - 1 {
      LinesAt(audios, stamp, n - 1, i);
      assert Lines(audios, stamp, n)[i] == init[i];
    }
  }

  /** The first n timestamps are Plain. */
  predicate PlainStamps(stamp: nat -> string, n: nat)
  {
    n == 0 || (PlainStamps(stamp, n - 1) && Plain(stamp(n - 1)))
  }

  lemma {:induction false} PlainStampsFrom(stamp: nat -> string, n: nat)
    requires forall k :: 0 <= k < n ==> Plain(stamp(k))
    ensures PlainStamps(stamp, n)
  {
    if n > 0 {
      PlainStampsFrom(stamp, n - 1);
    }
  }

  /** Splitting the table on newlines yields its n lines and the empty text
      after the final newline. */
  lemma {:induction false} TableSplits(audios: seq<seq<Int16>>, stamp: nat -> string, n: nat)
    requires Fits(audios, n) && PlainStamps(stamp, n)
    ensures Split(TableText(audios, stamp, n), '\n') == Lines(audios, stamp, n) + [""]
  {
    if n > 0 {
      FitsLess(audios, n, n - 1);
      TableSplits(audios, stamp, n - 1);
      var t := TableText(audios, stamp, n - 1);
      var line := RowLine(audios, stamp, n - 1);
      var before := Lines(audios, stamp, n - 1);
      RowSplits(audios, stamp, n - 1);
      SplitAppendField(t, line, before, '\n');
      assert TableText(audios, stamp, n) == t + line + "\n";
      assert Lines(audios, stamp, n) == before + [line];
    }
  }

  /** Reading the table back: it has exactly n lines; line i starts with
      the timestamp of i and its field j + 1 (gnuplot column j + 2) reads
      back as sample i of track j. */
  lemma TableReadsBack(audios: seq<seq<Int16>>, stamp: nat -> string, n: nat, i: nat, j: nat)
    requires Fits(audios, n)
    requires forall k :: 0 <= k < n ==> Plain(stamp(k))
    requires i < n && j < |audios|
    ensures var lines := Split(TableText(audios, stamp, n), '\n');
      |lines| == n + 1 && lines[n] == "" &&
      var fields := Split(lines[i], ' ');
      |fields| == |audios| + 1 && fields[0] == stamp(i) &&
      i < |audios[j]| && ParseInt(fields[j + 1]) == Some(audios[j][i])
  {
    PlainStampsFrom(stamp, n);
    TableSplits(audios, stamp, n);
    LinesAt(audios, stamp, n, i);
    RowSplits(audios, stamp, i);
    RowFieldAt(audios, i, j);
    ParseFormatInt(audios[j][i]);
  }
}
